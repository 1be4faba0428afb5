/**
  The form's state: the restaurant draft being edited (`formData`) and the
  map of inline error messages (`errors`).
 */
module Draft {

  /** One operating-hours row; "" means the dropdown is still on its placeholder. */
  datatype HoursSlot = HoursSlot(dayOfWeek: string, openingTime: string, closingTime: string)

  const EmptySlot := HoursSlot("", "", "")

  datatype RestaurantDraft = RestaurantDraft(
    name: string,
    description: string,
    cuisineType: string,
    addressLine1: string,
    addressLine2: string,
    city: string,
    state: string,
    zipCode: string,
    costRating: string,
    email: string,
    phoneNumber: string,
    operatingHours: seq<HoursSlot>)

  /** The top-level fields `validate` checks. */
  datatype FieldName = Name | Description | AddressLine1 | City | State | ZipCode | CostRating | Email | PhoneNumber

  /** The property name, which is also the error key, of each checked field. */
  function KeyName(f: FieldName): string
  {
    match f
    case Name => "name"
    case Description => "description"
    case AddressLine1 => "address_line1"
    case City => "city"
    case State => "state"
    case ZipCode => "zip_code"
    case CostRating => "cost_rating"
    case Email => "email"
    case PhoneNumber => "phone_number"
  }

  /**
    A key of the error map: a top-level field such as `email`, or the slot key
    `oh.<index>.<letter>`, where `validate` uses the letters 'd', 'o' and 'c'.
   */
  datatype Key = Field(field: FieldName) | Slot(index: nat, letter: char)

  type ErrorMap = map<Key, string>

  datatype FormState = FormState(draft: RestaurantDraft, errors: ErrorMap)

  /** The state the component starts in. */
  function InitialState(): FormState
  {
    FormState(
      RestaurantDraft("", "", "italian", "", "", "", "", "", "", "", "", [EmptySlot]),
      map[])
  }
}
