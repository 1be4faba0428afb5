/**
  Concrete drafts and what `validate` says about them, for every order its
  sort may produce.
 */
module ValidationExamples {
  import opened Wrappers
  import opened JsString
  import opened Patterns
  import opened Draft
  import opened Validation
  import opened ValidationProperties

  /** A draft whose top-level fields are all acceptable, with the given hours. */
  function Sample(hours: seq<HoursSlot>): RestaurantDraft
  {
    RestaurantDraft("Trattoria", "Pasta and pizza", "italian", "1 Main St", "", "Springfield", "IL", "62701",
      "3", "a@b.co", "555-123-4567", hours)
  }

  lemma SampleFieldsValid(hours: seq<HoursSlot>)
    ensures FieldsValid(Sample(hours))
  {
    EmailExamples();
    PhoneExamples();
    var d := Sample(hours);
    forall f | !HasFormat(f)
      ensures !AllWhite(FieldValue(d, f))
    {
      assert !IsWhite(FieldValue(d, f)[0]);
    }
  }

  /** Back-to-back slots (12:00 closing, 12:00 opening) are not an overlap: the draft is accepted. */
  lemma BackToBackAccepted(arr: map<string, seq<Range>>)
    requires IsArrangement(Sample([HoursSlot("monday", "09:00", "12:00"), HoursSlot("monday", "12:00", "17:00")]).operatingHours, arr)
    ensures forall k :: Expected(Sample([HoursSlot("monday", "09:00", "12:00"), HoursSlot("monday", "12:00", "17:00")]), arr, k) == None
  {
    var d := Sample([HoursSlot("monday", "09:00", "12:00"), HoursSlot("monday", "12:00", "17:00")]);
    SampleFieldsValid(d.operatingHours);
    LessIrreflexive("12:00");
    ValidateDecides(d, arr);
  }

  /** Times that would overlap on one day do not interact across days: the draft is accepted. */
  lemma OtherDayAccepted(arr: map<string, seq<Range>>)
    requires IsArrangement(Sample([HoursSlot("monday", "09:00", "17:00"), HoursSlot("tuesday", "10:00", "12:00")]).operatingHours, arr)
    ensures forall k :: Expected(Sample([HoursSlot("monday", "09:00", "17:00"), HoursSlot("tuesday", "10:00", "12:00")]), arr, k) == None
  {
    var d := Sample([HoursSlot("monday", "09:00", "17:00"), HoursSlot("tuesday", "10:00", "12:00")]);
    SampleFieldsValid(d.operatingHours);
    ValidateDecides(d, arr);
  }

  /**
    09:00-17:00 and 16:00-20:00 on one day: the earlier slot's c key and the
    later slot's o key get the overlap messages.
   */
  lemma OverlapFlagged(arr: map<string, seq<Range>>)
    requires IsArrangement(Sample([HoursSlot("monday", "09:00", "17:00"), HoursSlot("monday", "16:00", "20:00")]).operatingHours, arr)
    ensures var d := Sample([HoursSlot("monday", "09:00", "17:00"), HoursSlot("monday", "16:00", "20:00")]);
      && Expected(d, arr, Slot(0, 'c')) == Some(OverlapsAnother("monday"))
      && Expected(d, arr, Slot(1, 'o')) == Some(OverlapsPrevious("monday"))
  {
    var d := Sample([HoursSlot("monday", "09:00", "17:00"), HoursSlot("monday", "16:00", "20:00")]);
    var hs := d.operatingHours;
    assert Less("09:00", "16:00") && Less("16:00", "17:00") && Less("09:00", "20:00");
    LessAsymmetric("09:00", "16:00");
    OverlapDetected(d, arr, 0, 1);
    if Expected(d, arr, Slot(1, 'c')) == Some(OverlapsAnother("monday")) {
      ClosingFlagSound(d, arr, 1);
    }
    var m :| 0 <= m < |hs| && Expected(d, arr, Slot(m, 'o')) == Some(OverlapsPrevious("monday"));
    if m == 0 {
      OpeningFlagSound(d, arr, 0);
    }
  }

  /** The form as it first appears is rejected: the name, among others, is missing. */
  lemma InitialDraftRejected(arr: map<string, seq<Range>>)
    ensures Expected(InitialState().draft, arr, Field(Name)) == Some(NameRequired)
    ensures Expected(InitialState().draft, arr, Slot(0, 'd')) == Some(DayRequired)
  {
  }
}
