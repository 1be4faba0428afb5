/**
  The gate in front of the form's network request: `handleSubmit` runs
  `validate`, which also replaces the shown error map, and builds and posts
  the payload only when `validate` returned true.
 */
module Submission {
  import opened Wrappers
  import opened Draft
  import opened Validation
  import opened ValidationProperties

  /**
    `{ ...formData, created_at, restaurant_id }`; the two clock readings are
    passed in by the caller.
   */
  datatype Payload = Payload(draft: RestaurantDraft, createdAt: string, restaurantId: int)

  lemma EmptyIffNoKey(m: ErrorMap)
    ensures m == map[] <==> forall k :: Lookup(m, k) == None
  {
    if m != map[] {
      var k :| k in m;
      assert Lookup(m, k) != None;
    }
  }

  /**
    `handleSubmit`: the error map becomes the one `validate` built, and a
    request carrying the draft is produced exactly when the draft is valid.
   */
  method HandleSubmit(st: FormState, createdAt: string, restaurantId: int)
    returns (next: FormState, request: Option<Payload>, ghost arranged: map<string, seq<Range>>)
    ensures next.draft == st.draft
    ensures IsArrangement(st.draft.operatingHours, arranged)
    ensures forall k :: Lookup(next.errors, k) == Expected(st.draft, arranged, k)
    ensures request.Some? <==> DraftValid(st.draft)
    ensures request.Some? ==> request.value == Payload(st.draft, createdAt, restaurantId)
  {
    var ok, errors;
    ok, errors, arranged := Validate(st.draft);
    next := st.(errors := errors);
    EmptyIffNoKey(errors);
    ValidateDecides(st.draft, arranged);
    if !ok {
      request := None;
      return;
    }
    request := Some(Payload(st.draft, createdAt, restaurantId));
  }
}
