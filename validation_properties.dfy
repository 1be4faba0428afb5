/**
  What the error map of `validate` says about the draft, for every order the
  sort may leave equal opening times in: which keys carry a message, when an
  overlap is reported, that the adjacent-pair scan misses no overlap, and that
  the map is empty exactly when the draft is valid in the plain sense given
  by `DraftValid`.
 */
module ValidationProperties {
  import opened Wrappers
  import opened JsString
  import opened Patterns
  import opened Draft
  import opened Validation

  // ---------------------------------------------------------------------
  // A reference definition of a valid draft

  /** The six plain fields hold something besides whitespace; the other three match their patterns. */
  predicate FieldsValid(d: RestaurantDraft)
  {
    && (forall f :: !HasFormat(f) ==> !AllWhite(FieldValue(d, f)))
    && IsCostRating(d.costRating) && MatchesEmail(d.email) && IsPhoneNumber(d.phoneNumber)
  }

  /** All three dropdowns set and the opening time before the closing time. */
  predicate SlotValid(s: HoursSlot)
  {
    Complete(s) && Less(s.openingTime, s.closingTime)
  }

  /** Two slots on the same day whose time ranges intersect. */
  predicate Overlap(a: HoursSlot, b: HoursSlot)
  {
    a.dayOfWeek == b.dayOfWeek && Less(a.openingTime, b.closingTime) && Less(b.openingTime, a.closingTime)
  }

  predicate DraftValid(d: RestaurantDraft)
  {
    var hs := d.operatingHours;
    && FieldsValid(d)
    && (forall i :: 0 <= i < |hs| ==> SlotValid(hs[i]))
    && (forall i, k :: 0 <= i < |hs| && 0 <= k < |hs| && i != k ==> !Overlap(hs[i], hs[k]))
  }

  // ---------------------------------------------------------------------
  // Phase 1: the top-level fields

  lemma EmailNotBlank(s: string)
    requires MatchesEmail(s)
    ensures !AllWhite(s)
  {
    var i, p, q, e :| EmailMatchAt(s, i, p, q, e);
    assert EmailMatchAt(s, i, p, q, e);
    assert !IsWhite(s[i]);
  }

  /** Each of the six plain fields has a message exactly when it is blank after trimming. */
  lemma RequiredFieldRule(d: RestaurantDraft, arr: map<string, seq<Range>>, f: FieldName)
    requires !HasFormat(f)
    ensures Expected(d, arr, Field(f)).Some? <==> AllWhite(FieldValue(d, f))
  {
    BlankIffAllWhite(FieldValue(d, f));
  }

  /** The cost rating: blank is "required", a single digit 1 to 5 passes, anything else is out of range. */
  lemma CostRatingRule(d: RestaurantDraft, arr: map<string, seq<Range>>)
    ensures Expected(d, arr, Field(CostRating)) == None <==> IsCostRating(d.costRating)
    ensures Expected(d, arr, Field(CostRating)) == Some(CostRequired) <==> AllWhite(d.costRating)
    ensures Expected(d, arr, Field(CostRating)) == Some(CostOutOfRange) <==> !AllWhite(d.costRating) && !IsCostRating(d.costRating)
  {
    BlankIffAllWhite(d.costRating);
    if IsCostRating(d.costRating) {
      assert !IsWhite(d.costRating[0]);
    }
  }

  /** The phone number passes exactly when it is NNN-NNN-NNNN; blank is "required". */
  lemma PhoneNumberRule(d: RestaurantDraft, arr: map<string, seq<Range>>)
    ensures Expected(d, arr, Field(PhoneNumber)) == None <==> IsPhoneNumber(d.phoneNumber)
    ensures Expected(d, arr, Field(PhoneNumber)) == Some(PhoneRequired) <==> AllWhite(d.phoneNumber)
  {
    BlankIffAllWhite(d.phoneNumber);
    if IsPhoneNumber(d.phoneNumber) {
      assert !IsWhite(d.phoneNumber[0]);
    }
  }

  /** The email passes exactly when the pattern matches; one without '@' never does. */
  lemma EmailRule(d: RestaurantDraft, arr: map<string, seq<Range>>)
    ensures Expected(d, arr, Field(Email)) == None <==> MatchesEmail(d.email)
    ensures Expected(d, arr, Field(Email)) == Some(EmailRequired) <==> AllWhite(d.email)
    ensures (forall k :: 0 <= k < |d.email| ==> d.email[k] != '@') ==> Expected(d, arr, Field(Email)).Some?
  {
    BlankIffAllWhite(d.email);
    if MatchesEmail(d.email) {
      EmailNotBlank(d.email);
    }
    if forall k :: 0 <= k < |d.email| ==> d.email[k] != '@' {
      EmailNeedsAt(d.email);
    }
  }

  lemma FieldsDecide(d: RestaurantDraft, arr: map<string, seq<Range>>)
    ensures (forall f :: Expected(d, arr, Field(f)) == None) <==> FieldsValid(d)
  {
    CostRatingRule(d, arr);
    PhoneNumberRule(d, arr);
    EmailRule(d, arr);
    forall f | !HasFormat(f)
      ensures Expected(d, arr, Field(f)) == None <==> !AllWhite(FieldValue(d, f))
    {
      RequiredFieldRule(d, arr, f);
    }
    if FieldsValid(d) {
      forall f ensures Expected(d, arr, Field(f)) == None {
        if !HasFormat(f) {
          RequiredFieldRule(d, arr, f);
        }
      }
    }
  }

  // ---------------------------------------------------------------------
  // The arrangement: every slot appears at most once

  lemma {:induction false} GroupIncreasing(hs: seq<HoursSlot>, day: string, n: nat)
    requires n <= |hs|
    ensures forall p :: 0 <= p < |GroupUpTo(hs, day, n)| ==> GroupUpTo(hs, day, n)[p].idx < n
    ensures forall p, q :: 0 <= p < q < |GroupUpTo(hs, day, n)| ==> GroupUpTo(hs, day, n)[p].idx < GroupUpTo(hs, day, n)[q].idx
  {
    if n > 0 {
      GroupIncreasing(hs, day, n - 1);
    }
  }

  lemma {:induction false} DistinctCount(s: seq<Range>, x: Range)
    requires forall p, q :: 0 <= p < q < |s| ==> s[p].idx < s[q].idx
    ensures multiset(s)[x] <= 1
  {
    if |s| > 0 {
      var init := s[..|s| - 1];
      assert s == init + [s[|s| - 1]];
      DistinctCount(init, x);
      if x == s[|s| - 1] {
        assert x !in init by {
          forall p | 0 <= p < |init| ensures init[p] != x {
            assert init[p] == s[p];
          }
        }
      }
    }
  }

  lemma TwiceCount(s: seq<Range>, p: int, q: int)
    requires 0 <= p < q < |s| && s[p] == s[q]
    ensures multiset(s)[s[p]] >= 2
  {
    assert s == s[..q] + s[q..];
    assert s[p] == s[..q][p];
    assert s[q] == s[q..][0];
  }

  /** Two positions of one day's sorted list hold different slots. */
  lemma ArrangedDistinct(hs: seq<HoursSlot>, arr: map<string, seq<Range>>, day: string, p: int, q: int)
    requires IsArrangement(hs, arr) && day in arr && 0 <= p < q < |arr[day]|
    ensures arr[day][p].idx != arr[day][q].idx
  {
    var rs := arr[day];
    ArrangedMember(hs, arr, day, p);
    ArrangedMember(hs, arr, day, q);
    if rs[p].idx == rs[q].idx {
      assert ArrangedDay(hs, arr, day);
      TwiceCount(rs, p, q);
      GroupIncreasing(hs, day, |hs|);
      DistinctCount(Group(hs, day), rs[p]);
      assert false;
    }
  }

  /** A complete slot has a position in its day's sorted list. */
  lemma PositionOf(hs: seq<HoursSlot>, arr: map<string, seq<Range>>, i: int) returns (a: int)
    requires IsArrangement(hs, arr) && 0 <= i < |hs| && Complete(hs[i])
    ensures hs[i].dayOfWeek in arr && 0 <= a < |arr[hs[i].dayOfWeek]| && arr[hs[i].dayOfWeek][a] == RangeOf(hs, i)
  {
    var day := hs[i].dayOfWeek;
    GroupMember(hs, day, |hs|, RangeOf(hs, i));
    assert RangeOf(hs, i) in multiset(Group(hs, day));
    assert ArrangedDay(hs, arr, day);
    assert RangeOf(hs, i) in multiset(arr[day]);
    a :| 0 <= a < |arr[day]| && arr[day][a] == RangeOf(hs, i);
  }

  // ---------------------------------------------------------------------
  // Phases 2 and 3: the per-slot keys

  /** The overlap messages differ from every presence and ordering message. */
  lemma MessagesDiffer(day: string)
    ensures OverlapsAnother(day) != ClosingRequired
    ensures OverlapsPrevious(day) != OpeningRequired && OverlapsPrevious(day) != MustBeBeforeClosing
  {
    assert OverlapsAnother(day)[0] == 'O' && ClosingRequired[0] == 'C';
    assert OverlapsPrevious(day)[1] == 'v' && OpeningRequired[1] == 'p';
    assert MustBeBeforeClosing[0] == 'M';
  }

  /** Only the keys `oh.<i>.d`, `oh.<i>.o`, `oh.<i>.c` of existing slots can carry a message. */
  lemma SlotKeysOnly(d: RestaurantDraft, arr: map<string, seq<Range>>, i: nat, letter: char)
    requires Expected(d, arr, Slot(i, letter)).Some?
    ensures i < |d.operatingHours| && letter in {'d', 'o', 'c'}
  {
  }

  /** A closing-side flag on i comes from a flagged adjacent pair whose earlier range is slot i. */
  lemma ClosingFlagPair(arr: map<string, seq<Range>>, day: string, i: nat) returns (p: int)
    requires ClosingFlag(arr, FullScan(arr), day, i)
    ensures 0 <= p && p + 1 < |arr[day]| && arr[day][p].idx == i && Less(arr[day][p + 1].open, arr[day][p].close)
  {
    var rs := arr[day];
    p :| 0 <= p < |rs| - 1 && p + 1 < |rs| && Less(rs[p + 1].open, rs[p].close) && rs[p].idx == i;
  }

  /** An opening-side flag on k comes from a flagged adjacent pair whose later range is slot k. */
  lemma OpeningFlagPair(arr: map<string, seq<Range>>, day: string, k: nat) returns (p: int)
    requires OpeningFlag(arr, FullScan(arr), day, k)
    ensures 0 <= p && p + 1 < |arr[day]| && arr[day][p + 1].idx == k && Less(arr[day][p + 1].open, arr[day][p].close)
  {
    var rs := arr[day];
    p :| 0 <= p < |rs| - 1 && p + 1 < |rs| && Less(rs[p + 1].open, rs[p].close) && rs[p + 1].idx == k;
  }

  /** A flagged adjacent pair sets the flags of both of its ranges. */
  lemma PairFlags(arr: map<string, seq<Range>>, day: string, p: int)
    requires day in arr && 0 <= p && p + 1 < |arr[day]| && Less(arr[day][p + 1].open, arr[day][p].close)
    ensures ClosingFlag(arr, FullScan(arr), day, arr[day][p].idx)
    ensures OpeningFlag(arr, FullScan(arr), day, arr[day][p + 1].idx)
  {
    var rs := arr[day];
    assert rs[p].idx in ClosingHits(rs, |rs| - 1);
    assert rs[p + 1].idx in OpeningHits(rs, |rs| - 1);
  }

  /** A flag in a slot's own day list means the slot is complete. */
  lemma FlaggedIsComplete(d: RestaurantDraft, arr: map<string, seq<Range>>, i: nat)
    requires IsArrangement(d.operatingHours, arr) && i < |d.operatingHours|
    requires var day := d.operatingHours[i].dayOfWeek;
      ClosingFlag(arr, FullScan(arr), day, i) || OpeningFlag(arr, FullScan(arr), day, i)
    ensures Complete(d.operatingHours[i])
  {
    var hs := d.operatingHours;
    var day := hs[i].dayOfWeek;
    if ClosingFlag(arr, FullScan(arr), day, i) {
      var p := ClosingFlagPair(arr, day, i);
      ArrangedMember(hs, arr, day, p);
    } else {
      var p := OpeningFlagPair(arr, day, i);
      ArrangedMember(hs, arr, day, p + 1);
    }
  }

  /**
    The presence and ordering rules of each slot: a missing day, opening or
    closing time sets that slot's d, o or c key, and a complete slot whose
    opening is not before its closing has its o key set (to the ordering
    message, or to an overlap message that replaced it).
   */
  lemma SlotPresenceRule(d: RestaurantDraft, arr: map<string, seq<Range>>, i: nat)
    requires IsArrangement(d.operatingHours, arr) && i < |d.operatingHours|
    ensures var s := d.operatingHours[i];
      && (Expected(d, arr, Slot(i, 'd')).Some? <==> s.dayOfWeek == "")
      && (s.dayOfWeek == "" ==> Expected(d, arr, Slot(i, 'd')) == Some(DayRequired))
      && (s.openingTime == "" ==> Expected(d, arr, Slot(i, 'o')) == Some(OpeningRequired))
      && (s.closingTime == "" ==> Expected(d, arr, Slot(i, 'c')) == Some(ClosingRequired))
      && (s.openingTime != "" && s.closingTime != "" && !Less(s.openingTime, s.closingTime) ==>
            Expected(d, arr, Slot(i, 'o')) in {Some(MustBeBeforeClosing), Some(OverlapsPrevious(s.dayOfWeek))})
  {
    var s := d.operatingHours[i];
    var day := s.dayOfWeek;
    if !Complete(s) && (ClosingFlag(arr, FullScan(arr), day, i) || OpeningFlag(arr, FullScan(arr), day, i)) {
      FlaggedIsComplete(d, arr, i);
    }
  }

  // ---------------------------------------------------------------------
  // Phase 4: overlaps

  /**
    Soundness of a closing-side flag: slot i is complete, and another
    complete slot k on the same day opens inside [open_i, close_i); k's o key
    carries the matching message. Strictness of the test means a slot opening
    exactly at close_i (back to back) is never such a k.
   */
  lemma ClosingFlagSound(d: RestaurantDraft, arr: map<string, seq<Range>>, i: nat)
    requires IsArrangement(d.operatingHours, arr) && i < |d.operatingHours|
    requires Expected(d, arr, Slot(i, 'c')) == Some(OverlapsAnother(d.operatingHours[i].dayOfWeek))
    ensures Complete(d.operatingHours[i])
    ensures var hs := d.operatingHours;
      exists k :: 0 <= k < |hs| && k != i && Complete(hs[k]) && hs[k].dayOfWeek == hs[i].dayOfWeek
        && !Less(hs[k].openingTime, hs[i].openingTime) && Less(hs[k].openingTime, hs[i].closingTime)
        && Expected(d, arr, Slot(k, 'o')) == Some(OverlapsPrevious(hs[i].dayOfWeek))
  {
    var hs := d.operatingHours;
    var day := hs[i].dayOfWeek;
    MessagesDiffer(day);
    assert ClosingFlag(arr, FullScan(arr), day, i);
    var p := ClosingFlagPair(arr, day, i);
    var rs := arr[day];
    assert ArrangedDay(hs, arr, day);
    assert !Less(rs[p + 1].open, rs[p].open);
    ArrangedMember(hs, arr, day, p);
    ArrangedMember(hs, arr, day, p + 1);
    ArrangedDistinct(hs, arr, day, p, p + 1);
    PairFlags(arr, day, p);
    var k := rs[p + 1].idx;
    assert Expected(d, arr, Slot(k, 'o')) == Some(OverlapsPrevious(day));
  }

  /** Soundness of an opening-side flag: the mirror image of `ClosingFlagSound`. */
  lemma OpeningFlagSound(d: RestaurantDraft, arr: map<string, seq<Range>>, k: nat)
    requires IsArrangement(d.operatingHours, arr) && k < |d.operatingHours|
    requires Expected(d, arr, Slot(k, 'o')) == Some(OverlapsPrevious(d.operatingHours[k].dayOfWeek))
    ensures Complete(d.operatingHours[k])
    ensures var hs := d.operatingHours;
      exists i :: 0 <= i < |hs| && i != k && Complete(hs[i]) && hs[i].dayOfWeek == hs[k].dayOfWeek
        && !Less(hs[k].openingTime, hs[i].openingTime) && Less(hs[k].openingTime, hs[i].closingTime)
        && Expected(d, arr, Slot(i, 'c')) == Some(OverlapsAnother(hs[k].dayOfWeek))
  {
    var hs := d.operatingHours;
    var day := hs[k].dayOfWeek;
    MessagesDiffer(day);
    assert OpeningFlag(arr, FullScan(arr), day, k);
    var p := OpeningFlagPair(arr, day, k);
    var rs := arr[day];
    assert ArrangedDay(hs, arr, day);
    assert !Less(rs[p + 1].open, rs[p].open);
    ArrangedMember(hs, arr, day, p);
    ArrangedMember(hs, arr, day, p + 1);
    ArrangedDistinct(hs, arr, day, p, p + 1);
    PairFlags(arr, day, p);
    var i := rs[p].idx;
    assert Expected(d, arr, Slot(i, 'c')) == Some(OverlapsAnother(day));
  }

  /**
    In a list sorted by opening time, if the range at b opens before the
    range at an earlier position a closes, the adjacent pair (a, a + 1) is
    flagged: the range at a + 1 opens no later than the one at b.
   */
  lemma AdjacentFlagged(rs: seq<Range>, a: int, b: int)
    requires SortedByOpen(rs) && 0 <= a < b < |rs| && Less(rs[b].open, rs[a].close)
    ensures Less(rs[a + 1].open, rs[a].close)
  {
    if a + 1 < b {
      NotLessThenLess(rs[a + 1].open, rs[b].open, rs[a].close);
    }
  }

  /**
    Two positions a < b of one day's sorted list whose ranges overlap: the
    range at a gets the c overlap message and the one after it the o message.
   */
  lemma OrderedPairFlagged(d: RestaurantDraft, arr: map<string, seq<Range>>, day: string, a: int, b: int)
    requires IsArrangement(d.operatingHours, arr) && day in arr && 0 <= a < b < |arr[day]|
    requires Less(arr[day][b].open, arr[day][a].close)
    ensures arr[day][a + 1].idx < |d.operatingHours|
    ensures Expected(d, arr, Slot(arr[day][a].idx, 'c')) == Some(OverlapsAnother(day))
    ensures Expected(d, arr, Slot(arr[day][a + 1].idx, 'o')) == Some(OverlapsPrevious(day))
  {
    var hs := d.operatingHours;
    var rs := arr[day];
    assert ArrangedDay(hs, arr, day);
    AdjacentFlagged(rs, a, b);
    PairFlags(arr, day, a);
    ArrangedMember(hs, arr, day, a);
    ArrangedMember(hs, arr, day, a + 1);
  }

  /**
    Completeness of the adjacent-pair scan: whenever two complete slots of
    the same day overlap, the c key of one of them is flagged and so is the
    o key of some slot of that day, whatever order the sort left equal
    opening times in.
   */
  lemma OverlapDetected(d: RestaurantDraft, arr: map<string, seq<Range>>, i: nat, k: nat)
    requires IsArrangement(d.operatingHours, arr)
    requires i < |d.operatingHours| && k < |d.operatingHours| && i != k
    requires Complete(d.operatingHours[i]) && Complete(d.operatingHours[k])
    requires Overlap(d.operatingHours[i], d.operatingHours[k])
    ensures var day := d.operatingHours[i].dayOfWeek;
      Expected(d, arr, Slot(i, 'c')) == Some(OverlapsAnother(day)) || Expected(d, arr, Slot(k, 'c')) == Some(OverlapsAnother(day))
    ensures var day := d.operatingHours[i].dayOfWeek;
      exists m :: 0 <= m < |d.operatingHours| && Expected(d, arr, Slot(m, 'o')) == Some(OverlapsPrevious(day))
  {
    var hs := d.operatingHours;
    var day := hs[i].dayOfWeek;
    var a := PositionOf(hs, arr, i);
    var b := PositionOf(hs, arr, k);
    var rs := arr[day];
    var first := if a < b then a else b;
    if a < b {
      OrderedPairFlagged(d, arr, day, a, b);
    } else {
      OrderedPairFlagged(d, arr, day, b, a);
    }
    var m := rs[first + 1].idx;
    assert Expected(d, arr, Slot(m, 'o')) == Some(OverlapsPrevious(day));
  }

  // ---------------------------------------------------------------------
  // The verdict

  /**
    A flagged adjacent pair whose later slot is itself valid is a genuine
    overlap of two different slots.
   */
  lemma FlaggedPairOverlaps(d: RestaurantDraft, arr: map<string, seq<Range>>, day: string, p: int)
    requires IsArrangement(d.operatingHours, arr) && day in arr && 0 <= p && p + 1 < |arr[day]|
    requires Less(arr[day][p + 1].open, arr[day][p].close)
    requires arr[day][p + 1].idx < |d.operatingHours| && SlotValid(d.operatingHours[arr[day][p + 1].idx])
    ensures var rs := arr[day];
      && rs[p].idx < |d.operatingHours| && rs[p].idx != rs[p + 1].idx
      && Overlap(d.operatingHours[rs[p].idx], d.operatingHours[rs[p + 1].idx])
  {
    var hs := d.operatingHours;
    var rs := arr[day];
    ArrangedMember(hs, arr, day, p);
    ArrangedMember(hs, arr, day, p + 1);
    ArrangedDistinct(hs, arr, day, p, p + 1);
    assert ArrangedDay(hs, arr, day);
    assert !Less(rs[p + 1].open, rs[p].open);
    NotLessThenLess(rs[p].open, rs[p + 1].open, rs[p + 1].close);
  }

  /** In a valid draft no slot carries an overlap flag. */
  lemma NoFlagWhenValid(d: RestaurantDraft, arr: map<string, seq<Range>>, i: nat)
    requires IsArrangement(d.operatingHours, arr) && DraftValid(d) && i < |d.operatingHours|
    ensures var day := d.operatingHours[i].dayOfWeek;
      !ClosingFlag(arr, FullScan(arr), day, i) && !OpeningFlag(arr, FullScan(arr), day, i)
  {
    var hs := d.operatingHours;
    var day := hs[i].dayOfWeek;
    if ClosingFlag(arr, FullScan(arr), day, i) {
      var p := ClosingFlagPair(arr, day, i);
      ArrangedMember(hs, arr, day, p + 1);
      FlaggedPairOverlaps(d, arr, day, p);
    }
    if OpeningFlag(arr, FullScan(arr), day, i) {
      var p := OpeningFlagPair(arr, day, i);
      FlaggedPairOverlaps(d, arr, day, p);
    }
  }

  /** A valid slot has no message under any of its keys. */
  lemma ValidSlotQuiet(d: RestaurantDraft, arr: map<string, seq<Range>>, i: nat, letter: char)
    requires IsArrangement(d.operatingHours, arr) && DraftValid(d)
    ensures Expected(d, arr, Slot(i, letter)) == None
  {
    if i < |d.operatingHours| {
      NoFlagWhenValid(d, arr, i);
      LessAsymmetric(d.operatingHours[i].openingTime, d.operatingHours[i].closingTime);
    }
  }

  /**
    `validate` returns true exactly for a valid draft: every plain field has
    more than whitespace, the three formatted fields match their patterns,
    every slot is complete and opens before it closes, and no two slots of
    a day overlap.
   */
  lemma ValidateDecides(d: RestaurantDraft, arr: map<string, seq<Range>>)
    requires IsArrangement(d.operatingHours, arr)
    ensures (forall k :: Expected(d, arr, k) == None) <==> DraftValid(d)
  {
    var hs := d.operatingHours;
    FieldsDecide(d, arr);
    if DraftValid(d) {
      forall k ensures Expected(d, arr, k) == None {
        if k.Slot? {
          ValidSlotQuiet(d, arr, k.index, k.letter);
        }
      }
    }
    if forall k :: Expected(d, arr, k) == None {
      assert forall f :: Expected(d, arr, Field(f)) == None by {
        forall f ensures Expected(d, arr, Field(f)) == None {
          assert Expected(d, arr, Field(f)) == None;
        }
      }
      forall i | 0 <= i < |hs|
        ensures SlotValid(hs[i])
      {
        SlotPresenceRule(d, arr, i);
        assert Expected(d, arr, Slot(i, 'd')) == None;
        assert Expected(d, arr, Slot(i, 'o')) == None;
        assert Expected(d, arr, Slot(i, 'c')) == None;
      }
      forall i, k | 0 <= i < |hs| && 0 <= k < |hs| && i != k
        ensures !Overlap(hs[i], hs[k])
      {
        if Overlap(hs[i], hs[k]) {
          assert SlotValid(hs[i]) && SlotValid(hs[k]);
          OverlapDetected(d, arr, i, k);
        }
      }
    }
  }
}
