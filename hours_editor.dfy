/**
  The three handlers that edit the operating-hours rows: changing one
  dropdown of one row, appending a row and removing a row. Each takes the
  form state and returns the next one; the error map is edited alongside
  the draft.
 */
module HoursEditor {
  import opened Wrappers
  import opened Draft
  import opened Validation
  import opened ValidationProperties

  /** The three dropdowns of a row, named as their `name` attributes. */
  datatype HoursField = DayOfWeek | OpeningTime | ClosingTime

  function InputName(f: HoursField): string
  {
    match f
    case DayOfWeek => "day_of_week"
    case OpeningTime => "opening_time"
    case ClosingTime => "closing_time"
  }

  /** `name[0]`: the letter of the error key `oh.<idx>.<letter>` the handler clears. */
  function Letter(f: HoursField): char
  {
    InputName(f)[0]
  }

  function Get(s: HoursSlot, f: HoursField): string
  {
    match f
    case DayOfWeek => s.dayOfWeek
    case OpeningTime => s.openingTime
    case ClosingTime => s.closingTime
  }

  /** `{ ...slot, [name]: value }` */
  function Set(s: HoursSlot, f: HoursField, value: string): (r: HoursSlot)
    ensures forall g :: Get(r, g) == if g == f then value else Get(s, g)
  {
    match f
    case DayOfWeek => s.(dayOfWeek := value)
    case OpeningTime => s.(openingTime := value)
    case ClosingTime => s.(closingTime := value)
  }

  /**
    `handleHoursChange(idx, e)`: row idx gets the new value in the dropdown
    named by the event, every other row and field is kept, and the error
    key of that dropdown is overwritten with "" (it stays in the map).
   */
  function HoursChange(st: FormState, idx: nat, f: HoursField, value: string): (r: FormState)
    requires idx < |st.draft.operatingHours|
    ensures var hs, hs' := st.draft.operatingHours, r.draft.operatingHours;
      && |hs'| == |hs|
      && (forall p :: 0 <= p < |hs| && p != idx ==> hs'[p] == hs[p])
      && (forall g :: Get(hs'[idx], g) == if g == f then value else Get(hs[idx], g))
    ensures r.draft.(operatingHours := st.draft.operatingHours) == st.draft
    ensures Lookup(r.errors, Slot(idx, Letter(f))) == Some("")
    ensures forall k :: k != Slot(idx, Letter(f)) ==> Lookup(r.errors, k) == Lookup(st.errors, k)
  {
    var hs := st.draft.operatingHours;
    FormState(
      st.draft.(operatingHours := hs[idx := Set(hs[idx], f, value)]),
      st.errors[Slot(idx, Letter(f)) := ""])
  }

  /** The three letters are the ones `validate` uses for a row's day, opening and closing keys. */
  lemma LettersAreValidateKeys()
    ensures Letter(DayOfWeek) == 'd' && Letter(OpeningTime) == 'o' && Letter(ClosingTime) == 'c'
  {
  }

  /**
    The key the change handler clears is the key under which `validate`
    reports that same dropdown as unset: with the dropdown empty, that key
    holds a message, and the handler clears exactly it once a value is chosen.
   */
  lemma ClearedKeyIsReportedKey(d: RestaurantDraft, arr: map<string, seq<Range>>, idx: nat, f: HoursField)
    requires IsArrangement(d.operatingHours, arr) && idx < |d.operatingHours|
    requires Get(d.operatingHours[idx], f) == ""
    ensures Expected(d, arr, Slot(idx, Letter(f))).Some?
  {
    SlotPresenceRule(d, arr, idx);
  }

  /** `addHoursRow()`: one empty row at the end, everything else as it was. */
  function AddHoursRow(st: FormState): (r: FormState)
    ensures var hs, hs' := st.draft.operatingHours, r.draft.operatingHours;
      |hs'| == |hs| + 1 && hs'[..|hs|] == hs && hs'[|hs|] == EmptySlot
    ensures r.draft.(operatingHours := st.draft.operatingHours) == st.draft
    ensures r.errors == st.errors
  {
    FormState(st.draft.(operatingHours := st.draft.operatingHours + [EmptySlot]), st.errors)
  }

  /** The new row is reported on all three of its keys until it is filled in. */
  lemma AddedRowReported(st: FormState, arr: map<string, seq<Range>>)
    requires IsArrangement(AddHoursRow(st).draft.operatingHours, arr)
    ensures var d, n := AddHoursRow(st).draft, |st.draft.operatingHours|;
      && Expected(d, arr, Slot(n, 'd')) == Some(DayRequired)
      && Expected(d, arr, Slot(n, 'o')) == Some(OpeningRequired)
      && Expected(d, arr, Slot(n, 'c')) == Some(ClosingRequired)
  {
    SlotPresenceRule(AddHoursRow(st).draft, arr, |st.draft.operatingHours|);
  }

  /** `oh.filter((_, i) => i !== idx)`: position idx is dropped, if there is one. */
  function RemoveAt(hs: seq<HoursSlot>, idx: nat): (r: seq<HoursSlot>)
    ensures |r| == if idx < |hs| then |hs| - 1 else |hs|
    ensures forall p :: 0 <= p < |r| ==> r[p] == hs[if p < idx then p else p + 1]
  {
    if idx < |hs| then hs[..idx] + hs[idx + 1..] else hs
  }

  /** Nothing but the row at idx is lost: the kept rows and the removed one make up the old list. */
  lemma RemoveAtPermutation(hs: seq<HoursSlot>, idx: nat)
    ensures multiset(RemoveAt(hs, idx)) + (if idx < |hs| then multiset{hs[idx]} else multiset{}) == multiset(hs)
  {
    if idx < |hs| {
      assert hs == hs[..idx] + [hs[idx]] + hs[idx + 1..];
    }
  }

  /** The kept rows stay in their old relative order. */
  lemma RemoveAtKeepsOrder(hs: seq<HoursSlot>, idx: nat, p: int, q: int)
    requires 0 <= p < q < |RemoveAt(hs, idx)|
    ensures var p', q' := (if p < idx then p else p + 1), (if q < idx then q else q + 1);
      p' < q' && RemoveAt(hs, idx)[p] == hs[p'] && RemoveAt(hs, idx)[q] == hs[q']
  {
  }

  /** The three keys `removeHoursRow(idx)` deletes. */
  function RowKeys(idx: nat): set<Key>
  {
    {Slot(idx, 'd'), Slot(idx, 'o'), Slot(idx, 'c')}
  }

  /**
    `removeHoursRow(idx)`: the row is filtered out and the keys `oh.<idx>.d`,
    `oh.<idx>.o` and `oh.<idx>.c` are deleted; every other key keeps its
    message, under its old index.
   */
  function RemoveHoursRow(st: FormState, idx: nat): (r: FormState)
    ensures r.draft.operatingHours == RemoveAt(st.draft.operatingHours, idx)
    ensures r.draft.(operatingHours := st.draft.operatingHours) == st.draft
    ensures forall k :: Lookup(r.errors, k) == if k in RowKeys(idx) then None else Lookup(st.errors, k)
  {
    FormState(st.draft.(operatingHours := RemoveAt(st.draft.operatingHours, idx)), st.errors - RowKeys(idx))
  }

  /** Removing the row just added gives back the draft, and the errors less that row's keys. */
  lemma AddThenRemove(st: FormState)
    ensures RemoveHoursRow(AddHoursRow(st), |st.draft.operatingHours|).draft == st.draft
    ensures RemoveHoursRow(AddHoursRow(st), |st.draft.operatingHours|).errors == st.errors - RowKeys(|st.draft.operatingHours|)
  {
    var hs := st.draft.operatingHours;
    assert RemoveAt(hs + [EmptySlot], |hs|) == hs;
  }

  /**
    Because the keys of later rows are not renumbered, a message stays at its
    old index and is shown beside a different row: with three rows and a
    message on row 1, removing row 0 leaves that message at index 1, which is
    now the former row 2, while the row it was about moves to index 0.
   */
  lemma RemoveMisplacesMessages()
    ensures var st := FormState(
        InitialState().draft.(operatingHours := [EmptySlot, EmptySlot, HoursSlot("monday", "09:00", "17:00")]),
        map[Slot(1, 'd') := DayRequired]);
      var r := RemoveHoursRow(st, 0);
      && r.draft.operatingHours[1] == HoursSlot("monday", "09:00", "17:00")
      && Lookup(r.errors, Slot(1, 'd')) == Some(DayRequired)
      && Lookup(r.errors, Slot(0, 'd')) == None
  {
    var st := FormState(
      InitialState().draft.(operatingHours := [EmptySlot, EmptySlot, HoursSlot("monday", "09:00", "17:00")]),
      map[Slot(1, 'd') := DayRequired]);
    assert Lookup(RemoveHoursRow(st, 0).errors, Slot(1, 'd')) == Lookup(st.errors, Slot(1, 'd'));
  }

  /** The key that an old key lands on once row idx is gone. */
  function Shift(k: Key, idx: nat): Key
  {
    if k.Slot? && k.index > idx then Slot(k.index - 1, k.letter) else k
  }

  /** The error map with row idx's keys dropped and the keys of later rows moved down by one. */
  function Renumber(errors: ErrorMap, idx: nat): (r: ErrorMap)
    ensures forall k :: k in r <==> exists k' :: k' in errors && !(k'.Slot? && k'.index == idx) && Shift(k', idx) == k
  {
    map k | k in errors && !(k.Slot? && k.index == idx) :: Shift(k, idx) := errors[k]
  }

  /** Each row's keys move to the row's new index; top-level keys stay. */
  lemma RenumberMoves(errors: ErrorMap, idx: nat)
    ensures forall f :: Lookup(Renumber(errors, idx), Field(f)) == Lookup(errors, Field(f))
    ensures forall p: nat, c :: Lookup(Renumber(errors, idx), Slot(p, c)) == Lookup(errors, Slot(if p < idx then p else p + 1, c))
  {
    var r := Renumber(errors, idx);
    forall p: nat, c ensures Lookup(r, Slot(p, c)) == Lookup(errors, Slot(if p < idx then p else p + 1, c)) {
      var before := Slot(if p < idx then p else p + 1, c);
      assert Shift(before, idx) == Slot(p, c);
      if Slot(p, c) in r {
        var k' :| k' in errors && !(k'.Slot? && k'.index == idx) && Shift(k', idx) == Slot(p, c);
        assert k' == before;
      }
    }
    forall f ensures Lookup(r, Field(f)) == Lookup(errors, Field(f)) {
      assert Shift(Field(f), idx) == Field(f);
      if Field(f) in r {
        var k' :| k' in errors && !(k'.Slot? && k'.index == idx) && Shift(k', idx) == Field(f);
        assert k' == Field(f);
      }
    }
  }

  /**
    `removeHoursRow` with the later rows' keys renumbered: every row keeps
    the messages it had, under its new index, and the top-level messages
    are untouched.
   */
  function RemoveHoursRowRenumbered(st: FormState, idx: nat): (r: FormState)
    ensures r.draft == RemoveHoursRow(st, idx).draft
    ensures forall f :: Lookup(r.errors, Field(f)) == Lookup(st.errors, Field(f))
    ensures forall p: nat, c :: Lookup(r.errors, Slot(p, c)) == Lookup(st.errors, Slot(if p < idx then p else p + 1, c))
  {
    RenumberMoves(st.errors, idx);
    FormState(RemoveHoursRow(st, idx).draft, Renumber(st.errors, idx))
  }
}
