/**
  `validate`: the client-side check run before a draft is submitted. It
  builds the map from field name or slot key to message in four phases
  (required fields, formats, per-slot presence and ordering, per-day
  overlaps) and reports success exactly when the map has no keys.

  The overlap phase sorts each day's ranges by opening time with a
  comparator that never answers "equal", so the relative order of two
  ranges that open at the same time is up to the JavaScript engine. The
  function `Expected` below therefore describes the error map for an ARBITRARY
  order in which every day's ranges are sorted by opening time (an
  "arrangement"), and `Validate` returns the arrangement its own sort chose.
 */
module Validation {
  import opened Wrappers
  import opened JsString
  import opened Patterns
  import opened Draft

  const NameRequired := "Restaurant name is required."
  const DescriptionRequired := "Description is required."
  const AddressRequired := "Address Line 1 is required."
  const CityRequired := "City is required."
  const StateRequired := "State is required."
  const ZipRequired := "Zip code is required."
  const CostRequired := "Cost rating is required."
  const CostOutOfRange := "Cost rating must be between 1 and 5."
  const EmailRequired := "Email is required."
  const EmailInvalid := "Invalid email format."
  const PhoneRequired := "Phone number is required."
  const PhoneInvalid := "Phone number must be in the format 555-123-4567."
  const DayRequired := "Day is required."
  const OpeningRequired := "Opening time is required."
  const ClosingRequired := "Closing time is required."
  const MustBeBeforeClosing := "Must be before closing time."

  function OverlapsAnother(day: string): string
  {
    "Overlaps another slot on " + day + "."
  }

  function OverlapsPrevious(day: string): string
  {
    "Overlaps previous slot on " + day + "."
  }

  function Lookup(m: ErrorMap, k: Key): Option<string>
  {
    if k in m then Some(m[k]) else None
  }

  /** The value of field f in the draft. */
  function FieldValue(d: RestaurantDraft, f: FieldName): string
  {
    match f
    case Name => d.name
    case Description => d.description
    case AddressLine1 => d.addressLine1
    case City => d.city
    case State => d.state
    case ZipCode => d.zipCode
    case CostRating => d.costRating
    case Email => d.email
    case PhoneNumber => d.phoneNumber
  }

  function RequiredMessage(value: string, message: string): Option<string>
  {
    if Blank(value) then Some(message) else None
  }

  /** The message phase 1 leaves under the key of field f (None: no key). */
  function FieldMessage(d: RestaurantDraft, f: FieldName): Option<string>
  {
    match f
    case Name => RequiredMessage(d.name, NameRequired)
    case Description => RequiredMessage(d.description, DescriptionRequired)
    case AddressLine1 => RequiredMessage(d.addressLine1, AddressRequired)
    case City => RequiredMessage(d.city, CityRequired)
    case State => RequiredMessage(d.state, StateRequired)
    case ZipCode => RequiredMessage(d.zipCode, ZipRequired)
    case CostRating =>
      if Blank(d.costRating) then Some(CostRequired)
      else if !IsCostRating(d.costRating) then Some(CostOutOfRange)
      else None
    case Email =>
      if Blank(d.email) then Some(EmailRequired)
      else if !MatchesEmail(d.email) then Some(EmailInvalid)
      else None
    case PhoneNumber =>
      if Blank(d.phoneNumber) then Some(PhoneRequired)
      else if !IsPhoneNumber(d.phoneNumber) then Some(PhoneInvalid)
      else None
  }

  /** An entry of a day's list in `byDay`: the slot's two times and its index. */
  datatype Range = Range(open: string, close: string, idx: nat)

  /** All three dropdowns of the slot are set (non-empty strings are truthy). */
  predicate Complete(s: HoursSlot)
  {
    s.dayOfWeek != "" && s.openingTime != "" && s.closingTime != ""
  }

  function RangeOf(hs: seq<HoursSlot>, i: nat): Range
    requires i < |hs|
  {
    Range(hs[i].openingTime, hs[i].closingTime, i)
  }

  /** `byDay[day]` once the reduce has visited the first n slots: complete slots on that day, in index order. */
  function GroupUpTo(hs: seq<HoursSlot>, day: string, n: nat): seq<Range>
    requires n <= |hs|
  {
    if n == 0 then []
    else GroupUpTo(hs, day, n - 1) + (if Complete(hs[n - 1]) && hs[n - 1].dayOfWeek == day then [RangeOf(hs, n - 1)] else [])
  }

  function Group(hs: seq<HoursSlot>, day: string): seq<Range>
  {
    GroupUpTo(hs, day, |hs|)
  }

  /** Non-decreasing by opening time under JavaScript string order. */
  predicate SortedByOpen(rs: seq<Range>)
  {
    forall p, q :: 0 <= p < q < |rs| ==> !Less(rs[q].open, rs[p].open)
  }

  /**
    arr holds, for every day that has a complete slot and for no other, a
    permutation of that day's ranges sorted by opening time.
   */
  ghost predicate IsArrangement(hs: seq<HoursSlot>, arr: map<string, seq<Range>>)
  {
    forall day :: ArrangedDay(hs, arr, day)
  }

  ghost predicate ArrangedDay(hs: seq<HoursSlot>, arr: map<string, seq<Range>>, day: string)
  {
    && (day in arr <==> Group(hs, day) != [])
    && (day in arr ==> SortedByOpen(arr[day]) && multiset(arr[day]) == multiset(Group(hs, day)))
  }

  /** Indices of the earlier range of each flagged adjacent pair among the first n pairs. */
  function ClosingHits(rs: seq<Range>, n: int): set<nat>
  {
    set p | 0 <= p < n && p + 1 < |rs| && Less(rs[p + 1].open, rs[p].close) :: rs[p].idx
  }

  /** Indices of the later range of each flagged adjacent pair among the first n pairs. */
  function OpeningHits(rs: seq<Range>, n: int): set<nat>
  {
    set p | 0 <= p < n && p + 1 < |rs| && Less(rs[p + 1].open, rs[p].close) :: rs[p + 1].idx
  }

  /** scanned[day] is how many adjacent pairs of arr[day] the scan has compared. */
  predicate ClosingFlag(arr: map<string, seq<Range>>, scanned: map<string, int>, day: string, i: nat)
  {
    day in arr && day in scanned && i in ClosingHits(arr[day], scanned[day])
  }

  predicate OpeningFlag(arr: map<string, seq<Range>>, scanned: map<string, int>, day: string, i: nat)
  {
    day in arr && day in scanned && i in OpeningHits(arr[day], scanned[day])
  }

  /**
    The message under `oh.<i>.<letter>`: an overlap message replaces the
    ordering or presence message written earlier under the same key.
   */
  function SlotMessage(s: HoursSlot, i: nat, letter: char, arr: map<string, seq<Range>>, scanned: map<string, int>): Option<string>
  {
    if letter == 'd' then
      if s.dayOfWeek == "" then Some(DayRequired) else None
    else if letter == 'o' then
      if OpeningFlag(arr, scanned, s.dayOfWeek, i) then Some(OverlapsPrevious(s.dayOfWeek))
      else if s.openingTime != "" && s.closingTime != "" && !Less(s.openingTime, s.closingTime) then Some(MustBeBeforeClosing)
      else if s.openingTime == "" then Some(OpeningRequired)
      else None
    else if letter == 'c' then
      if ClosingFlag(arr, scanned, s.dayOfWeek, i) then Some(OverlapsAnother(s.dayOfWeek))
      else if s.closingTime == "" then Some(ClosingRequired)
      else None
    else None
  }

  /** The message under key k once the slot loop has visited slots below upTo and the scan is as far as `scanned`. */
  function MessageAt(d: RestaurantDraft, upTo: int, arr: map<string, seq<Range>>, scanned: map<string, int>, k: Key): Option<string>
  {
    match k
    case Field(f) => FieldMessage(d, f)
    case Slot(i, letter) =>
      if i < upTo && i < |d.operatingHours| then SlotMessage(d.operatingHours[i], i, letter, arr, scanned) else None
  }

  /** Every adjacent pair of every day compared. */
  function FullScan(arr: map<string, seq<Range>>): map<string, int>
  {
    map day | day in arr :: |arr[day]| - 1
  }

  /** The message `validate` leaves under key k when its sort produced the arrangement arr. */
  function Expected(d: RestaurantDraft, arr: map<string, seq<Range>>, k: Key): Option<string>
  {
    MessageAt(d, |d.operatingHours|, arr, FullScan(arr), k)
  }

  // ---------------------------------------------------------------------
  // Facts the method's proof uses

  lemma {:induction false} GroupMember(hs: seq<HoursSlot>, day: string, n: nat, r: Range)
    requires n <= |hs|
    ensures r in GroupUpTo(hs, day, n) <==>
      r.idx < n && Complete(hs[r.idx]) && hs[r.idx].dayOfWeek == day && r == RangeOf(hs, r.idx)
  {
    if n > 0 {
      GroupMember(hs, day, n - 1, r);
    }
  }

  /** An element of an arrangement is the range of a complete slot of that day. */
  lemma ArrangedMember(hs: seq<HoursSlot>, arr: map<string, seq<Range>>, day: string, p: int)
    requires IsArrangement(hs, arr) && day in arr && 0 <= p < |arr[day]|
    ensures var r := arr[day][p];
      r.idx < |hs| && Complete(hs[r.idx]) && hs[r.idx].dayOfWeek == day && r == RangeOf(hs, r.idx)
  {
    var r := arr[day][p];
    assert ArrangedDay(hs, arr, day);
    assert r in multiset(arr[day]);
    GroupMember(hs, day, |hs|, r);
  }

  /** Comparing one more adjacent pair of `day` changes at most the two keys of that pair. */
  lemma ScanStep(d: RestaurantDraft, arr: map<string, seq<Range>>, sc: map<string, int>, day: string, j: int, k: Key)
    requires day in arr && 0 <= j && j + 1 < |arr[day]|
    requires arr[day][j].idx < |d.operatingHours| && d.operatingHours[arr[day][j].idx].dayOfWeek == day
    requires arr[day][j + 1].idx < |d.operatingHours| && d.operatingHours[arr[day][j + 1].idx].dayOfWeek == day
    ensures var rs := arr[day];
      var flagged := Less(rs[j + 1].open, rs[j].close);
      MessageAt(d, |d.operatingHours|, arr, sc[day := j + 1], k) ==
        if flagged && k == Slot(rs[j].idx, 'c') then Some(OverlapsAnother(day))
        else if flagged && k == Slot(rs[j + 1].idx, 'o') then Some(OverlapsPrevious(day))
        else MessageAt(d, |d.operatingHours|, arr, sc[day := j], k)
  {
    var rs := arr[day];
    var flagged := Less(rs[j + 1].open, rs[j].close);
    match k
    case Field(_) =>
    case Slot(i, letter) =>
      if i < |d.operatingHours| {
        var other := d.operatingHours[i].dayOfWeek;
        if other == day {
          assert ClosingHits(rs, j + 1) == ClosingHits(rs, j) + (if flagged then {rs[j].idx} else {});
          assert OpeningHits(rs, j + 1) == OpeningHits(rs, j) + (if flagged then {rs[j + 1].idx} else {});
        } else {
          assert ClosingFlag(arr, sc[day := j + 1], other, i) == ClosingFlag(arr, sc[day := j], other, i);
          assert OpeningFlag(arr, sc[day := j + 1], other, i) == OpeningFlag(arr, sc[day := j], other, i);
        }
      }
  }

  /** Adding a day whose scan has not started changes no message. */
  lemma NewDay(d: RestaurantDraft, arr: map<string, seq<Range>>, sc: map<string, int>, day: string, rs: seq<Range>, k: Key)
    requires day !in arr
    ensures MessageAt(d, |d.operatingHours|, arr[day := rs], sc[day := 0], k) == MessageAt(d, |d.operatingHours|, arr, sc, k)
  {
    assert ClosingHits(rs, 0) == {};
    assert OpeningHits(rs, 0) == {};
  }

  lemma FullScanAdd(arr: map<string, seq<Range>>, day: string, rs: seq<Range>)
    ensures FullScan(arr[day := rs]) == FullScan(arr)[day := |rs| - 1]
  {
  }

  /** Before a new day's loop, its slot keys already hold what the scan of no pair gives. */
  lemma ScanStarts(d: RestaurantDraft, e0: ErrorMap, before: map<string, seq<Range>>, day: string, rs: seq<Range>)
    requires day !in before
    requires forall k :: Lookup(e0, k) == MessageAt(d, |d.operatingHours|, before, FullScan(before), k)
    ensures forall i: nat, c: char :: Lookup(e0, Slot(i, c)) == MessageAt(d, |d.operatingHours|, before[day := rs], FullScan(before)[day := 0], Slot(i, c))
  {
    forall i: nat, c: char
      ensures Lookup(e0, Slot(i, c)) == MessageAt(d, |d.operatingHours|, before[day := rs], FullScan(before)[day := 0], Slot(i, c))
    {
      NewDay(d, before, FullScan(before), day, rs, Slot(i, c));
    }
  }

  /** After the day's loop has compared every pair, every key holds its final message. */
  lemma ScanEnds(d: RestaurantDraft, e0: ErrorMap, e: ErrorMap, before: map<string, seq<Range>>, day: string, rs: seq<Range>)
    requires forall k :: Lookup(e0, k) == MessageAt(d, |d.operatingHours|, before, FullScan(before), k)
    requires forall f :: Lookup(e, Field(f)) == Lookup(e0, Field(f))
    requires forall i: nat, c: char :: Lookup(e, Slot(i, c)) == MessageAt(d, |d.operatingHours|, before[day := rs], FullScan(before)[day := |rs| - 1], Slot(i, c))
    ensures forall k :: Lookup(e, k) == Expected(d, before[day := rs], k)
  {
    FullScanAdd(before, day, rs);
    forall k ensures Lookup(e, k) == Expected(d, before[day := rs], k) {
      if k.Field? {
        assert Lookup(e0, k) == MessageAt(d, |d.operatingHours|, before, FullScan(before), k);
      }
    }
  }

  // ---------------------------------------------------------------------
  // The validator

  /**
    The insertion step's invariant: s[..i + 1] is sorted except that the
    element being inserted sits at j, and everything after j is at least it.
   */
  predicate Inserting(s: seq<Range>, i: int, j: int)
    requires 0 <= j <= i < |s|
  {
    && (forall p, q :: 0 <= p < q <= i && p != j && q != j ==> !Less(s[q].open, s[p].open))
    && (forall q :: j < q <= i ==> !Less(s[q].open, s[j].open))
  }

  lemma InsertStart(s: seq<Range>, i: int)
    requires 0 <= i < |s| && SortedByOpen(s[..i])
    ensures Inserting(s, i, i)
  {
    forall p, q | 0 <= p < q < i
      ensures !Less(s[q].open, s[p].open)
    {
      assert s[p] == s[..i][p] && s[q] == s[..i][q];
    }
  }

  /** s with positions j - 1 and j exchanged. */
  function Swapped(s: seq<Range>, j: int): seq<Range>
    requires 0 < j < |s|
  {
    s[j - 1 := s[j]][j := s[j - 1]]
  }

  /**
    Swapping the element being inserted with a predecessor that is not below
    it keeps the invariant, the elements, and everything after position i.
   */
  lemma InsertSwap(s: seq<Range>, i: int, j: int)
    requires 0 < j <= i < |s| && Inserting(s, i, j) && !Less(s[j - 1].open, s[j].open)
    ensures Inserting(Swapped(s, j), i, j - 1)
    ensures Swapped(s, j)[i + 1..] == s[i + 1..]
    ensures multiset(Swapped(s, j)) == multiset(s)
  {
  }

  /** Once the predecessor is below it (or there is none), the prefix is sorted. */
  lemma InsertDone(s: seq<Range>, i: int, j: int)
    requires 0 <= j <= i < |s| && Inserting(s, i, j)
    requires j == 0 || Less(s[j - 1].open, s[j].open)
    ensures SortedByOpen(s[..i + 1])
  {
    if j > 0 {
      LessAsymmetric(s[j - 1].open, s[j].open);
      forall p | 0 <= p < j - 1
        ensures !Less(s[j].open, s[p].open)
      {
        NotLessTransitive(s[p].open, s[j - 1].open, s[j].open);
      }
    }
    var t := s[..i + 1];
    forall p, q | 0 <= p < q < |t|
      ensures !Less(t[q].open, t[p].open)
    {
      assert t[p] == s[p] && t[q] == s[q];
    }
  }

  /**
    `ranges.sort((a, b) => (a.open < b.open ? -1 : 1))` on one day's array,
    as an insertion sort that calls the comparator. The engine's own sort
    algorithm is not modelled; what the rest of the model relies on is only
    that the result is a permutation sorted by opening time.
   */
  method SortByOpen(a: array<Range>)
    modifies a
    ensures SortedByOpen(a[..])
    ensures multiset(a[..]) == multiset(old(a[..]))
  {
    var i := 0;
    while i < a.Length
      invariant 0 <= i <= a.Length
      invariant SortedByOpen(a[..i])
      invariant multiset(a[..]) == multiset(old(a[..]))
    {
      Insert(a, i);
      i := i + 1;
    }
    assert a[..a.Length] == a[..];
  }

  /** Two rearrangements of one multiset that agree from n on hold the same elements before n. */
  lemma SamePrefixElements(s: seq<Range>, t: seq<Range>, n: nat)
    requires n <= |s| == |t| && multiset(s) == multiset(t) && s[n..] == t[n..]
    ensures multiset(s[..n]) == multiset(t[..n])
  {
    assert s == s[..n] + s[n..];
    assert t == t[..n] + t[n..];
    assert multiset(s[..n]) == multiset(s) - multiset(s[n..]);
    assert multiset(t[..n]) == multiset(t) - multiset(t[n..]);
  }

  /** One exchange of the insertion pass: a[j] moves below its predecessor. */
  method SwapDown(a: array<Range>, ghost i: int, j: int)
    requires 0 < j <= i < a.Length && Inserting(a[..], i, j) && !Less(a[j - 1].open, a[j].open)
    modifies a
    ensures a[..] == Swapped(old(a[..]), j)
    ensures Inserting(a[..], i, j - 1)
    ensures a[i + 1..] == old(a[i + 1..])
    ensures multiset(a[..]) == multiset(old(a[..]))
  {
    InsertSwap(a[..], i, j);
    a[j - 1], a[j] := a[j], a[j - 1];
  }

  /** One pass of the insertion sort: moves a[i] down into the sorted prefix a[..i]. */
  method Insert(a: array<Range>, i: int)
    requires 0 <= i < a.Length && SortedByOpen(a[..i])
    modifies a
    ensures SortedByOpen(a[..i + 1])
    ensures multiset(a[..i + 1]) == multiset(old(a[..i + 1]))
    ensures a[i + 1..] == old(a[i + 1..])
    ensures multiset(a[..]) == multiset(old(a[..]))
  {
    InsertStart(a[..], i);
    var j := i;
    while j > 0 && (if Less(a[j - 1].open, a[j].open) then -1 else 1) > 0
      invariant 0 <= j <= i
      invariant Inserting(a[..], i, j)
      invariant a[i + 1..] == old(a[i + 1..])
      invariant multiset(a[..]) == multiset(old(a[..]))
    {
      SwapDown(a, i, j);
      j := j - 1;
    }
    InsertDone(a[..], i, j);
    SamePrefixElements(a[..], old(a[..]), i + 1);
  }

  /** The three fields whose format is checked after their presence. */
  predicate HasFormat(f: FieldName)
  {
    f == CostRating || f == Email || f == PhoneNumber
  }

  /** `if (cond) newErrors[k] = message;` */
  function SetIf(m: ErrorMap, cond: bool, k: Key, message: string): (r: ErrorMap)
    ensures forall k' :: Lookup(r, k') == if cond && k' == k then Some(message) else Lookup(m, k')
  {
    if cond then m[k := message] else m
  }

  /** The order in which `validate` checks the top-level fields. */
  const FieldOrder: seq<FieldName> := [Name, Description, AddressLine1, City, State, ZipCode, CostRating, Email, PhoneNumber]

  /** The position of f in FieldOrder. */
  function Rank(f: FieldName): (n: nat)
    ensures n < |FieldOrder| && FieldOrder[n] == f
    ensures forall i :: 0 <= i < |FieldOrder| && FieldOrder[i] == f ==> i == n
  {
    match f
    case Name => 0
    case Description => 1
    case AddressLine1 => 2
    case City => 3
    case State => 4
    case ZipCode => 5
    case CostRating => 6
    case Email => 7
    case PhoneNumber => 8
  }

  /** The map after the first n field checks: their messages, and nothing else. */
  function Stage(d: RestaurantDraft, n: nat, k: Key): Option<string>
  {
    match k
    case Field(f) => if Rank(f) < n then FieldMessage(d, f) else None
    case Slot(_, _) => None
  }

  /** `if (!value.trim()) newErrors[key] = message;`, the check at position n of FieldOrder. */
  method Require(draft: RestaurantDraft, m: ErrorMap, ghost n: nat, value: string, key: Key, message: string) returns (r: ErrorMap)
    requires n < |FieldOrder| && key == Field(FieldOrder[n])
    requires FieldMessage(draft, key.field) == RequiredMessage(value, message)
    requires forall k :: Lookup(m, k) == Stage(draft, n, k)
    ensures forall k :: Lookup(r, k) == Stage(draft, n + 1, k)
  {
    r := m;
    if Blank(value) {
      r := r[key := message];
    }
    forall k ensures Lookup(r, k) == Stage(draft, n + 1, k) {
      assert Lookup(m, k) == Stage(draft, n, k);
      if k.Field? {
        assert FieldOrder[Rank(k.field)] == k.field && FieldOrder[n] == key.field;
      }
    }
  }

  /**
    `if (!value.trim()) newErrors[key] = required; else if (!pattern.test(value)) newErrors[key] = invalid;`,
    the check at position n of FieldOrder, where `matches` is the pattern's verdict.
   */
  method RequireMatching(draft: RestaurantDraft, m: ErrorMap, ghost n: nat, value: string, matches: bool, key: Key, required: string, invalid: string)
    returns (r: ErrorMap)
    requires n < |FieldOrder| && key == Field(FieldOrder[n])
    requires FieldMessage(draft, key.field) == if Blank(value) then Some(required) else if !matches then Some(invalid) else None
    requires forall k :: Lookup(m, k) == Stage(draft, n, k)
    ensures forall k :: Lookup(r, k) == Stage(draft, n + 1, k)
  {
    r := m;
    if Blank(value) {
      r := r[key := required];
    } else if !matches {
      r := r[key := invalid];
    }
    forall k ensures Lookup(r, k) == Stage(draft, n + 1, k) {
      assert Lookup(m, k) == Stage(draft, n, k);
      if k.Field? {
        assert FieldOrder[Rank(k.field)] == k.field && FieldOrder[n] == key.field;
      }
    }
  }

  /** Phase 1, first part: the six fields that only have to be present. */
  method CheckRequired(draft: RestaurantDraft) returns (errors: ErrorMap)
    ensures forall k :: Lookup(errors, k) == Stage(draft, 6, k)
  {
    errors := map[];
    errors := Require(draft, errors, 0, draft.name, Field(Name), NameRequired);
    errors := Require(draft, errors, 1, draft.description, Field(Description), DescriptionRequired);
    errors := Require(draft, errors, 2, draft.addressLine1, Field(AddressLine1), AddressRequired);
    errors := Require(draft, errors, 3, draft.city, Field(City), CityRequired);
    errors := Require(draft, errors, 4, draft.state, Field(State), StateRequired);
    errors := Require(draft, errors, 5, draft.zipCode, Field(ZipCode), ZipRequired);
  }

  /** Phase 1, second part: cost rating, email and phone number, each required and then matched against its pattern. */
  method CheckFormats(draft: RestaurantDraft, errors0: ErrorMap) returns (errors: ErrorMap)
    requires forall k :: Lookup(errors0, k) == Stage(draft, 6, k)
    ensures forall k :: Lookup(errors, k) == Stage(draft, |FieldOrder|, k)
  {
    errors := RequireMatching(draft, errors0, 6, draft.costRating, IsCostRating(draft.costRating),
      Field(CostRating), CostRequired, CostOutOfRange);
    errors := RequireMatching(draft, errors, 7, draft.email, MatchesEmail(draft.email),
      Field(Email), EmailRequired, EmailInvalid);
    errors := RequireMatching(draft, errors, 8, draft.phoneNumber, IsPhoneNumber(draft.phoneNumber),
      Field(PhoneNumber), PhoneRequired, PhoneInvalid);
  }

  /** Phase 1: every top-level field, and no slot key yet. */
  method CheckFields(draft: RestaurantDraft) returns (errors: ErrorMap)
    ensures forall k :: Lookup(errors, k) == MessageAt(draft, 0, map[], map[], k)
  {
    errors := CheckRequired(draft);
    errors := CheckFormats(draft, errors);
    forall k ensures Lookup(errors, k) == MessageAt(draft, 0, map[], map[], k) {
      assert Lookup(errors, k) == Stage(draft, |FieldOrder|, k);
    }
  }

  /** Phase 2: the `forEach` over the slots, adding presence and ordering messages. */
  method CheckSlots(draft: RestaurantDraft, fieldErrors: ErrorMap) returns (errors: ErrorMap)
    requires forall k :: Lookup(fieldErrors, k) == MessageAt(draft, 0, map[], map[], k)
    ensures forall k :: Lookup(errors, k) == MessageAt(draft, |draft.operatingHours|, map[], map[], k)
  {
    errors := fieldErrors;
    var hs := draft.operatingHours;
    for i := 0 to |hs|
      invariant forall k :: Lookup(errors, k) == MessageAt(draft, i, map[], map[], k)
    {
      var slot := hs[i];
      errors := SetIf(errors, slot.dayOfWeek == "", Slot(i, 'd'), DayRequired);
      errors := SetIf(errors, slot.openingTime == "", Slot(i, 'o'), OpeningRequired);
      errors := SetIf(errors, slot.closingTime == "", Slot(i, 'c'), ClosingRequired);
      errors := SetIf(errors, slot.openingTime != "" && slot.closingTime != "" && !Less(slot.openingTime, slot.closingTime),
        Slot(i, 'o'), MustBeBeforeClosing);
    }
  }

  /**
    `byDay` and its key order `days` after the reduce has visited the first n
    slots: the days with a complete slot so far, each listed once, each
    mapped to its complete slots in index order.
   */
  ghost predicate Grouped(hs: seq<HoursSlot>, n: nat, days: seq<string>, byDay: map<string, seq<Range>>)
    requires n <= |hs|
  {
    && (forall day :: day in byDay <==> GroupUpTo(hs, day, n) != [])
    && (forall day :: day in byDay ==> byDay[day] == GroupUpTo(hs, day, n))
    && (forall day :: day in byDay <==> day in days)
    && (forall p, q :: 0 <= p < q < |days| ==> days[p] != days[q])
  }

  /** How visiting slot i extends every day's group. */
  lemma GroupStep(hs: seq<HoursSlot>, i: nat)
    requires i < |hs|
    ensures forall day ::
      GroupUpTo(hs, day, i + 1) == GroupUpTo(hs, day, i) + (if Complete(hs[i]) && hs[i].dayOfWeek == day then [RangeOf(hs, i)] else [])
  {
  }

  /** An incomplete slot leaves the grouping as it was. */
  lemma GroupedSkip(hs: seq<HoursSlot>, i: nat, days: seq<string>, byDay: map<string, seq<Range>>)
    requires i < |hs| && Grouped(hs, i, days, byDay) && !Complete(hs[i])
    ensures Grouped(hs, i + 1, days, byDay)
  {
    GroupStep(hs, i);
  }

  /** A complete slot of a day already present is appended to that day's group. */
  lemma GroupedAppend(hs: seq<HoursSlot>, i: nat, days: seq<string>, byDay: map<string, seq<Range>>)
    requires i < |hs| && Grouped(hs, i, days, byDay) && Complete(hs[i]) && hs[i].dayOfWeek in byDay
    ensures Grouped(hs, i + 1, days, byDay[hs[i].dayOfWeek := byDay[hs[i].dayOfWeek] + [RangeOf(hs, i)]])
  {
    GroupStep(hs, i);
    var day := hs[i].dayOfWeek;
    var next := byDay[day := byDay[day] + [RangeOf(hs, i)]];
    forall other ensures other in next <==> GroupUpTo(hs, other, i + 1) != [] {
      if other == day {
        assert GroupUpTo(hs, other, i + 1)[|GroupUpTo(hs, other, i)|] == RangeOf(hs, i);
      }
    }
  }

  /** A complete slot of a new day starts that day's group and lists the day last. */
  lemma GroupedStart(hs: seq<HoursSlot>, i: nat, days: seq<string>, byDay: map<string, seq<Range>>)
    requires i < |hs| && Grouped(hs, i, days, byDay) && Complete(hs[i]) && hs[i].dayOfWeek !in byDay
    ensures Grouped(hs, i + 1, days + [hs[i].dayOfWeek], byDay[hs[i].dayOfWeek := [RangeOf(hs, i)]])
  {
    GroupStep(hs, i);
    var day := hs[i].dayOfWeek;
    assert GroupUpTo(hs, day, i) == [];
    var days' := days + [day];
    forall p, q | 0 <= p < q < |days'| ensures days'[p] != days'[q] {
      if q == |days| {
        assert days'[p] == days[p];
      }
    }
  }

  /** The reduce callback, applied to slot i. */
  method Gather(hs: seq<HoursSlot>, i: nat, days0: seq<string>, acc: map<string, seq<Range>>)
    returns (days: seq<string>, byDay: map<string, seq<Range>>)
    requires i < |hs| && Grouped(hs, i, days0, acc)
    ensures Grouped(hs, i + 1, days, byDay)
  {
    days, byDay := days0, acc;
    var slot := hs[i];
    if slot.dayOfWeek != "" && slot.openingTime != "" && slot.closingTime != "" {
      var day := slot.dayOfWeek;
      if day !in byDay {
        GroupedStart(hs, i, days, byDay);
        days := days + [day];
        byDay := byDay[day := []];
      } else {
        GroupedAppend(hs, i, days, byDay);
      }
      byDay := byDay[day := byDay[day] + [Range(slot.openingTime, slot.closingTime, i)]];
    } else {
      GroupedSkip(hs, i, days, byDay);
    }
  }

  /**
    Phase 3: the `reduce` that builds `byDay`. `days` is a listing of
    byDay's keys without repeats.
   */
  method GroupByDay(hs: seq<HoursSlot>) returns (days: seq<string>, byDay: map<string, seq<Range>>)
    ensures forall day :: day in byDay <==> Group(hs, day) != []
    ensures forall day :: day in byDay ==> byDay[day] == Group(hs, day)
    ensures forall day :: day in byDay <==> day in days
    ensures forall p, q :: 0 <= p < q < |days| ==> days[p] != days[q]
  {
    days, byDay := [], map[];
    for i := 0 to |hs|
      invariant Grouped(hs, i, days, byDay)
    {
      days, byDay := Gather(hs, i, days, byDay);
    }
  }

  /** Every range of rs is the range of a slot of hs on that day. */
  ghost predicate OfDay(hs: seq<HoursSlot>, day: string, rs: seq<Range>)
  {
    forall p :: 0 <= p < |rs| ==> rs[p].idx < |hs| && hs[rs[p].idx].dayOfWeek == day
  }

  /** Phase 4 for one day: sort its ranges in place, then compare adjacent pairs. */
  method CheckDay(draft: RestaurantDraft, errors0: ErrorMap, ghost before: map<string, seq<Range>>, day: string, ranges: seq<Range>)
    returns (errors: ErrorMap, ghost sorted: seq<Range>)
    requires day !in before && ranges == Group(draft.operatingHours, day) && ranges != []
    requires forall k :: Lookup(errors0, k) == MessageAt(draft, |draft.operatingHours|, before, FullScan(before), k)
    ensures SortedByOpen(sorted) && multiset(sorted) == multiset(ranges)
    ensures forall k :: Lookup(errors, k) == Expected(draft, before[day := sorted], k)
  {
    var hs := draft.operatingHours;
    var a := new Range[|ranges|](k requires 0 <= k < |ranges| => ranges[k]);
    assert a[..] == ranges;
    SortByOpen(a);
    sorted := a[..];
    forall p | 0 <= p < |sorted|
      ensures sorted[p].idx < |hs| && hs[sorted[p].idx].dayOfWeek == day
    {
      assert sorted[p] in multiset(ranges);
      GroupMember(hs, day, |hs|, sorted[p]);
    }
    errors := ScanDay(draft, errors0, before, day, a[..]);
  }

  /**
    One iteration of the loop over adjacent pairs: if the next range opens
    before the current one closes, both get an overlap message.
   */
  method CompareAdjacent(draft: RestaurantDraft, errors0: ErrorMap, ghost arr: map<string, seq<Range>>, ghost sc: map<string, int>,
      day: string, ghost j: int, cur: Range, next: Range)
    returns (errors: ErrorMap)
    requires day in arr && 0 <= j && j + 1 < |arr[day]| && arr[day][j] == cur && arr[day][j + 1] == next
    requires OfDay(draft.operatingHours, day, arr[day])
    requires forall i: nat, c: char :: Lookup(errors0, Slot(i, c)) == MessageAt(draft, |draft.operatingHours|, arr, sc[day := j], Slot(i, c))
    ensures forall f :: Lookup(errors, Field(f)) == Lookup(errors0, Field(f))
    ensures forall i: nat, c: char :: Lookup(errors, Slot(i, c)) == MessageAt(draft, |draft.operatingHours|, arr, sc[day := j + 1], Slot(i, c))
  {
    errors := errors0;
    if Less(next.open, cur.close) {
      errors := errors[Slot(cur.idx, 'c') := OverlapsAnother(day)];
      errors := errors[Slot(next.idx, 'o') := OverlapsPrevious(day)];
    }
    forall i: nat, c: char ensures Lookup(errors, Slot(i, c)) == MessageAt(draft, |draft.operatingHours|, arr, sc[day := j + 1], Slot(i, c)) {
      ScanStep(draft, arr, sc, day, j, Slot(i, c));
    }
  }

  /** The `for` loop over adjacent pairs of one day's sorted ranges. */
  method ScanDay(draft: RestaurantDraft, errors0: ErrorMap, ghost before: map<string, seq<Range>>, day: string, ranges: seq<Range>)
    returns (errors: ErrorMap)
    requires day !in before && |ranges| > 0 && OfDay(draft.operatingHours, day, ranges)
    requires forall k :: Lookup(errors0, k) == MessageAt(draft, |draft.operatingHours|, before, FullScan(before), k)
    ensures forall k :: Lookup(errors, k) == Expected(draft, before[day := ranges], k)
  {
    ghost var arr := before[day := ranges];
    ghost var sc := FullScan(before);
    ScanStarts(draft, errors0, before, day, ranges);
    errors := errors0;
    for j := 0 to |ranges| - 1
      invariant forall f :: Lookup(errors, Field(f)) == Lookup(errors0, Field(f))
      invariant forall i: nat, c: char :: Lookup(errors, Slot(i, c)) == MessageAt(draft, |draft.operatingHours|, arr, sc[day := j], Slot(i, c))
    {
      errors := CompareAdjacent(draft, errors, arr, sc, day, j, ranges[j], ranges[j + 1]);
    }
    ScanEnds(draft, errors0, errors, before, day, ranges);
  }

  /**
    `validate`: returns the error map and whether it is empty, together with
    the arrangement its sort produced; every key's message is the one
    `Expected` gives for that arrangement.
   */
  method Validate(draft: RestaurantDraft) returns (ok: bool, errors: ErrorMap, ghost arranged: map<string, seq<Range>>)
    ensures IsArrangement(draft.operatingHours, arranged)
    ensures forall k :: Lookup(errors, k) == Expected(draft, arranged, k)
    ensures ok <==> errors == map[]
  {
    var hs := draft.operatingHours;
    errors := CheckFields(draft);
    errors := CheckSlots(draft, errors);
    var days, byDay := GroupByDay(hs);
    arranged := map[];
    for t := 0 to |days|
      invariant forall day :: day in arranged <==> day in days[..t]
      invariant forall day :: day in arranged ==>
        SortedByOpen(arranged[day]) && multiset(arranged[day]) == multiset(Group(hs, day))
      invariant forall k :: Lookup(errors, k) == Expected(draft, arranged, k)
    {
      var day := days[t];
      assert day !in arranged by {
        assert forall p :: 0 <= p < t ==> days[p] != day;
      }
      ghost var sorted;
      errors, sorted := CheckDay(draft, errors, arranged, day, byDay[day]);
      arranged := arranged[day := sorted];
    }
    assert days[..|days|] == days;
    forall day ensures ArrangedDay(hs, arranged, day) {
    }
    ok := |errors| == 0;
  }
}
