# Add-restaurant form: validation and hours editing

A Dafny model of the restaurant manager's "Add New Restaurant" form
(`frontend/src/AddRestaurantForm.js`). The form keeps a draft of the
restaurant and a map from field name or operating-hours key to an inline
error message. `validate` rebuilds that map in four phases:

1. it checks the required top-level fields and the cost-rating, email and
   phone patterns;
2. it checks each hours row for a day, an opening time, a closing time, and an
   opening time before the closing time;
3. it groups the complete rows by day;
4. it sorts each day's rows by opening time and flags adjacent pairs that
   overlap.

Validation succeeds exactly when the map has no keys. The form also offers
handlers that change one dropdown of a row, append a row and remove a
row. Submission is allowed only when `validate` succeeds.

Modules and files:

- `wrappers.dfy` holds `Option`.
- `js_string.dfy` models JavaScript's `trim` whitespace set and string ordering.
- `patterns.dfy` holds the three regular expressions as predicates.
- `time_options.dfy` models the 48 half-hour dropdown entries.
- `draft.dfy` holds the form state: the draft, the error keys and the map.
- `validation.dfy` holds `Validate` and the phase methods.
- `validation_properties.dfy` holds what the error map means.
- `validation_examples.dfy` holds concrete drafts.
- `hours_editor.dfy` holds the row handlers.
- `submission.dfy` holds the submit gate.

The ordering in phase 4 is underdetermined. The comparator
`(a, b) => a.open < b.open ? -1 : 1` never answers 0, so rows that open at the
same time may come out in either order. `Validate` therefore returns, as a
ghost value, the arrangement its own sort produced. `Expected` gives the
message under each key for any arrangement, meaning any per-day permutation
that is non-decreasing by opening time. Every property in
`ValidationProperties` holds for all such arrangements.

Comparisons between times are JavaScript string comparisons. They are
modelled by `Less`, a lexicographic order on UTF-16 code units
(characters here). For the dropdown's `HH:MM` values this order is clock
order, as `StringOrderIsClockOrder` shows.

## Model

| member | source | states |
|---|---|---|
| Draft.InitialState | frontend/src/AddRestaurantForm.js:8-25 | The starting state: every text field empty except `cuisine_type` "italian", one row with all three dropdowns empty, and an empty error map |
| Validation.Validate | frontend/src/AddRestaurantForm.js:37-119 | The message under every key of the returned map is the one `Expected` gives for the arrangement the sort chose; that arrangement sorts every day's complete rows by opening time and permutes them; the result is true exactly when the map is empty |
| Validation.CheckFields | frontend/src/AddRestaurantForm.js:40-65 | After phase 1 every top-level key holds its field's message (or none) and no hours key is set |
| Validation.CheckRequired | frontend/src/AddRestaurantForm.js:41-49 | After the six presence checks exactly those fields have their message, and only when blank after trimming |
| Validation.CheckFormats | frontend/src/AddRestaurantForm.js:50-65 | The cost rating, email and phone checks add their three keys and leave every other key as it was |
| Validation.Require | frontend/src/AddRestaurantForm.js:41-49 | One presence check sets its own key exactly when the value trims to "" and changes no other key |
| Validation.RequireMatching | frontend/src/AddRestaurantForm.js:50-65 | One required-then-pattern check: blank gives the "required" message, a failed pattern the format message, otherwise no key; no other key changes |
| Validation.CheckSlots | frontend/src/AddRestaurantForm.js:68-89 | After the per-row `forEach` each row's d, o and c keys hold their presence and ordering messages; the ordering and "required" messages under o exclude each other (either may later be replaced by an overlap message), and top-level keys are unchanged |
| Validation.SetIf | frontend/src/AddRestaurantForm.js:73-88 | A guarded assignment changes only its key, and only when the guard holds |
| Validation.GroupByDay | frontend/src/AddRestaurantForm.js:92-102 | `byDay` maps exactly the days that have a complete row to those rows' ranges in index order, and the key list has no repeats |
| Validation.Gather | frontend/src/AddRestaurantForm.js:92-101 | One call of the reduce callback keeps the grouping invariant for one more row, pushing the row only if all three fields are set |
| Validation.GroupMember | frontend/src/AddRestaurantForm.js:93-99 | A range is in a day's group exactly when it is the range of a complete row of that day |
| Validation.CheckDay | frontend/src/AddRestaurantForm.js:104-114 | One day's sort and scan: returns a sorted permutation of the day's ranges and the map extended with that day's overlap messages |
| Validation.SortByOpen | frontend/src/AddRestaurantForm.js:106 | The in-place sort leaves the array sorted by opening time and a permutation of its old contents |
| Validation.Insert | frontend/src/AddRestaurantForm.js:106 | One insertion pass sorts a[..i + 1], which holds the same elements as before, and leaves a[i + 1..] as it was |
| Validation.SwapDown | frontend/src/AddRestaurantForm.js:106 | One exchange after the comparator returns 1: a[j] and a[j - 1] trade places, the elements are kept, nothing after position i moves, and the insertion invariant holds one step lower |
| Validation.ScanDay | frontend/src/AddRestaurantForm.js:107-114 | The scan over adjacent pairs of one sorted day leaves every key as `Expected` gives it once that day is added |
| Validation.CompareAdjacent | frontend/src/AddRestaurantForm.js:108-113 | Comparing pair j flags the earlier range's c key and the later range's o key exactly when `cur.close > next.open`, and no other key changes |
| Validation.ScanStep | frontend/src/AddRestaurantForm.js:110-113 | One more compared pair changes the expected message of at most those two keys |
| Validation.Expected | frontend/src/AddRestaurantForm.js:37-119 | The reference message for each key once `validate` has run: a top-level key gets its field's required or format message; a row's d, o and c keys get the presence and ordering messages, and an overlap message wherever the adjacent-pair scan of that row's day flags it |
| JsString.Trim | frontend/src/AddRestaurantForm.js:41-62 | `.trim()`: drops leading, then trailing, characters of the JavaScript whitespace and line-terminator set |
| JsString.Blank | frontend/src/AddRestaurantForm.js:41-62 | `!value.trim()`: the trimmed string is the empty, falsy string |
| JsString.Less | frontend/src/AddRestaurantForm.js:85-110 | JavaScript `<` on strings: compares code units from the left, and a proper prefix comes first; `>=` at line 85 is its negation, and `a > b` at line 110 is `Less(b, a)` |
| JsString.BlankIffAllWhite | frontend/src/AddRestaurantForm.js:41 | `!s.trim()` holds exactly when every character is JavaScript whitespace |
| ValidationProperties.RequiredFieldRule | frontend/src/AddRestaurantForm.js:41-49 | Each of the six plain fields has a message exactly when it is all whitespace |
| ValidationProperties.CostRatingRule | frontend/src/AddRestaurantForm.js:50-54 | No message exactly for one character '1'..'5'; "required" exactly when blank; "between 1 and 5" exactly for any other non-blank value |
| ValidationProperties.EmailRule | frontend/src/AddRestaurantForm.js:55-59 | No message exactly when the pattern matches; "required" exactly when blank; an address without '@' always gets a message |
| ValidationProperties.PhoneNumberRule | frontend/src/AddRestaurantForm.js:60-65 | No message exactly for NNN-NNN-NNNN; "required" exactly when blank |
| ValidationProperties.FieldsDecide | frontend/src/AddRestaurantForm.js:40-65 | No top-level key is set exactly when all nine fields are acceptable |
| ValidationProperties.SlotKeysOnly | frontend/src/AddRestaurantForm.js:68-113 | Only the d, o and c keys of existing rows can be set |
| ValidationProperties.SlotPresenceRule | frontend/src/AddRestaurantForm.js:68-89 | A missing day, opening or closing time sets d, o or c; the d key is set exactly when the day is missing; opening not before closing sets o, whose message may be replaced by an overlap message |
| ValidationProperties.MessagesDiffer | frontend/src/AddRestaurantForm.js:74-112 | An overlap message is never one of the presence or ordering messages it may replace |
| ValidationProperties.FlaggedIsComplete | frontend/src/AddRestaurantForm.js:93-113 | A row carrying an overlap flag has all three fields set |
| ValidationProperties.ArrangedDistinct | frontend/src/AddRestaurantForm.js:92-106 | Two positions of a day's sorted list hold different rows |
| ValidationProperties.PairFlags | frontend/src/AddRestaurantForm.js:110-113 | A flagged adjacent pair sets both the earlier row's c flag and the later row's o flag |
| ValidationProperties.ClosingFlagSound | frontend/src/AddRestaurantForm.js:104-113 | A c overlap message on row i means i is complete and another complete row of the same day opens at or after i opens and strictly before i closes; that row carries the o overlap message, so back-to-back rows are never the cause |
| ValidationProperties.OpeningFlagSound | frontend/src/AddRestaurantForm.js:104-113 | An o overlap message on row k means another complete row of the same day opens no later than k and closes strictly after k opens, and that row carries the c overlap message |
| ValidationProperties.AdjacentFlagged | frontend/src/AddRestaurantForm.js:106-110 | In a list sorted by opening time, if a later range opens before an earlier one closes, then the earlier one and its successor also overlap |
| ValidationProperties.OverlapDetected | frontend/src/AddRestaurantForm.js:104-115 | Whenever two complete rows of one day overlap, one of them gets the c overlap message and some row of that day the o overlap message, for every order the sort may choose |
| ValidationProperties.FlaggedPairOverlaps | frontend/src/AddRestaurantForm.js:106-110 | A flagged adjacent pair whose later row is valid is an overlap of two different rows |
| ValidationProperties.NoFlagWhenValid | frontend/src/AddRestaurantForm.js:104-113 | In a valid draft no row is flagged |
| ValidationProperties.ValidSlotQuiet | frontend/src/AddRestaurantForm.js:68-113 | In a valid draft no hours key is set |
| ValidationProperties.ValidateDecides | frontend/src/AddRestaurantForm.js:37-119 | The map is empty exactly when the draft is valid: fields acceptable, every row complete with opening before closing, and no two rows of a day overlapping |
| ValidationExamples.BackToBackAccepted | frontend/src/AddRestaurantForm.js:110 | Monday 09:00-12:00 and 12:00-17:00 with good fields leave the map empty in every arrangement |
| ValidationExamples.OtherDayAccepted | frontend/src/AddRestaurantForm.js:92-104 | Monday 09:00-17:00 and Tuesday 10:00-12:00 do not interact: the map is empty |
| ValidationExamples.OverlapFlagged | frontend/src/AddRestaurantForm.js:107-113 | Monday 09:00-17:00 and 16:00-20:00: row 0's c key and row 1's o key get the overlap messages |
| ValidationExamples.InitialDraftRejected | frontend/src/AddRestaurantForm.js:8-24 | The form's initial draft gets "Restaurant name is required." and "Day is required." on row 0 |
| ValidationExamples.SampleFieldsValid | frontend/src/AddRestaurantForm.js:41-65 | A concrete set of field values passes all nine field checks |
| Patterns.EmailNeedsAt | frontend/src/AddRestaurantForm.js:57 | A string with no '@' never matches the email pattern |
| Patterns.EmailNeedsDotAfterAt | frontend/src/AddRestaurantForm.js:57 | A matching string has an '@' with a character before it, and a '.' at least two places later with a character after it |
| Patterns.EmailExamples | frontend/src/AddRestaurantForm.js:57 | "a@b.co" matches; "abc" and "a@b" do not |
| Patterns.PhoneExamples | frontend/src/AddRestaurantForm.js:62 | "555-123-4567" matches; "5551234567" and "555-12-4567" do not |
| Patterns.CostRatingExamples | frontend/src/AddRestaurantForm.js:52 | "1".."5" match; "0", "6", "12", "abc", " 3" and "3 " do not |
| Patterns.IsCostRating | frontend/src/AddRestaurantForm.js:52 | `/^[1-5]$/`: exactly one character, a digit from 1 to 5 |
| Patterns.MatchesEmail | frontend/src/AddRestaurantForm.js:57 | `/\S+@\S+\.\S+/`, unanchored: some substring is a run of non-whitespace, '@', a run, '.', and a run |
| Patterns.IsPhoneNumber | frontend/src/AddRestaurantForm.js:62 | `/^\d{3}-\d{3}-\d{4}$/`: twelve characters, with '-' at positions 3 and 7 and ASCII digits everywhere else |
| TimeOptions.Decimal | frontend/src/AddRestaurantForm.js:32 | `String(n)` for a natural number: its decimal digits, most significant first, with no leading zero |
| TimeOptions.PadStart | frontend/src/AddRestaurantForm.js:32 | `padStart(width, fill)`: fill is prepended until the string is at least `width` long; a longer string is left as it is |
| TimeOptions.TimeOption | frontend/src/AddRestaurantForm.js:31-35 | The callback for index i: the hour `floor(i / 2)` padded to two digits, then ":", then "30" for odd i and "00" for even i |
| TimeOptions.TimeOptionList | frontend/src/AddRestaurantForm.js:31-35 | `Array.from({ length: 48 }, …)`: the 48 callback results in index order |
| TimeOptions.TimeOptionShape | frontend/src/AddRestaurantForm.js:31-35 | Entry i is two hour digits, ':', then "30" for odd i and "00" for even i, and denotes 30 * i minutes |
| TimeOptions.TimeOptionListShape | frontend/src/AddRestaurantForm.js:31-35 | There are 48 entries, each `HH:MM` on the hour or half hour, entry i at 30 * i minutes |
| TimeOptions.TimeOptionsIncrease | frontend/src/AddRestaurantForm.js:31-35 | Entries strictly increase under JavaScript string comparison |
| TimeOptions.StringOrderIsClockOrder | frontend/src/AddRestaurantForm.js:31-35 | For any two dropdown values, string `<` agrees with clock order, so the comparisons at lines 85 and 110 compare times |
| HoursEditor.HoursChange | frontend/src/AddRestaurantForm.js:127-135 | Only the named dropdown of row idx changes, everything else in the draft stays, and only the key `oh.idx.<first letter>` changes, to "" |
| HoursEditor.Set | frontend/src/AddRestaurantForm.js:131 | The spread update changes exactly the named field of the row |
| HoursEditor.Letter | frontend/src/AddRestaurantForm.js:134 | `name[0]`: the first character of the changed dropdown's `name`, which is the last part of the error key it clears |
| HoursEditor.LettersAreValidateKeys | frontend/src/AddRestaurantForm.js:134 | The first letters of the three dropdown names are 'd', 'o' and 'c', the letters of validate's keys |
| HoursEditor.ClearedKeyIsReportedKey | frontend/src/AddRestaurantForm.js:127-135 | The key the handler clears is the one validate reports when that dropdown is empty |
| HoursEditor.AddHoursRow | frontend/src/AddRestaurantForm.js:137-145 | The list grows by exactly one empty row at the end; nothing else changes |
| HoursEditor.AddedRowReported | frontend/src/AddRestaurantForm.js:137-145 | The new row's d, o and c keys get the three "required" messages from validate |
| HoursEditor.RemoveAt | frontend/src/AddRestaurantForm.js:149 | The filter drops position idx if it exists; every kept row sits at its old index, or one lower if it came after idx |
| HoursEditor.RemoveAtPermutation | frontend/src/AddRestaurantForm.js:149 | The kept rows together with the dropped row are the old rows |
| HoursEditor.RemoveAtKeepsOrder | frontend/src/AddRestaurantForm.js:149 | Kept rows keep their relative order |
| HoursEditor.RowKeys | frontend/src/AddRestaurantForm.js:154 | The keys `oh.<idx>.d`, `oh.<idx>.o` and `oh.<idx>.c` that the handler deletes |
| HoursEditor.RemoveHoursRow | frontend/src/AddRestaurantForm.js:147-157 | The row is filtered out, only the keys `oh.idx.d/o/c` are deleted, and every other key keeps its message under its old index |
| HoursEditor.AddThenRemove | frontend/src/AddRestaurantForm.js:137-157 | Removing the row just added restores the draft; the errors lose only that row's keys |
| HoursEditor.RemoveMisplacesMessages | frontend/src/AddRestaurantForm.js:152-156 | With three rows and a message on row 1, removing row 0 leaves the message at index 1, beside the former row 2 |
| HoursEditor.RemoveHoursRowRenumbered | frontend/src/AddRestaurantForm.js:147-157 | With renumbering, every remaining row keeps its own messages under its new index and top-level messages are untouched |
| HoursEditor.RenumberMoves | frontend/src/AddRestaurantForm.js:152-156 | Renumbering moves every later row's keys down by one and keeps the top-level keys |
| Submission.HandleSubmit | frontend/src/AddRestaurantForm.js:159-177 | The shown errors become validate's map; a request carrying the draft and the two clock values is produced exactly when the draft is valid |
| Submission.EmptyIffNoKey | frontend/src/AddRestaurantForm.js:118 | `Object.keys(m).length === 0` holds exactly when no key has a message |

## Left out

- These are not modelled: JSX rendering, the `useState` hooks and `useNavigate`. The form state is a value passed in and returned.
- `handleChange` (lines 121-125) is not modelled. It edits top-level fields, not the hours rows. It also writes "" under its field's error key, including `cuisine_type` and `address_line2`, which `validate` never reports. The model's `Key` type has no such keys, so an error map holding them cannot be represented.
- The network request, `alert`, `console.error` and navigation in `handleSubmit` are not modelled. `HandleSubmit` returns the request it would send.
- `new Date().toISOString()` and `Date.now()` are parameters of `HandleSubmit`.
- The `daysOfWeek` dropdown data is not modelled. A day is any string, and "" is the unselected placeholder.
- Validate and HandleSubmit: the engine's sort algorithm is replaced by an insertion sort that calls the same comparator. What the model relies on, and what the properties assume of any arrangement, is only that the result is a permutation sorted by opening time.
- Regular expressions in general are not modelled; the three patterns are written out as predicates.
- Strings are sequences of characters. JavaScript compares UTF-16 code units, and the model does not distinguish the two above U+FFFF.
- `byDay` is modelled as a map plus its key list in insertion order. The model does not capture `Object.entries` putting integer-like day names first: the days write disjoint keys, so the order does not change the result.
- Day names that name inherited object properties are not modelled. The dropdown offers only weekday names.
- HoursChange: requires idx to be an existing row, which are the only indices the rendered rows pass; an out-of-range index, which would grow a sparse JavaScript array, is not modelled.
- `app/main.py` is not part of this model. It only wires a web server.

## Findings

| source | as written | input that shows it | evidently intended | confidence | as-written member | corrected member |
|---|---|---|---|---|---|---|
| frontend/src/AddRestaurantForm.js:152-156 | `removeHoursRow(idx)` deletes the keys `oh.idx.*` but leaves the keys of later rows at their old indices, while those rows move down by one | three rows, a "Day is required." message on row 1, remove row 0: the message stays at `oh.1.d` and is shown beside the former row 2, which has its day set | later rows' messages move down with their rows | medium, not executed | HoursEditor.RemoveMisplacesMessages | HoursEditor.RemoveHoursRowRenumbered |
