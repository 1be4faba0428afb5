/**
  The 48 half-hour choices offered by the opening- and closing-time
  dropdowns: index i gives the hour floor(i / 2), written in decimal and
  padded to two digits with "0", then ":" and "30" for odd i, "00" for even i.
 */
module TimeOptions {
  import opened JsString

  function DigitChar(n: nat): char
    requires n < 10
  {
    ('0' as int + n) as char
  }

  /** `String(n)` for a natural number: its decimal digits. */
  function Decimal(n: nat): string
  {
    if n < 10 then [DigitChar(n)] else Decimal(n / 10) + [DigitChar(n % 10)]
  }

  /** `s.padStart(width, fill)` for a one-character fill. */
  function PadStart(s: string, width: nat, fill: char): string
    decreases width - |s|
  {
    if |s| >= width then s else PadStart([fill] + s, width, fill)
  }

  /** The entry of `timeOptions` at index i. */
  function TimeOption(i: nat): string
  {
    PadStart(Decimal(i / 2), 2, '0') + ":" + (if i % 2 == 1 then "30" else "00")
  }

  function TimeOptionList(): seq<string>
  {
    seq(48, i requires 0 <= i < 48 => TimeOption(i))
  }

  function DigitValue(c: char): nat
    requires IsDigit(c)
  {
    c as int - '0' as int
  }

  /** An `HH:MM` string. */
  predicate IsClock(t: string)
  {
    |t| == 5 && IsDigit(t[0]) && IsDigit(t[1]) && t[2] == ':' && IsDigit(t[3]) && IsDigit(t[4])
  }

  /** The clock reading of an `HH:MM` string, in minutes since midnight. */
  function ClockMinutes(t: string): nat
    requires IsClock(t)
  {
    (DigitValue(t[0]) * 10 + DigitValue(t[1])) * 60 + DigitValue(t[3]) * 10 + DigitValue(t[4])
  }

  lemma TwoDigitHour(h: nat)
    requires h < 100
    ensures PadStart(Decimal(h), 2, '0') == [DigitChar(h / 10), DigitChar(h % 10)]
  {
    if h >= 10 {
      assert Decimal(h / 10) == [DigitChar(h / 10)];
    }
  }

  /** The characters of entry i, and the clock time it denotes: 30 * i minutes. */
  lemma TimeOptionShape(i: nat)
    requires i < 48
    ensures TimeOption(i) == [DigitChar(i / 2 / 10), DigitChar(i / 2 % 10), ':', if i % 2 == 1 then '3' else '0', '0']
    ensures IsClock(TimeOption(i))
    ensures TimeOption(i)[3..] == "00" || TimeOption(i)[3..] == "30"
    ensures ClockMinutes(TimeOption(i)) == 30 * i
  {
    TwoDigitHour(i / 2);
  }

  /** There are 48 entries, each an `HH:MM` time on the hour or the half hour. */
  lemma TimeOptionListShape()
    ensures |TimeOptionList()| == 48
    ensures forall i :: 0 <= i < 48 ==> IsClock(TimeOptionList()[i]) && ClockMinutes(TimeOptionList()[i]) == 30 * i
    ensures forall i :: 0 <= i < 48 ==> TimeOptionList()[i][3..] in {"00", "30"}
  {
    forall i | 0 <= i < 48
      ensures IsClock(TimeOptionList()[i]) && ClockMinutes(TimeOptionList()[i]) == 30 * i
      ensures TimeOptionList()[i][3..] in {"00", "30"}
    {
      TimeOptionShape(i);
    }
  }

  /** Under JavaScript string comparison the entries are strictly increasing. */
  lemma TimeOptionsIncrease(i: nat, j: nat)
    requires i < j < 48
    ensures Less(TimeOption(i), TimeOption(j))
  {
    TimeOptionShape(i);
    TimeOptionShape(j);
    var a, b := TimeOption(i), TimeOption(j);
    var hi, hj := i / 2, j / 2;
    assert hi <= hj;
    if hi / 10 < hj / 10 {
      LessAt(a, b, 0);
    } else if hi % 10 < hj % 10 {
      assert a[..1] == b[..1];
      LessAt(a, b, 1);
    } else {
      assert hi == hj;
      assert a[..3] == b[..3];
      LessAt(a, b, 3);
    }
  }

  /** String order on the entries is index order. */
  lemma IndexOrder(i: nat, j: nat)
    requires i < 48 && j < 48
    ensures Less(TimeOption(i), TimeOption(j)) <==> i < j
  {
    if i < j {
      TimeOptionsIncrease(i, j);
    } else if j < i {
      TimeOptionsIncrease(j, i);
      LessAsymmetric(TimeOption(j), TimeOption(i));
    } else {
      LessIrreflexive(TimeOption(i));
    }
  }

  /** The index of an entry of the list. */
  lemma IndexOf(a: string) returns (i: nat)
    requires a in TimeOptionList()
    ensures i < 48 && TimeOption(i) == a
  {
    i :| 0 <= i < 48 && TimeOptionList()[i] == a;
  }

  /**
    For any two entries of the dropdown, plain string comparison agrees with
    clock order: this is what lets the validator compare times as strings.
   */
  lemma StringOrderIsClockOrder(a: string, b: string)
    requires a in TimeOptionList() && b in TimeOptionList()
    ensures IsClock(a) && IsClock(b)
    ensures Less(a, b) <==> ClockMinutes(a) < ClockMinutes(b)
  {
    var i := IndexOf(a);
    var j := IndexOf(b);
    TimeOptionShape(i);
    TimeOptionShape(j);
    IndexOrder(i, j);
  }
}
