/** Wall-clock times written "HH:MM", as the screens store them.

    The screens turn a time into a value by handing "<date>T" + s to
    JavaScript's Date and comparing or subtracting the results; only the
    minute of the day matters. An unreadable string gives an invalid Date,
    which compares false with everything and subtracts to NaN: here that is
    None. The timeline also reads the hour and minute back with
    parseInt(s.split(':')[k]), and sorts by comparing the strings. */
module Time {

  datatype Option<+T> = None | Some(value: T)

  predicate IsDigit(c: char) { '0' <= c <= '9' }

  function DigitValue(c: char): (v: nat)
    requires IsDigit(c)
    ensures v < 10
  {
    (c as int) - ('0' as int)
  }

  function DigitChar(v: nat): (c: char)
    requires v < 10
    ensures IsDigit(c) && DigitValue(c) == v
  {
    ('0' as int + v) as char
  }

  predicate AllDigits(s: string) { forall i :: 0 <= i < |s| ==> IsDigit(s[i]) }

  /** The number a run of decimal digits denotes. */
  function DigitsValue(s: string): nat
    requires AllDigits(s)
  {
    if s == [] then 0 else 10 * DigitsValue(s[..|s| - 1]) + DigitValue(s[|s| - 1])
  }

  /** Two-digit zero-padded form of 0..99, as padStart(2, '0') writes it. */
  function Pad2(n: nat): (s: string)
    requires n < 100
    ensures |s| == 2 && AllDigits(s)
    ensures DigitValue(s[0]) * 10 + DigitValue(s[1]) == n
  {
    [DigitChar(n / 10), DigitChar(n % 10)]
  }

  /** Minute of the day denoted by "HH:MM", or None when Date cannot read it.
      The date-time string format admits 00:00 to 23:59 and also 24:00, the
      midnight that ends the day. */
  function ParseTime(s: string): (t: Option<int>)
    ensures t.Some? ==> 0 <= t.value <= 1440
    ensures t.Some? ==> |s| == 5 && s[2] == ':' && IsDigit(s[0]) && IsDigit(s[1])
                         && IsDigit(s[3]) && IsDigit(s[4])
    ensures t.Some? ==> t.value / 60 == DigitValue(s[0]) * 10 + DigitValue(s[1])
                         && t.value % 60 == DigitValue(s[3]) * 10 + DigitValue(s[4])
  {
    if |s| == 5 && IsDigit(s[0]) && IsDigit(s[1]) && s[2] == ':' && IsDigit(s[3]) && IsDigit(s[4]) then
      var h := DigitValue(s[0]) * 10 + DigitValue(s[1]);
      var m := DigitValue(s[3]) * 10 + DigitValue(s[4]);
      if h < 24 && m < 60 then Some(h * 60 + m)
      else if h == 24 && m == 0 then Some(1440)
      else None
    else None
  }

  /** The "HH:MM" text of a minute of the day before midnight. */
  function FormatTime(t: int): (s: string)
    requires 0 <= t < 1440
    ensures |s| == 5 && s[2] == ':'
  {
    Pad2(t / 60) + ":" + Pad2(t % 60)
  }

  /** Formatting then parsing gives back the minute. */
  lemma ParseFormatTime(t: int)
    requires 0 <= t < 1440
    ensures ParseTime(FormatTime(t)) == Some(t)
  {
    var s := FormatTime(t);
    assert s[0] == Pad2(t / 60)[0] && s[1] == Pad2(t / 60)[1];
    assert s[3] == Pad2(t % 60)[0] && s[4] == Pad2(t % 60)[1];
  }

  /** Every readable time other than 24:00 is the formatting of its minute:
      the text form is canonical. */
  lemma FormatParseTime(s: string)
    requires ParseTime(s).Some? && ParseTime(s).value < 1440
    ensures FormatTime(ParseTime(s).value) == s
  {
    var t := ParseTime(s).value;
    var f := FormatTime(t);
    assert f[0] == Pad2(t / 60)[0] && f[1] == Pad2(t / 60)[1];
    assert f[3] == Pad2(t % 60)[0] && f[4] == Pad2(t % 60)[1];
    forall i | 0 <= i < 5 ensures f[i] == s[i] {
      if i == 0 || i == 1 || i == 3 || i == 4 {
        DigitCharValue(s[i]);
      }
    }
  }

  lemma DigitCharValue(c: char)
    requires IsDigit(c)
    ensures DigitChar(DigitValue(c)) == c
  {
  }

  // ---------------------------------------------------------------------
  // parseInt(s.split(':')[k])

  /** Length of the run of digits at the front of s. */
  function LeadingDigits(s: string): (n: nat)
    ensures n <= |s| && AllDigits(s[..n])
    ensures n < |s| ==> !IsDigit(s[n])
  {
    if s == [] || !IsDigit(s[0]) then 0
    else
      var n := 1 + LeadingDigits(s[1..]);
      assert s[..n] == [s[0]] + s[1..][..n - 1];
      n
  }

  /** parseInt on a string: the value of its leading digits, NaN (None) when
      it does not start with a digit. */
  function ParseLeadingInt(s: string): (r: Option<nat>)
    ensures r.None? <==> (s == [] || !IsDigit(s[0]))
  {
    var n := LeadingDigits(s);
    if n == 0 then None else Some(DigitsValue(s[..n]))
  }

  /** Position of the first ':' in s, or |s| when there is none. */
  function ColonIndex(s: string): (i: nat)
    ensures i <= |s|
    ensures i < |s| ==> s[i] == ':'
    ensures forall j :: 0 <= j < i ==> s[j] != ':'
  {
    if s == [] then 0 else if s[0] == ':' then 0 else 1 + ColonIndex(s[1..])
  }

  /** s.split(':')[0] */
  function FirstField(s: string): string
  {
    s[..ColonIndex(s)]
  }

  /** s.split(':')[1], None (undefined) when s has no ':'. */
  function SecondField(s: string): Option<string>
  {
    var i := ColonIndex(s);
    if i == |s| then None
    else
      var rest := s[i + 1..];
      Some(rest[..ColonIndex(rest)])
  }

  /** parseInt(s.split(':')[0]): the hour row a timeline block is drawn in. */
  function HourField(s: string): Option<nat>
  {
    ParseLeadingInt(FirstField(s))
  }

  /** parseInt(s.split(':')[1]): the block's pixel offset inside its row. */
  function MinuteField(s: string): Option<nat>
  {
    match SecondField(s)
    case None => None
    case Some(f) => ParseLeadingInt(f)
  }

  lemma TwoDigitsValue(s: string)
    requires |s| == 2 && AllDigits(s)
    ensures LeadingDigits(s) == 2
    ensures DigitsValue(s) == DigitValue(s[0]) * 10 + DigitValue(s[1])
  {
    assert s[1..][1..] == [];
    assert s[..1][..0] == [];
    assert s[..2] == s;
  }

  /** On a readable time, the hour and minute read back by parseInt are the
      quotient and remainder of its minute of the day by 60. */
  lemma FieldsAgreeWithParse(s: string)
    requires ParseTime(s).Some?
    ensures HourField(s) == Some(ParseTime(s).value / 60)
    ensures MinuteField(s) == Some(ParseTime(s).value % 60)
  {
    assert s[0] != ':' && s[1] != ':';
    assert ColonIndex(s[1..]) == 1 + ColonIndex(s[2..]);
    assert ColonIndex(s) == 2;
    var first := s[..2];
    assert FirstField(s) == first && first[..2] == first;
    assert first[0] == s[0] && first[1] == s[1];
    TwoDigitsValue(first);
    var rest := s[3..];
    assert |rest| == 2 && rest[0] == s[3] && rest[1] == s[4];
    assert rest[0] != ':' && rest[1] != ':';
    assert ColonIndex(rest[1..]) == 1 + ColonIndex(rest[2..]);
    assert ColonIndex(rest) == 2;
    assert rest[..2] == rest;
    TwoDigitsValue(rest);
  }

  // ---------------------------------------------------------------------
  // String order used by the day list's sort

  /** a <= b in character-code (lexicographic) order. */
  predicate TextLe(a: string, b: string)
  {
    a == [] || (b != [] && (a[0] < b[0] || (a[0] == b[0] && TextLe(a[1..], b[1..]))))
  }

  lemma {:induction false} TextLeTotal(a: string, b: string)
    ensures TextLe(a, b) || TextLe(b, a)
  {
    if a != [] && b != [] && a[0] == b[0] {
      TextLeTotal(a[1..], b[1..]);
    }
  }

  lemma {:induction false} TextLeTransitive(a: string, b: string, c: string)
    requires TextLe(a, b) && TextLe(b, c)
    ensures TextLe(a, c)
  {
    if a != [] && b != [] && c != [] && a[0] == b[0] && b[0] == c[0] {
      TextLeTransitive(a[1..], b[1..], c[1..]);
    }
  }

  /** TextLe on two readable five-character times. */
  lemma TextLeOnTimes(a: string, b: string)
    requires ParseTime(a).Some? && ParseTime(b).Some?
    ensures TextLe(a, b) <==>
      (a[0] < b[0] || (a[0] == b[0] && (a[1] < b[1] || (a[1] == b[1] &&
        (a[3] < b[3] || (a[3] == b[3] && a[4] <= b[4]))))))
  {
    var a1, b1 := a[1..], b[1..];
    var a2, b2 := a1[1..], b1[1..];
    var a3, b3 := a2[1..], b2[1..];
    var a4, b4 := a3[1..], b3[1..];
    assert a4[1..] == [] && b4[1..] == [];
    assert TextLe(a4, b4) <==> a4[0] <= b4[0];
    assert TextLe(a3, b3) <==> (a3[0] < b3[0] || (a3[0] == b3[0] && TextLe(a4, b4)));
    assert TextLe(a2, b2) <==> TextLe(a3, b3);
    assert TextLe(a1, b1) <==> (a1[0] < b1[0] || (a1[0] == b1[0] && TextLe(a2, b2)));
  }

  /** For readable times, string order is time order: sorting by the text
      sorts by start time. */
  lemma TextOrderIsTimeOrder(a: string, b: string)
    requires ParseTime(a).Some? && ParseTime(b).Some?
    ensures TextLe(a, b) <==> ParseTime(a).value <= ParseTime(b).value
  {
    TextLeOnTimes(a, b);
    var ta, tb := ParseTime(a).value, ParseTime(b).value;
    assert ta == (ta / 60) * 60 + ta % 60;
    assert tb == (tb / 60) * 60 + tb % 60;
  }
}
