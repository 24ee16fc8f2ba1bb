/** The record editor of src/components/ActivityModal.tsx: its three input
    fields, the effect that prefills or resets them when the editor opens,
    and the submit guard. The clock reading of the create-mode default is the
    pair of parameters `hours` and `minutes`. */
module Editor {
  import opened Types
  import opened TimeOrder

  // ---------------------------------------------------------------------
  // String.prototype.trim

  /** The white space and line terminators `trim` strips. */
  predicate IsWhitespace(c: char)
  {
    || c == ' ' || c == '\t' || c == '\n' || c == '\r' || c == '\U{000B}' || c == '\U{000C}'
    || c == '\U{00A0}' || c == '\U{1680}' || '\U{2000}' <= c <= '\U{200A}'
    || c == '\U{2028}' || c == '\U{2029}' || c == '\U{202F}' || c == '\U{205F}'
    || c == '\U{3000}' || c == '\U{FEFF}'
  }

  /** Drops leading white space: the result is a suffix of `s`, everything
      dropped is white space, and the result does not start with white space. */
  function TrimStart(s: string): (r: string)
    ensures |r| <= |s| && r == s[|s| - |r|..]
    ensures forall i :: 0 <= i < |s| - |r| ==> IsWhitespace(s[i])
    ensures r != [] ==> !IsWhitespace(r[0])
  {
    if s != [] && IsWhitespace(s[0]) then TrimStart(s[1..]) else s
  }

  /** Drops trailing white space: the result is a prefix of `s`, everything
      dropped is white space, and the result does not end with white space. */
  function TrimEnd(s: string): (r: string)
    ensures |r| <= |s| && r == s[..|r|]
    ensures forall i :: |r| <= i < |s| ==> IsWhitespace(s[i])
    ensures r != [] ==> !IsWhitespace(r[|r| - 1])
  {
    if s != [] && IsWhitespace(s[|s| - 1]) then TrimEnd(s[..|s| - 1]) else s
  }

  function Trim(s: string): string
  {
    TrimEnd(TrimStart(s))
  }

  /** Some character of `s` is not white space. */
  predicate HasVisible(s: string)
  {
    exists i :: 0 <= i < |s| && !IsWhitespace(s[i])
  }

  /** `s.trim()` is truthy exactly when `s` has a character that is not white space. */
  lemma TrimNonEmptyIff(s: string)
    ensures Trim(s) != [] <==> HasVisible(s)
  {
    var t := TrimStart(s);
    var r := TrimEnd(t);
    if r != [] {
      assert t[0] == r[0] && !IsWhitespace(s[|s| - |t|]);
    } else {
      assert |t| == 0;
    }
  }

  // ---------------------------------------------------------------------
  // `${String(h).padStart(2, '0')}:${String(m).padStart(2, '0')}`

  function DigitChar(d: nat): (c: char)
    requires d < 10
    ensures IsDigit(c) && DigitValue(c) == d
  {
    (('0' as int) + d) as char
  }

  /** `String(n)` for a natural number: its decimal digits, most significant first. */
  function DecimalString(n: nat): (r: string)
    ensures |r| >= 1 && forall i :: 0 <= i < |r| ==> IsDigit(r[i])
    ensures n < 10 <==> |r| == 1
  {
    if n < 10 then [DigitChar(n)] else DecimalString(n / 10) + [DigitChar(n % 10)]
  }

  /** The value of a string of decimal digits. */
  function DecimalValue(s: string): nat
    requires forall i :: 0 <= i < |s| ==> IsDigit(s[i])
  {
    if s == [] then 0 else DecimalValue(s[..|s| - 1]) * 10 + DigitValue(s[|s| - 1])
  }

  /** Reading back the digits `String(n)` writes gives `n`. */
  lemma {:induction false} DecimalRoundTrip(n: nat)
    ensures DecimalValue(DecimalString(n)) == n
  {
    if n >= 10 {
      DecimalRoundTrip(n / 10);
      var s := DecimalString(n);
      assert s[..|s| - 1] == DecimalString(n / 10);
    }
  }

  /** `s.padStart(width, fill)` with a one-character `fill`. */
  function PadStart(s: string, width: nat, fill: char): (r: string)
    ensures |r| == if |s| >= width then |s| else width
    ensures r[|r| - |s|..] == s
    ensures forall i :: 0 <= i < |r| - |s| ==> r[i] == fill
  {
    if |s| >= width then s else [fill] + PadStart(s, width - 1, fill)
  }

  /** `String(n).padStart(2, '0')`. */
  function TwoDigitString(n: nat): string
  {
    PadStart(DecimalString(n), 2, '0')
  }

  /** The create-mode default time for a clock reading. */
  function ClockTime(hours: nat, minutes: nat): string
  {
    TwoDigitString(hours) + ":" + TwoDigitString(minutes)
  }

  /** Below 100, two zero-padded digits that read back as `n`. */
  lemma TwoDigits(n: nat)
    requires n < 100
    ensures var r := TwoDigitString(n);
      |r| == 2 && IsDigit(r[0]) && IsDigit(r[1]) && DigitValue(r[0]) * 10 + DigitValue(r[1]) == n
  {
    var d := DecimalString(n);
    if n < 10 {
      assert d == [DigitChar(n)];
      assert PadStart(d, 2, '0') == ['0'] + PadStart(d, 1, '0') == ['0', DigitChar(n)];
    } else {
      var hi, lo := n / 10, n % 10;
      assert hi < 10 && hi * 10 + lo == n;
      assert DecimalString(hi) == [DigitChar(hi)];
      assert d == [DigitChar(hi), DigitChar(lo)];
      assert PadStart(d, 2, '0') == d;
    }
  }

  /** For a real clock reading the default is a well-formed `HH:MM` of length 5
      with `:` at index 2, and it denotes that minute of the day. */
  lemma ClockTimeWellFormed(hours: nat, minutes: nat)
    requires hours < 24 && minutes < 60
    ensures var t := ClockTime(hours, minutes);
      |t| == 5 && t[2] == ':' && WellFormedTime(t) && MinuteOfDay(t) == hours * 60 + minutes
  {
    var h, m := TwoDigitString(hours), TwoDigitString(minutes);
    TwoDigits(hours);
    TwoDigits(minutes);
    JoinPairs(h, m);
    FiveCharTime(h[0], h[1], m[0], m[1], hours, minutes);
  }

  lemma JoinPairs(h: string, m: string)
    requires |h| == 2 && |m| == 2
    ensures h + ":" + m == [h[0], h[1], ':', m[0], m[1]]
  {
  }

  /** The time string built from two digit pairs denotes their hours and minutes. */
  lemma FiveCharTime(h0: char, h1: char, m0: char, m1: char, hours: nat, minutes: nat)
    requires IsDigit(h0) && IsDigit(h1) && IsDigit(m0) && IsDigit(m1)
    requires DigitValue(h0) * 10 + DigitValue(h1) == hours < 24
    requires DigitValue(m0) * 10 + DigitValue(m1) == minutes < 60
    ensures WellFormedTime([h0, h1, ':', m0, m1])
    ensures MinuteOfDay([h0, h1, ':', m0, m1]) == hours * 60 + minutes
  {
  }

  /** `initialData.description || ''`. */
  function DescriptionText(d: Option<string>): (r: string)
    ensures d.Some? ==> r == d.value
    ensures d.None? ==> r == ""
  {
    match d
    case None => ""
    case Some(text) => text
  }

  // ---------------------------------------------------------------------
  // The component's state

  class ActivityEditor {
    var name: string
    var time: string
    var description: string

    constructor ()
      ensures name == "" && time == "" && description == ""
    {
      name, time, description := "", "", "";
    }

    /** The effect run when the editor opens: prefill from the record being
        edited, or clear the fields and default the time to the clock. */
    method Reset(initialData: Option<Activity>, hours: nat, minutes: nat)
      modifies this
      ensures initialData.Some? ==>
        && name == initialData.value.name
        && time == initialData.value.time
        && description == DescriptionText(initialData.value.description)
      ensures initialData.None? ==> name == "" && description == "" && time == ClockTime(hours, minutes)
    {
      if initialData.Some? {
        name := initialData.value.name;
        time := initialData.value.time;
        description := DescriptionText(initialData.value.description);
      } else {
        name := "";
        description := "";
        var h := TwoDigitString(hours);
        var m := TwoDigitString(minutes);
        time := h + ":" + m;
      }
    }

    /** The submit handler: `Some(draft)` means `onSave(draft)` and then
        `onClose()` were called, `None` that neither was. */
    method Submit() returns (saved: Option<Draft>)
      ensures saved.Some? <==> HasVisible(name) && HasVisible(time)
      ensures saved.Some? ==> saved.value == Draft(name, time, description)
    {
      TrimNonEmptyIff(name);
      TrimNonEmptyIff(time);
      if Trim(name) != [] && Trim(time) != [] {
        saved := Some(Draft(name, time, description));
      } else {
        saved := None;
      }
    }
  }
}
