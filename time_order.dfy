/** The order the timeline is sorted by. `a.time.localeCompare(b.time)` is
    modelled as lexicographic comparison by character code, which is where it
    and the locale collation agree: on the zero-padded `HH:MM` strings the
    journal stores. */
module TimeOrder {

  /** `a` sorts no later than `b`. */
  predicate LexLe(a: string, b: string)
  {
    if a == [] then true
    else if b == [] then false
    else if a[0] != b[0] then a[0] < b[0]
    else LexLe(a[1..], b[1..])
  }

  lemma {:induction false} LexLeReflexive(a: string)
    ensures LexLe(a, a)
  {
    if a != [] {
      LexLeReflexive(a[1..]);
    }
  }

  lemma {:induction false} LexLeTotal(a: string, b: string)
    ensures LexLe(a, b) || LexLe(b, a)
  {
    if a != [] && b != [] && a[0] == b[0] {
      LexLeTotal(a[1..], b[1..]);
    }
  }

  lemma {:induction false} LexLeTransitive(a: string, b: string, c: string)
    requires LexLe(a, b) && LexLe(b, c)
    ensures LexLe(a, c)
  {
    if a != [] && b != [] && c != [] && a[0] == b[0] && b[0] == c[0] {
      LexLeTransitive(a[1..], b[1..], c[1..]);
    }
  }

  lemma {:induction false} LexLeAntisymmetric(a: string, b: string)
    requires LexLe(a, b) && LexLe(b, a)
    ensures a == b
  {
    if a != [] && b != [] {
      LexLeAntisymmetric(a[1..], b[1..]);
      assert a == [a[0]] + a[1..] && b == [b[0]] + b[1..];
    }
  }

  predicate IsDigit(c: char)
  {
    '0' <= c <= '9'
  }

  function DigitValue(c: char): (d: nat)
    requires IsDigit(c)
    ensures d < 10
  {
    (c as int) - ('0' as int)
  }

  /** A zero-padded 24-hour `HH:MM` string. */
  predicate WellFormedTime(t: string)
  {
    && |t| == 5
    && IsDigit(t[0]) && IsDigit(t[1]) && t[2] == ':' && IsDigit(t[3]) && IsDigit(t[4])
    && DigitValue(t[0]) * 10 + DigitValue(t[1]) < 24
    && DigitValue(t[3]) * 10 + DigitValue(t[4]) < 60
  }

  /** The minute of the day a well-formed `HH:MM` string denotes. */
  function MinuteOfDay(t: string): (m: nat)
    requires WellFormedTime(t)
    ensures m < 24 * 60
  {
    (DigitValue(t[0]) * 10 + DigitValue(t[1])) * 60 + DigitValue(t[3]) * 10 + DigitValue(t[4])
  }

  /** On well-formed times the string order is the chronological order: this
      is why sorting by `localeCompare` puts the day in order. */
  lemma LexLeIsChronological(a: string, b: string)
    requires WellFormedTime(a) && WellFormedTime(b)
    ensures LexLe(a, b) <==> MinuteOfDay(a) <= MinuteOfDay(b)
  {
    var ha, hb := DigitValue(a[0]) * 10 + DigitValue(a[1]), DigitValue(b[0]) * 10 + DigitValue(b[1]);
    var ma, mb := DigitValue(a[3]) * 10 + DigitValue(a[4]), DigitValue(b[3]) * 10 + DigitValue(b[4]);
    assert MinuteOfDay(a) == ha * 60 + ma && MinuteOfDay(b) == hb * 60 + mb;
    if a[0] != b[0] {
      assert LexLe(a, b) == (a[0] < b[0]);
    } else {
      LexLeSkip(a, b, 1);
      if a[1] != b[1] {
        assert LexLe(a[1..], b[1..]) == (a[1] < b[1]);
      } else {
        LexLeSkip(a, b, 2);
        LexLeSkip(a, b, 3);
        if a[3] != b[3] {
          assert a[3..][0] == a[3] && b[3..][0] == b[3];
          assert LexLe(a[3..], b[3..]) == (a[3] < b[3]);
        } else {
          LexLeSkip(a, b, 4);
          assert a[4..] == [a[4]] && b[4..] == [b[4]];
          assert LexLe(a[4..], b[4..]) == (a[4] <= b[4]);
        }
      }
    }
  }

  /** Equal leading characters do not decide the order. */
  lemma {:induction false} LexLeSkip(a: string, b: string, k: nat)
    requires k <= |a| && k <= |b| && a[..k] == b[..k]
    ensures LexLe(a, b) == LexLe(a[k..], b[k..])
  {
    if k > 0 {
      assert a[0] == a[..k][0] && b[0] == b[..k][0];
      assert a[1..][..k - 1] == a[1..k] == a[..k][1..] == b[..k][1..] == b[1..][..k - 1];
      LexLeSkip(a[1..], b[1..], k - 1);
      assert a[1..][k - 1..] == a[k..] && b[1..][k - 1..] == b[k..];
    }
  }
}
