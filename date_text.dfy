/**
 * The one timestamp text format of the application, "YYYY-MM-DD HH:MM",
 * and the ISO form "YYYY-MM-DDTHH:MM" that `Date` reads it through.
 */
module DateText {
  import opened Wrappers
  import opened Decimal
  import opened Calendar

  /** `s.replace(a, b)` with a one-character pattern: only the first occurrence is replaced. */
  function ReplaceFirst(s: string, a: char, b: char): (r: string)
    ensures |r| == |s|
    ensures a !in s ==> r == s
  {
    if s == [] then []
    else if s[0] == a then [b] + s[1..]
    else [s[0]] + ReplaceFirst(s[1..], a, b)
  }

  /**
   * `new Date(s)` on the one form the application stores, "YYYY-MM-DDTHH:MM"
   * with four-digit year and two-digit fields, an hour below 24 and a day that
   * exists in its month: the instant it names. Every other string reads as None
   * here, including forms `Date` itself accepts.
   */
  function ReadIsoMinutes(s: string): (r: Option<DateTime>)
    ensures r.Some? ==> Valid(r.value) && r.value.second == 0 && r.value.ms == 0
  {
    if |s| == 16 && s[4] == '-' && s[7] == '-' && s[10] == 'T' && s[13] == ':'
       && IsDigits(s[..4]) && IsDigits(s[5..7]) && IsDigits(s[8..10])
       && IsDigits(s[11..13]) && IsDigits(s[14..])
    then
      var y, mo, d := DigitsValue(s[..4]), DigitsValue(s[5..7]), DigitsValue(s[8..10]);
      var h, mi := DigitsValue(s[11..13]), DigitsValue(s[14..]);
      if 1 <= mo <= 12 && 1 <= d <= DaysInMonth(y, mo - 1) && h < 24 && mi < 60
      then Some(DateTime(y, mo - 1, d, h, mi, 0, 0))
      else None
    else None
  }

  /** Any string the reader accepts has sixteen characters with its separators in place. */
  lemma ReadIsoMinutesShape(s: string)
    requires ReadIsoMinutes(s).Some?
    ensures |s| == 16 && s[4] == '-' && s[7] == '-' && s[10] == 'T' && s[13] == ':'
  {
  }

  /** `t.toISOString().slice(0, 16)` for a time-zone-free instant. */
  function IsoMinutes(t: DateTime): (s: string)
    requires Valid(t) && t.year < 10000
    ensures |s| == 16
  {
    Padded(t.year, 4) + "-" + Padded(t.month + 1, 2) + "-" + Padded(t.day, 2)
      + "T" + Padded(t.hour, 2) + ":" + Padded(t.minute, 2)
  }

  /** The stored form: `t.toISOString().slice(0, 16).replace('T', ' ')`. */
  function StampText(t: DateTime): (s: string)
    requires Valid(t) && t.year < 10000
    ensures |s| == 16
  {
    ReplaceFirst(IsoMinutes(t), 'T', ' ')
  }

  /** The fields of a "YYYY-MM-DDTHH:MM"-shaped concatenation sit at their fixed offsets. */
  lemma Fields(a: string, b: string, c: string, d: string, e: string, x: char, y: char, z: char, u: char)
    requires |a| == 4 && |b| == 2 && |c| == 2 && |d| == 2 && |e| == 2
    ensures var s := a + [x] + b + [y] + c + [z] + d + [u] + e;
      && s[..4] == a && s[4] == x && s[5..7] == b && s[7] == y && s[8..10] == c
      && s[10] == z && s[11..13] == d && s[13] == u && s[14..] == e
  {
    var s := a + [x] + b + [y] + c + [z] + d + [u] + e;
    assert s[..4] == a;
    assert s[5..7] == b;
    assert s[8..10] == c;
    assert s[11..13] == d;
    assert s[14..] == e;
  }

  /** Conversely, a string of sixteen characters is the concatenation of its fields. */
  lemma Rejoined(s: string)
    requires |s| == 16
    ensures s == s[..4] + [s[4]] + s[5..7] + [s[7]] + s[8..10] + [s[10]] + s[11..13] + [s[13]] + s[14..]
  {
    Fields(s[..4], s[5..7], s[8..10], s[11..13], s[14..], s[4], s[7], s[10], s[13]);
  }

  lemma IsoMinutesParts(t: DateTime)
    requires Valid(t) && t.year < 10000
    ensures var s := IsoMinutes(t);
      && s[..4] == Padded(t.year, 4) && s[4] == '-'
      && s[5..7] == Padded(t.month + 1, 2) && s[7] == '-'
      && s[8..10] == Padded(t.day, 2) && s[10] == 'T'
      && s[11..13] == Padded(t.hour, 2) && s[13] == ':'
      && s[14..] == Padded(t.minute, 2)
  {
    Fields(Padded(t.year, 4), Padded(t.month + 1, 2), Padded(t.day, 2), Padded(t.hour, 2),
      Padded(t.minute, 2), '-', '-', 'T', ':');
  }

  /** Writing an instant and reading it back keeps it, down to the minute. */
  lemma WriteThenRead(t: DateTime)
    requires Valid(t) && t.year < 10000
    ensures ReadIsoMinutes(IsoMinutes(t)) == Some(t.(second := 0, ms := 0))
  {
    IsoMinutesParts(t);
  }

  /** Whatever the reader accepts is exactly the writing of what it returns. */
  lemma ReadThenWrite(s: string)
    requires ReadIsoMinutes(s).Some?
    ensures var t := ReadIsoMinutes(s).value;
      t.year < 10000 && IsoMinutes(t) == s
  {
    var t := ReadIsoMinutes(s).value;
    var a, b, c, d, e := s[..4], s[5..7], s[8..10], s[11..13], s[14..];
    assert t == DateTime(DigitsValue(a), DigitsValue(b) - 1, DigitsValue(c), DigitsValue(d), DigitsValue(e), 0, 0);
    FieldsRoundTrip(t, a, b, c, d, e);
    Rejoined(s);
  }

  /** Digit fields that an instant was read from are what writing it puts back. */
  lemma FieldsRoundTrip(t: DateTime, a: string, b: string, c: string, d: string, e: string)
    requires Valid(t) && |a| == 4 && |b| == 2 && |c| == 2 && |d| == 2 && |e| == 2
    requires IsDigits(a) && IsDigits(b) && IsDigits(c) && IsDigits(d) && IsDigits(e)
    requires t.year == DigitsValue(a) && t.month + 1 == DigitsValue(b) && t.day == DigitsValue(c)
    requires t.hour == DigitsValue(d) && t.minute == DigitsValue(e)
    ensures t.year < 10000 && IsoMinutes(t) == a + "-" + b + "-" + c + "T" + d + ":" + e
  {
    PaddedOfDigitsValue(a);
    PaddedOfDigitsValue(b);
    PaddedOfDigitsValue(c);
    PaddedOfDigitsValue(d);
    PaddedOfDigitsValue(e);
    assert Pow10(4) == 10000;
    IsoOfFields(t, a, b, c, d, e);
  }

  /** The writing of an instant whose fields are spelled `a` to `e`. */
  lemma IsoOfFields(t: DateTime, a: string, b: string, c: string, d: string, e: string)
    requires Valid(t) && t.year < 10000
    requires Padded(t.year, 4) == a && Padded(t.month + 1, 2) == b && Padded(t.day, 2) == c
    requires Padded(t.hour, 2) == d && Padded(t.minute, 2) == e
    ensures IsoMinutes(t) == a + "-" + b + "-" + c + "T" + d + ":" + e
  {
  }

  /** Each position of the result is the original character, or a `b` where there was an `a`. */
  lemma {:induction false} ReplaceFirstPointwise(s: string, a: char, b: char, i: nat)
    requires i < |s|
    ensures var r := ReplaceFirst(s, a, b); r[i] == s[i] || (s[i] == a && r[i] == b)
  {
    if i > 0 && s[0] != a {
      ReplaceFirstPointwise(s[1..], a, b, i - 1);
    }
  }

  /** Replacing the first `a` of a string whose first `a` is at position `k`. */
  lemma {:induction false} ReplaceFirstAt(s: string, a: char, b: char, k: nat)
    requires k < |s| && s[k] == a && forall i :: 0 <= i < k ==> s[i] != a
    ensures ReplaceFirst(s, a, b) == s[k := b]
  {
    if k > 0 {
      ReplaceFirstAt(s[1..], a, b, k - 1);
      assert [s[0]] + s[1..][k - 1 := b] == s[k := b];
    }
  }
}
