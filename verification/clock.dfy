/** Times of day. The source keeps them as zero-padded "HH:MM" strings and
    compares them as strings (Python `<`, `<=`); the model keeps minutes since
    midnight. ClockOrderAgrees shows that the two orders are the same for
    every zero-padded time, which is what licenses the change of type. */
module Clock {

  /** A time of day in minutes since midnight, 00:00 .. 23:59. */
  type Minutes = t: int | 0 <= t < 24 * 60

  function Digit(d: int): (c: char)
    requires 0 <= d < 10
    ensures '0' <= c <= '9'
  {
    ('0' as int + d) as char
  }

  /** The zero-padded "HH:MM" text of a time. */
  function ClockText(t: Minutes): (s: string)
    ensures |s| == 5 && s[2] == ':'
  {
    var h, m := t / 60, t % 60;
    [Digit(h / 10), Digit(h % 10), ':', Digit(m / 10), Digit(m % 10)]
  }

  /** Python's `<` on strings: code-point lexicographic order, with a
      proper prefix ordered first. */
  predicate LexLess(a: string, b: string)
  {
    if a == [] then b != []
    else if b == [] then false
    else a[0] < b[0] || (a[0] == b[0] && LexLess(a[1..], b[1..]))
  }

  /** Order of the four digits of two clock texts, read as a tuple. */
  predicate DigitsLess(a: seq<char>, b: seq<char>)
    requires |a| == 5 && |b| == 5
  {
    a[0] < b[0]
    || (a[0] == b[0] && a[1] < b[1])
    || (a[0] == b[0] && a[1] == b[1] && a[3] < b[3])
    || (a[0] == b[0] && a[1] == b[1] && a[3] == b[3] && a[4] < b[4])
  }

  lemma LexLessOfClockTexts(a: Minutes, b: Minutes)
    ensures LexLess(ClockText(a), ClockText(b)) <==> DigitsLess(ClockText(a), ClockText(b))
  {
    var x, y := ClockText(a), ClockText(b);
    var x1, y1 := x[1..], y[1..];
    var x2, y2 := x1[1..], y1[1..];
    var x3, y3 := x2[1..], y2[1..];
    var x4, y4 := x3[1..], y3[1..];
    assert x4[1..] == [] == y4[1..];
    assert !LexLess(x4[1..], y4[1..]);
    assert LexLess(x4, y4) <==> x[4] < y[4];
    assert LexLess(x3, y3) <==> x[3] < y[3] || (x[3] == y[3] && x[4] < y[4]);
    assert x2[0] == ':' == y2[0];
    assert LexLess(x2, y2) <==> LexLess(x3, y3);
    assert LexLess(x1, y1) <==> x[1] < y[1] || (x[1] == y[1] && LexLess(x2, y2));
  }

  lemma DigitsLessIsMinutesLess(a: Minutes, b: Minutes)
    ensures DigitsLess(ClockText(a), ClockText(b)) <==> a < b
  {
    var ha, ma, hb, mb := a / 60, a % 60, b / 60, b % 60;
    assert a == 600 * (ha / 10) + 60 * (ha % 10) + 10 * (ma / 10) + ma % 10;
    assert b == 600 * (hb / 10) + 60 * (hb % 10) + 10 * (mb / 10) + mb % 10;
    assert ma / 10 < 6 && mb / 10 < 6;
  }

  /** String order on zero-padded times is minute order. */
  lemma ClockOrderAgrees(a: Minutes, b: Minutes)
    ensures LexLess(ClockText(a), ClockText(b)) <==> a < b
  {
    LexLessOfClockTexts(a, b);
    DigitsLessIsMinutesLess(a, b);
  }

  /** Different times have different texts, so `==` on the strings is `==`
      on minutes, and `<=` is `<` or `==` on both sides. */
  lemma ClockTextInjective(a: Minutes, b: Minutes)
    ensures ClockText(a) == ClockText(b) <==> a == b
  {
    if ClockText(a) == ClockText(b) {
      DigitsLessIsMinutesLess(a, b);
      DigitsLessIsMinutesLess(b, a);
    }
  }

  const Seven: Minutes := 7 * 60           // "07:00"
  const ElevenThirty: Minutes := 11 * 60 + 30   // "11:30"
  const TwelveThirty: Minutes := 12 * 60 + 30   // "12:30"
  const Seventeen: Minutes := 17 * 60     // "17:00"
}
