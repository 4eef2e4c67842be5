/**
 * The countdown display: `formatTime` renders a number of seconds as `MM:SS`,
 * each field the decimal rendering of an integer left-padded with '0' to two
 * characters. `ParseTime` reads such a string back; the round trip is proved.
 */
module TimeFormat {
  import opened Wrappers

  predicate IsDigit(c: char) {
    '0' <= c <= '9'
  }

  predicate AllDigits(s: string) {
    forall k :: 0 <= k < |s| ==> IsDigit(s[k])
  }

  function DigitValue(c: char): nat
    requires IsDigit(c)
  {
    c as int - '0' as int
  }

  function DigitChar(d: nat): (c: char)
    requires d < 10
    ensures IsDigit(c) && DigitValue(c) == d
  {
    ('0' as int + d) as char
  }

  /** The decimal rendering of `n`, as JavaScript's `String(n)` gives it for a non-negative integer. */
  function Show(n: nat): (r: string)
    ensures 1 <= |r| && AllDigits(r)
  {
    if n < 10 then [DigitChar(n)] else Show(n / 10) + [DigitChar(n % 10)]
  }

  /** `String(n)` has one digit below 10, at most two below 100, and no leading zero. */
  lemma {:induction false} ShowLength(n: nat)
    ensures |Show(n)| == 1 <==> n < 10
    ensures |Show(n)| <= 2 <==> n < 100
    ensures Show(n)[0] == '0' ==> n == 0
  {
    if n >= 10 {
      ShowLength(n / 10);
    }
  }

  /** The number a string of decimal digits denotes (leading zeros allowed). */
  function Value(s: string): nat
    requires AllDigits(s)
  {
    if s == [] then 0 else 10 * Value(s[..|s| - 1]) + DigitValue(s[|s| - 1])
  }

  /** `String.prototype.padStart(width, fill)` with a one-character fill. */
  function PadStart(s: string, width: nat, fill: char): (r: string)
    ensures |r| == if |s| < width then width else |s|
    ensures r[|r| - |s|..] == s
    ensures forall k :: 0 <= k < |r| - |s| ==> r[k] == fill
  {
    if |s| < width then seq(width - |s|, _ => fill) + s else s
  }

  /**
   * One field of the display: the decimal rendering of `n` padded with '0' to two
   * characters. A rendering has at least one digit, so the padding is at most one
   * '0' (`FieldIsPadStart`).
   */
  function Field(n: nat): (r: string)
    ensures |r| >= 2 && AllDigits(r)
  {
    if n < 10 then "0" + Show(n) else Show(n)
  }

  /** `Field(n)` is `String(n).padStart(2, '0')`. */
  lemma FieldIsPadStart(n: nat)
    ensures Field(n) == PadStart(Show(n), 2, '0')
    ensures |Field(n)| == 2 <==> n < 100
  {
    ShowLength(n);
    var p := PadStart(Show(n), 2, '0');
    if n < 10 {
      assert p == ['0'] + Show(n);
    }
  }

  /** The position of the first ':' in `t`, or `|t|` when there is none. */
  function ColonAt(t: string): (k: nat)
    ensures k <= |t|
    ensures k < |t| ==> t[k] == ':'
    ensures forall j :: 0 <= j < k ==> t[j] != ':'
  {
    if t == [] then 0 else if t[0] == ':' then 0 else 1 + ColonAt(t[1..])
  }

  /** Reads `MM:SS` back into its minutes and seconds: two non-empty digit fields around the first ':'. */
  function ParseTime(t: string): Option<(nat, nat)> {
    var k := ColonAt(t);
    if 0 < k < |t| - 1 && AllDigits(t[..k]) && AllDigits(t[k + 1..]) then
      Some((Value(t[..k]), Value(t[k + 1..])))
    else
      None
  }

  lemma {:induction false} ValueOfShow(n: nat)
    ensures Value(Show(n)) == n
  {
    if n >= 10 {
      var s := Show(n);
      assert s[..|s| - 1] == Show(n / 10);
      ValueOfShow(n / 10);
    }
  }

  lemma {:induction false} ValueOfZeros(z: string)
    requires forall k :: 0 <= k < |z| ==> z[k] == '0'
    ensures AllDigits(z) && Value(z) == 0
  {
    if z != [] {
      ValueOfZeros(z[..|z| - 1]);
    }
  }

  lemma {:induction false} ValueIgnoresLeadingZeros(z: string, s: string)
    requires forall k :: 0 <= k < |z| ==> z[k] == '0'
    requires AllDigits(s)
    ensures AllDigits(z + s) && Value(z + s) == Value(s)
  {
    if s == [] {
      assert z + s == z;
      ValueOfZeros(z);
    } else {
      assert (z + s)[..|z + s| - 1] == z + s[..|s| - 1];
      ValueIgnoresLeadingZeros(z, s[..|s| - 1]);
    }
  }

  /** Padding with zeros does not change the number a field denotes. */
  lemma ValueOfField(n: nat)
    ensures Value(Field(n)) == n
  {
    ValueOfShow(n);
    if n < 10 {
      ValueIgnoresLeadingZeros("0", Show(n));
    }
  }

  /** In a string of digits followed by ':', the first ':' is the one after the digits. */
  lemma {:induction false} ColonAfterDigits(a: string, b: string)
    requires AllDigits(a)
    ensures ColonAt(a + ":" + b) == |a|
  {
    if a != [] {
      assert (a + ":" + b)[1..] == a[1..] + ":" + b;
      ColonAfterDigits(a[1..], b);
    }
  }

  /** Two digit fields around a ':' parse to the numbers they denote. */
  lemma ParseFields(t: string, a: string, b: string)
    requires 1 <= |a| && AllDigits(a)
    requires 1 <= |b| && AllDigits(b)
    requires t == a + ":" + b
    ensures ParseTime(t) == Some((Value(a), Value(b)))
  {
    ColonAfterDigits(a, b);
    var k := ColonAt(t);
    assert k == |a|;
    assert t[..k] == a;
    assert t[k + 1..] == b;
    assert 0 < k < |t| - 1;
    assert AllDigits(t[..k]) && AllDigits(t[k + 1..]);
  }

  /** Joined fields parse back to the minutes and seconds they were made from. */
  lemma ParseJoin(m: nat, s: nat)
    ensures ParseTime(Field(m) + ":" + Field(s)) == Some((m, s))
  {
    var a, b := Field(m), Field(s);
    ValueOfField(m);
    ValueOfField(s);
    ParseFields(a + ":" + b, a, b);
  }

  lemma DivMod60(sec: nat, m: nat, s: nat)
    requires m == sec / 60 && s == sec % 60
    ensures sec == 60 * m + s && s < 60
    ensures sec < 6000 <==> m < 100
  {
  }

  /** Two-digit seconds after the ':', at least two digits of minutes before it. */
  lemma JoinShape(m: nat, s: nat)
    requires s < 60
    ensures var t := Field(m) + ":" + Field(s);
            |t| >= 5 && t[|t| - 3] == ':' && (|t| == 5 <==> m < 100)
  {
    FieldIsPadStart(m);
    FieldIsPadStart(s);
    var a, b := Field(m), Field(s);
    var t := a + ":" + b;
    assert t[|a|] == ':';
  }

  /**
   * The template `${m}:${s}` of `formatTime` over two fields. It reads back as
   * the minutes `m` and the seconds `s`, and with seconds below 60 it has the
   * `MM:SS` shape: ':' three characters from the end, five characters exactly
   * when `m < 100`.
   */
  function Join(m: nat, s: nat): (r: string)
    ensures ParseTime(r) == Some((m, s))
    ensures s < 60 ==> |r| >= 5 && r[|r| - 3] == ':' && (|r| == 5 <==> m < 100)
  {
    ParseJoin(m, s);
    if s < 60 then
      JoinShape(m, s);
      Field(m) + ":" + Field(s)
    else
      Field(m) + ":" + Field(s)
  }

  /**
   * index.js `formatTime`: minutes and seconds, each padded to two digits, joined
   * by ':'. It reads back as the minutes `sec / 60` and the seconds `sec % 60`;
   * the seconds are below 60 and the two fields give back `sec`. It is `MM:SS`,
   * five characters with ':' at index 2 exactly when `sec < 6000`.
   */
  function FormatTime(sec: nat): (r: string)
    ensures ParseTime(r) == Some((sec / 60, sec % 60))
    ensures ParseTime(r).value.1 < 60 && 60 * ParseTime(r).value.0 + ParseTime(r).value.1 == sec
    ensures |r| >= 5 && r[|r| - 3] == ':' && (|r| == 5 <==> sec < 6000)
  {
    DivMod60(sec, sec / 60, sec % 60);
    Join(sec / 60, sec % 60)
  }
}
