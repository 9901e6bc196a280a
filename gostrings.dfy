/** The pieces of Go's `strings` and `strconv` packages that the core relies on:
    `strings.Split` with a one-character separator, `strings.Join` (its inverse),
    `strings.ToLower` (ASCII letters only) and `strconv.Atoi` on a 64-bit `int`. */
module GoStrings {
  import opened Wrappers

  /** Number of occurrences of `c` in `s`. */
  function Count(s: string, c: char): nat
    decreases |s|
  {
    if |s| == 0 then 0 else (if s[0] == c then 1 else 0) + Count(s[1..], c)
  }

  /** `strings.Join(parts, string(sep))`. */
  function Join(parts: seq<string>, sep: char): string
    decreases |parts|
  {
    if |parts| == 0 then ""
    else if |parts| == 1 then parts[0]
    else parts[0] + [sep] + Join(parts[1..], sep)
  }

  /** `strings.Split(s, string(sep))`: always one more part than there are separators,
      no part holds a separator, and joining the parts gives `s` back. */
  function Split(s: string, sep: char): (parts: seq<string>)
    ensures |parts| == Count(s, sep) + 1
    ensures forall i :: 0 <= i < |parts| ==> sep !in parts[i]
    ensures Join(parts, sep) == s
    decreases |s|
  {
    if |s| == 0 then [""]
    else
      var rest := Split(s[1..], sep);
      if s[0] == sep then
        assert s == [sep] + s[1..];
        [""] + rest
      else
        var parts := [[s[0]] + rest[0]] + rest[1..];
        assert parts[1..] == rest[1..];
        assert s == [s[0]] + s[1..];
        parts
  }

  /** Splitting a text that starts with a separator-free `a` glues `a` onto the first part. */
  lemma {:induction false} SplitSepFreePrefix(a: string, t: string, sep: char)
    requires sep !in a
    ensures Split(a + t, sep) == [a + Split(t, sep)[0]] + Split(t, sep)[1..]
    decreases |a|
  {
    if |a| > 0 {
      SplitSepFreePrefix(a[1..], t, sep);
      assert (a + t)[1..] == a[1..] + t;
      assert (a + t)[0] == a[0];
      assert [a[0]] + (a[1..] + Split(t, sep)[0]) == a + Split(t, sep)[0];
    } else {
      assert a + t == t;
      assert a + Split(t, sep)[0] == Split(t, sep)[0];
    }
  }

  /** Split undoes Join for separator-free parts (the other half of the round trip). */
  lemma {:induction false} SplitJoin(parts: seq<string>, sep: char)
    requires |parts| >= 1
    requires forall i :: 0 <= i < |parts| ==> sep !in parts[i]
    ensures Split(Join(parts, sep), sep) == parts
    decreases |parts|
  {
    var a := parts[0];
    if |parts| == 1 {
      SplitSepFreePrefix(a, "", sep);
      assert a + "" == a;
    } else {
      var tail := parts[1..];
      var rest := Join(tail, sep);
      assert Join(parts, sep) == a + ([sep] + rest);
      SplitJoin(tail, sep);
      var t := [sep] + rest;
      SplitSepFreePrefix(a, t, sep);
      assert t[0] == sep && t[1..] == rest;
      assert Split(t, sep) == [""] + Split(rest, sep);
      assert Split(t, sep)[0] == "" && Split(t, sep)[1..] == tail;
      assert a + "" == a;
      assert parts == [a] + tail;
    }
  }

  /** A separator-free field followed by a separator splits off as the first part. */
  lemma SplitField(a: string, t: string, sep: char)
    requires sep !in a
    ensures Split(a + [sep] + t, sep) == [a] + Split(t, sep)
  {
    var u := [sep] + t;
    SplitSepFreePrefix(a, u, sep);
    assert u[0] == sep && u[1..] == t;
    assert Split(u, sep) == [""] + Split(t, sep);
    assert a + "" == a;
    assert a + [sep] + t == a + u;
  }

  /** A separator-free last field splits off as the last part. */
  lemma {:induction false} SplitSnoc(x: string, e: string, sep: char)
    requires sep !in e
    ensures Split(x + [sep] + e, sep) == Split(x, sep) + [e]
    decreases |x|
  {
    var s := x + [sep] + e;
    if |x| == 0 {
      assert s == "" + [sep] + e;
      SplitField("", e, sep);
      SplitSepFreePrefix(e, "", sep);
      assert e + "" == e;
    } else {
      SplitSnoc(x[1..], e, sep);
      assert s[0] == x[0] && s[1..] == x[1..] + [sep] + e;
      var rest := Split(x[1..], sep);
      if x[0] != sep {
        assert (rest + [e])[0] == rest[0];
        assert (rest + [e])[1..] == rest[1..] + [e];
      }
    }
  }

  /** Three separator-free strings joined with `sep` split back into exactly themselves. */
  lemma SplitThree(a: string, b: string, c: string, sep: char)
    requires sep !in a && sep !in b && sep !in c
    ensures Split(a + [sep] + b + [sep] + c, sep) == [a, b, c]
  {
    var parts := [a, b, c];
    assert Join(parts[2..], sep) == c;
    assert Join(parts[1..], sep) == b + [sep] + c;
    assert Join(parts, sep) == a + [sep] + b + [sep] + c;
    SplitJoin(parts, sep);
  }

  function LowerChar(c: char): char {
    if 'A' <= c <= 'Z' then (c as int + 32) as char else c
  }

  /** `strings.ToLower`, restricted to the ASCII letters. */
  function ToLower(s: string): (r: string)
    ensures |r| == |s|
    ensures forall i :: 0 <= i < |s| ==> r[i] == LowerChar(s[i])
  {
    seq(|s|, i requires 0 <= i < |s| => LowerChar(s[i]))
  }

  // ---------------------------------------------------------------------------
  // strconv.Atoi on a 64-bit int

  const MinInt: int := -0x8000_0000_0000_0000
  const MaxInt: int := 0x7fff_ffff_ffff_ffff

  predicate IsDigit(c: char) { '0' <= c <= '9' }

  predicate AllDigits(s: string) {
    forall i :: 0 <= i < |s| ==> IsDigit(s[i])
  }

  /** Value of a string of decimal digits, most significant first. */
  function DigitsValue(s: string): nat
    requires AllDigits(s)
    decreases |s|
  {
    if |s| == 0 then 0 else DigitsValue(s[..|s| - 1]) * 10 + (s[|s| - 1] as int - '0' as int)
  }

  /** `strconv.Atoi`: an optional `+` or `-`, then at least one decimal digit, and a value
      that fits a 64-bit `int`; anything else (a space, a trailing newline, an empty string,
      an overflow) is an error. */
  function Atoi(s: string): (r: Option<int>)
    ensures r.Some? ==> MinInt <= r.value <= MaxInt
    ensures r.Some? ==> |s| > 0 && IsDigit(s[|s| - 1])
    ensures r.Some? ==> s[0] == '+' || s[0] == '-' || IsDigit(s[0])
    ensures r.Some? ==> forall i :: 0 < i < |s| ==> IsDigit(s[i])
  {
    if |s| == 0 then None
    else
      var digits := if s[0] == '+' || s[0] == '-' then s[1..] else s;
      if |digits| == 0 || !AllDigits(digits) then None
      else
        var v: int := if s[0] == '-' then -(DigitsValue(digits) as int) else DigitsValue(digits);
        if MinInt <= v <= MaxInt then Some(v) else None
  }

  function DigitChar(d: nat): char
    requires d < 10
  {
    ('0' as int + d) as char
  }

  /** Decimal digits of `n` without leading zeros (the digits `strconv.Itoa` prints). */
  function NatToDecimal(n: nat): string
    decreases n
  {
    if n < 10 then [DigitChar(n)] else NatToDecimal(n / 10) + [DigitChar(n % 10)]
  }

  /** `strconv.Itoa`. */
  function Itoa(n: int): string {
    if n < 0 then "-" + NatToDecimal(-n) else NatToDecimal(n)
  }

  lemma {:induction false} NatToDecimalValue(n: nat)
    ensures |NatToDecimal(n)| > 0 && AllDigits(NatToDecimal(n))
    ensures DigitsValue(NatToDecimal(n)) == n
    decreases n
  {
    if n >= 10 {
      NatToDecimalValue(n / 10);
      var s := NatToDecimal(n);
      assert s[..|s| - 1] == NatToDecimal(n / 10);
    }
  }

  /** Itoa prints only digits and a leading minus sign. */
  lemma ItoaChars(n: int)
    ensures forall i :: 0 <= i < |Itoa(n)| ==> IsDigit(Itoa(n)[i]) || Itoa(n)[i] == '-'
  {
    if n < 0 {
      NatToDecimalValue(-n);
      assert forall i :: 1 <= i < |Itoa(n)| ==> Itoa(n)[i] == NatToDecimal(-n)[i - 1];
    } else {
      NatToDecimalValue(n);
    }
  }

  /** Atoi accepts every run of digits whose value fits, leading zeros included, and gives
      that value. */
  lemma AtoiDigits(d: string)
    requires |d| > 0 && AllDigits(d) && DigitsValue(d) <= MaxInt
    ensures Atoi(d) == Some(DigitsValue(d) as int)
  {
    assert IsDigit(d[0]);
  }

  /** The same run after a `+` or a `-` gives its value or its negation. */
  lemma AtoiSignedDigits(sign: char, d: string)
    requires sign == '+' || sign == '-'
    requires |d| > 0 && AllDigits(d)
    requires MinInt <= (if sign == '-' then -(DigitsValue(d) as int) else DigitsValue(d)) <= MaxInt
    ensures Atoi([sign] + d) == Some(if sign == '-' then -(DigitsValue(d) as int) else DigitsValue(d))
  {
    var s := [sign] + d;
    assert s[0] == sign && s[1..] == d;
  }

  /** A run of digits too large for a 64-bit `int` is refused (Go's `ErrRange`). */
  lemma AtoiDigitsOverflow(d: string)
    requires |d| > 0 && AllDigits(d) && DigitsValue(d) > MaxInt
    ensures Atoi(d) == None
  {
    assert IsDigit(d[0]);
  }

  /** So is a signed run whose signed value does not fit. */
  lemma AtoiSignedOverflow(sign: char, d: string)
    requires sign == '+' || sign == '-'
    requires |d| > 0 && AllDigits(d)
    requires !(MinInt <= (if sign == '-' then -(DigitsValue(d) as int) else DigitsValue(d)) <= MaxInt)
    ensures Atoi([sign] + d) == None
  {
    var s := [sign] + d;
    assert s[0] == sign && s[1..] == d;
  }

  /** Atoi reads back every 64-bit integer that Itoa prints. */
  lemma AtoiItoa(n: int)
    requires MinInt <= n <= MaxInt
    ensures Atoi(Itoa(n)) == Some(n)
  {
    if n < 0 {
      NatToDecimalValue(-n);
      assert Itoa(n)[1..] == NatToDecimal(-n);
    } else {
      NatToDecimalValue(n);
    }
  }
}
