/**
 * String helpers shared by the model: ASCII case folding (Java's `toLowerCase(Locale.ENGLISH)`
 * and `equalsIgnoreCase` restricted to ASCII letters), prefix and suffix tests, splitting on a
 * separator, and decimal rendering and parsing of integers (`"" + n`, `Integer.parseInt`).
 */
module Text {
  import opened Wrappers

  predicate IsUpper(c: char) { 'A' <= c <= 'Z' }
  predicate IsLower(c: char) { 'a' <= c <= 'z' }
  predicate IsLetter(c: char) { IsUpper(c) || IsLower(c) }
  predicate IsDigit(c: char) { '0' <= c <= '9' }

  function ToLowerChar(c: char): char {
    if IsUpper(c) then (c as int + 32) as char else c
  }

  /** Lower-cases the ASCII letters of `s` and leaves every other character alone. */
  function ToLower(s: string): (r: string)
    ensures |r| == |s|
    ensures forall i :: 0 <= i < |s| ==> r[i] == ToLowerChar(s[i])
  {
    seq(|s|, i requires 0 <= i < |s| => ToLowerChar(s[i]))
  }

  /** `a.equalsIgnoreCase(b)`: same length, and equal character by character once folded. */
  predicate EqualsIgnoreCase(a: string, b: string) {
    ToLower(a) == ToLower(b)
  }

  lemma EqualsIgnoreCaseIsEquivalence(a: string, b: string, c: string)
    ensures EqualsIgnoreCase(a, a)
    ensures EqualsIgnoreCase(a, b) ==> EqualsIgnoreCase(b, a)
    ensures EqualsIgnoreCase(a, b) && EqualsIgnoreCase(b, c) ==> EqualsIgnoreCase(a, c)
  {
  }

  predicate StartsWith(s: string, prefix: string) {
    |prefix| <= |s| && s[..|prefix|] == prefix
  }

  predicate EndsWith(s: string, suffix: string) {
    |suffix| <= |s| && s[|s| - |suffix|..] == suffix
  }

  /** Index of the first occurrence of `c` in `s`. */
  function IndexOf(s: string, c: char): (k: nat)
    requires c in s
    ensures k < |s| && s[k] == c && c !in s[..k]
  {
    if s[0] == c then 0 else
      assert c in s[1..] by { var j :| 0 <= j < |s| && s[j] == c; assert s[1..][j - 1] == c; }
      var k := IndexOf(s[1..], c);
      assert s[..k + 1] == [s[0]] + s[1..][..k];
      k + 1
  }

  /** Splits `s` at every occurrence of `sep`; empty pieces are kept. */
  function Split(s: string, sep: char): (parts: seq<string>)
    ensures |parts| >= 1
    decreases |s|
  {
    if sep !in s then [s]
    else
      var k := IndexOf(s, sep);
      [s[..k]] + Split(s[k + 1..], sep)
  }

  /** Glues the pieces back together with `sep` between them. */
  function Join(parts: seq<string>, sep: char): string
    requires |parts| >= 1
  {
    if |parts| == 1 then parts[0] else parts[0] + [sep] + Join(parts[1..], sep)
  }

  /** Joining the pieces of a split gives back the string. */
  lemma {:induction false} JoinSplit(s: string, sep: char)
    ensures Join(Split(s, sep), sep) == s
    decreases |s|
  {
    if sep in s {
      var k := IndexOf(s, sep);
      var a, rest := s[..k], s[k + 1..];
      assert s == a + [sep] + rest;
      SplitCons(a, sep, rest);
      JoinSplit(rest, sep);
      assert ([a] + Split(rest, sep))[1..] == Split(rest, sep);
    }
  }

  /** Splitting pieces that hold no separator gives back the pieces. */
  lemma {:induction false} SplitJoin(parts: seq<string>, sep: char)
    requires |parts| >= 1
    requires forall i :: 0 <= i < |parts| ==> sep !in parts[i]
    ensures Split(Join(parts, sep), sep) == parts
  {
    if |parts| > 1 {
      var s := Join(parts, sep);
      var p := parts[0];
      var q := Join(parts[1..], sep);
      assert s == p + [sep] + q;
      assert s[|p|] == sep;
      IndexOfAfter(p, sep, q);
      assert s[..|p|] == p && s[|p| + 1..] == q;
      SplitJoin(parts[1..], sep);
    }
  }

  /** The first `c` of `p + [c] + q` is the one after `p` when `p` has none. */
  lemma {:induction false} IndexOfAfter(p: string, c: char, q: string)
    requires c !in p
    ensures IndexOf(p + [c] + q, c) == |p|
  {
    if p != [] {
      assert (p + [c] + q)[1..] == p[1..] + [c] + q;
      IndexOfAfter(p[1..], c, q);
    }
  }

  /** `IndexOf` finds the one position holding `c` with no `c` before it. */
  lemma IndexOfUnique(s: string, c: char, k: nat)
    requires k < |s| && s[k] == c && c !in s[..k]
    ensures IndexOf(s, c) == k
  {
    var j := IndexOf(s, c);
    assert forall i :: 0 <= i < k ==> s[..k][i] == s[i];
    assert forall i :: 0 <= i < j ==> s[..j][i] == s[i];
  }

  /** Splitting peels off the piece after the last separator. */
  lemma {:induction false} SplitSnoc(s: string, sep: char, b: string)
    requires sep !in b
    ensures Split(s + [sep] + b, sep) == Split(s, sep) + [b]
    decreases |s|
  {
    if sep !in s {
      SplitCons(s, sep, b);
    } else {
      var k := IndexOf(s, sep);
      var a, rest := s[..k], s[k + 1..];
      var t := rest + [sep] + b;
      assert s == a + [sep] + rest;
      assert s + [sep] + b == a + [sep] + t;
      SplitCons(a, sep, rest);
      SplitCons(a, sep, t);
      SplitSnoc(rest, sep, b);
      assert [a] + (Split(rest, sep) + [b]) == ([a] + Split(rest, sep)) + [b];
    }
  }

  /** Splitting peels off the piece before the first separator. */
  lemma SplitCons(a: string, sep: char, rest: string)
    requires sep !in a
    ensures Split(a + [sep] + rest, sep) == [a] + Split(rest, sep)
  {
    var s := a + [sep] + rest;
    assert s[|a|] == sep;
    IndexOfAfter(a, sep, rest);
    assert s[..|a|] == a;
    assert s[|a| + 1..] == rest;
  }

  function DigitChar(d: nat): char
    requires d < 10
  {
    ('0' as int + d) as char
  }

  /** Decimal rendering of a natural number, as `"" + n` prints it. */
  function NatToString(n: nat): (s: string)
    ensures |s| >= 1 && forall i :: 0 <= i < |s| ==> IsDigit(s[i])
    ensures |s| > 1 ==> s[0] != '0'
  {
    if n < 10 then [DigitChar(n)] else NatToString(n / 10) + [DigitChar(n % 10)]
  }

  predicate AllDigits(s: string) { forall i :: 0 <= i < |s| ==> IsDigit(s[i]) }

  /** The value of a run of decimal digits. */
  function DigitsValue(s: string): nat
    requires forall i :: 0 <= i < |s| ==> IsDigit(s[i])
  {
    if s == [] then 0
    else
      assert IsDigit(s[|s| - 1]);
      DigitsValue(s[..|s| - 1]) * 10 + (s[|s| - 1] as int - '0' as int)
  }

  /** Reading back a rendered natural number gives the number. */
  lemma {:induction false} DigitsValueOfNatToString(n: nat)
    ensures DigitsValue(NatToString(n)) == n
  {
    if n >= 10 {
      var s := NatToString(n);
      DigitsValueOfNatToString(n / 10);
      assert s[..|s| - 1] == NatToString(n / 10);
    }
  }

  /** Distinct numbers render as distinct strings. */
  lemma NatToStringInjective(m: nat, n: nat)
    requires NatToString(m) == NatToString(n)
    ensures m == n
  {
    DigitsValueOfNatToString(m);
    DigitsValueOfNatToString(n);
  }

  /** Decimal rendering of a (possibly negative) integer, as `"" + x` prints a Java `long`. */
  function IntToString(x: int): (s: string)
    ensures |s| >= 1
  {
    if x < 0 then "-" + NatToString(-x) else NatToString(x)
  }

  const IntMin: int := -0x8000_0000
  const IntMax: int := 0x7FFF_FFFF

  /**
   * `Integer.parseInt(s)`: an optional `+` or `-` followed by at least one decimal digit, whose
   * value fits in 32 bits; anything else throws NumberFormatException (here: None).
   */
  function ParseInt(s: string): (r: Option<int>)
    ensures r.Some? ==> IntMin <= r.value <= IntMax
  {
    if s == [] then None
    else
      var negative := s[0] == '-';
      var digits := if s[0] == '-' || s[0] == '+' then s[1..] else s;
      if digits == [] || !AllDigits(digits) then None
      else
        var v: int := if negative then 0 - DigitsValue(digits) as int else DigitsValue(digits);
        if IntMin <= v <= IntMax then Some(v) else None
  }

  /** The digits after an optional sign. */
  function SignLength(s: string): nat
    requires s != []
  {
    if s[0] == '-' || s[0] == '+' then 1 else 0
  }

  /**
   * What `ParseInt` accepts: an optional sign followed by at least one ASCII digit, read with the
   * sign as the number's own.
   */
  lemma ParseIntShape(s: string)
    requires ParseInt(s).Some?
    ensures s != [] && SignLength(s) < |s|
    ensures forall i :: SignLength(s) <= i < |s| ==> IsDigit(s[i])
    ensures var d := s[SignLength(s)..];
      ParseInt(s).value == if s[0] == '-' then 0 - DigitsValue(d) else DigitsValue(d)
  {
    var d := s[SignLength(s)..];
    if SignLength(s) == 0 {
      assert d == s;
    }
    forall i | SignLength(s) <= i < |s| ensures IsDigit(s[i]) {
      assert s[i] == d[i - SignLength(s)];
    }
  }

  /** Conversely, every optional sign and non-empty run of digits whose value fits in 32 bits is accepted. */
  lemma ParseIntOfSignedDigits(sign: Option<char>, digits: string)
    requires sign == None || sign == Some('-') || sign == Some('+')
    requires digits != [] && AllDigits(digits)
    requires var v := if sign == Some('-') then 0 - DigitsValue(digits) else DigitsValue(digits);
      IntMin <= v <= IntMax
    ensures var s := (if sign.Some? then [sign.value] else []) + digits;
      ParseInt(s) == Some(if sign == Some('-') then 0 - DigitsValue(digits) else DigitsValue(digits))
  {
    var s := (if sign.Some? then [sign.value] else []) + digits;
    if sign.None? {
      assert s == digits;
      assert IsDigit(s[0]);
    } else {
      assert s[0] == sign.value;
      assert s[1..] == digits;
    }
  }

  /** Parsing a rendered 32-bit integer gives it back. */
  lemma ParseIntOfIntToString(x: int)
    requires IntMin <= x <= IntMax
    ensures ParseInt(IntToString(x)) == Some(x)
  {
    var s := IntToString(x);
    if x < 0 {
      DigitsValueOfNatToString(-x);
      assert s[1..] == NatToString(-x);
    } else {
      DigitsValueOfNatToString(x);
    }
  }
}
