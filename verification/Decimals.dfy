/** Decimal text of unsigned 64-bit numbers: `strconv.FormatUint`, `strconv.ParseUint` and the canonical form. */
module Decimals {
  import opened Optional

  const LIMIT: nat := 0x1_0000_0000_0000_0000

  function Digit(d: nat): char
    requires d < 10
  {
    '0' + d as char
  }

  predicate IsDigit(c: char) {
    '0' <= c <= '9'
  }

  function Value(c: char): nat
    requires IsDigit(c)
  {
    (c - '0') as nat
  }

  function Format(n: nat): (s: string)
    ensures s != [] && forall i :: 0 <= i < |s| ==> IsDigit(s[i])
  {
    if n < 10 then [Digit(n)] else Format(n / 10) + [Digit(n % 10)]
  }

  predicate AllDigits(s: string) {
    forall i :: 0 <= i < |s| ==> IsDigit(s[i])
  }

  /** The number a string of digits stands for. */
  function Number(s: string): nat
    requires AllDigits(s)
  {
    if s == [] then 0 else 10 * Number(s[..|s| - 1]) + Value(s[|s| - 1])
  }

  /** `ParseUint(s, 10, 64)`: digits only, at least one, and no overflow. */
  function Parsed(s: string): Option<nat> {
    if s != [] && AllDigits(s) && Number(s) < LIMIT then Some(Number(s)) else None
  }

  lemma {:induction false} NumberGrows(s: string, n: nat)
    requires AllDigits(s) && n <= |s|
    ensures Number(s[..n]) <= Number(s)
  {
    if n < |s| {
      NumberGrows(s[..|s| - 1], n);
      assert s[..|s| - 1][..n] == s[..n];
    } else {
      assert s[..n] == s;
    }
  }

  /** The loop of `ParseUint`, with its overflow checks. */
  method ParseUint(s: string) returns (r: Option<nat>)
    ensures r == Parsed(s)
  {
    if s == [] {
      return None;
    }
    var n := 0;
    for i := 0 to |s|
      invariant AllDigits(s[..i]) && n == Number(s[..i]) && n < LIMIT
    {
      if !IsDigit(s[i]) {
        return None;
      }
      assert s[..i + 1][..i] == s[..i];
      var next := 10 * n + Value(s[i]);
      if next >= LIMIT {
        if AllDigits(s) {
          NumberGrows(s, i + 1);
        }
        return None;
      }
      n := next;
    }
    assert s[..|s|] == s;
    return Some(n);
  }

  /** The place of a digit among the ten digits. */
  function Face(c: char): nat
    requires IsDigit(c)
  {
    match c
    case '0' => 0
    case '1' => 1
    case '2' => 2
    case '3' => 3
    case '4' => 4
    case '5' => 5
    case '6' => 6
    case '7' => 7
    case '8' => 8
    case _ => 9
  }

  function Power(k: nat): nat {
    if k == 0 then 1 else 10 * Power(k - 1)
  }

  /** Each digit counts as often as its place says. */
  function Positional(s: string): nat
    requires AllDigits(s)
  {
    if s == [] then 0 else Face(s[0]) * Power(|s| - 1) + Positional(s[1..])
  }

  lemma Tenfold(a: nat, b: nat)
    ensures 10 * (a * b) == a * (10 * b)
  {
  }

  lemma {:induction false} PositionalEnd(s: string)
    requires s != [] && AllDigits(s)
    ensures Positional(s) == 10 * Positional(s[..|s| - 1]) + Face(s[|s| - 1])
  {
    var n := |s| - 1;
    if n == 0 {
      assert s[1..] == [] && s[..0] == [];
    } else {
      PositionalEnd(s[1..]);
      assert s[1..][..n - 1] == s[..n][1..];
      Tenfold(Face(s[0]), Power(n - 1));
    }
  }

  /** Digits are read in the decimal system, most significant first. */
  lemma {:induction false} NumberIsPositional(s: string)
    requires AllDigits(s)
    ensures Number(s) == Positional(s)
  {
    if s != [] {
      NumberIsPositional(s[..|s| - 1]);
      PositionalEnd(s);
    }
  }

  /** Exactly the non-empty strings of digits below 2^64 are read, as the number they stand for. */
  lemma ParsedIff(s: string, v: nat)
    ensures Parsed(s) == Some(v) <==> s != "" && AllDigits(s) && Positional(s) == v && v <= 18446744073709551615
  {
    if AllDigits(s) {
      NumberIsPositional(s);
    }
  }

  lemma {:induction false} FormatNumber(n: nat)
    ensures Number(Format(n)) == n
  {
    if n >= 10 {
      FormatNumber(n / 10);
      assert Format(n)[..|Format(n)| - 1] == Format(n / 10);
    } else {
      assert Format(n)[..0] == [];
    }
  }

  lemma FormatInjective(a: nat, b: nat)
    requires Format(a) == Format(b)
    ensures a == b
  {
    FormatNumber(a);
    FormatNumber(b);
  }

  /** `canonicalNumericSourceID`. */
  method CanonicalNumericSourceID(sourceID: string) returns (r: Option<nat>)
    ensures r == Canonical(sourceID)
  {
    if sourceID == "" {
      return None;
    }
    var value := ParseUint(sourceID);
    if value.None? || Format(value.value) != sourceID {
      return None;
    }
    return value;
  }

  function Canonical(s: string): Option<nat> {
    if Parsed(s).Some? && Format(Parsed(s).value) == s then Parsed(s) else None
  }

  /** Canonical decimals and unsigned 64-bit numbers are in bijection. */
  lemma CanonicalIff(s: string, v: nat)
    ensures Canonical(s) == Some(v) <==> v < LIMIT && s == Format(v)
  {
    FormatNumber(v);
  }

  lemma CanonicalInjective(s: string, t: string)
    requires Canonical(s).Some? && Canonical(s) == Canonical(t)
    ensures s == t
  {
    CanonicalIff(s, Canonical(s).value);
    CanonicalIff(t, Canonical(s).value);
  }
}
