/** The C++ conversions between int and decimal text: to_string and stoi. */
module Decimal {
  import opened EntryLog

  const INT_MIN := -0x8000_0000
  const INT_MAX := 0x7fff_ffff

  const LONG_MIN := -0x8000_0000_0000_0000
  const LONG_MAX := 0x7fff_ffff_ffff_ffff

  predicate IsInt(n: int) { INT_MIN <= n <= INT_MAX }

  predicate IsLong(n: int) { LONG_MIN <= n <= LONG_MAX }

  predicate IsDigit(c: char) { '0' <= c <= '9' }

  /** The white space that stoi skips. */
  predicate IsSpace(c: char) { c == ' ' || 9 as char <= c <= 13 as char }

  function DigitOf(d: nat): (c: char)
    requires d < 10
    ensures IsDigit(c) && ValueOf(c) == d
  {
    '0' + d as char
  }

  function ValueOf(c: char): (d: nat)
    requires IsDigit(c)
    ensures d < 10
  {
    (c - '0') as int
  }

  predicate AllDigits(s: string) { forall i :: 0 <= i < |s| ==> IsDigit(s[i]) }

  function NatToString(n: nat): (s: string)
    ensures s != [] && AllDigits(s)
  {
    if n < 10 then [DigitOf(n)] else NatToString(n / 10) + [DigitOf(n % 10)]
  }

  function ToString(n: int): string {
    if n < 0 then "-" + NatToString(-n) else NatToString(n)
  }

  function Value(s: string): nat
    requires AllDigits(s)
  {
    if s == [] then 0 else Value(s[..|s| - 1]) * 10 + ValueOf(s[|s| - 1])
  }

  function SkipSpace(s: string): string {
    if s != [] && IsSpace(s[0]) then SkipSpace(s[1..]) else s
  }

  function LeadingDigits(s: string): (k: nat)
    ensures k <= |s| && AllDigits(s[..k])
    ensures k < |s| ==> !IsDigit(s[k])
  {
    if s != [] && IsDigit(s[0]) then 1 + LeadingDigits(s[1..]) else 0
  }

  /** The number at the start of a text, behind white space; None if there is none. */
  function ParseNumber(s: string): Option<int> {
    var t := SkipSpace(s);
    var signed := t != [] && (t[0] == '-' || t[0] == '+');
    var u := if signed then t[1..] else t;
    var k := LeadingDigits(u);
    if k == 0 then None
    else
      var v: int := Value(u[..k]);
      Some(if signed && t[0] == '-' then 0 - v else v)
  }

  /** stoi; None stands for the exceptions on a missing number and on a number outside int. */
  function Stoi(s: string): Option<int> {
    var n := ParseNumber(s);
    if n.Some? && IsInt(n.value) then n else None
  }

  /** stol, with a long of 64 bits. */
  function Stol(s: string): Option<int> {
    var n := ParseNumber(s);
    if n.Some? && IsLong(n.value) then n else None
  }

  lemma {:induction false} ValueOfNatToString(n: nat)
    ensures Value(NatToString(n)) == n
  {
    if n < 10 {
      assert NatToString(n)[..0] == [];
    } else {
      var s := NatToString(n);
      assert s[..|s| - 1] == NatToString(n / 10);
      ValueOfNatToString(n / 10);
    }
  }

  lemma {:induction false} LeadingDigitsStop(s: string, rest: string)
    requires AllDigits(s) && (rest == [] || !IsDigit(rest[0]))
    ensures LeadingDigits(s + rest) == |s|
  {
    if s == [] {
      assert s + rest == rest;
    } else {
      assert (s + rest)[1..] == s[1..] + rest;
      LeadingDigitsStop(s[1..], rest);
    }
  }

  lemma Assoc(a: string, b: string, c: string)
    ensures (a + b) + c == a + (b + c)
  {
  }

  lemma DigitsRead(n: nat, rest: string)
    requires rest == [] || !IsDigit(rest[0])
    ensures var u := NatToString(n) + rest;
            var k := LeadingDigits(u);
            k > 0 && Value(u[..k]) == n
  {
    var digits := NatToString(n);
    ValueOfNatToString(n);
    LeadingDigitsStop(digits, rest);
    assert (digits + rest)[..|digits|] == digits;
  }

  lemma ParseToString(n: int, rest: string)
    requires rest == [] || !IsDigit(rest[0])
    ensures ParseNumber(ToString(n) + rest) == Some(n)
  {
    var m: nat := if n < 0 then 0 - n else n;
    var u := NatToString(m) + rest;
    var s := ToString(n) + rest;
    DigitsRead(m, rest);
    assert u[0] == NatToString(m)[0];
    if n < 0 {
      Assoc("-", NatToString(m), rest);
      assert s == "-" + u && s[1..] == u;
    } else {
      assert s == u;
    }
    assert SkipSpace(s) == s;
  }

  /** stoi undoes to_string, whatever follows the number, as long as it is no digit. */
  lemma StoiToString(n: int, rest: string)
    requires IsInt(n) && (rest == [] || !IsDigit(rest[0]))
    ensures Stoi(ToString(n) + rest) == Some(n)
  {
    ParseToString(n, rest);
  }

  /** The conversions of a whole text: exact inside the type's range, an exception outside. */
  lemma ConvertToString(n: int)
    ensures Stoi(ToString(n)) == if IsInt(n) then Some(n) else None
    ensures Stol(ToString(n)) == if IsLong(n) then Some(n) else None
  {
    assert ToString(n) + "" == ToString(n);
    ParseToString(n, "");
  }
}
