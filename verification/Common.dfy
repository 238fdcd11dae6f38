/** Result types shared by every component, and Python's notion of a blank string. */
module Common {

  datatype Option<+T> = None | Some(value: T) {
    function GetOr(default: T): T {
      if Some? then value else default
    }
  }

  datatype Result<+T, +E> = Success(value: T) | Failure(error: E)

  newtype Byte = x: int | 0 <= x < 256
  type Bytes = seq<Byte>

  /** The code points that Python's `str.strip()` removes. */
  predicate IsSpace(c: char) {
    || '\t' <= c <= '\r'
    || '\U{1C}' <= c <= ' '
    || c in {'\U{85}', '\U{A0}', '\U{1680}', '\U{2028}', '\U{2029}', '\U{202F}', '\U{205F}', '\U{3000}'}
    || '\U{2000}' <= c <= '\U{200A}'
  }

  /** `not value.strip()` */
  predicate Blank(s: string) {
    forall i :: 0 <= i < |s| ==> IsSpace(s[i])
  }

  /** `value.strip()` */
  function Strip(s: string): (r: string)
    ensures r == "" || !Blank(r)
  {
    if s == "" then ""
    else if IsSpace(s[0]) then Strip(s[1..])
    else if IsSpace(s[|s| - 1]) then Strip(s[..|s| - 1])
    else s
  }

  /** The string is spaces, then `core`, then spaces. */
  ghost predicate Trims(s: string, left: string, core: string, right: string) {
    && s == left + core + right && Blank(left) && Blank(right)
    && (core != "" ==> !IsSpace(core[0]) && !IsSpace(core[|core| - 1]))
  }

  lemma TrimsOnTheLeft(c: char, s: string, left: string, core: string, right: string)
    requires IsSpace(c) && Trims(s, left, core, right)
    ensures Trims([c] + s, [c] + left, core, right)
  {
    assert [c] + (left + core + right) == [c] + left + core + right;
  }

  lemma TrimsOnTheRight(c: char, s: string, left: string, core: string, right: string)
    requires IsSpace(c) && Trims(s, left, core, right)
    ensures Trims(s + [c], left, core, right + [c])
  {
    assert left + core + right + [c] == left + core + (right + [c]);
  }

  /** Stripping takes the spaces at both ends, and nothing else. */
  lemma {:induction false} StripIsTrimmed(s: string) returns (left: string, right: string)
    ensures Trims(s, left, Strip(s), right)
  {
    if s == "" {
      left, right := "", "";
    } else if IsSpace(s[0]) {
      left, right := StripIsTrimmed(s[1..]);
      assert Strip(s) == Strip(s[1..]);
      TrimsOnTheLeft(s[0], s[1..], left, Strip(s[1..]), right);
      assert s == [s[0]] + s[1..];
      left := [s[0]] + left;
    } else if IsSpace(s[|s| - 1]) {
      left, right := StripIsTrimmed(s[..|s| - 1]);
      assert Strip(s) == Strip(s[..|s| - 1]);
      TrimsOnTheRight(s[|s| - 1], s[..|s| - 1], left, Strip(s[..|s| - 1]), right);
      assert s == s[..|s| - 1] + [s[|s| - 1]];
      right := right + [s[|s| - 1]];
    } else {
      left, right := "", "";
    }
  }

  /** The ceiling of n / d, by repeated subtraction. */
  function CeilDiv(n: nat, d: nat): nat
    requires d >= 1
  {
    if n == 0 then 0 else if n <= d then 1 else 1 + CeilDiv(n - d, d)
  }

  /** CeilDiv is the least k with n <= k * d. */
  lemma {:induction false} CeilDivIsCeiling(n: nat, d: nat)
    requires d >= 1
    ensures n <= CeilDiv(n, d) * d < n + d
  {
    if n > d {
      CeilDivIsCeiling(n - d, d);
      var k := CeilDiv(n - d, d);
      assert (1 + k) * d == d + k * d;
    }
  }

  lemma {:induction false} CeilDivGrows(n: nat, m: nat, d: nat)
    requires d >= 1 && n <= m
    ensures CeilDiv(n, d) <= CeilDiv(m, d)
    decreases m
  {
    if n > d { CeilDivGrows(n - d, m - d, d); }
  }

  /** Larger divisors give smaller ceilings. */
  lemma {:induction false} CeilDivShrinks(n: nat, d: nat, e: nat)
    requires 1 <= d <= e
    ensures CeilDiv(n, e) <= CeilDiv(n, d)
  {
    if n > e {
      CeilDivShrinks(n - e, d, e);
      CeilDivGrows(n - e, n - d, d);
    }
  }
}
