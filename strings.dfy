/**
 * String helpers shared by the hook registry and the remote logger:
 * PHP's decimal rendering of integers inside interpolated strings,
 * substring search, and the ASCII case folding that a `/i` regular
 * expression applies when it is not in UTF mode.
 */
module Strings {

  function DigitChar(d: nat): (c: char)
    requires d < 10
    ensures '0' <= c <= '9'
  {
    "0123456789"[d]
  }

  /** Decimal digits of `n`, most significant first, without leading zeros. */
  function NatToString(n: nat): (s: string)
    ensures |s| > 0
    ensures forall j | 0 <= j < |s| :: '0' <= s[j] <= '9'
    decreases n
  {
    if n < 10 then [DigitChar(n)] else NatToString(n / 10) + [DigitChar(n % 10)]
  }

  /** Different numbers have different decimal renderings. */
  lemma {:induction false} NatToStringInjective(a: nat, b: nat)
    requires NatToString(a) == NatToString(b)
    ensures a == b
    decreases a
  {
    var s := NatToString(a);
    if a >= 10 && b >= 10 {
      assert NatToString(a / 10) == s[..|s| - 1] == NatToString(b / 10);
      NatToStringInjective(a / 10, b / 10);
      assert "0123456789"[a % 10] == s[|s| - 1] == "0123456789"[b % 10];
    } else if a < 10 && b < 10 {
      assert "0123456789"[a] == s[0] == "0123456789"[b];
    }
  }

  /** `NatToString` as a map key: equal keys come from equal numbers. */
  lemma NatToStringIsKey()
    ensures forall a: nat, b: nat :: NatToString(a) == NatToString(b) ==> a == b
  {
    forall a: nat, b: nat | NatToString(a) == NatToString(b)
      ensures a == b
    {
      NatToStringInjective(a, b);
    }
  }

  /** What `"{$i}"` produces for a PHP integer `$i`. */
  function IntToString(i: int): (s: string)
    ensures |s| > 0
    ensures forall j | 0 <= j < |s| :: s[j] == '-' || '0' <= s[j] <= '9'
  {
    if i < 0 then "-" + NatToString(-i) else NatToString(i)
  }

  /** `sub` occurs somewhere in `s`. */
  predicate Contains(s: string, sub: string)
  {
    exists i | 0 <= i <= |s| :: sub <= s[i..]
  }

  /** ASCII lower-casing, the only case folding PCRE applies to `/i` patterns outside UTF mode. */
  function LowerAscii(c: char): (r: char)
    ensures 'A' <= c <= 'Z' ==> r as int == c as int + 32
    ensures !('A' <= c <= 'Z') ==> r == c
  {
    if 'A' <= c <= 'Z' then (c as int + 32) as char else c
  }

  /** Index of the first `c` in `s`, or `|s|` when there is none. */
  function FirstIndexOf(s: string, c: char): (r: nat)
    ensures r <= |s|
    ensures r < |s| ==> s[r] == c
    decreases |s|
  {
    if s == [] then 0 else if s[0] == c then 0 else 1 + FirstIndexOf(s[1..], c)
  }

  /** No `c` comes before the index `FirstIndexOf` reports. */
  lemma {:induction false} FirstIndexOfSpec(s: string, c: char)
    ensures forall j | 0 <= j < FirstIndexOf(s, c) :: s[j] != c
    decreases |s|
  {
    if s != [] && s[0] != c {
      FirstIndexOfSpec(s[1..], c);
      forall j | 0 <= j < FirstIndexOf(s, c)
        ensures s[j] != c
      {
        if j > 0 {
          assert s[j] == s[1..][j - 1];
        }
      }
    }
  }
}
