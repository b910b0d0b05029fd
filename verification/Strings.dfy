/** The few string operations that several models share. */
module Strings {
  predicate OccursAt(part: string, s: string, i: nat) { i + |part| <= |s| && s[i..i + |part|] == part }

  /** Python's `part in s`. */
  predicate Occurs(part: string, s: string) { exists i: nat :: i <= |s| && OccursAt(part, s, i) }

  function Digit(d: nat): char
    requires d < 10
  {
    '0' + d as char
  }

  function Decimal(n: nat): string { if n < 10 then [Digit(n)] else Decimal(n / 10) + [Digit(n % 10)] }

  /** The number that a text of digits stands for. */
  ghost function NumberOf(s: string): int {
    if s == "" then 0 else 10 * NumberOf(s[..|s| - 1]) + (s[|s| - 1] as int - '0' as int)
  }

  /** A decimal is made of digits, reads as its number, and has no leading zero unless it is one. */
  lemma {:induction false} DecimalReads(n: nat)
    ensures NumberOf(Decimal(n)) == n && Decimal(n) != ""
    ensures forall i :: 0 <= i < |Decimal(n)| ==> '0' <= Decimal(n)[i] <= '9'
    ensures Decimal(n)[0] == '0' ==> Decimal(n) == "0"
  {
    if 10 <= n {
      DecimalReads(n / 10);
      assert Decimal(n)[..|Decimal(n)| - 1] == Decimal(n / 10);
    } else {
      assert [Digit(n)][..0] == "";
    }
  }

  function Lower(c: char): char { if 'A' <= c <= 'Z' then c + 32 as char else c }

  /** Python's `lower` and `casefold`, on ASCII. */
  function LowerAll(s: string): string { seq(|s|, i requires 0 <= i < |s| => Lower(s[i])) }

  function LeftStrip(s: string, c: char): string { if s != "" && s[0] == c then LeftStrip(s[1..], c) else s }

  function RightStrip(s: string, c: char): string {
    if s != "" && s[|s| - 1] == c then RightStrip(s[..|s| - 1], c) else s
  }

  lemma {:induction false} LeftStripped(s: string, c: char, lo: nat)
    requires lo <= |s| && (forall i :: 0 <= i < lo ==> s[i] == c) && (lo < |s| ==> s[lo] != c)
    ensures LeftStrip(s, c) == s[lo..]
  {
    if lo != 0 { LeftStripped(s[1..], c, lo - 1); }
  }

  lemma {:induction false} RightStripped(s: string, c: char, hi: nat)
    requires hi <= |s| && (forall i :: hi <= i < |s| ==> s[i] == c) && (0 < hi ==> s[hi - 1] != c)
    ensures RightStrip(s, c) == s[..hi]
  {
    if hi != |s| {
      RightStripped(s[..|s| - 1], c, hi);
      assert s[..|s| - 1][..hi] == s[..hi];
    }
  }
}
