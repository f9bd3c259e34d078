/** Brace balance and the matching-brace position, shared by the parsers' brace scanners. */
module Braces {

  /** Number of occurrences of `c` in `s`. */
  function Count(s: string, c: char): nat {
    if s == [] then 0 else Count(s[..|s| - 1], c) + (if s[|s| - 1] == c then 1 else 0)
  }

  /** A string without `c` counts none. */
  lemma {:induction false} CountAbsent(s: string, c: char)
    requires forall k :: 0 <= k < |s| ==> s[k] != c
    ensures Count(s, c) == 0
  {
    if s != [] {
      CountAbsent(s[..|s| - 1], c);
    }
  }

  /** Opening braces minus closing braces. */
  function Balance(s: string): int {
    Count(s, '{') - Count(s, '}')
  }

  /** The balance of a prefix grows by one char at a time. */
  lemma {:induction false} BalanceExtend(s: string, from: nat, i: nat)
    requires from <= i < |s|
    ensures Balance(s[from..i + 1]) ==
            Balance(s[from..i]) + (if s[i] == '{' then 1 else if s[i] == '}' then -1 else 0)
  {
    assert s[from..i + 1][..i - from] == s[from..i];
  }

  /** `s[i]` is a `}` at which the depth counted from `open` comes back to 0. */
  predicate ClosesAt(s: string, open: nat, i: nat)
    requires open <= |s|
  {
    open <= i < |s| && s[i] == '}' && Balance(s[open..i + 1]) == 0
  }

  /** The first closing position at or after `i`, scanning with the running depth `level`. */
  function ScanClose(s: string, open: nat, i: nat, level: int): (r: int)
    requires open <= i <= |s|
    ensures r == -1 || (i <= r < |s| && s[r] == '}')
    decreases |s| - i
  {
    if i == |s| then -1
    else
      var next := level + (if s[i] == '{' then 1 else if s[i] == '}' then -1 else 0);
      if s[i] == '}' && next == 0 then i else ScanClose(s, open, i + 1, next)
  }

  /** With the depth counted right, the scan finds the first closing position from `i`. */
  lemma {:induction false} ScanCloseSpec(s: string, open: nat, i: nat, level: int)
    requires open <= i <= |s|
    requires level == Balance(s[open..i])
    ensures ScanClose(s, open, i, level) == -1 <==> forall k :: i <= k < |s| ==> !ClosesAt(s, open, k)
    ensures ScanClose(s, open, i, level) != -1 ==> ClosesAt(s, open, ScanClose(s, open, i, level))
    ensures ScanClose(s, open, i, level) != -1 ==>
              forall k :: i <= k < ScanClose(s, open, i, level) ==> !ClosesAt(s, open, k)
    decreases |s| - i
  {
    if i < |s| {
      BalanceExtend(s, open, i);
      var next := level + (if s[i] == '{' then 1 else if s[i] == '}' then -1 else 0);
      if s[i] == '}' && next == 0 {
        assert ClosesAt(s, open, i);
      } else {
        assert !ClosesAt(s, open, i);
        ScanCloseSpec(s, open, i + 1, next);
      }
    }
  }

  /** The index of the `}` closing the block opened at `open`: the first `}` at or after `open`
      at which the count of `{` minus `}` since `open` is 0; -1 when there is none. */
  function MatchingBrace(s: string, open: nat): (r: int)
    requires open <= |s|
    ensures r == -1 || (open <= r < |s| && s[r] == '}')
  {
    ScanClose(s, open, open, 0)
  }

  /** The characterisation of the matching brace: -1 exactly when no position closes the block,
      otherwise a closing position with none before it. */
  lemma {:induction false} MatchingBraceSpec(s: string, open: nat)
    requires open <= |s|
    ensures MatchingBrace(s, open) == -1 <==> forall k :: open <= k < |s| ==> !ClosesAt(s, open, k)
    ensures MatchingBrace(s, open) != -1 ==> ClosesAt(s, open, MatchingBrace(s, open))
    ensures MatchingBrace(s, open) != -1 ==> forall k :: open <= k < MatchingBrace(s, open) ==> !ClosesAt(s, open, k)
  {
    assert s[open..open] == [];
    ScanCloseSpec(s, open, open, 0);
  }

  /** A block opened at `open` closes strictly after it. */
  lemma {:induction false} MatchingBraceAfterOpen(s: string, open: nat)
    requires open < |s| && s[open] == '{'
    ensures MatchingBrace(s, open) == -1 || MatchingBrace(s, open) > open
  {
  }
}
