/** The parts of java.lang.String (and friends) that the modelled code relies on. */
module JavaString {
  import opened Wrappers

  /** `String.trim` removes every leading and trailing char whose code is at most U+0020. */
  predicate IsTrimSpace(c: char) { c <= ' ' }

  /** The regex class `\s`: space, tab, newline, vertical tab, form feed, carriage return. */
  predicate IsSpace(c: char) {
    c == ' ' || c == '\t' || c == '\n' || c == '\U{000B}' || c == '\U{000C}' || c == '\r'
  }

  /** The line terminators of java.util.regex and java.util.Scanner. */
  predicate IsLineTerminator(c: char) {
    c == '\n' || c == '\r' || c == '\U{0085}' || c == '\U{2028}' || c == '\U{2029}'
  }

  /** Number of leading chars that `trim` removes. */
  function LeadingTrimmed(s: string): (n: nat)
    ensures n <= |s|
    ensures n < |s| ==> !IsTrimSpace(s[n])
    decreases |s|
  {
    if |s| > 0 && IsTrimSpace(s[0]) then 1 + LeadingTrimmed(s[1..]) else 0
  }

  /** Every char `trim` removes at the front is a trimmable one. */
  lemma {:induction false} LeadingTrimmedSpaces(s: string, k: nat)
    requires k < LeadingTrimmed(s)
    ensures IsTrimSpace(s[k])
    decreases |s|
  {
    if k > 0 {
      LeadingTrimmedSpaces(s[1..], k - 1);
    }
  }

  /** Number of trailing chars that `trim` removes. */
  function TrailingTrimmed(s: string): (n: nat)
    ensures n <= |s|
    ensures n < |s| ==> !IsTrimSpace(s[|s| - 1 - n])
    decreases |s|
  {
    if |s| > 0 && IsTrimSpace(s[|s| - 1]) then 1 + TrailingTrimmed(s[..|s| - 1]) else 0
  }

  /** `String.trim`: the slice of `s` between its leading and trailing space runs. */
  function Trim(s: string): (r: string)
    ensures |r| <= |s|
    ensures LeadingTrimmed(s) + |r| <= |s| && r == s[LeadingTrimmed(s)..LeadingTrimmed(s) + |r|]
    ensures r == [] || (!IsTrimSpace(r[0]) && !IsTrimSpace(r[|r| - 1]))
  {
    var t := s[LeadingTrimmed(s)..];
    t[..|t| - TrailingTrimmed(t)]
  }
  /** Spaces in front of a text do not change what it trims to. */
  lemma TrimSpacesBefore(a: string, b: string)
    requires forall k :: 0 <= k < |a| ==> IsTrimSpace(a[k])
    ensures Trim(a + b) == Trim(b)
  {
    LeadingTrimmedAfter(a, b);
    assert (a + b)[|a| + LeadingTrimmed(b)..] == b[LeadingTrimmed(b)..];
  }

  lemma {:induction false} LeadingTrimmedAfter(a: string, b: string)
    requires forall k :: 0 <= k < |a| ==> IsTrimSpace(a[k])
    ensures LeadingTrimmed(a + b) == |a| + LeadingTrimmed(b)
    decreases |a|
  {
    if a != [] {
      assert (a + b)[0] == a[0];
      assert (a + b)[1..] == a[1..] + b;
      LeadingTrimmedAfter(a[1..], b);
    } else {
      assert a + b == b;
    }
  }


  /** A text made only of trimmable chars trims to nothing. */
  lemma TrimAllSpaces(s: string)
    requires forall k :: 0 <= k < |s| ==> IsTrimSpace(s[k])
    ensures Trim(s) == []
  {
  }

  /** Trimming twice is trimming once. */
  lemma TrimIdempotent(s: string)
    ensures Trim(Trim(s)) == Trim(s)
  {
    var r := Trim(s);
    assert LeadingTrimmed(r) == 0;
    assert TrailingTrimmed(r[LeadingTrimmed(r)..]) == 0;
  }

  /** A string without any trimmable char at either end is its own trim. */
  lemma TrimOfTrimmed(s: string)
    requires s == [] || (!IsTrimSpace(s[0]) && !IsTrimSpace(s[|s| - 1]))
    ensures Trim(s) == s
  {
    assert LeadingTrimmed(s) == 0;
    assert TrailingTrimmed(s) == 0;
  }

  /** `String.isEmpty` after `trim`: blank in Java's sense. */
  predicate IsBlank(s: string) { Trim(s) == [] }

  /** ASCII case folding, as regex CASE_INSENSITIVE (without UNICODE_CASE) does it. */
  function LowerAscii(c: char): char {
    if 'A' <= c <= 'Z' then (c as int + 32) as char else c
  }

  function ToLowerAscii(s: string): (r: string)
    ensures |r| == |s|
  {
    seq(|s|, k requires 0 <= k < |s| => LowerAscii(s[k]))
  }

  /** `equalsIgnoreCase`, restricted to ASCII case folding. */
  predicate EqualsIgnoreCase(a: string, b: string) {
    ToLowerAscii(a) == ToLowerAscii(b)
  }

  /** Case-insensitive literal at position `i` (regex CASE_INSENSITIVE on an ASCII literal). */
  predicate LiteralAtIgnoreCase(s: string, i: nat, lit: string)
    decreases |lit|
  {
    i + |lit| <= |s| &&
    (lit == [] || (LowerAscii(s[i]) == LowerAscii(lit[0]) && LiteralAtIgnoreCase(s, i + 1, lit[1..])))
  }

  /** Case-sensitive literal at position `i`. */
  predicate LiteralAt(s: string, i: nat, lit: string) {
    i + |lit| <= |s| && s[i..i + |lit|] == lit
  }

  predicate StartsWith(s: string, prefix: string) { LiteralAt(s, 0, prefix) }

  predicate EndsWith(s: string, suffix: string) {
    |suffix| <= |s| && s[|s| - |suffix|..] == suffix
  }

  /** First index at or after `i` holding `c`, or `|s|` when there is none. */
  function IndexOfFrom(s: string, i: nat, c: char): (r: nat)
    requires i <= |s|
    ensures i <= r <= |s|
    ensures r < |s| ==> s[r] == c
    decreases |s| - i
  {
    if i == |s| then |s| else if s[i] == c then i else IndexOfFrom(s, i + 1, c)
  }

  /** No `c` is skipped: the index found is the first one. */
  lemma {:induction false} IndexOfFromFirst(s: string, i: nat, c: char, k: nat)
    requires i <= |s| && i <= k < IndexOfFrom(s, i, c)
    ensures s[k] != c
    decreases |s| - i
  {
    if k > i {
      IndexOfFromFirst(s, i + 1, c, k);
    }
  }

  /** `c` occurs at or after `i` exactly when the search stops before the end. */
  lemma IndexOfFromFound(s: string, i: nat, c: char)
    requires i <= |s|
    ensures IndexOfFrom(s, i, c) < |s| <==> c in s[i..]
  {
    if c in s[i..] {
      var k :| i <= k < |s| && s[k] == c;
      if IndexOfFrom(s, i, c) == |s| {
        IndexOfFromFirst(s, i, c, k);
      }
    }
  }

  /** `String.replace(target, replacement)`: every non-overlapping occurrence, left to right. */
  function Replace(s: string, target: string, replacement: string): (r: string)
    requires |target| > 0
    decreases |s|
  {
    if |s| < |target| then s
    else if s[..|target|] == target then replacement + Replace(s[|target|..], target, replacement)
    else [s[0]] + Replace(s[1..], target, replacement)
  }

  /** A text in which the target never occurs is left as it is. */
  lemma {:induction false} ReplaceAbsent(s: string, target: string, replacement: string)
    requires |target| > 0
    requires forall i :: 0 <= i ==> !LiteralAt(s, i, target)
    ensures Replace(s, target, replacement) == s
    decreases |s|
  {
    if |s| >= |target| {
      assert !LiteralAt(s, 0, target);
      var t := s[1..];
      forall i | 0 <= i
        ensures !LiteralAt(t, i, target)
      {
        assert !LiteralAt(s, i + 1, target);
        if i + |target| <= |t| {
          assert t[i..i + |target|] == s[i + 1..i + 1 + |target|];
        }
      }
      ReplaceAbsent(t, target, replacement);
      assert [s[0]] + t == s;
    }
  }

  /** All the pieces of `s` between occurrences of `c` (no piece dropped). */
  function SplitAll(s: string, c: char): (parts: seq<string>)
    ensures |parts| >= 1
    decreases |s|
  {
    var i := IndexOfFrom(s, 0, c);
    if i == |s| then [s] else [s[..i]] + SplitAll(s[i + 1..], c)
  }

  /** No piece holds the separator. */
  lemma {:induction false} SplitAllNoSep(s: string, c: char, k: nat)
    requires k < |SplitAll(s, c)|
    ensures c !in SplitAll(s, c)[k]
    decreases |s|
  {
    var i := IndexOfFrom(s, 0, c);
    IndexOfFromFound(s, 0, c);
    if i < |s| {
      if k == 0 {
        forall j | 0 <= j < i ensures s[..i][j] != c {
          IndexOfFromFirst(s, 0, c, j);
        }
      } else {
        SplitAllNoSep(s[i + 1..], c, k - 1);
      }
    } else {
      assert s[0..] == s;
    }
  }

  /** Joins the parts with `sep` between neighbours. */
  function Join(parts: seq<string>, sep: string): string {
    if |parts| == 0 then []
    else if |parts| == 1 then parts[0]
    else parts[0] + sep + Join(parts[1..], sep)
  }

  /** Splitting on `c` and joining again with `c` gives back the text. */
  lemma {:induction false} JoinSplitAll(s: string, c: char)
    ensures Join(SplitAll(s, c), [c]) == s
    decreases |s|
  {
    var i := IndexOfFrom(s, 0, c);
    if i < |s| {
      JoinSplitAll(s[i + 1..], c);
      assert s == s[..i] + [c] + s[i + 1..];
    }
  }

  /** The separator after the first of several joined parts. */
  lemma JoinAt(parts: seq<string>, sep: string)
    requires |parts| >= 2
    ensures Join(parts, sep) == parts[0] + sep + Join(parts[1..], sep)
  {
  }

  /** Joining one more part at the end puts one separator before it. */
  lemma {:induction false} JoinSnoc(parts: seq<string>, last: string, sep: string)
    requires |parts| >= 1
    ensures Join(parts + [last], sep) == Join(parts, sep) + sep + last
    decreases |parts|
  {
    var all := parts + [last];
    assert all[1..] == parts[1..] + [last];
    if |parts| > 1 {
      JoinSnoc(parts[1..], last, sep);
    }
  }

  /** The first `c` of `a + [c] + b`, when `a` holds none, is right after `a`. */
  lemma IndexOfAfter(a: string, c: char, b: string)
    requires c !in a
    ensures IndexOfFrom(a + [c] + b, 0, c) == |a|
  {
    var s := a + [c] + b;
    var r := IndexOfFrom(s, 0, c);
    if r > |a| {
      IndexOfFromFirst(s, 0, c, |a|);
    }
  }

  /** Splitting parts joined by `c` gives the parts back, when no part holds `c`. */
  lemma {:induction false} SplitAllJoin(parts: seq<string>, c: char)
    requires |parts| >= 1
    requires forall k :: 0 <= k < |parts| ==> c !in parts[k]
    ensures SplitAll(Join(parts, [c]), c) == parts
    decreases |parts|
  {
    var s := Join(parts, [c]);
    if |parts| == 1 {
      assert IndexOfFrom(s, 0, c) == |s|;
    } else {
      var rest := Join(parts[1..], [c]);
      JoinAt(parts, [c]);
      IndexOfAfter(parts[0], c, rest);
      assert s[|parts[0]| + 1..] == rest;
      assert s[..|parts[0]|] == parts[0];
      SplitAllJoin(parts[1..], c);
      assert parts == [parts[0]] + parts[1..];
    }
  }

  /** Drops the empty strings at the end, as `String.split` does. */
  function DropTrailingEmpty(parts: seq<string>): (r: seq<string>)
    ensures |r| <= |parts| && r == parts[..|r|]
    ensures r == [] || r[|r| - 1] != []
  {
    if |parts| == 0 then []
    else if parts[|parts| - 1] == [] then DropTrailingEmpty(parts[..|parts| - 1])
    else parts
  }

  /** `s.split(c)` for a char that is not a regex metacharacter. */
  function Split(s: string, c: char): seq<string> {
    if c !in s then [s] else DropTrailingEmpty(SplitAll(s, c))
  }

  /** `s.split(c, 2)`: at most two pieces, cut at the first `c`. */
  function SplitFirst(s: string, c: char): (parts: seq<string>)
    ensures 1 <= |parts| <= 2
    ensures |parts| == 1 <==> c !in s
  {
    IndexOfFromFound(s, 0, c);
    var i := IndexOfFrom(s, 0, c);
    if i == |s| then [s] else [s[..i], s[i + 1..]]
  }

  /** The lines a java.util.Scanner yields with `nextLine`: "\r\n" is one terminator, and a
      terminator at the very end does not start another line. */
  function Lines(s: string): (lines: seq<string>)
    decreases |s|
  {
    if s == [] then []
    else
      var i := TerminatorFrom(s, 0);
      if i == |s| then [s]
      else
        var next := if s[i] == '\r' && i + 1 < |s| && s[i + 1] == '\n' then i + 2 else i + 1;
        [s[..i]] + Lines(s[next..])
  }

  /** First line-terminator index at or after `i`, or `|s|`. */
  function TerminatorFrom(s: string, i: nat): (r: nat)
    requires i <= |s|
    ensures i <= r <= |s|
    ensures r < |s| ==> IsLineTerminator(s[r])
    decreases |s| - i
  {
    if i == |s| then |s| else if IsLineTerminator(s[i]) then i else TerminatorFrom(s, i + 1)
  }

  /** The first line terminator from `i` is at `e` (or there is none and `e` is the end). */
  lemma {:induction false} TerminatorFromOf(s: string, i: nat, e: nat)
    requires i <= e <= |s| && (e == |s| || IsLineTerminator(s[e]))
    requires forall k :: i <= k < e ==> !IsLineTerminator(s[k])
    ensures TerminatorFrom(s, i) == e
    decreases e - i
  {
    if i < e {
      TerminatorFromOf(s, i + 1, e);
    }
  }

  /** A line terminator at `t` is found no later than `t`. */
  lemma {:induction false} TerminatorFromBefore(s: string, i: nat, t: nat)
    requires i <= t < |s| && IsLineTerminator(s[t])
    ensures TerminatorFrom(s, i) <= t
    decreases t - i
  {
    if i < t {
      TerminatorFromBefore(s, i + 1, t);
    }
  }

  /** Without a line terminator in `[i, j]`, the search goes past `j`. */
  lemma {:induction false} TerminatorFromPast(s: string, i: nat, j: nat)
    requires i <= j < |s|
    requires forall k :: i <= k <= j ==> !IsLineTerminator(s[k])
    ensures j < TerminatorFrom(s, i)
    decreases j - i
  {
    if i < j {
      TerminatorFromPast(s, i + 1, j);
    }
  }

  predicate IsDigit(c: char) { '0' <= c <= '9' }

  predicate AllDigits(s: string) { forall k :: 0 <= k < |s| ==> IsDigit(s[k]) }

  function DigitsValue(s: string): (n: nat)
    requires forall k :: 0 <= k < |s| ==> IsDigit(s[k])
  {
    if s == [] then 0
    else
      assert IsDigit(s[|s| - 1]);
      10 * DigitsValue(s[..|s| - 1]) + (s[|s| - 1] as int - '0' as int)
  }

  const IntMin: int := -0x8000_0000
  const IntMax: int := 0x7FFF_FFFF
  const LongMin: int := -0x8000_0000_0000_0000
  const LongMax: int := 0x7FFF_FFFF_FFFF_FFFF

  /** `Integer.parseInt` (lo, hi = the int range) and `Long.parseLong` (the long range):
      an optional sign, then one or more decimal digits, and a value inside the range;
      anything else is a NumberFormatException, given here as `None`. */
  function ParseInteger(s: string, lo: int, hi: int): (r: Option<int>)
    ensures r.Some? ==> lo <= r.value <= hi
  {
    var signed := |s| > 0 && (s[0] == '-' || s[0] == '+');
    var digits := if signed then s[1..] else s;
    if |digits| == 0 || !AllDigits(digits) then None
    else
      var magnitude := DigitsValue(digits);
      var v: int := if signed && s[0] == '-' then 0 - magnitude as int else magnitude as int;
      if lo <= v <= hi then Some(v) else None
  }

  function ParseInt(s: string): (r: Option<int>)
    ensures r.Some? ==> IntMin <= r.value <= IntMax
  {
    ParseInteger(s, IntMin, IntMax)
  }

  function NatToString(n: nat): (r: string)
    ensures |r| > 0
    ensures forall k :: 0 <= k < |r| ==> IsDigit(r[k])
  {
    var d := ['0' + (n % 10) as char];
    if n < 10 then d else NatToString(n / 10) + d
  }

  /** `Integer.toString`: decimal, with a leading '-' for negative values. */
  function IntToString(i: int): string {
    if i < 0 then "-" + NatToString(-i) else NatToString(i)
  }

  /** Digits read back give the number written. */
  lemma {:induction false} NatToStringValue(n: nat)
    ensures DigitsValue(NatToString(n)) == n
  {
    var d := ['0' + (n % 10) as char];
    if n >= 10 {
      NatToStringValue(n / 10);
      var r := NatToString(n / 10) + d;
      assert r[..|r| - 1] == NatToString(n / 10);
    }
  }

  /** `Integer.parseInt(Integer.toString(i)) == i` for every int. */
  lemma ParseIntToString(i: int)
    requires IntMin <= i <= IntMax
    ensures ParseInt(IntToString(i)) == Some(i)
  {
    if i < 0 {
      NatToStringValue(-i);
      ParseIntegerNegative(NatToString(-i), IntMin, IntMax);
    } else {
      NatToStringValue(i);
      ParseIntegerUnsigned(NatToString(i), IntMin, IntMax);
    }
  }

  /** Digits without a sign read as their value. */
  lemma ParseIntegerUnsigned(ds: string, lo: int, hi: int)
    requires |ds| > 0 && forall k :: 0 <= k < |ds| ==> IsDigit(ds[k])
    ensures lo <= DigitsValue(ds) <= hi ==> ParseInteger(ds, lo, hi) == Some(DigitsValue(ds))
  {
    assert IsDigit(ds[0]);
  }

  /** A '-' followed by digits reads as the negated value. */
  lemma ParseIntegerNegative(ds: string, lo: int, hi: int)
    requires |ds| > 0 && forall k :: 0 <= k < |ds| ==> IsDigit(ds[k])
    ensures var v := 0 - DigitsValue(ds) as int; lo <= v <= hi ==> ParseInteger("-" + ds, lo, hi) == Some(v)
  {
    var s := "-" + ds;
    assert s[0] == '-';
    assert s[1..] == ds;
    assert AllDigits(ds);
  }
}
