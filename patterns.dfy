/** The regular expressions of the parsers, each written out as a scanner for its one shape.
    `find` semantics: the leftmost position at or after the search start where the shape matches. */
module Patterns {
  import opened Wrappers
  import opened JavaString

  /** The character classes the patterns repeat. */
  datatype CharClass =
    | SpaceClass                 // \s
    | NonSpaceClass              // \S
    | WordClass                  // \w
    | WordDashClass              // [\w-]
    | KeyClass                   // [a-zA-Z0-9_-]
    | OptionKeyClass             // [a-zA-Z-]
    | NoneOf(a: char, b: char)   // [^ab]
    | BracketBodyClass           // any char but ']' and the line terminators (`.` before `]`)

  predicate InClass(c: char, cls: CharClass) {
    match cls
    case SpaceClass => IsSpace(c)
    case NonSpaceClass => !IsSpace(c)
    case WordClass => IsWordChar(c)
    case WordDashClass => IsWordOrDash(c)
    case KeyClass => IsKeyChar(c)
    case OptionKeyClass => IsOptionKeyChar(c)
    case NoneOf(a, b) => c != a && c != b
    case BracketBodyClass => c != ']' && !IsLineTerminator(c)
  }

  /** End of the maximal run of chars of class `cls`, starting at `i`. */
  function RunEnd(s: string, i: nat, cls: CharClass): (r: nat)
    requires i <= |s|
    ensures i <= r <= |s|
    ensures r < |s| ==> !InClass(s[r], cls)
    decreases |s| - i
  {
    if i == |s| || !InClass(s[i], cls) then i else RunEnd(s, i + 1, cls)
  }

  /** Every char of the run is of the class. */
  lemma {:induction false} RunEndIn(s: string, i: nat, cls: CharClass, k: nat)
    requires i <= |s| && i <= k < RunEnd(s, i, cls)
    ensures InClass(s[k], cls)
    decreases |s| - i
  {
    if k > i {
      RunEndIn(s, i + 1, cls, k);
    }
  }

  /** `\s*` from `i`. */
  function SkipSpaces(s: string, i: nat): (r: nat)
    requires i <= |s|
    ensures i <= r <= |s|
    ensures r < |s| ==> !IsSpace(s[r])
  {
    RunEnd(s, i, SpaceClass)
  }

  /** Every char of `s[a..b]` is of class `cls`. */
  predicate RangeIn(s: string, a: nat, b: nat, cls: CharClass)
    requires a <= b <= |s|
  {
    forall k :: a <= k < b ==> InClass(s[k], cls)
  }

  /** A run of class chars followed by the end or by a char outside the class ends there. */
  lemma {:induction false} RunEndOf(s: string, i: nat, j: nat, cls: CharClass)
    requires i <= j <= |s| && RangeIn(s, i, j, cls)
    requires j < |s| ==> !InClass(s[j], cls)
    ensures RunEnd(s, i, cls) == j
    decreases j - i
  {
    if i < j {
      RunEndOf(s, i + 1, j, cls);
    }
  }

  /** Without `c` from `i` on, the search reaches the end. */
  lemma {:induction false} IndexOfFromNone(s: string, i: nat, c: char)
    requires i <= |s| && RangeIn(s, i, |s|, NoneOf(c, c))
    ensures IndexOfFrom(s, i, c) == |s|
    decreases |s| - i
  {
    if i < |s| {
      IndexOfFromNone(s, i + 1, c);
    }
  }

  /** The first occurrence of `c` from `i` is found. */
  lemma {:induction false} IndexOfFromOf(s: string, i: nat, j: nat, c: char)
    requires i <= j < |s| && s[j] == c && RangeIn(s, i, j, NoneOf(c, c))
    ensures IndexOfFrom(s, i, c) == j
    decreases j - i
  {
    if i < j {
      IndexOfFromOf(s, i + 1, j, c);
    }
  }

  /** A piece equal to the literal up to ASCII case is matched case-insensitively. */
  lemma {:induction false} LiteralAtIgnoreCaseOf(s: string, i: nat, lit: string)
    requires i + |lit| <= |s| && ToLowerAscii(s[i..i + |lit|]) == ToLowerAscii(lit)
    ensures LiteralAtIgnoreCase(s, i, lit)
    decreases |lit|
  {
    if lit != [] {
      assert LowerAscii(s[i]) == ToLowerAscii(s[i..i + |lit|])[0];
      assert ToLowerAscii(s[i + 1..i + |lit|]) == ToLowerAscii(lit[1..]) by {
        forall k | 0 <= k < |lit| - 1
          ensures ToLowerAscii(s[i + 1..i + |lit|])[k] == ToLowerAscii(lit[1..])[k]
        {
          assert ToLowerAscii(s[i..i + |lit|])[k + 1] == ToLowerAscii(lit)[k + 1];
        }
      }
      LiteralAtIgnoreCaseOf(s, i + 1, lit[1..]);
    }
  }

  /** `\w`: ASCII letters, digits and underscore. */
  predicate IsWordChar(c: char) {
    'a' <= c <= 'z' || 'A' <= c <= 'Z' || '0' <= c <= '9' || c == '_'
  }

  /** `[\w-]` */
  predicate IsWordOrDash(c: char) { IsWordChar(c) || c == '-' }

  /** Some char of `s[a..b]` is not a plain space. */
  predicate HasNonSpace(s: string, a: nat, b: nat)
    requires a <= b <= |s|
  {
    exists k :: a <= k < b && s[k] != ' '
  }

  /** A block header found in the text: where it starts, its name group (sections only),
      its trimmed value group (path pattern or selector) and the index of its `{`. */
  datatype Header = Header(start: nat, name: string, value: string, brace: nat)

  /** The three header shapes, all matched case-insensitively:
      PathHeader        `path\s*:\s*([^\{]+)\{`
      SectionHeader     `section\s*:\s*([\w-]+)\s+([^\{]+)\{`  (name class `\w` only when !dash)
      ItemsHeader       `items\s*:\s*([^\{\n]+)\{` */
  datatype HeaderKind = PathHeader | SectionHeader(dash: bool) | ItemsHeader

  /** The header of the given kind starting exactly at `p`, if any. */
  function HeaderAt(s: string, p: nat, kind: HeaderKind): (r: Option<Header>)
    requires p <= |s|
    ensures r.Some? ==> r.value.start == p && p < r.value.brace < |s| && s[r.value.brace] == '{'
    ensures r.Some? && kind.SectionHeader? ==> r.value.name != []
  {
    match kind
    case PathHeader => PathAt(s, p)
    case SectionHeader(dash) => SectionAt(s, p, dash)
    case ItemsHeader => ItemsAt(s, p)
  }

  function PathAt(s: string, p: nat): (r: Option<Header>)
    requires p <= |s|
    ensures r.Some? ==> r.value.start == p && p < r.value.brace < |s| && s[r.value.brace] == '{'
  {
    if !LiteralAtIgnoreCase(s, p, "path") then None
    else
      var q := SkipSpaces(s, p + 4);
      if q == |s| || s[q] != ':' then None
      else
        var b := IndexOfFrom(s, q + 1, '{');
        if b == |s| || b < q + 2 then None else Some(Header(p, "", Trim(s[q + 1..b]), b))
  }

  function SectionAt(s: string, p: nat, dash: bool): (r: Option<Header>)
    requires p <= |s|
    ensures r.Some? ==> r.value.start == p && p < r.value.brace < |s| && s[r.value.brace] == '{'
    ensures r.Some? ==> r.value.name != []
  {
    if !LiteralAtIgnoreCase(s, p, "section") then None
    else
      var q := SkipSpaces(s, p + 7);
      if q == |s| || s[q] != ':' then None
      else
        var n0 := SkipSpaces(s, q + 1);
        var n1 := RunEnd(s, n0, if dash then WordDashClass else WordClass);
        if n1 == n0 || n1 == |s| || !IsSpace(s[n1]) then None
        else
          var b := IndexOfFrom(s, n1, '{');
          if b == |s| || b < n1 + 2 then None else Some(Header(p, s[n0..n1], Trim(s[n1..b]), b))
  }

  function ItemsAt(s: string, p: nat): (r: Option<Header>)
    requires p <= |s|
    ensures r.Some? ==> r.value.start == p && p < r.value.brace < |s| && s[r.value.brace] == '{'
  {
    if !LiteralAtIgnoreCase(s, p, "items") then None
    else
      var q := SkipSpaces(s, p + 5);
      if q == |s| || s[q] != ':' then None
      else
        var r := SkipSpaces(s, q + 1);
        var e := RunEnd(s, r, NoneOf('{', '\n'));
        if e == |s| || s[e] != '{' then None
        else if e == r && (r == q + 1 || s[r - 1] == '\n') then None
        else Some(Header(p, "", Trim(s[q + 1..e]), e))
  }

  /** Every `path` header is read back: the keyword in any case at `p`, spaces, `:` at `q`,
      then at least one char and no `{` up to the `{` at `b`; the value is that text trimmed. */
  lemma PathAtOf(s: string, p: nat, q: nat, b: nat)
    requires p + 4 <= q && q + 2 <= b < |s|
    requires EqualsIgnoreCase(s[p..p + 4], "path") && RangeIn(s, p + 4, q, SpaceClass) && s[q] == ':'
    requires RangeIn(s, q + 1, b, NoneOf('{', '{')) && s[b] == '{'
    ensures PathAt(s, p) == Some(Header(p, "", Trim(s[q + 1..b]), b))
  {
    LiteralAtIgnoreCaseOf(s, p, "path");
    RunEndOf(s, p + 4, q, SpaceClass);
    IndexOfFromOf(s, q + 1, b, '{');
    PathAssembled(s, p, q, b);
  }

  /** `PathAt` from the results of its scans. */
  lemma PathAssembled(s: string, p: nat, q: nat, b: nat)
    requires p + 4 <= q && q + 2 <= b < |s|
    requires LiteralAtIgnoreCase(s, p, "path") && s[q] == ':'
    requires SkipSpaces(s, p + 4) == q && IndexOfFrom(s, q + 1, '{') == b
    ensures PathAt(s, p) == Some(Header(p, "", Trim(s[q + 1..b]), b))
  {
  }

  /** Every `section` header is read back: the keyword in any case at `p`, spaces, `:` at `q`,
      spaces, the name in `s[n0..n1]` followed by a space, then at least one more char and no
      `{` up to the `{` at `b`; the selector is the text after the name, trimmed. */
  lemma SectionAtOf(s: string, p: nat, q: nat, n0: nat, n1: nat, b: nat, dash: bool)
    requires p + 7 <= q && q + 1 <= n0 < n1 && n1 + 2 <= b < |s|
    requires EqualsIgnoreCase(s[p..p + 7], "section") && RangeIn(s, p + 7, q, SpaceClass) && s[q] == ':'
    requires RangeIn(s, q + 1, n0, SpaceClass)
    requires RangeIn(s, n0, n1, if dash then WordDashClass else WordClass) && IsSpace(s[n1])
    requires RangeIn(s, n1, b, NoneOf('{', '{')) && s[b] == '{'
    ensures SectionAt(s, p, dash) == Some(Header(p, s[n0..n1], Trim(s[n1..b]), b))
  {
    SectionScans(s, p, q, n0, n1, b, dash);
    SectionAssembled(s, p, q, n0, n1, b, dash);
  }

  /** `SectionAt` from the results of its scans. */
  lemma SectionAssembled(s: string, p: nat, q: nat, n0: nat, n1: nat, b: nat, dash: bool)
    requires p + 7 <= q < n0 < n1 < b < |s|
    requires LiteralAtIgnoreCase(s, p, "section")
    requires s[q] == ':' && IsSpace(s[n1]) && n1 + 2 <= b
    requires SkipSpaces(s, p + 7) == q && SkipSpaces(s, q + 1) == n0
    requires RunEnd(s, n0, if dash then WordDashClass else WordClass) == n1
    requires IndexOfFrom(s, n1, '{') == b
    ensures SectionAt(s, p, dash) == Some(Header(p, s[n0..n1], Trim(s[n1..b]), b))
  {
  }

  /** The scans of `SectionAt` on a header laid out as `SectionAtOf` says. */
  lemma SectionScans(s: string, p: nat, q: nat, n0: nat, n1: nat, b: nat, dash: bool)
    requires p + 7 <= q && q + 1 <= n0 < n1 && n1 + 2 <= b < |s|
    requires EqualsIgnoreCase(s[p..p + 7], "section") && RangeIn(s, p + 7, q, SpaceClass) && s[q] == ':'
    requires RangeIn(s, q + 1, n0, SpaceClass)
    requires RangeIn(s, n0, n1, if dash then WordDashClass else WordClass) && IsSpace(s[n1])
    requires RangeIn(s, n1, b, NoneOf('{', '{')) && s[b] == '{'
    ensures LiteralAtIgnoreCase(s, p, "section")
    ensures SkipSpaces(s, p + 7) == q && SkipSpaces(s, q + 1) == n0
    ensures RunEnd(s, n0, if dash then WordDashClass else WordClass) == n1
    ensures IndexOfFrom(s, n1, '{') == b
  {
    LiteralAtIgnoreCaseOf(s, p, "section");
    RunEndOf(s, p + 7, q, SpaceClass);
    assert InClass(s[n0], if dash then WordDashClass else WordClass);
    RunEndOf(s, q + 1, n0, SpaceClass);
    RunEndOf(s, n0, n1, if dash then WordDashClass else WordClass);
    IndexOfFromOf(s, n1, b, '{');
  }

  /** Every `items` header is read back: the keyword in any case at `p`, spaces, `:` at `q`,
      spaces up to the first other char at `r`, then no `{` and no line break up to the `{` at
      `b`; the selector is the text between `:` and `{`, trimmed. */
  lemma ItemsAtOf(s: string, p: nat, q: nat, r: nat, b: nat)
    requires p + 5 <= q && q + 1 <= r < b < |s|
    requires EqualsIgnoreCase(s[p..p + 5], "items") && RangeIn(s, p + 5, q, SpaceClass) && s[q] == ':'
    requires RangeIn(s, q + 1, r, SpaceClass) && !IsSpace(s[r])
    requires RangeIn(s, r, b, NoneOf('{', '\n')) && s[b] == '{'
    ensures ItemsAt(s, p) == Some(Header(p, "", Trim(s[q + 1..b]), b))
  {
    LiteralAtIgnoreCaseOf(s, p, "items");
    RunEndOf(s, p + 5, q, SpaceClass);
    RunEndOf(s, q + 1, r, SpaceClass);
    RunEndOf(s, r, b, NoneOf('{', '\n'));
    ItemsAssembled(s, p, q, r, b);
  }

  /** `ItemsAt` from the results of its scans. */
  lemma ItemsAssembled(s: string, p: nat, q: nat, r: nat, b: nat)
    requires p + 5 <= q && q + 1 <= r < b < |s|
    requires LiteralAtIgnoreCase(s, p, "items") && s[q] == ':' && s[b] == '{'
    requires SkipSpaces(s, p + 5) == q && SkipSpaces(s, q + 1) == r
    requires RunEnd(s, r, NoneOf('{', '\n')) == b
    ensures ItemsAt(s, p) == Some(Header(p, "", Trim(s[q + 1..b]), b))
  {
  }

  /** `Matcher.find()` from `from`: the leftmost header of the kind at or after `from`. */
  function FindHeader(s: string, from: nat, kind: HeaderKind): (r: Option<Header>)
    requires from <= |s|
    ensures r.Some? ==> from <= r.value.start < r.value.brace < |s| && s[r.value.brace] == '{'
    ensures r.Some? && kind.SectionHeader? ==> r.value.name != []
    decreases |s| - from
  {
    var here := HeaderAt(s, from, kind);
    // `from < brace` always holds for a header found at `from`; naming it here lets
    // callers that unfold this function see the bound without unfolding HeaderAt.
    if here.Some? && from < here.value.brace then here
    else if from == |s| then None
    else FindHeader(s, from + 1, kind)
  }

  /** The header found is one that starts where it says. */
  lemma {:induction false} FindHeaderFound(s: string, from: nat, kind: HeaderKind)
    requires from <= |s|
    requires FindHeader(s, from, kind).Some?
    ensures HeaderAt(s, FindHeader(s, from, kind).value.start, kind) == FindHeader(s, from, kind)
    decreases |s| - from
  {
    if HeaderAt(s, from, kind).None? {
      FindHeaderFound(s, from + 1, kind);
    }
  }

  /** The header found is the leftmost one: none starts between `from` and it. */
  lemma {:induction false} FindHeaderLeftmost(s: string, from: nat, kind: HeaderKind, p: nat)
    requires from <= p <= |s|
    requires FindHeader(s, from, kind).Some? ==> p < FindHeader(s, from, kind).value.start
    ensures HeaderAt(s, p, kind).None?
    decreases p - from
  {
    FindHeaderStep(s, from, kind);
    if p > from {
      FindHeaderLeftmost(s, from + 1, kind, p);
    }
  }

  /** One step of the scan: a header at `from` is the one found, else the scan moves on. */
  lemma FindHeaderStep(s: string, from: nat, kind: HeaderKind)
    requires from <= |s|
    ensures HeaderAt(s, from, kind).Some? ==> FindHeader(s, from, kind) == HeaderAt(s, from, kind)
    ensures HeaderAt(s, from, kind).None? && from < |s| ==> FindHeader(s, from, kind) == FindHeader(s, from + 1, kind)
  {
  }

  /** `^(text|img|link)\s*:\s*(.+)$` (case-insensitive) on one line, which holds no line
      terminator: the lower-cased field name and the trimmed rest of the line. */
  function FieldLine(line: string): (r: Option<(string, string)>)
    ensures r.Some? ==> r.value.0 in {"text", "img", "link"}
  {
    var t := FieldLineFor(line, "text");
    if t.Some? then t
    else
      var i := FieldLineFor(line, "img");
      if i.Some? then i else FieldLineFor(line, "link")
  }

  function FieldLineFor(line: string, field: string): (r: Option<(string, string)>)
    ensures r.Some? ==> r.value.0 == field
  {
    if !LiteralAtIgnoreCase(line, 0, field) then None
    else
      var q := SkipSpaces(line, |field|);
      if q == |line| || line[q] != ':' || q + 1 == |line| then None
      else Some((field, Trim(line[q + 1..])))
  }

  /** Every field line is read back: `text`, `img` or `link` in any case at the start, spaces,
      `:` at `q` and at least one more char; the value is the rest of the line, trimmed. */
  lemma FieldLineOf(line: string, field: string, q: nat)
    requires field == "text" || field == "img" || field == "link"
    requires |field| <= q && q + 1 < |line|
    requires EqualsIgnoreCase(line[..|field|], field) && RangeIn(line, |field|, q, SpaceClass)
    requires line[q] == ':'
    ensures FieldLine(line) == Some((field, Trim(line[q + 1..])))
  {
    FieldLineForOf(line, field, q);
    assert LowerAscii(line[0]) == field[0] by {
      assert ToLowerAscii(line[..|field|])[0] == ToLowerAscii(field)[0];
    }
    if field != "text" {
      FieldLineForOther(line, "text");
    }
    if field == "link" {
      FieldLineForOther(line, "img");
    }
  }

  /** The line read for the one field it names. */
  lemma FieldLineForOf(line: string, field: string, q: nat)
    requires |field| <= q && q + 1 < |line|
    requires EqualsIgnoreCase(line[..|field|], field) && RangeIn(line, |field|, q, SpaceClass)
    requires line[q] == ':'
    ensures FieldLineFor(line, field) == Some((field, Trim(line[q + 1..])))
  {
    assert line[0..|field|] == line[..|field|];
    LiteralAtIgnoreCaseOf(line, 0, field);
    RunEndOf(line, |field|, q, SpaceClass);
  }

  /** A line whose first char is not that of the field, in any case, is not that field's. */
  lemma FieldLineForOther(line: string, field: string)
    requires line != [] && field != [] && LowerAscii(line[0]) != LowerAscii(field[0])
    ensures FieldLineFor(line, field) == None
  {
  }

  /** The `find` loop of `\[(.*?)]` from `i` (with `.` stopping at line terminators): the
      bracket contents in order, and the text with those groups removed (`replaceAll(.., "")`). */
  function Brackets(s: string, i: nat): (r: (seq<string>, string))
    requires i <= |s|
    ensures |r.1| <= |s| - i
    decreases |s| - i
  {
    var o := IndexOfFrom(s, i, '[');
    if o == |s| then ([], s[i..])
    else
      var c := RunEnd(s, o + 1, BracketBodyClass);
      if c < |s| && s[c] == ']' then
        var rest := Brackets(s, c + 1);
        ([s[o + 1..c]] + rest.0, s[i..o] + rest.1)
      else
        var rest := Brackets(s, o + 1);
        (rest.0, s[i..o + 1] + rest.1)
  }

  /** Bracket contents as a list, each trimmed. */
  function TrimAll(tokens: seq<string>): (r: seq<string>)
    ensures |r| == |tokens|
  {
    seq(|tokens|, k requires 0 <= k < |tokens| => Trim(tokens[k]))
  }

  /** A `[` at `o`, closed on its line by the `]` at `c`, is the next group: its contents are
      `s[o + 1..c]`, and the text before it is kept. */
  lemma BracketsGroup(s: string, i: nat, o: nat, c: nat)
    requires i <= o < c < |s|
    requires RangeIn(s, i, o, NoneOf('[', '[')) && s[o] == '['
    requires RangeIn(s, o + 1, c, BracketBodyClass) && s[c] == ']'
    ensures Brackets(s, i) == ([s[o + 1..c]] + Brackets(s, c + 1).0, s[i..o] + Brackets(s, c + 1).1)
  {
    IndexOfFromOf(s, i, o, '[');
    RunEndOf(s, o + 1, c, BracketBodyClass);
  }

  /** A `[` at `o` with no `]` before the end of its line (at `c`) is kept as text, and the
      search goes on after it. */
  lemma BracketsUnclosed(s: string, i: nat, o: nat, c: nat)
    requires i <= o < c <= |s|
    requires RangeIn(s, i, o, NoneOf('[', '[')) && s[o] == '['
    requires RangeIn(s, o + 1, c, BracketBodyClass) && (c == |s| || IsLineTerminator(s[c]))
    ensures Brackets(s, i) == (Brackets(s, o + 1).0, s[i..o + 1] + Brackets(s, o + 1).1)
  {
    IndexOfFromOf(s, i, o, '[');
    RunEndOf(s, o + 1, c, BracketBodyClass);
  }

  /** Trimming a list trims its head and then its tail. */
  lemma TrimAllCons(t: string, tokens: seq<string>)
    ensures TrimAll([t] + tokens) == [Trim(t)] + TrimAll(tokens)
  {
    var l, r := TrimAll([t] + tokens), [Trim(t)] + TrimAll(tokens);
    assert |l| == |r|;
    forall k | 0 <= k < |l| ensures l[k] == r[k] {
      if k > 0 {
        assert ([t] + tokens)[k] == tokens[k - 1];
      }
    }
  }

  /** Text without `[` has no bracket group and is kept whole. */
  lemma {:induction false} BracketsNone(s: string, i: nat)
    requires i <= |s|
    requires forall k :: i <= k < |s| ==> s[k] != '['
    ensures Brackets(s, i) == ([], s[i..])
  {
  }

  /** `^(\s*\[[^]]+])+`: the end of the leading run of bracket groups (0 when there is none). */
  function LeadingGroupsEnd(t: string, i: nat): (r: nat)
    requires i <= |t|
    ensures i <= r <= |t|
    decreases |t| - i
  {
    var j := SkipSpaces(t, i);
    if j < |t| && t[j] == '[' then
      var k := IndexOfFrom(t, j + 1, ']');
      if k < |t| && k > j + 1 then LeadingGroupsEnd(t, k + 1) else i
    else i
  }

  /** Spaces from `i` to `j`, a `[` at `j`, then at least one char and no `]` up to the `]` at
      `k`: that group belongs to the leading run, which goes on after it. */
  lemma LeadingGroupsEndGroup(t: string, i: nat, j: nat, k: nat)
    requires i <= j && j + 1 < k < |t|
    requires RangeIn(t, i, j, SpaceClass) && t[j] == '['
    requires RangeIn(t, j + 1, k, NoneOf(']', ']')) && t[k] == ']'
    ensures LeadingGroupsEnd(t, i) == LeadingGroupsEnd(t, k + 1)
  {
    RunEndOf(t, i, j, SpaceClass);
    IndexOfFromOf(t, j + 1, k, ']');
  }

  /** Spaces from `i` to `j`, then the end, a char other than `[`, or a `[` that no non-empty
      group follows: the leading run ends at `i`. */
  lemma LeadingGroupsEndStop(t: string, i: nat, j: nat)
    requires i <= j <= |t| && RangeIn(t, i, j, SpaceClass)
    requires j < |t| ==> !IsSpace(t[j])
    requires j < |t| && t[j] == '[' ==> j + 1 == |t| || t[j + 1] == ']' || RangeIn(t, j + 1, |t|, NoneOf(']', ']'))
    ensures LeadingGroupsEnd(t, i) == i
  {
    RunEndOf(t, i, j, SpaceClass);
    if j < |t| && t[j] == '[' && j + 1 < |t| && t[j + 1] != ']' {
      IndexOfFromNone(t, j + 1, ']');
    }
  }

  /** `page-type\s*:\s*(\S+)` (case-insensitive) at `p`: the token. */
  function PageTypeAt(s: string, p: nat): (r: Option<string>)
    requires p <= |s|
    ensures r.Some? ==> r.value != []
  {
    if !LiteralAtIgnoreCase(s, p, "page-type") then None
    else
      var q := SkipSpaces(s, p + 9);
      if q == |s| || s[q] != ':' then None
      else
        var v0 := SkipSpaces(s, q + 1);
        var v1 := RunEnd(s, v0, NonSpaceClass);
        if v1 == v0 then None else Some(s[v0..v1])
  }

  /** Every page-type declaration is read back: the keyword in any case at `p`, spaces, `:` at
      `q`, spaces, then the token `s[v0..v1]` of non-space chars up to a space or the end. */
  lemma PageTypeAtOf(s: string, p: nat, q: nat, v0: nat, v1: nat)
    requires p + 9 <= q && q + 1 <= v0 < v1 <= |s|
    requires EqualsIgnoreCase(s[p..p + 9], "page-type") && RangeIn(s, p + 9, q, SpaceClass) && s[q] == ':'
    requires RangeIn(s, q + 1, v0, SpaceClass) && RangeIn(s, v0, v1, NonSpaceClass)
    requires v1 < |s| ==> IsSpace(s[v1])
    ensures PageTypeAt(s, p) == Some(s[v0..v1])
  {
    LiteralAtIgnoreCaseOf(s, p, "page-type");
    PageTypeScans(s, p, q, v0, v1);
    PageTypeAssembled(s, p, q, v0, v1);
  }

  /** The space and token scans of `PageTypeAt` on a declaration laid out as `PageTypeAtOf` says. */
  lemma PageTypeScans(s: string, p: nat, q: nat, v0: nat, v1: nat)
    requires p + 9 <= q && q + 1 <= v0 < v1 <= |s| && s[q] == ':'
    requires RangeIn(s, p + 9, q, SpaceClass)
    requires RangeIn(s, q + 1, v0, SpaceClass) && RangeIn(s, v0, v1, NonSpaceClass)
    requires v1 < |s| ==> IsSpace(s[v1])
    ensures SkipSpaces(s, p + 9) == q && SkipSpaces(s, q + 1) == v0
    ensures RunEnd(s, v0, NonSpaceClass) == v1
  {
    RunEndOf(s, p + 9, q, SpaceClass);
    assert InClass(s[v0], NonSpaceClass);
    RunEndOf(s, q + 1, v0, SpaceClass);
    RunEndOf(s, v0, v1, NonSpaceClass);
  }

  /** `PageTypeAt` from the results of its scans. */
  lemma PageTypeAssembled(s: string, p: nat, q: nat, v0: nat, v1: nat)
    requires p + 9 <= q && q + 1 <= v0 < v1 <= |s|
    requires LiteralAtIgnoreCase(s, p, "page-type") && s[q] == ':'
    requires SkipSpaces(s, p + 9) == q && SkipSpaces(s, q + 1) == v0
    requires RunEnd(s, v0, NonSpaceClass) == v1
    ensures PageTypeAt(s, p) == Some(s[v0..v1])
  {
  }

  /** Where the first page-type declaration at or after `from` starts. */
  function PageTypePos(s: string, from: nat): (r: Option<nat>)
    requires from <= |s|
    ensures r.Some? ==> from <= r.value <= |s| && PageTypeAt(s, r.value).Some?
    decreases |s| - from
  {
    if PageTypeAt(s, from).Some? then Some(from)
    else if from == |s| then None
    else PageTypePos(s, from + 1)
  }

  /** No page-type declaration starts before the one found (or anywhere, when none is). */
  lemma {:induction false} PageTypePosLeftmost(s: string, from: nat, p: nat)
    requires from <= p <= |s|
    requires PageTypePos(s, from).Some? ==> p < PageTypePos(s, from).value
    ensures PageTypeAt(s, p).None?
    decreases p - from
  {
    PageTypePosSkip(s, from, p);
    if p > from {
      PageTypePosLeftmost(s, from + 1, p);
    }
  }

  /** Before the declaration found, the scan passes `from` by. */
  lemma PageTypePosSkip(s: string, from: nat, p: nat)
    requires from <= p <= |s|
    requires PageTypePos(s, from).Some? ==> p < PageTypePos(s, from).value
    ensures PageTypeAt(s, from).None?
    ensures from < |s| ==> PageTypePos(s, from) == PageTypePos(s, from + 1)
  {
  }

  /** `Matcher.find()` of the page-type pattern: the token of the first declaration. */
  function FindPageType(s: string): (r: Option<string>)
  {
    match PageTypePos(s, 0)
    case None => None
    case Some(p) => PageTypeAt(s, p)
  }

  /** The two-char text `ab` starts at `k`. */
  predicate PairAt(s: string, k: nat, a: char, b: char) {
    k + 1 < |s| && s[k] == a && s[k + 1] == b
  }

  /** First index at or after `i` where the two-char text `ab` starts, or `|s|`. */
  function IndexOfPair(s: string, i: nat, a: char, b: char): (r: nat)
    requires i <= |s|
    ensures i <= r <= |s|
    ensures r < |s| ==> PairAt(s, r, a, b)
    decreases |s| - i
  {
    if i == |s| then |s| else if PairAt(s, i, a, b) then i else IndexOfPair(s, i + 1, a, b)
  }

  /** The first occurrence of `ab` from `i` is found. */
  lemma {:induction false} IndexOfPairOf(s: string, i: nat, j: nat, a: char, b: char)
    requires i <= j < |s| && PairAt(s, j, a, b)
    requires forall k :: i <= k < j ==> !PairAt(s, k, a, b)
    ensures IndexOfPair(s, i, a, b) == j
    decreases j - i
  {
    if i < j {
      IndexOfPairOf(s, i + 1, j, a, b);
    }
  }

  /** Without an occurrence of `ab` in `[i, j)`, the search does not stop before `j`. */
  lemma {:induction false} IndexOfPairAtLeast(s: string, i: nat, j: nat, a: char, b: char)
    requires i <= j <= |s|
    requires forall k :: i <= k < j ==> !PairAt(s, k, a, b)
    ensures j <= IndexOfPair(s, i, a, b)
    decreases j - i
  {
    if i < j {
      IndexOfPairAtLeast(s, i + 1, j, a, b);
    }
  }

  /** No occurrence of `ab` starts before the one found. */
  lemma {:induction false} IndexOfPairFirst(s: string, i: nat, a: char, b: char, k: nat)
    requires i <= |s| && i <= k < IndexOfPair(s, i, a, b)
    ensures !PairAt(s, k, a, b)
    decreases |s| - i
  {
    if k > i {
      IndexOfPairFirst(s, i + 1, a, b, k);
    }
  }

  /** Text without `a` from `i` on holds no `ab`. */
  lemma {:induction false} IndexOfPairAbsent(s: string, i: nat, a: char, b: char)
    requires i <= |s| && forall k :: i <= k < |s| ==> s[k] != a
    ensures IndexOfPair(s, i, a, b) == |s|
    decreases |s| - i
  {
    if i < |s| {
      IndexOfPairAbsent(s, i + 1, a, b);
    }
  }

  // ---------------------------------------------------------------------------------------
  // The line patterns of the line-based parser (case-sensitive, anchored at both ends).
  // ---------------------------------------------------------------------------------------

  /** `[a-zA-Z0-9_-]` */
  predicate IsKeyChar(c: char) {
    'a' <= c <= 'z' || 'A' <= c <= 'Z' || '0' <= c <= '9' || c == '_' || c == '-'
  }

  /** `[a-zA-Z-]` */
  predicate IsOptionKeyChar(c: char) {
    'a' <= c <= 'z' || 'A' <= c <= 'Z' || c == '-'
  }

  /** `^section:\s*([a-zA-Z0-9_-]+)\s+([^ { ]+)\s*\{$`: the name and the trimmed selector. */
  function LegacySectionLine(line: string): (r: Option<(string, string)>)
    ensures r.Some? ==> r.value.0 != [] && StartsWith(line, "section:")
  {
    if !StartsWith(line, "section:") then None
    else
      var n0 := SkipSpaces(line, 8);
      var n1 := RunEnd(line, n0, KeyClass);
      if n1 == n0 || n1 == |line| || !IsSpace(line[n1]) then None
      else
        var w := SkipSpaces(line, n1);
        var s1 := RunEnd(line, w, NoneOf(' ', '{'));
        if s1 > w then
          var e := SkipSpaces(line, s1);
          if e + 1 == |line| && line[e] == '{' then Some((line[n0..n1], Trim(line[w..s1]))) else None
        else if w + 1 == |line| && line[w] == '{' && HasNonSpace(line, n1 + 1, w) then
          Some((line[n0..n1], ""))
        else None
  }

  /** Every section line is read back: `section:`, spaces, the name `line[n0..n1]`, spaces from
      `n1` up to the selector `line[w..s1]`, which holds no space and no `{` and ends at a plain
      space or at the last char, then spaces up to the `{` that ends the line. */
  lemma LegacySectionLineOf(line: string, n0: nat, n1: nat, w: nat, s1: nat)
    requires 8 <= n0 < n1 < w < s1 < |line|
    requires StartsWith(line, "section:") && RangeIn(line, 8, n0, SpaceClass)
    requires RangeIn(line, n0, n1, KeyClass) && RangeIn(line, n1, w, SpaceClass) && !IsSpace(line[w])
    requires RangeIn(line, w, s1, NoneOf(' ', '{')) && (line[s1] == ' ' || s1 + 1 == |line|)
    requires RangeIn(line, s1, |line| - 1, SpaceClass) && line[|line| - 1] == '{'
    ensures LegacySectionLine(line) == Some((line[n0..n1], Trim(line[w..s1])))
  {
    LegacySectionScans(line, n0, n1, w, s1);
    LegacySectionAssembled(line, n0, n1, w, s1);
  }

  /** The scans of `LegacySectionLine` on a line laid out as `LegacySectionLineOf` says. */
  lemma LegacySectionScans(line: string, n0: nat, n1: nat, w: nat, s1: nat)
    requires 8 <= n0 < n1 < w < s1 < |line|
    requires RangeIn(line, 8, n0, SpaceClass)
    requires RangeIn(line, n0, n1, KeyClass) && RangeIn(line, n1, w, SpaceClass) && !IsSpace(line[w])
    requires RangeIn(line, w, s1, NoneOf(' ', '{')) && (line[s1] == ' ' || s1 + 1 == |line|)
    requires RangeIn(line, s1, |line| - 1, SpaceClass) && line[|line| - 1] == '{'
    ensures SkipSpaces(line, 8) == n0 && RunEnd(line, n0, KeyClass) == n1 && IsSpace(line[n1])
    ensures SkipSpaces(line, n1) == w && RunEnd(line, w, NoneOf(' ', '{')) == s1
    ensures SkipSpaces(line, s1) == |line| - 1
  {
    assert InClass(line[n0], KeyClass);
    RunEndOf(line, 8, n0, SpaceClass);
    assert InClass(line[n1], SpaceClass);
    RunEndOf(line, n0, n1, KeyClass);
    RunEndOf(line, n1, w, SpaceClass);
    RunEndOf(line, w, s1, NoneOf(' ', '{'));
    RunEndOf(line, s1, |line| - 1, SpaceClass);
  }

  /** `LegacySectionLine` from the results of its scans. */
  lemma LegacySectionAssembled(line: string, n0: nat, n1: nat, w: nat, s1: nat)
    requires 8 <= n0 < n1 < w < s1 < |line|
    requires StartsWith(line, "section:") && line[|line| - 1] == '{'
    requires SkipSpaces(line, 8) == n0 && RunEnd(line, n0, KeyClass) == n1 && IsSpace(line[n1])
    requires SkipSpaces(line, n1) == w && RunEnd(line, w, NoneOf(' ', '{')) == s1
    requires SkipSpaces(line, s1) == |line| - 1
    ensures LegacySectionLine(line) == Some((line[n0..n1], Trim(line[w..s1])))
  {
  }

  /** `^items:\s*([^ { ]+)\s*\{$` */
  predicate IsLegacyItemsLine(line: string) {
    StartsWith(line, "items:") &&
    var v := SkipSpaces(line, 6);
    var s1 := RunEnd(line, v, NoneOf(' ', '{'));
    if s1 > v then
      var e := SkipSpaces(line, s1);
      e + 1 == |line| && line[e] == '{'
    else v + 1 == |line| && line[v] == '{' && HasNonSpace(line, 6, v)
  }

  /** `^globals\s*\{` (find) */
  predicate IsGlobalsLine(line: string) {
    StartsWith(line, "globals") &&
    var q := SkipSpaces(line, 7);
    q < |line| && line[q] == '{'
  }

  /** `^([a-zA-Z0-9_-]+):\s*([^\[ ]+)\s*(\[([^\]]+)\])?\s*$` (matches): the key, the trimmed
      selector and the text inside the optional bracket group. */
  function LegacyFieldLine(line: string): (r: Option<(string, string, Option<string>)>)
    ensures r.Some? ==> r.value.0 != []
  {
    var k1 := RunEnd(line, 0, KeyClass);
    if k1 == 0 || k1 == |line| || line[k1] != ':' then None
    else
      var v := SkipSpaces(line, k1 + 1);
      var s1 := RunEnd(line, v, NoneOf('[', ' '));
      if s1 == v && !HasNonSpace(line, k1 + 1, v) then None
      else
        var sel := if s1 > v then Trim(line[v..s1]) else "";
        var w := SkipSpaces(line, s1);
        if w == |line| then Some((line[..k1], sel, None))
        else if line[w] != '[' then None
        else
          var c := IndexOfFrom(line, w + 1, ']');
          if c < |line| && c > w + 1 && SkipSpaces(line, c + 1) == |line| then
            Some((line[..k1], sel, Some(line[w + 1..c])))
          else None
  }

  /** Every field line without options is read back: the key `line[..k1]`, `:`, spaces, the
      selector `line[v..s1]`, which holds no `[` and no space and ends at a plain space or at the
      end, then spaces to the end. */
  lemma LegacyFieldLineOf(line: string, k1: nat, v: nat, s1: nat)
    requires 0 < k1 < v < s1 <= |line| && line[k1] == ':'
    requires RangeIn(line, 0, k1, KeyClass) && RangeIn(line, k1 + 1, v, SpaceClass) && !IsSpace(line[v])
    requires RangeIn(line, v, s1, NoneOf('[', ' ')) && (s1 == |line| || line[s1] == ' ')
    requires RangeIn(line, s1, |line|, SpaceClass)
    ensures LegacyFieldLine(line) == Some((line[..k1], Trim(line[v..s1]), None))
  {
    LegacyFieldScans(line, k1, v, s1, |line|);
    LegacyFieldAssembled(line, k1, v, s1);
  }

  /** Every field line with options is read back: as `LegacyFieldLineOf` up to the selector,
      then spaces up to the `[` at `w`, at least one char and no `]` up to the `]` at `c`, and
      spaces to the end; the options are the text inside the brackets. */
  lemma LegacyFieldLineWithOptions(line: string, k1: nat, v: nat, s1: nat, w: nat, c: nat)
    requires 0 < k1 < v < s1 <= w && w + 1 < c < |line| && line[k1] == ':'
    requires RangeIn(line, 0, k1, KeyClass) && RangeIn(line, k1 + 1, v, SpaceClass) && !IsSpace(line[v])
    requires RangeIn(line, v, s1, NoneOf('[', ' ')) && (s1 == w || line[s1] == ' ')
    requires RangeIn(line, s1, w, SpaceClass) && line[w] == '['
    requires RangeIn(line, w + 1, c, NoneOf(']', ']')) && line[c] == ']'
    requires RangeIn(line, c + 1, |line|, SpaceClass)
    ensures LegacyFieldLine(line) == Some((line[..k1], Trim(line[v..s1]), Some(line[w + 1..c])))
  {
    LegacyFieldScans(line, k1, v, s1, w);
    IndexOfFromOf(line, w + 1, c, ']');
    RunEndOf(line, c + 1, |line|, SpaceClass);
    LegacyFieldOptionsAssembled(line, k1, v, s1, w, c);
  }

  /** The scans of `LegacyFieldLine` up to the first char after the selector's spaces, at `w`. */
  lemma LegacyFieldScans(line: string, k1: nat, v: nat, s1: nat, w: nat)
    requires 0 < k1 < v < s1 <= w <= |line| && line[k1] == ':'
    requires RangeIn(line, 0, k1, KeyClass) && RangeIn(line, k1 + 1, v, SpaceClass) && !IsSpace(line[v])
    requires RangeIn(line, v, s1, NoneOf('[', ' ')) && (s1 == |line| || line[s1] == ' ' || s1 == w)
    requires RangeIn(line, s1, w, SpaceClass) && (w < |line| ==> line[w] == '[')
    ensures RunEnd(line, 0, KeyClass) == k1 && SkipSpaces(line, k1 + 1) == v
    ensures RunEnd(line, v, NoneOf('[', ' ')) == s1 && SkipSpaces(line, s1) == w
  {
    assert !InClass(line[k1], KeyClass);
    RunEndOf(line, 0, k1, KeyClass);
    RunEndOf(line, k1 + 1, v, SpaceClass);
    RunEndOf(line, v, s1, NoneOf('[', ' '));
    RunEndOf(line, s1, w, SpaceClass);
  }

  /** `LegacyFieldLine` without options from the results of its scans. */
  lemma LegacyFieldAssembled(line: string, k1: nat, v: nat, s1: nat)
    requires 0 < k1 < v < s1 <= |line| && line[k1] == ':'
    requires RunEnd(line, 0, KeyClass) == k1 && SkipSpaces(line, k1 + 1) == v
    requires RunEnd(line, v, NoneOf('[', ' ')) == s1 && SkipSpaces(line, s1) == |line|
    ensures LegacyFieldLine(line) == Some((line[..k1], Trim(line[v..s1]), None))
  {
  }

  /** `LegacyFieldLine` with options from the results of its scans. */
  lemma LegacyFieldOptionsAssembled(line: string, k1: nat, v: nat, s1: nat, w: nat, c: nat)
    requires 0 < k1 < v < s1 <= w && w + 1 < c < |line| && line[k1] == ':' && line[w] == '['
    requires RunEnd(line, 0, KeyClass) == k1 && SkipSpaces(line, k1 + 1) == v
    requires RunEnd(line, v, NoneOf('[', ' ')) == s1 && SkipSpaces(line, s1) == w
    requires IndexOfFrom(line, w + 1, ']') == c && SkipSpaces(line, c + 1) == |line|
    ensures LegacyFieldLine(line) == Some((line[..k1], Trim(line[v..s1]), Some(line[w + 1..c])))
  {
  }

  /** The `find` loop of `([a-zA-Z-]+):\s*([^,\]]+)` from `i`: each key with its trimmed value. */
  function OptionPairs(s: string, i: nat): (r: seq<(string, string)>)
    requires i <= |s|
    ensures forall k :: 0 <= k < |r| ==> r[k].0 != []
    decreases |s| - i
  {
    if i == |s| then []
    else
      var e := RunEnd(s, i, OptionKeyClass);
      if e == i || e == |s| || s[e] != ':' then OptionPairs(s, i + 1)
      else
        var v0 := SkipSpaces(s, e + 1);
        var v1 := RunEnd(s, v0, NoneOf(',', ']'));
        if v1 > v0 then [(s[i..e], Trim(s[v0..v1]))] + OptionPairs(s, v1)
        else if v0 > e + 1 then [(s[i..e], "")] + OptionPairs(s, v0)
        else OptionPairs(s, i + 1)
  }

  /** A `key: value` pair at `i` is the next pair: the key `s[i..e]`, `:`, spaces, then the value
      `s[v0..v1]` up to a `,`, a `]` or the end; the search goes on after the value. */
  lemma OptionPairsPair(s: string, i: nat, e: nat, v0: nat, v1: nat)
    requires i < e < v0 < v1 <= |s| && s[e] == ':'
    requires RangeIn(s, i, e, OptionKeyClass) && RangeIn(s, e + 1, v0, SpaceClass) && !IsSpace(s[v0])
    requires RangeIn(s, v0, v1, NoneOf(',', ']')) && (v1 < |s| ==> s[v1] == ',' || s[v1] == ']')
    ensures OptionPairs(s, i) == [(s[i..e], Trim(s[v0..v1]))] + OptionPairs(s, v1)
  {
    OptionPairScans(s, i, e, v0, v1);
    OptionPairAssembled(s, i, e, v0, v1);
  }

  /** The scans of `OptionPairs` on a pair laid out as `OptionPairsPair` says. */
  lemma OptionPairScans(s: string, i: nat, e: nat, v0: nat, v1: nat)
    requires i < e < v0 < v1 <= |s| && s[e] == ':'
    requires RangeIn(s, i, e, OptionKeyClass) && RangeIn(s, e + 1, v0, SpaceClass) && !IsSpace(s[v0])
    requires RangeIn(s, v0, v1, NoneOf(',', ']')) && (v1 < |s| ==> s[v1] == ',' || s[v1] == ']')
    ensures RunEnd(s, i, OptionKeyClass) == e && SkipSpaces(s, e + 1) == v0
    ensures RunEnd(s, v0, NoneOf(',', ']')) == v1
  {
    assert !InClass(s[e], OptionKeyClass);
    RunEndOf(s, i, e, OptionKeyClass);
    RunEndOf(s, e + 1, v0, SpaceClass);
    RunEndOf(s, v0, v1, NoneOf(',', ']'));
  }

  /** `OptionPairs` from the results of its scans. */
  lemma OptionPairAssembled(s: string, i: nat, e: nat, v0: nat, v1: nat)
    requires i < e < v0 < v1 <= |s| && s[e] == ':'
    requires RunEnd(s, i, OptionKeyClass) == e && SkipSpaces(s, e + 1) == v0
    requires RunEnd(s, v0, NoneOf(',', ']')) == v1
    ensures OptionPairs(s, i) == [(s[i..e], Trim(s[v0..v1]))] + OptionPairs(s, v1)
  {
  }

  /** Text without `:` from `i` on holds no pair. */
  lemma {:induction false} OptionPairsNone(s: string, i: nat)
    requires i <= |s| && RangeIn(s, i, |s|, NoneOf(':', ':'))
    ensures OptionPairs(s, i) == []
    decreases |s| - i
  {
    if i < |s| {
      OptionPairsNone(s, i + 1);
    }
  }
}
