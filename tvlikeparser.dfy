/** The single-file compiler of the script-embedded DSL: comments are stripped, an optional
    `page-type:` token is read, and every `section: name selector { ... } [options]` block
    becomes a rule node whose body holds field lines and at most one `items:` template. */
module TVLikeParser {
  import opened Wrappers
  import opened JavaString
  import opened Values
  import opened Rules
  import opened Braces
  import opened Patterns
  import C = ChatRuleParser

  // ---------------------------------------------------------------------------------------
  // The mutable rule node and its option set
  // ---------------------------------------------------------------------------------------

  /** `RuleNode.Options`: a map whose `put` overwrites. */
  class Options {
    var values: OptionMap

    constructor ()
      ensures values == map[]
    {
      values := map[];
    }

    method Put(k: string, v: OptValue)
      modifies this
      ensures values == old(values)[k := v]
    {
      values := values[k := v];
    }

    /** `get`: the value, or null when the key is absent. */
    function Get(k: string): (r: Option<OptValue>)
      reads this
      ensures r.Some? <==> k in values
      ensures r.Some? ==> r.value == values[k]
    {
      if k in values then Some(values[k]) else None
    }
  }

  /** `RuleNode`: plain setters, empty field maps and an empty option set to start with. */
  class RuleNode {
    var name: Option<string>
    var selector: Option<string>
    var fieldSelectors: map<string, string>
    var fieldOptions: map<string, Options>
    var itemTemplate: RuleNode?
    var sectionOptions: Options

    constructor ()
      ensures name.None? && selector.None? && fieldSelectors == map[] && fieldOptions == map[]
      ensures itemTemplate == null && fresh(sectionOptions) && sectionOptions.values == map[]
    {
      name := None;
      selector := None;
      fieldSelectors := map[];
      fieldOptions := map[];
      itemTemplate := null;
      sectionOptions := new Options();
    }

    method SetName(name: Option<string>)
      modifies this
      ensures this.name == name
      ensures selector == old(selector) && itemTemplate == old(itemTemplate) && sectionOptions == old(sectionOptions)
      ensures fieldSelectors == old(fieldSelectors) && fieldOptions == old(fieldOptions)
    {
      this.name := name;
    }

    method SetSelector(selector: Option<string>)
      modifies this
      ensures this.selector == selector
      ensures name == old(name) && itemTemplate == old(itemTemplate) && sectionOptions == old(sectionOptions)
      ensures fieldSelectors == old(fieldSelectors) && fieldOptions == old(fieldOptions)
    {
      this.selector := selector;
    }

    method SetItemTemplate(itemTemplate: RuleNode?)
      modifies this
      ensures this.itemTemplate == itemTemplate
      ensures name == old(name) && selector == old(selector) && sectionOptions == old(sectionOptions)
      ensures fieldSelectors == old(fieldSelectors) && fieldOptions == old(fieldOptions)
    {
      this.itemTemplate := itemTemplate;
    }

    method SetSectionOptions(sectionOptions: Options)
      modifies this
      ensures this.sectionOptions == sectionOptions
      ensures name == old(name) && selector == old(selector) && itemTemplate == old(itemTemplate)
      ensures fieldSelectors == old(fieldSelectors) && fieldOptions == old(fieldOptions)
    {
      this.sectionOptions := sectionOptions;
    }
  }

  // ---------------------------------------------------------------------------------------
  // Comments
  // ---------------------------------------------------------------------------------------

  // The block-comment pattern `/\*([\s\S]*?)\*/` replaced by " " from `i`: each `/*` closed by
  // a later `*/` (which may not reuse its `*`) becomes one space, left to right; an unclosed
  // one stays.
  function BlockComments(s: string, i: nat): (r: string)
    requires i <= |s|
    decreases |s| - i
  {
    var o := IndexOfPair(s, i, '/', '*');
    if o == |s| then s[i..]
    else
      var c := IndexOfPair(s, o + 2, '*', '/');
      if c == |s| then s[i..] else s[i..o] + " " + BlockComments(s, c + 2)
  }

  /** `//.*?$` (MULTILINE) removed from `i`: each `//` and the rest of its line, up to but not
      including the line terminator. */
  function LineComments(s: string, i: nat): (r: string)
    requires i <= |s|
    decreases |s| - i
  {
    var o := IndexOfPair(s, i, '/', '/');
    if o == |s| then s[i..] else s[i..o] + LineComments(s, TerminatorFrom(s, o + 2))
  }

  /** `stripComments`: "" for an empty text, else block comments and then line comments. */
  function StripComments(input: string): (r: string)
    ensures input == [] ==> r == []
  {
    if input == [] then [] else LineComments(BlockComments(input, 0), 0)
  }

  // A closed block comment becomes one space: the first `/*` from `i` is at `o` and the first
  // `*/` after it at `c`; the text before the comment is kept and the rest is handled after
  // the `*/`.
  lemma BlockCommentsClosed(s: string, i: nat, o: nat, c: nat)
    requires i <= o && o + 2 <= c && c + 2 <= |s|
    requires PairAt(s, o, '/', '*') && forall k :: i <= k < o ==> !PairAt(s, k, '/', '*')
    requires PairAt(s, c, '*', '/') && forall k :: o + 2 <= k < c ==> !PairAt(s, k, '*', '/')
    ensures BlockComments(s, i) == s[i..o] + " " + BlockComments(s, c + 2)
  {
    IndexOfPairOf(s, i, o, '/', '*');
    IndexOfPairOf(s, o + 2, c, '*', '/');
  }

  // A `/*` with no `*/` after it leaves the rest of the text as it is.
  lemma BlockCommentsUnclosed(s: string, i: nat, o: nat)
    requires i <= o && o + 2 <= |s|
    requires PairAt(s, o, '/', '*') && forall k :: i <= k < o ==> !PairAt(s, k, '/', '*')
    requires forall k :: o + 2 <= k < |s| ==> !PairAt(s, k, '*', '/')
    ensures BlockComments(s, i) == s[i..]
  {
    IndexOfPairOf(s, i, o, '/', '*');
    IndexOfPairAtLeast(s, o + 2, |s|, '*', '/');
  }

  /** A line comment is cut up to the end of its line: the first `//` from `i` is at `o`, and
      `e` is the first line terminator after it (or the end); the terminator stays. */
  lemma LineCommentsCut(s: string, i: nat, o: nat, e: nat)
    requires i <= o && o + 2 <= e <= |s|
    requires PairAt(s, o, '/', '/') && forall k :: i <= k < o ==> !PairAt(s, k, '/', '/')
    requires forall k :: o + 2 <= k < e ==> !IsLineTerminator(s[k])
    requires e == |s| || IsLineTerminator(s[e])
    ensures LineComments(s, i) == s[i..o] + LineComments(s, e)
  {
    IndexOfPairOf(s, i, o, '/', '/');
    TerminatorFromOf(s, o + 2, e);
  }

  /** Text without `//` from `i` on is kept as it is by the line-comment pass. */
  lemma LineCommentsNone(s: string, i: nat)
    requires i <= |s| && forall k :: i <= k < |s| ==> !PairAt(s, k, '/', '/')
    ensures LineComments(s, i) == s[i..]
  {
    IndexOfPairAtLeast(s, i, |s|, '/', '/');
  }

  /** Text without any `/` has no comment and is kept as it is. */
  lemma StripCommentsNoSlash(input: string)
    requires '/' !in input
    ensures StripComments(input) == input
  {
    if input != [] {
      IndexOfPairAbsent(input, 0, '/', '*');
      IndexOfPairAbsent(input, 0, '/', '/');
      assert input[0..] == input;
      assert BlockComments(input, 0) == input;
    }
  }

  /** No two neighbouring chars of the text are both `/`. */
  predicate NoDoubleSlash(s: string) {
    forall k :: 0 <= k < |s| - 1 ==> !(s[k] == '/' && s[k + 1] == '/')
  }

  /** What is left of the text starts with the char at `i` unless a comment starts there. */
  lemma LineCommentsHead(s: string, i: nat)
    requires i < |s| && s[i] != '/'
    ensures LineComments(s, i) != [] && LineComments(s, i)[0] == s[i]
  {
  }

  /** Once the line comments are removed, the text holds no `//` any more. */
  lemma {:induction false} LineCommentsLeaveNoComment(s: string, i: nat)
    requires i <= |s|
    ensures NoDoubleSlash(LineComments(s, i))
    decreases |s| - i
  {
    var o := IndexOfPair(s, i, '/', '/');
    var a := s[i..o];
    forall k | 0 <= k < |a| - 1 ensures !(a[k] == '/' && a[k + 1] == '/') {
      IndexOfPairFirst(s, i, '/', '/', i + k);
    }
    if o < |s| {
      var e := TerminatorFrom(s, o + 2);
      var b := LineComments(s, e);
      LineCommentsLeaveNoComment(s, e);
      if e < |s| {
        LineCommentsHead(s, e);
      }
      NoDoubleSlashJoin(a, b);
      assert LineComments(s, i) == a + b;
    } else {
      assert LineComments(s, i) == a;
    }
  }

  /** Two texts without `//` joined without a `/` on both sides of the seam. */
  lemma NoDoubleSlashJoin(a: string, b: string)
    requires NoDoubleSlash(a) && NoDoubleSlash(b)
    requires a == [] || b == [] || a[|a| - 1] != '/' || b[0] != '/'
    ensures NoDoubleSlash(a + b)
  {
    var ab := a + b;
    forall k | 0 <= k < |ab| - 1 ensures !(ab[k] == '/' && ab[k + 1] == '/') {
      if k + 1 < |a| {
        assert ab[k] == a[k] && ab[k + 1] == a[k + 1];
      } else if k >= |a| {
        assert ab[k] == b[k - |a|] && ab[k + 1] == b[k - |a| + 1];
      }
    }
  }

  // ---------------------------------------------------------------------------------------
  // Brace matching
  // ---------------------------------------------------------------------------------------

  /** `findMatchingBrace`: -1 unless `openIndex` is inside the text and holds `{`; else the
      depth loop. */
  method FindMatchingBrace(s: string, openIndex: int) returns (r: int)
    ensures !(0 <= openIndex < |s| && s[openIndex] == '{') ==> r == -1
    ensures 0 <= openIndex < |s| && s[openIndex] == '{' ==> r == MatchingBrace(s, openIndex)
  {
    if openIndex < 0 || openIndex >= |s| || s[openIndex] != '{' { return -1; }
    var depth := 0;
    for i := openIndex to |s|
      invariant depth == Balance(s[openIndex..i])
      invariant forall k :: openIndex <= k < i ==> !ClosesAt(s, openIndex, k)
    {
      BalanceExtend(s, openIndex, i);
      var c := s[i];
      if c == '{' {
        depth := depth + 1;
      } else if c == '}' {
        depth := depth - 1;
        if depth == 0 {
          assert ClosesAt(s, openIndex, i);
          MatchingBraceSpec(s, openIndex);
          return i;
        }
      }
    }
    MatchingBraceSpec(s, openIndex);
    return -1;
  }

  // ---------------------------------------------------------------------------------------
  // Options: `[key: value]` and `[flag]`, one per group
  // ---------------------------------------------------------------------------------------

  /** A value wrapped in one pair of matching quotes. */
  predicate Quoted(v: string) {
    |v| >= 2 && ((v[0] == '"' && v[|v| - 1] == '"') || (v[0] == '\'' && v[|v| - 1] == '\''))
  }

  /** The quote test as the source writes it: it looks only at the first and the last char,
      which are the same char when the value is one char long. */
  predicate QuotedAsWritten(v: string) {
    (StartsWith(v, "\"") && EndsWith(v, "\"")) || (StartsWith(v, "'") && EndsWith(v, "'"))
  }

  /** The unquoting step as written: `v.substring(1, v.length() - 1)` once the quote test holds,
      which throws for a value that is a lone quote. */
  function UnquoteAsWritten(v: string): (r: Try<string>)
    ensures r.Throws? <==> v == "\"" || v == "'"
  {
    if !QuotedAsWritten(v) then Ok(v)
    else if |v| < 2 then Throws(StringIndexOutOfBounds)
    else Ok(v[1..|v| - 1])
  }

  /** A lone quote as the value, as in the token `attr: "`, makes the parser throw. */
  lemma UnquoteLoneQuoteThrows()
    ensures UnquoteAsWritten("\"") == Throws(StringIndexOutOfBounds)
    ensures UnquoteAsWritten("'") == Throws(StringIndexOutOfBounds)
  {
  }

  /** One pair of matching surrounding quotes removed; a lone quote is kept. */
  function Unquote(v: string): (r: string)
    ensures |r| <= |v|
  {
    if Quoted(v) then v[1..|v| - 1] else v
  }

  /** Quoting any text and unquoting it gives the text back, with either kind of quote. */
  lemma UnquoteQuoted(text: string)
    ensures Unquote("\"" + text + "\"") == text
    ensures Unquote("'" + text + "'") == text
  {
    var d := "\"" + text + "\"";
    var q := "'" + text + "'";
    assert d[1..|d| - 1] == text;
    assert q[1..|q| - 1] == text;
  }

  /** The corrected unquote agrees with the one written wherever the latter does not throw. */
  lemma UnquoteAgrees(v: string)
    requires UnquoteAsWritten(v).Ok?
    ensures UnquoteAsWritten(v).value == Unquote(v)
  {
  }

  /** The key a non-empty token sets: the trimmed text before its first `:`, or the whole
      token for a bare flag. */
  function TokenKey(token: string): string {
    var colon := IndexOfFrom(token, 0, ':');
    if colon == |token| then token else Trim(token[..colon])
  }

  /** The value a token sets: TRUE for a bare flag; for `limit` (any case) the int the value
      parses to, or the raw string when it does not; otherwise the unquoted string. */
  function TokenValue(token: string): (r: OptValue)
    ensures r.OTrue? <==> ':' !in token
    ensures r.OInt? ==> EqualsIgnoreCase(TokenKey(token), "limit")
  {
    IndexOfFromFound(token, 0, ':');
    assert token[0..] == token;
    match RawValue(token)
    case None => OTrue
    case Some(v) => ValueFor(token, Unquote(v))
  }

  /** The trimmed text after the first `:` of a token, or nothing for a bare flag. */
  function RawValue(token: string): Option<string> {
    var colon := IndexOfFrom(token, 0, ':');
    if colon == |token| then None else Some(Trim(token[colon + 1..]))
  }

  /** The value `v` read after the `:` of a token: for `limit` (any case) the int it parses to,
      or the raw string when it does not; otherwise the string. */
  function ValueFor(token: string, v: string): (r: OptValue)
    ensures r.OInt? ==> EqualsIgnoreCase(TokenKey(token), "limit") && ParseInt(v) == Some(r.i)
    ensures r.OStr? ==> r.s == v
  {
    if EqualsIgnoreCase(TokenKey(token), "limit") then
      match ParseInt(v)
      case Some(n) => OInt(n)
      case None => OStr(v)
    else OStr(v)
  }

  /** The value step as the source writes it, with the unquoting that throws on a lone quote. */
  function TokenValueAsWritten(token: string): (r: Try<OptValue>)
  {
    match RawValue(token)
    case None => Ok(OTrue)
    case Some(raw) =>
      var v :- UnquoteAsWritten(raw);
      Ok(ValueFor(token, v))
  }

  /** The written value step throws exactly for a token whose trimmed value after its first `:`
      is a lone quote. */
  lemma TokenValueAsWrittenThrows(token: string)
    ensures TokenValueAsWritten(token).Throws? <==> RawValue(token) == Some("\"") || RawValue(token) == Some("'")
  {
  }

  /** The corrected value step gives what the written one gives wherever the latter does not
      throw. */
  lemma TokenValueAgrees(token: string)
    requires TokenValueAsWritten(token).Ok?
    ensures TokenValueAsWritten(token).value == TokenValue(token)
  {
    if RawValue(token).Some? {
      UnquoteAgrees(RawValue(token).value);
    }
  }

  /** `parseSingleOptionTokenInto(token, opts)`: an empty token does nothing; any other one
      puts its key and value, overwriting an earlier value. */
  function OptionInto(token: string, opts: OptionMap): OptionMap {
    if token == [] then opts else opts[TokenKey(token) := TokenValue(token)]
  }

  /** The tokens in order into one option set. */
  function TokensInto(tokens: seq<string>, opts: OptionMap): OptionMap {
    if tokens == [] then opts else TokensInto(tokens[1..], OptionInto(tokens[0], opts))
  }

  /** The token sets `key`. */
  predicate SetsKey(token: string, key: string) {
    token != [] && TokenKey(token) == key
  }

  /** One token adds its own key and no other. */
  lemma OptionIntoKeys(token: string, opts: OptionMap, key: string)
    ensures key in OptionInto(token, opts) <==> key in opts || SetsKey(token, key)
  {
    if token != [] {
      var k := TokenKey(token);
      assert OptionInto(token, opts).Keys == opts.Keys + {k};
    }
  }

  /** A key is present after the tokens exactly when it was before or some token sets it. */
  lemma {:induction false} TokensIntoKeys(tokens: seq<string>, opts: OptionMap, key: string)
    ensures key in TokensInto(tokens, opts) <==>
              key in opts || exists i :: 0 <= i < |tokens| && SetsKey(tokens[i], key)
  {
    if tokens != [] {
      TokensIntoKeys(tokens[1..], OptionInto(tokens[0], opts), key);
      OptionIntoKeys(tokens[0], opts, key);
      if exists i :: 0 <= i < |tokens[1..]| && SetsKey(tokens[1..][i], key) {
        var i :| 0 <= i < |tokens[1..]| && SetsKey(tokens[1..][i], key);
        assert tokens[i + 1] == tokens[1..][i];
      }
      if exists i :: 1 <= i < |tokens| && SetsKey(tokens[i], key) {
        var i :| 1 <= i < |tokens| && SetsKey(tokens[i], key);
        assert tokens[1..][i - 1] == tokens[i];
      }
    }
  }

  /** The tokens leave a key none of them sets as it was. */
  lemma {:induction false} TokensIntoKeeps(tokens: seq<string>, opts: OptionMap, key: string)
    requires key in opts
    requires forall i :: 0 <= i < |tokens| ==> !SetsKey(tokens[i], key)
    ensures key in TokensInto(tokens, opts) && TokensInto(tokens, opts)[key] == opts[key]
  {
    if tokens != [] {
      assert !SetsKey(tokens[0], key);
      forall i | 0 <= i < |tokens[1..]| ensures !SetsKey(tokens[1..][i], key) {
        assert tokens[1..][i] == tokens[i + 1];
      }
      TokensIntoKeeps(tokens[1..], OptionInto(tokens[0], opts), key);
    }
  }

  /** The LAST token that sets a key decides its value. */
  lemma {:induction false} TokensIntoLastWins(tokens: seq<string>, opts: OptionMap, key: string, i: nat)
    requires i < |tokens| && SetsKey(tokens[i], key)
    requires forall j :: i < j < |tokens| ==> !SetsKey(tokens[j], key)
    ensures key in TokensInto(tokens, opts) && TokensInto(tokens, opts)[key] == TokenValue(tokens[i])
  {
    var next := OptionInto(tokens[0], opts);
    if i == 0 {
      forall j | 0 <= j < |tokens[1..]| ensures !SetsKey(tokens[1..][j], key) {
        assert tokens[1..][j] == tokens[j + 1];
      }
      TokensIntoKeeps(tokens[1..], next, key);
    } else {
      assert tokens[1..][i - 1] == tokens[i];
      forall j | i - 1 < j < |tokens[1..]| ensures !SetsKey(tokens[1..][j], key) {
        assert tokens[1..][j] == tokens[j + 1];
      }
      TokensIntoLastWins(tokens[1..], next, key, i - 1);
    }
  }

  /** The token loops of `parseSectionBody`, `parseItemFields` and `parseOptionsNear`. */
  method ParseTokensInto(tokens: seq<string>, opts: OptionMap) returns (result: OptionMap)
    ensures result == TokensInto(tokens, opts)
  {
    result := opts;
    for i := 0 to |tokens|
      invariant TokensInto(tokens[i..], result) == TokensInto(tokens, opts)
    {
      assert tokens[i..][1..] == tokens[i + 1..];
      result := OptionInto(tokens[i], result);
    }
    assert tokens[|tokens|..] == [];
  }

  /** `parseOptionsNear(text, startOffset)`: the groups of the leading run `^(\s*\[[^]]+])+`
      of the text from the offset; nothing at or past the end. */
  function OptionsNear(text: string, start: nat): (r: OptionMap)
    ensures start >= |text| ==> r == map[]
  {
    if start >= |text| then map[]
    else
      var tail := text[start..];
      TokensInto(TrimAll(Brackets(tail[..LeadingGroupsEnd(tail, 0)], 0).0), map[])
  }

  /** Options written after other text are not picked up: the run must start the tail. */
  lemma OptionsNearNeedsLeadingGroup(text: string, start: nat)
    requires start < |text| && !IsSpace(text[start]) && text[start] != '['
    ensures OptionsNear(text, start) == map[]
  {
    var tail := text[start..];
    assert tail[0] == text[start];
    assert LeadingGroupsEnd(tail, 0) == 0;
    BracketsNone(tail[..0], 0);
  }

  /** `parseOptionsNear` as the source writes it. */
  method ParseOptionsNear(text: string, startOffset: nat) returns (opts: OptionMap)
    ensures opts == OptionsNear(text, startOffset)
  {
    opts := map[];
    if startOffset >= |text| { return; }
    var tail := text[startOffset..];
    var group := tail[..LeadingGroupsEnd(tail, 0)];
    opts := ParseTokensInto(TrimAll(Brackets(group, 0).0), opts);
  }

  // ---------------------------------------------------------------------------------------
  // Field lines
  // ---------------------------------------------------------------------------------------

  /** The declaration a line makes, if it is a field line: the selector (null when it reads
      `null` in any case) and the options of its `[...]` groups, which overwrite one another. */
  function DeclOf(line: string): (d: Option<C.FieldDecl>)
    ensures d.Some? ==> d.value.field in Fields
    ensures d.Some? && d.value.selector.Some? ==> !EqualsIgnoreCase(d.value.selector.value, "null")
  {
    var t := Trim(line);
    if t == [] then None
    else match FieldLine(t)
      case None => None
      case Some((field, rest)) =>
        var sel := Trim(Brackets(rest, 0).1);
        Some(C.FieldDecl(field, if EqualsIgnoreCase(sel, "null") then None else Some(sel),
                         TokensInto(TrimAll(Brackets(rest, 0).0), map[])))
  }

  function DeclsOf(lines: seq<string>): (ds: seq<Option<C.FieldDecl>>)
    ensures |ds| == |lines|
  {
    if lines == [] then [] else [DeclOf(lines[0])] + DeclsOf(lines[1..])
  }

  lemma {:induction false} DeclsOfAt(lines: seq<string>, i: nat)
    requires i < |lines|
    ensures DeclsOf(lines)[i] == DeclOf(lines[i])
  {
    if i > 0 {
      DeclsOfAt(lines[1..], i - 1);
    }
  }

  /** The field lines of a text, over the maps given (`putIfAbsent` for both maps). */
  function FieldLines(text: string, sels: map<string, string>, opts: map<string, OptionMap>)
    : (map<string, string>, map<string, OptionMap>)
  {
    C.FoldDecls(DeclsOf(Lines(text)), sels, opts)
  }

  /** A field's selector is the one of its FIRST line that gives it a non-null selector. */
  lemma FieldSelectorFirstWins(text: string, field: string, i: nat)
    requires i < |Lines(text)| && C.SelectorFor(DeclOf(Lines(text)[i]), field)
    requires forall j :: 0 <= j < i ==> !C.SelectorFor(DeclOf(Lines(text)[j]), field)
    ensures field in FieldLines(text, map[], map[]).0
    ensures FieldLines(text, map[], map[]).0[field] == DeclOf(Lines(text)[i]).value.selector.value
  {
    var ds := DeclsOf(Lines(text));
    DeclsOfAt(Lines(text), i);
    forall j | 0 <= j < i ensures !C.SelectorFor(ds[j], field) {
      DeclsOfAt(Lines(text), j);
    }
    C.FieldSelectorFirstWins(ds, map[], map[], field, i);
  }

  /** A field's options are those of its FIRST line. */
  lemma FieldOptionsFirstWins(text: string, field: string, i: nat)
    requires i < |Lines(text)| && C.DeclaresField(DeclOf(Lines(text)[i]), field)
    requires forall j :: 0 <= j < i ==> !C.DeclaresField(DeclOf(Lines(text)[j]), field)
    ensures field in FieldLines(text, map[], map[]).1
    ensures FieldLines(text, map[], map[]).1[field] == DeclOf(Lines(text)[i]).value.options
  {
    var ds := DeclsOf(Lines(text));
    DeclsOfAt(Lines(text), i);
    forall j | 0 <= j < i ensures !C.DeclaresField(ds[j], field) {
      DeclsOfAt(Lines(text), j);
    }
    C.FieldOptionsFirstWins(ds, map[], map[], field, i);
  }

  /** The Scanner loop of `parseSectionBody` and of `parseItemFields`. */
  method ParseFieldLines(text: string, selectorMap: map<string, string>, optionsMap: map<string, OptionMap>)
    returns (sels: map<string, string>, opts: map<string, OptionMap>)
    ensures (sels, opts) == FieldLines(text, selectorMap, optionsMap)
  {
    var lines := Lines(text);
    ghost var ds := DeclsOf(lines);
    sels, opts := selectorMap, optionsMap;
    for i := 0 to |lines|
      invariant C.FoldDecls(ds[i..], sels, opts) == C.FoldDecls(ds, selectorMap, optionsMap)
    {
      assert ds[i..][1..] == ds[i + 1..];
      DeclsOfAt(lines, i);
      var line := Trim(lines[i]);
      if line == [] { continue; }
      var m := FieldLine(line);
      if m.None? { continue; }
      var (field, rest) := m.value;
      var optTokens := TrimAll(Brackets(rest, 0).0);
      var selectorPart := Trim(Brackets(rest, 0).1);
      if !EqualsIgnoreCase(selectorPart, "null") && field !in sels {
        sels := sels[field := selectorPart];
      }
      var fo := ParseTokensInto(optTokens, map[]);
      if field !in opts {
        opts := opts[field := fo];
      }
    }
    assert ds[|lines|..] == [];
  }

  // ---------------------------------------------------------------------------------------
  // Section bodies and the `items:` template
  // ---------------------------------------------------------------------------------------

  /** The template of an `items:` block: named "items", the block's selector, the field lines
      of its body, and the options of the groups that start the text after its `}`. */
  function ItemsTemplate(selector: string, inner: string, after: string): (r: Rule)
    ensures r.name == Some("items") && r.selector == Some(selector) && r.itemTemplate.None?
  {
    var fields := FieldLines(inner, map[], map[]);
    Rule(Some("items"), Some(selector), fields.0, fields.1, None, Some(OptionsNear(after, 0)))
  }

  /** The items block of a section body, cut out: the text before the header, a newline and
      the text after the `}`, with the template; the body unchanged when there is no `items:`
      header or its brace is unmatched. */
  function ItemsBlock(body: string): (r: (string, Option<Rule>))
    ensures C.ItemsFound(body).None? ==> r == (body, None)
    ensures r.1.Some? ==> r.1.value.name == Some("items") && r.1.value.itemTemplate.None?
  {
    match C.ItemsFound(body)
    case None => (body, None)
    case Some((h, close)) => ItemsCut(body, h, close)
  }

  /** The found branch: the block and the options run after it cut out of the body. */
  function ItemsCut(body: string, h: Header, close: nat): (r: (string, Option<Rule>))
    requires h.start < h.brace < close < |body|
    ensures r.1.Some? && r.1.value.name == Some("items") && r.1.value.itemTemplate.None?
  {
    (body[..h.start] + "\n" + body[close + 1..], Some(ItemsTemplate(h.value, body[h.brace + 1..close], body[close + 1..])))
  }

  /** The node of one section block: the header's name and selector, the options that start
      right after its `}` in the whole text, the items template, and the field lines of what
      is left of the body. */
  function SectionNode(s: string, b: C.Block): (r: Rule)
    ensures r.name == Some(b.header.name) && r.selector == Some(b.header.value)
  {
    var (remaining, template) := ItemsBlock(b.body);
    var fields := FieldLines(remaining, map[], map[]);
    Rule(Some(b.header.name), Some(b.header.value), fields.0, fields.1, template, Some(OptionsNear(s, b.close + 1)))
  }

  /** The found branch of the items step. */
  method CutItems(body: string, h: Header, close: nat) returns (remaining: string, template: Option<Rule>)
    requires h.start < h.brace < close < |body|
    ensures (remaining, template) == ItemsCut(body, h, close)
  {
    var itemsInner := body[h.brace + 1..close];
    var afterItems := "";
    if close + 1 < |body| {
      afterItems := body[close + 1..];
    }
    assert afterItems == body[close + 1..];
    var t := BuildItemsTemplate(h.value, itemsInner, afterItems);
    template := Some(t);
    remaining := body[..h.start] + "\n" + afterItems;
    ItemsCutOf(body, h, close, t);
  }

  /** The found branch assembled from the template built. */
  lemma ItemsCutOf(body: string, h: Header, close: nat, t: Rule)
    requires h.start < h.brace < close < |body|
    requires t == ItemsTemplate(h.value, body[h.brace + 1..close], body[close + 1..])
    ensures ItemsCut(body, h, close) == (body[..h.start] + "\n" + body[close + 1..], Some(t))
  {
    var r := ItemsCut(body, h, close);
    assert r.1 == Some(t);
    assert r.0 == body[..h.start] + "\n" + body[close + 1..];
  }

  /** The template of a found `items:` block, built from its selector, inner text and the
      text after it. */
  method BuildItemsTemplate(selector: string, inner: string, after: string) returns (t: Rule)
    ensures t == ItemsTemplate(selector, inner, after)
  {
    var itemsOpts := ParseOptionsNear(after, 0);
    var sels, opts := ParseFieldLines(inner, map[], map[]);
    t := Rule(Some("items"), Some(selector), sels, opts, None, Some(itemsOpts));
  }

  /** The items step of `parseSectionBody`. */
  method ParseItems(body: string) returns (remaining: string, template: Option<Rule>)
    ensures (remaining, template) == ItemsBlock(body)
  {
    var mi := FindHeader(body, 0, ItemsHeader);
    if mi.None? { return body, None; }
    var h := mi.value;
    var close := FindMatchingBrace(body, h.brace);
    if close < 0 { return body, None; }
    assert C.ItemsFound(body) == Some((h, close));
    remaining, template := CutItems(body, h, close);
  }

  /** `parseSectionBody(blockContent, node)` on a node named after the header, with the
      options found right after the block. */
  method ParseSection(s: string, b: C.Block) returns (node: Rule)
    ensures node == SectionNode(s, b)
  {
    var sectionOpts := ParseOptionsNear(s, b.close + 1);
    var fullBody, template := ParseItems(b.body);
    var sels, opts := ParseFieldLines(fullBody, map[], map[]);
    node := Rule(Some(b.header.name), Some(b.header.value), sels, opts, template, Some(sectionOpts));
  }

  // ---------------------------------------------------------------------------------------
  // parseAll
  // ---------------------------------------------------------------------------------------

  /** What `parseAll` returns: the `page-type` entry when there is one, and the `sections`
      entry, which is always there. */
  datatype Parsed = Parsed(pageType: Option<string>, sections: seq<Rule>)

  /** One node per section block, in order. */
  function SectionNodes(s: string, bs: seq<C.Block>): (r: seq<Rule>)
    ensures |r| == |bs|
  {
    if bs == [] then [] else [SectionNode(s, bs[0])] + SectionNodes(s, bs[1..])
  }

  lemma {:induction false} SectionNodesAt(s: string, bs: seq<C.Block>, k: nat)
    requires k < |bs|
    ensures SectionNodes(s, bs)[k] == SectionNode(s, bs[k])
  {
    if k > 0 {
      SectionNodesAt(s, bs[1..], k - 1);
    }
  }

  lemma {:induction false} SectionNodesAppend(s: string, bs: seq<C.Block>, b: C.Block)
    ensures SectionNodes(s, bs + [b]) == SectionNodes(s, bs) + [SectionNode(s, b)]
  {
    if bs == [] {
      assert bs + [b] == [b];
    } else {
      assert (bs + [b])[0] == bs[0];
      assert (bs + [b])[1..] == bs[1..] + [b];
      SectionNodesAppend(s, bs[1..], b);
    }
  }

  /** The page type: the token of the first `page-type:` declaration, trimmed. */
  function PageType(s: string): Option<string> {
    match FindPageType(s)
    case None => None
    case Some(v) => Some(Trim(v))
  }

  /** The page type is read from the FIRST declaration, and is absent only when there is none. */
  lemma PageTypeFirst(s: string)
    ensures PageType(s).None? <==> forall p :: 0 <= p <= |s| ==> PageTypeAt(s, p).None?
    ensures PageType(s).Some? ==>
              exists p :: 0 <= p <= |s| && PageTypeAt(s, p).Some? && PageType(s) == Some(Trim(PageTypeAt(s, p).value)) &&
                          forall q :: 0 <= q < p ==> PageTypeAt(s, q).None?
  {
    match PageTypePos(s, 0)
    case None =>
      forall q | 0 <= q <= |s| ensures PageTypeAt(s, q).None? {
        PageTypePosLeftmost(s, 0, q);
      }
    case Some(p) =>
      forall q | 0 <= q < p ensures PageTypeAt(s, q).None? {
        PageTypePosLeftmost(s, 0, q);
      }
      assert PageType(s) == Some(Trim(PageTypeAt(s, p).value));
  }

  /** `parseAll()` on the parser built from `rawDsl` (null read as ""). */
  function Compiled(rawDsl: Option<string>): (r: Parsed)
  {
    var s := StripComments(rawDsl.GetOr(""));
    Parsed(PageType(s), SectionNodes(s, C.BlocksFrom(s, 0, SectionHeader(false))))
  }

  /** Section `k` is made of block `k`: every block whose `{` is matched, in textual order,
      and no other. */
  lemma CompiledSections(rawDsl: Option<string>, k: nat)
    requires k < |Compiled(rawDsl).sections|
    ensures var s := StripComments(rawDsl.GetOr(""));
            var bs := C.BlocksFrom(s, 0, SectionHeader(false));
            |Compiled(rawDsl).sections| == |bs| && Compiled(rawDsl).sections[k] == SectionNode(s, bs[k])
  {
    var s := StripComments(rawDsl.GetOr(""));
    SectionNodesAt(s, C.BlocksFrom(s, 0, SectionHeader(false)), k);
  }

  /** The find loop of `parseAll` over the stripped text. */
  method ParseSections(s: string) returns (sections: seq<Rule>)
    ensures sections == SectionNodes(s, C.BlocksFrom(s, 0, SectionHeader(false)))
  {
    sections := [];
    var from := 0;
    ghost var seen: seq<Header> := [];
    ghost var t := C.Finds(s, SectionHeader(false));
    C.FindsAdvancing(s, SectionHeader(false));
    while true
      invariant from <= |s|
      invariant seen + C.Visited(s, t, from) == C.Visited(s, t, 0)
      invariant C.BracesIn(s, seen)
      invariant sections == SectionNodes(s, C.BlocksOf(s, seen))
      decreases |s| - from
    {
      var mh := FindHeader(s, from, SectionHeader(false));
      assert t[from] == mh;
      if mh.None? { break; }
      var h := mh.value;
      C.VisitedAdvance(s, t, from, seen, h);
      C.BlocksAdvance(s, seen, h, MatchingBrace(s, h.brace));
      sections := ParseBlockAt(s, seen, h, sections);
      from := h.brace + 1;
      seen := seen + [h];
    }
    assert seen + [] == seen;
    assert C.BlocksFrom(s, 0, SectionHeader(false)) == C.BlocksOf(s, seen);
  }

  /** The body of the find loop for the header `h`: its block, when its brace is matched, parsed
      and its node added after the nodes of the blocks before it. */
  method ParseBlockAt(s: string, ghost seen: seq<Header>, h: Header, sections: seq<Rule>) returns (out: seq<Rule>)
    requires C.BracesIn(s, seen) && C.BracesIn(s, seen + [h]) && h.brace < |s| && s[h.brace] == '{'
    requires sections == SectionNodes(s, C.BlocksOf(s, seen))
    ensures out == SectionNodes(s, C.BlocksOf(s, seen + [h]))
  {
    var braceEnd := FindMatchingBrace(s, h.brace);
    C.BlocksAdvance(s, seen, h, braceEnd);
    out := sections;
    if braceEnd >= 0 {
      var b := C.Block(h, braceEnd, s[h.brace + 1..braceEnd]);
      var node := ParseSection(s, b);
      SectionNodesAppend(s, C.BlocksOf(s, seen), b);
      out := sections + [node];
    }
  }

  /** `parseAll()`. */
  method ParseAll(rawDsl: Option<string>) returns (out: Parsed)
    ensures out == Compiled(rawDsl)
  {
    var s := StripComments(rawDsl.GetOr(""));
    var pageType := PageType(s);
    var sections := ParseSections(s);
    out := Parsed(pageType, sections);
  }
}
