/** The brace-block compiler: `path: pattern { ... }` blocks holding `section: name selector { ... }`
    blocks, whose bodies hold `text|img|link: selector [options]` lines and at most one
    `items: selector { ... } [options]` template. */
module ChatRuleParser {
  import opened Wrappers
  import opened JavaString
  import opened Values
  import opened Rules
  import opened Braces
  import opened Patterns
  import opened ChatRuleNode

  // ---------------------------------------------------------------------------------------
  // Brace matching
  // ---------------------------------------------------------------------------------------

  /** `findMatchingBrace`: the depth loop from `openIndex`. */
  method FindMatchingBrace(text: string, openIndex: nat) returns (r: int)
    ensures openIndex > |text| ==> r == -1
    ensures openIndex <= |text| ==> r == MatchingBrace(text, openIndex)
  {
    if openIndex > |text| { return -1; }
    var level := 0;
    var i := openIndex;
    while i < |text|
      invariant openIndex <= i <= |text|
      invariant level == Balance(text[openIndex..i])
      invariant forall k :: openIndex <= k < i ==> !ClosesAt(text, openIndex, k)
    {
      BalanceExtend(text, openIndex, i);
      var c := text[i];
      if c == '{' {
        level := level + 1;
      } else if c == '}' {
        level := level - 1;
        if level == 0 {
          assert ClosesAt(text, openIndex, i);
          MatchingBraceSpec(text, openIndex);
          return i;
        }
      }
      i := i + 1;
    }
    MatchingBraceSpec(text, openIndex);
    return -1;
  }

  // ---------------------------------------------------------------------------------------
  // Options: `[flag, key: value, ...]`
  // ---------------------------------------------------------------------------------------

  /** The key of one comma-separated part: the text before its first `:`, trimmed. */
  function PartKey(part: string): string {
    Trim(SplitFirst(part, ':')[0])
  }

  /** The value of one part: TRUE for a bare key, else the text after the first `:`, trimmed. */
  function PartValue(part: string): OptValue {
    var kv := SplitFirst(part, ':');
    if |kv| == 1 then OTrue else OStr(Trim(kv[1]))
  }

  /** Each part in turn, through `putIfAbsent`. */
  function PutParts(parts: seq<string>, opts: OptionMap): OptionMap {
    if parts == [] then opts
    else PutParts(parts[1..], InsertIfAbsent(opts, Some(PartKey(parts[0])), Some(PartValue(parts[0]))))
  }

  /** `parseOptionToken`: nothing for an empty token, else its parts split on `,`. */
  function OptionToken(token: string, opts: OptionMap): OptionMap {
    if token == [] then opts else PutParts(Split(token, ','), opts)
  }

  /** Options already present are never overwritten. */
  lemma {:induction false} PutPartsKeeps(parts: seq<string>, opts: OptionMap, key: string)
    requires key in opts
    ensures key in PutParts(parts, opts) && PutParts(parts, opts)[key] == opts[key]
  {
    if parts != [] {
      PutPartsKeeps(parts[1..], InsertIfAbsent(opts, Some(PartKey(parts[0])), Some(PartValue(parts[0]))), key);
    }
  }

  /** A key not present before is added exactly when some part names it. */
  lemma {:induction false} PutPartsAdds(parts: seq<string>, opts: OptionMap, key: string)
    requires key !in opts
    ensures key in PutParts(parts, opts) <==> exists i :: 0 <= i < |parts| && PartKey(parts[i]) == key
  {
    if parts != [] {
      var next := InsertIfAbsent(opts, Some(PartKey(parts[0])), Some(PartValue(parts[0])));
      if PartKey(parts[0]) == key {
        PutPartsKeeps(parts[1..], next, key);
      } else {
        PutPartsAdds(parts[1..], next, key);
        if exists i :: 0 <= i < |parts| && PartKey(parts[i]) == key {
          var i :| 0 <= i < |parts| && PartKey(parts[i]) == key;
          assert parts[1..][i - 1] == parts[i];
        }
        if exists i :: 0 <= i < |parts[1..]| && PartKey(parts[1..][i]) == key {
          var i :| 0 <= i < |parts[1..]| && PartKey(parts[1..][i]) == key;
          assert parts[i + 1] == parts[1..][i];
        }
      }
    }
  }

  /** A key not present before ends up with the value of the FIRST part that names it. */
  lemma {:induction false} PutPartsFirstWins(parts: seq<string>, opts: OptionMap, key: string, i: nat)
    requires key !in opts
    requires i < |parts| && PartKey(parts[i]) == key
    requires forall j :: 0 <= j < i ==> PartKey(parts[j]) != key
    ensures key in PutParts(parts, opts) && PutParts(parts, opts)[key] == PartValue(parts[i])
  {
    var next := InsertIfAbsent(opts, Some(PartKey(parts[0])), Some(PartValue(parts[0])));
    if i == 0 {
      PutPartsKeeps(parts[1..], next, key);
    } else {
      assert PartKey(parts[0]) != key;
      assert parts[1..][i - 1] == parts[i];
      forall j | 0 <= j < i - 1 ensures PartKey(parts[1..][j]) != key {
        assert parts[1..][j] == parts[j + 1];
      }
      PutPartsFirstWins(parts[1..], next, key, i - 1);
    }
  }

  /** `parseOptionToken(token, options)`. */
  method ParseOptionToken(token: string, options: OptionMap) returns (result: OptionMap)
    ensures result == OptionToken(token, options)
  {
    if token == [] { return options; }
    var parts := Split(token, ',');
    result := options;
    var i := 0;
    while i < |parts|
      invariant 0 <= i <= |parts|
      invariant PutParts(parts[i..], result) == PutParts(parts, options)
    {
      var part := parts[i];
      var kv := SplitFirst(part, ':');
      if |kv| == 1 {
        result := InsertIfAbsent(result, Some(Trim(kv[0])), Some(OTrue));
      } else {
        result := InsertIfAbsent(result, Some(Trim(kv[0])), Some(OStr(Trim(kv[1]))));
      }
      assert parts[i..][1..] == parts[i + 1..];
      i := i + 1;
    }
  }

  /** `extractAllOptionTokens`: the trimmed contents of every `[...]` group, in order. */
  function OptionTokens(text: string): (tokens: seq<string>)
    ensures |tokens| == |Brackets(text, 0).0|
  {
    TrimAll(Brackets(text, 0).0)
  }

  /** The first `[...]` group closed on its line gives the first token, trimmed; the rest come
      from the text after its `]`. */
  lemma OptionTokensFirst(text: string, o: nat, c: nat)
    requires o < c < |text|
    requires RangeIn(text, 0, o, NoneOf('[', '[')) && text[o] == '['
    requires RangeIn(text, o + 1, c, BracketBodyClass) && text[c] == ']'
    ensures OptionTokens(text) == [Trim(text[o + 1..c])] + TrimAll(Brackets(text, c + 1).0)
  {
    BracketsGroup(text, 0, o, c);
    var rest := Brackets(text, c + 1).0;
    TrimAllCons(text[o + 1..c], rest);
  }

  /** Text without `[` has no token. */
  lemma OptionTokensNone(text: string)
    requires forall k :: 0 <= k < |text| ==> text[k] != '['
    ensures OptionTokens(text) == []
  {
    BracketsNone(text, 0);
  }

  /** Every token is already trimmed. */
  lemma {:induction false} OptionTokensTrimmed(text: string, k: nat)
    requires k < |OptionTokens(text)|
    ensures Trim(OptionTokens(text)[k]) == OptionTokens(text)[k]
  {
    TrimIdempotent(Brackets(text, 0).0[k]);
  }

  /** Every token in turn into one option set. */
  function TokensInto(tokens: seq<string>, opts: OptionMap): OptionMap {
    if tokens == [] then opts else TokensInto(tokens[1..], OptionToken(tokens[0], opts))
  }

  /** `extractOptionsFromText`: every `[...]` group of the text into one fresh option set. */
  function OptionsFromText(text: string): OptionMap {
    TokensInto(OptionTokens(text), map[])
  }

  /** The token loop shared by the field-line and trailing-options parsers. */
  method ParseTokens(tokens: seq<string>, options: OptionMap) returns (result: OptionMap)
    ensures result == TokensInto(tokens, options)
  {
    result := options;
    var i := 0;
    while i < |tokens|
      invariant 0 <= i <= |tokens|
      invariant TokensInto(tokens[i..], result) == TokensInto(tokens, options)
    {
      result := ParseOptionToken(tokens[i], result);
      assert tokens[i..][1..] == tokens[i + 1..];
      i := i + 1;
    }
  }

  /** `extractOptionsFromText(text)`. */
  method ExtractOptionsFromText(text: string) returns (opts: OptionMap)
    ensures opts == OptionsFromText(text)
  {
    var tokens := OptionTokens(text);
    opts := ParseTokens(tokens, map[]);
  }

  /** Text without brackets carries no options. */
  lemma {:induction false} OptionsFromPlainText(text: string)
    requires '[' !in text
    ensures OptionsFromText(text) == map[]
  {
    BracketsNone(text, 0);
  }

  // ---------------------------------------------------------------------------------------
  // Field lines: `text|img|link: selector [options]`
  // ---------------------------------------------------------------------------------------

  /** What one field line declares: the field, its selector (null when the text left after
      removing the `[...]` groups is `null` in any case) and its options. */
  datatype FieldDecl = FieldDecl(field: string, selector: Option<string>, options: OptionMap)

  /** The declaration a line makes, if it is a field line. */
  function DeclOf(line: string): (d: Option<FieldDecl>)
    ensures d.Some? ==> d.value.field in Fields
    ensures d.Some? && d.value.selector.Some? ==> !EqualsIgnoreCase(d.value.selector.value, "null")
  {
    var t := Trim(line);
    if t == [] then None
    else match FieldLine(t)
      case None => None
      case Some((field, rest)) =>
        var sel := Trim(Brackets(rest, 0).1);
        Some(FieldDecl(field, if EqualsIgnoreCase(sel, "null") then None else Some(sel),
                       TokensInto(OptionTokens(rest), map[])))
  }

  /** One declaration's effect: a selector is written if it is not null and the field has none
      yet; the options are written if the field has none yet. */
  function FieldStep(d: Option<FieldDecl>, sels: map<string, string>, opts: map<string, OptionMap>)
    : (map<string, string>, map<string, OptionMap>)
  {
    match d
    case None => (sels, opts)
    case Some(d) =>
      (if d.selector.Some? && d.field !in sels then sels[d.field := d.selector.value] else sels,
       if d.field !in opts then opts[d.field := d.options] else opts)
  }

  /** The declarations in order. */
  function FoldDecls(ds: seq<Option<FieldDecl>>, sels: map<string, string>, opts: map<string, OptionMap>)
    : (map<string, string>, map<string, OptionMap>)
  {
    if ds == [] then (sels, opts)
    else
      var next := FieldStep(ds[0], sels, opts);
      FoldDecls(ds[1..], next.0, next.1)
  }

  /** The declaration of each line. */
  function DeclsOf(lines: seq<string>): (ds: seq<Option<FieldDecl>>)
    ensures |ds| == |lines|
  {
    if lines == [] then [] else [DeclOf(lines[0])] + DeclsOf(lines[1..])
  }

  lemma {:induction false} DeclsOfAt(lines: seq<string>, i: nat)
    requires i < |lines|
    ensures DeclsOf(lines)[i] == DeclOf(lines[i])
  {
    if i > 0 {
      DeclsOfAt(lines[1..], i - 1);
    }
  }

  /** The field lines of a text, over the maps given. */
  function FieldLines(text: string, sels: map<string, string>, opts: map<string, OptionMap>)
    : (map<string, string>, map<string, OptionMap>)
  {
    FoldDecls(DeclsOf(Lines(text)), sels, opts)
  }

  /** The declaration gives `field` a non-null selector. */
  predicate SelectorFor(d: Option<FieldDecl>, field: string) {
    d.Some? && d.value.field == field && d.value.selector.Some?
  }

  /** The declaration names `field` (with or without selector and options). */
  predicate DeclaresField(d: Option<FieldDecl>, field: string) {
    d.Some? && d.value.field == field
  }

  /** Selectors present before are never overwritten. */
  lemma {:induction false} FieldSelectorKeeps(ds: seq<Option<FieldDecl>>, sels: map<string, string>,
                                          opts: map<string, OptionMap>, field: string)
    requires field in sels
    ensures field in FoldDecls(ds, sels, opts).0 && FoldDecls(ds, sels, opts).0[field] == sels[field]
  {
    if ds != [] {
      var next := FieldStep(ds[0], sels, opts);
      FieldSelectorKeeps(ds[1..], next.0, next.1, field);
    }
  }

  /** A field not present before gets a selector exactly when some line gives it a non-null one. */
  lemma {:induction false} FieldSelectorAdds(ds: seq<Option<FieldDecl>>, sels: map<string, string>,
                                         opts: map<string, OptionMap>, field: string)
    requires field !in sels
    ensures field in FoldDecls(ds, sels, opts).0 <==> exists i :: 0 <= i < |ds| && SelectorFor(ds[i], field)
  {
    if ds != [] {
      var next := FieldStep(ds[0], sels, opts);
      if SelectorFor(ds[0], field) {
        FieldSelectorKeeps(ds[1..], next.0, next.1, field);
      } else {
        FieldSelectorAdds(ds[1..], next.0, next.1, field);
        if exists i :: 0 <= i < |ds| && SelectorFor(ds[i], field) {
          var i :| 0 <= i < |ds| && SelectorFor(ds[i], field);
          assert ds[1..][i - 1] == ds[i];
        }
        if exists i :: 0 <= i < |ds[1..]| && SelectorFor(ds[1..][i], field) {
          var i :| 0 <= i < |ds[1..]| && SelectorFor(ds[1..][i], field);
          assert ds[i + 1] == ds[1..][i];
        }
      }
    }
  }

  /** A field's selector is that of its FIRST line with a non-null selector. */
  lemma {:induction false} FieldSelectorFirstWins(ds: seq<Option<FieldDecl>>, sels: map<string, string>,
                                              opts: map<string, OptionMap>, field: string, i: nat)
    requires field !in sels
    requires i < |ds| && SelectorFor(ds[i], field)
    requires forall j :: 0 <= j < i ==> !SelectorFor(ds[j], field)
    ensures field in FoldDecls(ds, sels, opts).0 && FoldDecls(ds, sels, opts).0[field] == ds[i].value.selector.value
  {
    var next := FieldStep(ds[0], sels, opts);
    if i == 0 {
      FieldSelectorKeeps(ds[1..], next.0, next.1, field);
    } else {
      assert !SelectorFor(ds[0], field);
      assert ds[1..][i - 1] == ds[i];
      forall j | 0 <= j < i - 1 ensures !SelectorFor(ds[1..][j], field) {
        assert ds[1..][j] == ds[j + 1];
      }
      FieldSelectorFirstWins(ds[1..], next.0, next.1, field, i - 1);
    }
  }

  /** Options present before are never overwritten. */
  lemma {:induction false} FieldOptionsKeeps(ds: seq<Option<FieldDecl>>, sels: map<string, string>,
                                          opts: map<string, OptionMap>, field: string)
    requires field in opts
    ensures field in FoldDecls(ds, sels, opts).1 && FoldDecls(ds, sels, opts).1[field] == opts[field]
  {
    if ds != [] {
      var next := FieldStep(ds[0], sels, opts);
      FieldOptionsKeeps(ds[1..], next.0, next.1, field);
    }
  }

  /** A field not present before gets options exactly when some line names it. */
  lemma {:induction false} FieldOptionsAdds(ds: seq<Option<FieldDecl>>, sels: map<string, string>,
                                         opts: map<string, OptionMap>, field: string)
    requires field !in opts
    ensures field in FoldDecls(ds, sels, opts).1 <==> exists i :: 0 <= i < |ds| && DeclaresField(ds[i], field)
  {
    if ds != [] {
      var next := FieldStep(ds[0], sels, opts);
      if DeclaresField(ds[0], field) {
        FieldOptionsKeeps(ds[1..], next.0, next.1, field);
      } else {
        FieldOptionsAdds(ds[1..], next.0, next.1, field);
        if exists i :: 0 <= i < |ds| && DeclaresField(ds[i], field) {
          var i :| 0 <= i < |ds| && DeclaresField(ds[i], field);
          assert ds[1..][i - 1] == ds[i];
        }
        if exists i :: 0 <= i < |ds[1..]| && DeclaresField(ds[1..][i], field) {
          var i :| 0 <= i < |ds[1..]| && DeclaresField(ds[1..][i], field);
          assert ds[i + 1] == ds[1..][i];
        }
      }
    }
  }

  /** A field's options are those of its FIRST line, even when that line has none. */
  lemma {:induction false} FieldOptionsFirstWins(ds: seq<Option<FieldDecl>>, sels: map<string, string>,
                                              opts: map<string, OptionMap>, field: string, i: nat)
    requires field !in opts
    requires i < |ds| && DeclaresField(ds[i], field)
    requires forall j :: 0 <= j < i ==> !DeclaresField(ds[j], field)
    ensures field in FoldDecls(ds, sels, opts).1 && FoldDecls(ds, sels, opts).1[field] == ds[i].value.options
  {
    var next := FieldStep(ds[0], sels, opts);
    if i == 0 {
      FieldOptionsKeeps(ds[1..], next.0, next.1, field);
    } else {
      assert !DeclaresField(ds[0], field);
      assert ds[1..][i - 1] == ds[i];
      forall j | 0 <= j < i - 1 ensures !DeclaresField(ds[1..][j], field) {
        assert ds[1..][j] == ds[j + 1];
      }
      FieldOptionsFirstWins(ds[1..], next.0, next.1, field, i - 1);
    }
  }

  /** Only `text`, `img` and `link` are ever added, and a selector that reads `null` in any case
      never enters. */
  lemma {:induction false} FieldLinesOnlyKnownFields(ds: seq<Option<FieldDecl>>, sels: map<string, string>,
                                                     opts: map<string, OptionMap>)
    requires forall i :: 0 <= i < |ds| && ds[i].Some? ==> ds[i].value.field in Fields
    requires forall i :: 0 <= i < |ds| && ds[i].Some? && ds[i].value.selector.Some? ==>
               !EqualsIgnoreCase(ds[i].value.selector.value, "null")
    ensures FoldDecls(ds, sels, opts).0.Keys <= sels.Keys + set f | f in Fields
    ensures FoldDecls(ds, sels, opts).1.Keys <= opts.Keys + set f | f in Fields
    ensures forall f :: f in FoldDecls(ds, sels, opts).0 && f !in sels ==>
              !EqualsIgnoreCase(FoldDecls(ds, sels, opts).0[f], "null")
  {
    if ds != [] {
      var next := FieldStep(ds[0], sels, opts);
      FieldLinesOnlyKnownFields(ds[1..], next.0, next.1);
      forall f | f in FoldDecls(ds, sels, opts).0 && f !in sels
        ensures !EqualsIgnoreCase(FoldDecls(ds, sels, opts).0[f], "null")
      {
        if f in next.0 {
          FieldSelectorKeeps(ds[1..], next.0, next.1, f);
        }
      }
    }
  }

  /** `parseFieldLines(text, selectorMap, optionsMap)`: the Scanner loop over the lines. */
  method ParseFieldLines(text: string, selectorMap: map<string, string>, optionsMap: map<string, OptionMap>)
    returns (sels: map<string, string>, opts: map<string, OptionMap>)
    ensures (sels, opts) == FieldLines(text, selectorMap, optionsMap)
  {
    var lines := Lines(text);
    ghost var ds := DeclsOf(lines);
    sels, opts := selectorMap, optionsMap;
    var i := 0;
    while i < |lines|
      invariant 0 <= i <= |lines|
      invariant FoldDecls(ds[i..], sels, opts) == FoldDecls(ds, selectorMap, optionsMap)
    {
      assert ds[i..][1..] == ds[i + 1..];
      DeclsOfAt(lines, i);
      var line := Trim(lines[i]);
      i := i + 1;
      if line == [] { continue; }
      var m := FieldLine(line);
      if m.None? { continue; }
      var (field, rest) := m.value;
      var tokens := OptionTokens(rest);
      var selector := Trim(Brackets(rest, 0).1);
      if !EqualsIgnoreCase(selector, "null") && field !in sels {
        sels := sels[field := selector];
      }
      var fieldOptions := ParseTokens(tokens, map[]);
      if field !in opts {
        opts := opts[field := fieldOptions];
      }
    }
  }

  // ---------------------------------------------------------------------------------------
  // The `items: selector { ... } [options]` template
  // ---------------------------------------------------------------------------------------

  /** The `items:` header the text holds, if any, with the index of the `}` matching its `{`;
      none when there is no header or its `{` is unmatched. */
  function ItemsFound(text: string): (r: Option<(Header, nat)>)
    ensures r.Some? ==> var (h, close) := r.value;
              FindHeader(text, 0, ItemsHeader) == Some(h) && MatchingBrace(text, h.brace) == close &&
              h.start < h.brace < close < |text| && text[close] == '}'
    ensures r.None? ==> FindHeader(text, 0, ItemsHeader).None? ||
                        MatchingBrace(text, FindHeader(text, 0, ItemsHeader).value.brace) < 0
  {
    match FindHeader(text, 0, ItemsHeader)
    case None => None
    case Some(h) =>
      var close := MatchingBrace(text, h.brace);
      if close < 0 then None
      else
        MatchingBraceAfterOpen(text, h.brace);
        Some((h, close))
  }

  /** `parseItemsBlockIfPresent`: the text left for the field lines and the template built. */
  function ItemsBlock(text: string): (r: (string, Option<Rule>))
    ensures ItemsFound(text).None? ==> r == (text, None)
    ensures r.1.Some? ==> r.1.value.name == Some("items") && r.1.value.itemTemplate.None?
  {
    match ItemsFound(text)
    case None => (text, None)
    case Some((h, close)) => ItemsCut(text, h, close)
  }

  /** The block is cut out: what is left is the text before the header, a newline, and
      everything after the closing brace; the template takes the header's selector, the field
      lines of the block's body and the options after its `}`. */
  function ItemsCut(text: string, h: Header, close: nat): (r: (string, Option<Rule>))
    requires h.start < h.brace < close < |text|
    ensures r.1.Some? && r.1.value.name == Some("items") && r.1.value.itemTemplate.None?
  {
    (text[..h.start] + "\n" + text[close + 1..], Some(ItemsTemplate(h.value, text[h.brace + 1..close], text[close + 1..])))
  }

  /** The template of an `items:` block: named "items", the block's selector, the field lines
      of its body, no nested template, and the options of every `[...]` group after its `}`. */
  function ItemsTemplate(selector: string, inner: string, after: string): (r: Rule)
    ensures r.name == Some("items") && r.selector == Some(selector) && r.itemTemplate.None?
  {
    var fields := FieldLines(inner, map[], map[]);
    Rule(Some("items"), Some(selector), fields.0, fields.1, None, Some(OptionsFromText(after)))
  }

  /** `parseItemsBlockIfPresent(text, parentNode)`. */
  method ParseItemsBlockIfPresent(text: string) returns (remaining: string, template: Option<Rule>)
    ensures (remaining, template) == ItemsBlock(text)
  {
    var m := FindHeader(text, 0, ItemsHeader);
    if m.None? { return text, None; }
    var h := m.value;
    var blockEnd := FindMatchingBrace(text, h.brace);
    if blockEnd < 0 { return text, None; }
    assert ItemsFound(text) == Some((h, blockEnd));
    remaining, template := CutItemsBlock(text, h, blockEnd);
  }

  /** The found branch of `parseItemsBlockIfPresent`. */
  method CutItemsBlock(text: string, h: Header, blockEnd: nat) returns (remaining: string, template: Option<Rule>)
    requires h.start < h.brace < blockEnd < |text|
    ensures (remaining, template) == ItemsCut(text, h, blockEnd)
  {
    var innerBody := text[h.brace + 1..blockEnd];
    var afterBlock := if blockEnd + 1 < |text| then text[blockEnd + 1..] else "";
    assert afterBlock == text[blockEnd + 1..] by {
      if blockEnd + 1 == |text| { assert |text[blockEnd + 1..]| == 0; }
    }
    var t := BuildItemsTemplate(h.value, innerBody, afterBlock);
    template := Some(t);
    remaining := text[..h.start] + "\n" + afterBlock;
  }

  /** The template of a found `items:` block, built from its selector, inner text and the
      text after it. */
  method BuildItemsTemplate(selector: string, inner: string, after: string) returns (t: Rule)
    ensures t == ItemsTemplate(selector, inner, after)
  {
    var itemOptions := ExtractOptionsFromText(after);
    var sels, opts := ParseFieldLines(inner, map[], map[]);
    t := Rule(Some("items"), Some(selector), sels, opts, None, Some(itemOptions));
  }

  // ---------------------------------------------------------------------------------------
  // Sections
  // ---------------------------------------------------------------------------------------

  /** `matcher.find()` started at each position of the text: entry `p` is the leftmost header
      of the kind at or after `p`. */
  function Finds(dsl: string, kind: HeaderKind): (t: seq<Option<Header>>)
    ensures |t| == |dsl| + 1
  {
    seq(|dsl| + 1, p requires 0 <= p <= |dsl| => FindHeader(dsl, p, kind))
  }

  /** What the find loop needs of a table of finds: a header found from `p` starts at or after
      `p` and has its `{` inside the text. */
  predicate Advancing(dsl: string, t: seq<Option<Header>>) {
    |t| == |dsl| + 1 &&
    forall p :: 0 <= p < |t| && t[p].Some? ==>
      p <= t[p].value.start < t[p].value.brace < |dsl| && dsl[t[p].value.brace] == '{'
  }

  lemma {:induction false} FindsAdvancing(dsl: string, kind: HeaderKind)
    ensures Advancing(dsl, Finds(dsl, kind))
  {
    var t := Finds(dsl, kind);
    forall p | 0 <= p < |t| && t[p].Some?
      ensures p <= t[p].value.start < t[p].value.brace < |dsl| && dsl[t[p].value.brace] == '{'
    {
      assert t[p] == FindHeader(dsl, p, kind);
    }
  }

  /** The headers the find loop visits from `from`: each search goes on right after the `{` of
      the header found, whether or not that brace is matched. */
  function Visited(dsl: string, t: seq<Option<Header>>, from: nat): (hs: seq<Header>)
    requires Advancing(dsl, t) && from <= |dsl|
    decreases |dsl| - from
  {
    match t[from]
    case None => []
    case Some(h) => [h] + Visited(dsl, t, h.brace + 1)
  }

  /** Every header visited is one the table holds at or after `from`. */
  lemma {:induction false} VisitedFound(dsl: string, t: seq<Option<Header>>, from: nat, k: nat)
    requires Advancing(dsl, t) && from <= |dsl|
    requires k < |Visited(dsl, t, from)|
    ensures exists p :: from <= p <= |dsl| && t[p] == Some(Visited(dsl, t, from)[k])
    decreases |dsl| - from
  {
    if k > 0 {
      var h := t[from].value;
      VisitedFound(dsl, t, h.brace + 1, k - 1);
    }
  }

  /** Every header visited starts at or after `from` and has its `{` inside the text. */
  lemma {:induction false} VisitedBounds(dsl: string, t: seq<Option<Header>>, from: nat, k: nat)
    requires Advancing(dsl, t) && from <= |dsl|
    requires k < |Visited(dsl, t, from)|
    ensures var h := Visited(dsl, t, from)[k];
            from <= h.start < h.brace < |dsl| && dsl[h.brace] == '{'
    decreases |dsl| - from
  {
    if k > 0 {
      VisitedBounds(dsl, t, t[from].value.brace + 1, k - 1);
    }
  }

  /** The headers come in textual order, each after the `{` of the one before. */
  lemma {:induction false} VisitedOrdered(dsl: string, t: seq<Option<Header>>, from: nat, k: nat)
    requires Advancing(dsl, t) && from <= |dsl|
    requires k + 1 < |Visited(dsl, t, from)|
    ensures Visited(dsl, t, from)[k].brace < Visited(dsl, t, from)[k + 1].start
    decreases |dsl| - from
  {
    var next := t[from].value.brace + 1;
    if k == 0 {
      VisitedBounds(dsl, t, next, 0);
    } else {
      VisitedOrdered(dsl, t, next, k - 1);
    }
  }

  /** Every header's `{` lies inside the text. */
  predicate BracesIn(dsl: string, hs: seq<Header>) {
    forall k :: 0 <= k < |hs| ==> hs[k].brace < |dsl|
  }

  lemma {:induction false} VisitedBracesIn(dsl: string, t: seq<Option<Header>>, from: nat)
    requires Advancing(dsl, t) && from <= |dsl|
    ensures BracesIn(dsl, Visited(dsl, t, from))
  {
    forall k | 0 <= k < |Visited(dsl, t, from)|
      ensures Visited(dsl, t, from)[k].brace < |dsl|
    {
      VisitedBounds(dsl, t, from, k);
    }
  }

  /** The find loop advances past the header it found: the headers seen so far, that one, and
      those found after its `{` are all the headers of the text. */
  lemma {:induction false} VisitedAdvance(dsl: string, t: seq<Option<Header>>, from: nat, seen: seq<Header>, h: Header)
    requires Advancing(dsl, t) && from <= |dsl|
    requires t[from] == Some(h)
    requires seen + Visited(dsl, t, from) == Visited(dsl, t, 0)
    ensures (seen + [h]) + Visited(dsl, t, h.brace + 1) == Visited(dsl, t, 0)
  {
    assert Visited(dsl, t, from) == [h] + Visited(dsl, t, h.brace + 1);
    assert (seen + [h]) + Visited(dsl, t, h.brace + 1) == seen + ([h] + Visited(dsl, t, h.brace + 1));
  }

  /** A block found in the text: its header, the index of the `}` that closes it, and the
      text between its braces. */
  datatype Block = Block(header: Header, close: nat, body: string)

  /** The blocks of the headers visited: a header whose brace is unmatched is skipped. */
  function BlocksOf(dsl: string, hs: seq<Header>): (bs: seq<Block>)
    requires BracesIn(dsl, hs)
    ensures |bs| <= |hs|
  {
    if hs == [] then []
    else
      var close := MatchingBrace(dsl, hs[0].brace);
      var rest := BlocksOf(dsl, hs[1..]);
      if close <= hs[0].brace then rest
      else [Block(hs[0], close, dsl[hs[0].brace + 1..close])] + rest
  }

  /** The blocks of a kind found from `from`. */
  function BlocksFrom(dsl: string, from: nat, kind: HeaderKind): (bs: seq<Block>)
    requires from <= |dsl|
  {
    FindsAdvancing(dsl, kind);
    VisitedBracesIn(dsl, Finds(dsl, kind), from);
    BlocksOf(dsl, Visited(dsl, Finds(dsl, kind), from))
  }

  /** Every block is made of a visited header. */
  lemma {:induction false} BlockHeaderVisited(dsl: string, hs: seq<Header>, k: nat)
    requires BracesIn(dsl, hs)
    requires k < |BlocksOf(dsl, hs)|
    ensures BlocksOf(dsl, hs)[k].header in hs
  {
    var close := MatchingBrace(dsl, hs[0].brace);
    if close <= hs[0].brace {
      BlockHeaderVisited(dsl, hs[1..], k);
    } else if k > 0 {
      BlockHeaderVisited(dsl, hs[1..], k - 1);
    }
  }

  /** A block's `{` is closed by the matching `}` at `close`, and its body is the text between
      the two. */
  lemma {:induction false} BlockOfHeader(dsl: string, hs: seq<Header>, k: nat)
    requires BracesIn(dsl, hs)
    requires k < |BlocksOf(dsl, hs)|
    ensures var b := BlocksOf(dsl, hs)[k];
            b.header.brace < b.close < |dsl| &&
            b.close == MatchingBrace(dsl, b.header.brace) && b.body == dsl[b.header.brace + 1..b.close]
  {
    var close := MatchingBrace(dsl, hs[0].brace);
    if close <= hs[0].brace {
      BlockOfHeader(dsl, hs[1..], k);
    } else if k > 0 {
      BlockOfHeader(dsl, hs[1..], k - 1);
    }
  }

  /** The blocks of consecutive header runs are consecutive. */
  lemma {:induction false} BlocksOfAppend(dsl: string, hs: seq<Header>, gs: seq<Header>)
    requires BracesIn(dsl, hs) && BracesIn(dsl, gs)
    ensures BracesIn(dsl, hs + gs)
    ensures BlocksOf(dsl, hs + gs) == BlocksOf(dsl, hs) + BlocksOf(dsl, gs)
  {
    if hs == [] {
      assert hs + gs == gs;
    } else {
      assert (hs + gs)[0] == hs[0];
      assert (hs + gs)[1..] == hs[1..] + gs;
      BlocksOfAppend(dsl, hs[1..], gs);
    }
  }

  /** `parseSectionBody`: the items template first, then the field lines of what is left. */
  function SectionNode(name: string, selector: string, body: string): (r: Rule)
    ensures r.name == Some(name) && r.selector == Some(selector) && r.sectionOptions.None?
  {
    var (remaining, template) := ItemsBlock(body);
    var fields := FieldLines(remaining, map[], map[]);
    Rule(Some(name), Some(selector), fields.0, fields.1, template, None)
  }

  /** `parseSectionBody(body, node)` on the node `new RuleNode(name, selector)`. */
  method ParseSectionBody(name: string, selector: string, body: string) returns (node: Rule)
    ensures node == SectionNode(name, selector, body)
  {
    var remaining, template := ParseItemsBlockIfPresent(body);
    var sels, opts := ParseFieldLines(remaining, map[], map[]);
    node := Rule(Some(name), Some(selector), sels, opts, template, None);
  }

  /** One section node per block. */
  function SectionNodes(bs: seq<Block>): (r: seq<Rule>)
    ensures |r| == |bs|
  {
    if bs == [] then []
    else [SectionNode(bs[0].header.name, bs[0].header.value, bs[0].body)] + SectionNodes(bs[1..])
  }

  /** `parseSectionDsl`'s find loop from `from`: the nodes of the `section:` blocks. */
  function SectionsFrom(dsl: string, from: nat): (r: seq<Rule>)
    requires from <= |dsl|
  {
    SectionNodes(BlocksFrom(dsl, from, SectionHeader(true)))
  }

  /** The nodes of consecutive block runs are consecutive. */
  lemma {:induction false} SectionNodesAppend(bs: seq<Block>, cs: seq<Block>)
    ensures SectionNodes(bs + cs) == SectionNodes(bs) + SectionNodes(cs)
  {
    if bs == [] {
      assert bs + cs == cs;
    } else {
      assert (bs + cs)[0] == bs[0];
      assert (bs + cs)[1..] == bs[1..] + cs;
      SectionNodesAppend(bs[1..], cs);
    }
  }

  /** Node `k` is built from block `k`. */
  lemma {:induction false} SectionNodeAt(bs: seq<Block>, k: nat)
    requires k < |bs|
    ensures SectionNodes(bs)[k] == SectionNode(bs[k].header.name, bs[k].header.value, bs[k].body)
  {
    if k > 0 {
      SectionNodeAt(bs[1..], k - 1);
    }
  }

  /** Every section node is named by the header of its block (a non-empty name), takes that
      header's selector, and has no options of its own. */
  lemma {:induction false} SectionsNamed(dsl: string, from: nat, k: nat)
    requires from <= |dsl|
    requires k < |SectionsFrom(dsl, from)|
    ensures var b := BlocksFrom(dsl, from, SectionHeader(true))[k];
            SectionsFrom(dsl, from)[k].name == Some(b.header.name) && b.header.name != [] &&
            SectionsFrom(dsl, from)[k].selector == Some(b.header.value) &&
            SectionsFrom(dsl, from)[k].sectionOptions.None?
  {
    var t := Finds(dsl, SectionHeader(true));
    FindsAdvancing(dsl, SectionHeader(true));
    var hs := Visited(dsl, t, from);
    VisitedBracesIn(dsl, t, from);
    var bs := BlocksOf(dsl, hs);
    BlockHeaderVisited(dsl, hs, k);
    var j :| 0 <= j < |hs| && hs[j] == bs[k].header;
    VisitedFound(dsl, t, from, j);
    var p :| from <= p <= |dsl| && t[p] == Some(hs[j]);
    assert FindHeader(dsl, p, SectionHeader(true)) == Some(hs[j]);
    SectionNodeAt(bs, k);
  }

  /** `parseSectionDsl`: nothing for blank text. */
  function SectionDsl(dsl: string): (r: seq<Rule>)
    ensures IsBlank(dsl) ==> r == []
  {
    if IsBlank(dsl) then [] else SectionsFrom(dsl, 0)
  }

  /** One more header seen adds its block exactly when its `{` is matched. */
  lemma {:induction false} BlocksAdvance(dsl: string, seen: seq<Header>, h: Header, close: int)
    requires BracesIn(dsl, seen)
    requires h.brace < |dsl| && dsl[h.brace] == '{'
    requires close == MatchingBrace(dsl, h.brace)
    ensures BracesIn(dsl, seen + [h])
    ensures close >= 0 ==>
              h.brace < close && BlocksOf(dsl, seen + [h]) == BlocksOf(dsl, seen) + [Block(h, close, dsl[h.brace + 1..close])]
    ensures close < 0 ==> BlocksOf(dsl, seen + [h]) == BlocksOf(dsl, seen)
  {
    MatchingBraceAfterOpen(dsl, h.brace);
    BlocksOfAppend(dsl, seen, [h]);
    assert [h][1..] == [];
    assert BlocksOf(dsl, seen) + [] == BlocksOf(dsl, seen);
  }

  /** One more block adds its section node. */
  lemma {:induction false} SectionsAdvance(bs: seq<Block>, b: Block)
    ensures SectionNodes(bs + [b]) == SectionNodes(bs) + [SectionNode(b.header.name, b.header.value, b.body)]
  {
    SectionNodesAppend(bs, [b]);
    assert [b][1..] == [];
  }

  /** `parseSectionDsl(dsl)`: the find loop. */
  method ParseSectionDsl(dsl: string) returns (sections: seq<Rule>)
    ensures sections == SectionDsl(dsl)
  {
    sections := [];
    if IsBlank(dsl) { return; }
    var from := 0;
    ghost var seen: seq<Header> := [];
    ghost var t := Finds(dsl, SectionHeader(true));
    FindsAdvancing(dsl, SectionHeader(true));
    while true
      invariant from <= |dsl|
      invariant seen + Visited(dsl, t, from) == Visited(dsl, t, 0)
      invariant BracesIn(dsl, seen)
      invariant sections == SectionNodes(BlocksOf(dsl, seen))
      decreases |dsl| - from
    {
      var m := FindHeader(dsl, from, SectionHeader(true));
      if m.None? { break; }
      var h := m.value;
      assert t[from] == m;
      VisitedAdvance(dsl, t, from, seen, h);
      var bodyEnd := FindMatchingBrace(dsl, h.brace);
      BlocksAdvance(dsl, seen, h, bodyEnd);
      from := h.brace + 1;
      if bodyEnd >= 0 {
        var node := ParseSectionBody(h.name, h.value, dsl[h.brace + 1..bodyEnd]);
        SectionsAdvance(BlocksOf(dsl, seen), Block(h, bodyEnd, dsl[h.brace + 1..bodyEnd]));
        sections := sections + [node];
      }
      seen := seen + [h];
    }
    assert seen + [] == seen;
  }

  // ---------------------------------------------------------------------------------------
  // Path blocks and the path-rule map
  // ---------------------------------------------------------------------------------------

  /** An insertion-ordered map (LinkedHashMap), as its entries in order. */
  type OrderedMap<K, V> = seq<(K, V)>

  predicate DistinctKeys<K(==), V>(m: OrderedMap<K, V>) {
    forall i, j :: 0 <= i < j < |m| ==> m[i].0 != m[j].0
  }

  /** The position of key `k`, or `|m|` when it is absent. */
  function KeyIndex<K(==), V>(m: OrderedMap<K, V>, k: K): (r: nat)
    ensures r <= |m| && (r < |m| ==> m[r].0 == k)
  {
    if m == [] then 0
    else if m[0].0 == k then 0
    else 1 + KeyIndex(m[1..], k)
  }

  /** No entry before the one `KeyIndex` gives holds the key. */
  lemma {:induction false} KeyIndexFirst<K, V>(m: OrderedMap<K, V>, k: K, j: nat)
    requires j < KeyIndex(m, k)
    ensures m[j].0 != k
  {
    if j > 0 {
      KeyIndexFirst(m[1..], k, j - 1);
    }
  }

  /** `put`: a key already present keeps its place and gets the new value; a new key goes last. */
  function Put<K(==), V>(m: OrderedMap<K, V>, k: K, v: V): (r: OrderedMap<K, V>)
    requires DistinctKeys(m)
    ensures DistinctKeys(r)
    ensures (exists i :: 0 <= i < |m| && m[i].0 == k) ==>
              |r| == |m| && forall i :: 0 <= i < |m| ==> r[i] == if m[i].0 == k then (k, v) else m[i]
    ensures (forall i :: 0 <= i < |m| ==> m[i].0 != k) ==> r == m + [(k, v)]
  {
    var i := KeyIndex(m, k);
    if i == |m| then
      assert forall j :: 0 <= j < |m| ==> m[j].0 != k by {
        forall j | 0 <= j < |m| ensures m[j].0 != k { KeyIndexFirst(m, k, j); }
      }
      m + [(k, v)]
    else
      m[i := (k, v)]
  }

  /** The path-rule map a run of `path:` blocks builds: each block whose body yields at least
      one section puts its (trimmed) pattern with those sections. */
  function PathsOf(bs: seq<Block>): (m: OrderedMap<string, seq<Rule>>)
    ensures DistinctKeys(m)
  {
    if bs == [] then []
    else
      var m := PathsOf(bs[..|bs| - 1]);
      var b := bs[|bs| - 1];
      var nodes := SectionDsl(b.body);
      if nodes == [] then m else Put(m, b.header.value, nodes)
  }

  /** One more block: its sections are put under its pattern unless there are none. */
  lemma {:induction false} PathsAdvance(bs: seq<Block>, b: Block)
    ensures SectionDsl(b.body) == [] ==> PathsOf(bs + [b]) == PathsOf(bs)
    ensures SectionDsl(b.body) != [] ==> PathsOf(bs + [b]) == Put(PathsOf(bs), b.header.value, SectionDsl(b.body))
  {
    assert (bs + [b])[..|bs|] == bs;
  }

  /** Every entry of the map holds a non-empty rule list under the pattern of some block. */
  lemma {:induction false} PathsOfEntries(bs: seq<Block>, i: nat)
    requires i < |PathsOf(bs)|
    ensures PathsOf(bs)[i].1 != []
    ensures exists j :: 0 <= j < |bs| && bs[j].header.value == PathsOf(bs)[i].0
  {
    var init := bs[..|bs| - 1];
    var b := bs[|bs| - 1];
    var nodes := SectionDsl(b.body);
    var m := PathsOf(init);
    if nodes == [] || (i < |m| && m[i].0 != b.header.value) {
      PathsOfEntries(init, i);
      var j :| 0 <= j < |init| && init[j].header.value == m[i].0;
      assert bs[j] == init[j];
    } else if i < |m| {
      assert PathsOf(bs)[i] == (b.header.value, nodes);
    }
  }

  /** The last block carrying a pattern decides its rules. */
  lemma {:induction false} PathsOfLastWins(bs: seq<Block>, b: Block)
    requires SectionDsl(b.body) != []
    ensures exists i :: 0 <= i < |PathsOf(bs + [b])| && PathsOf(bs + [b])[i] == (b.header.value, SectionDsl(b.body))
  {
    PathsAdvance(bs, b);
    var m := PathsOf(bs);
    var k := b.header.value;
    if exists i :: 0 <= i < |m| && m[i].0 == k {
      var i :| 0 <= i < |m| && m[i].0 == k;
      assert PathsOf(bs + [b])[i] == (k, SectionDsl(b.body));
    } else {
      assert PathsOf(bs + [b])[|m|] == (k, SectionDsl(b.body));
    }
  }

  // `parse(dsl)`: the path blocks, or, when none contributes, the whole text as the rules of
  // the catch-all pattern "/**".
  function PathRules(dsl: string): (r: OrderedMap<string, seq<Rule>>)
    ensures r != [] && DistinctKeys(r)
    ensures PathsOf(BlocksFrom(dsl, 0, PathHeader)) == [] ==> r == [("/**", SectionDsl(dsl))]
    ensures PathsOf(BlocksFrom(dsl, 0, PathHeader)) != [] ==> r == PathsOf(BlocksFrom(dsl, 0, PathHeader))
  {
    var m := PathsOf(BlocksFrom(dsl, 0, PathHeader));
    if m == [] then [("/**", SectionDsl(dsl))] else m
  }

  /** The first entry whose pattern the matcher accepts for `path`. */
  function FirstMatching(m: OrderedMap<string, seq<Rule>>, matchPath: (string, string) -> bool, path: string)
    : (r: Option<nat>)
    ensures r.Some? ==> r.value < |m| && matchPath(m[r.value].0, path) &&
                        forall j :: 0 <= j < r.value ==> !matchPath(m[j].0, path)
    ensures r.None? ==> forall j :: 0 <= j < |m| ==> !matchPath(m[j].0, path)
  {
    if m == [] then None
    else if matchPath(m[0].0, path) then Some(0)
    else match FirstMatching(m[1..], matchPath, path)
      case None => None
      case Some(i) => Some(i + 1)
  }

  class RuleParser {
    /** Null until the first `parse`. */
    var pathRuleMap: Option<OrderedMap<string, seq<Rule>>>

    constructor ()
      ensures pathRuleMap == None
    {
      pathRuleMap := None;
    }

    /** `getPathRule(path)`: a null-pointer exception before any `parse`; else the rules of the
        first pattern, in insertion order, that the path matcher accepts, and an empty list when
        none does. */
    function GetPathRule(matchPath: (string, string) -> bool, path: string): (r: Try<seq<Rule>>)
      reads this
      ensures pathRuleMap.None? <==> r == Throws(NullPointer)
      ensures pathRuleMap.Some? && FirstMatching(pathRuleMap.value, matchPath, path).None? ==>
                r == Ok([])
      ensures pathRuleMap.Some? && FirstMatching(pathRuleMap.value, matchPath, path).Some? ==>
                r == Ok(pathRuleMap.value[FirstMatching(pathRuleMap.value, matchPath, path).value].1)
    {
      match pathRuleMap
      case None => Throws(NullPointer)
      case Some(m) =>
        match FirstMatching(m, matchPath, path)
        case None => Ok([])
        case Some(i) => Ok(m[i].1)
    }

    /** `parse(dsl)`: rebuilds the path-rule map. */
    method Parse(dsl: string)
      modifies this
      ensures pathRuleMap == Some(PathRules(dsl))
    {
      pathRuleMap := Some([]);
      PutPathBlocks(dsl);
      if pathRuleMap == Some([]) {
        var nodes := ParseSectionDsl(dsl);
        pathRuleMap := Some([("/**", nodes)]);
      }
    }

    /** The `while (matcher.find())` loop of `parse`: every `path:` header in turn, its block
        skipped when its `{` is unmatched, its sections put under its pattern when there are any. */
    method PutPathBlocks(dsl: string)
      requires pathRuleMap == Some([])
      modifies this
      ensures pathRuleMap == Some(PathsOf(BlocksFrom(dsl, 0, PathHeader)))
    {
      var from := 0;
      ghost var seen: seq<Header> := [];
      ghost var t := Finds(dsl, PathHeader);
      FindsAdvancing(dsl, PathHeader);
      while true
        invariant from <= |dsl|
        invariant seen + Visited(dsl, t, from) == Visited(dsl, t, 0)
        invariant BracesIn(dsl, seen)
        invariant pathRuleMap == Some(PathsOf(BlocksOf(dsl, seen)))
        decreases |dsl| - from
      {
        var m := FindHeader(dsl, from, PathHeader);
        if m.None? { break; }
        var h := m.value;
        assert t[from] == m;
        VisitedAdvance(dsl, t, from, seen, h);
        var blockEnd := FindMatchingBrace(dsl, h.brace);
        BlocksAdvance(dsl, seen, h, blockEnd);
        ghost var before := seen;
        from := h.brace + 1;
        seen := seen + [h];
        if blockEnd < 0 { continue; }
        var body := dsl[h.brace + 1..blockEnd];
        PathsAdvance(BlocksOf(dsl, before), Block(h, blockEnd, body));
        AddPathBlock(h.value, body);
      }
      assert seen + [] == seen;
    }

    /** One matched `path:` block: its sections are parsed and, when there are any, put under
        the block's pattern. */
    method AddPathBlock(pattern: string, body: string)
      requires pathRuleMap.Some? && DistinctKeys(pathRuleMap.value)
      modifies this
      ensures var nodes := SectionDsl(body);
              pathRuleMap == Some(if nodes == [] then old(pathRuleMap.value)
                                  else Put(old(pathRuleMap.value), pattern, nodes))
    {
      var nodes := ParseSectionDsl(body);
      if nodes != [] {
        pathRuleMap := Some(Put(pathRuleMap.value, pattern, nodes));
      }
    }
  }
}
