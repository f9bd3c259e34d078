/** The line-oriented rule compiler, the oldest of the parsers: the text is normalised, cut
    into lines, and a state machine collects the lines of each section into a block, which
    becomes a rule node once the block is flushed. */
module LegacyParser {
  import opened Wrappers
  import opened JavaString
  import opened Values
  import opened Rules
  import Braces
  import opened Patterns

  // ---------------------------------------------------------------------------------------
  // Normalisation and brace counting
  // ---------------------------------------------------------------------------------------

  /** `&#10;` becomes a line feed, `&#13;` a CR LF pair, and then every CR LF a line feed. */
  function Normalised(text: string): string {
    Replace(Replace(Replace(text, "&#10;", "\n"), "&#13;", "\r\n"), "\r\n", "\n")
  }

  /** A literal cannot occur in a text that lacks its first character. */
  lemma NoLiteralWithout(s: string, lit: string)
    requires |lit| > 0
    requires forall k :: 0 <= k < |s| ==> s[k] != lit[0]
    ensures forall i :: 0 <= i ==> !LiteralAt(s, i, lit)
  {
    forall i | 0 <= i
      ensures !LiteralAt(s, i, lit)
    {
      if i + |lit| <= |s| {
        assert s[i..i + |lit|][0] == s[i];
      }
    }
  }

  /** A text without `&` and CR is left as it is. */
  lemma NormalisedPlain(text: string)
    requires forall k :: 0 <= k < |text| ==> text[k] != '&' && text[k] != '\r'
    ensures Normalised(text) == text
  {
    NoLiteralWithout(text, "&#10;");
    ReplaceAbsent(text, "&#10;", "\n");
    NoLiteralWithout(text, "&#13;");
    ReplaceAbsent(text, "&#13;", "\r\n");
    NoLiteralWithout(text, "\r\n");
    ReplaceAbsent(text, "\r\n", "\n");
  }

  /** `countBraces`: the number of `{` minus the number of `}`. */
  method CountBraces(line: string) returns (count: int)
    ensures count == Braces.Count(line, '{') - Braces.Count(line, '}')
  {
    count := 0;
    for i := 0 to |line|
      invariant count == Braces.Balance(line[..i])
    {
      Braces.BalanceExtend(line, 0, i);
      assert line[0..i] == line[..i] && line[0..i + 1] == line[..i + 1];
      if line[i] == '{' { count := count + 1; }
      if line[i] == '}' { count := count - 1; }
    }
    assert line[..|line|] == line;
  }

  // ---------------------------------------------------------------------------------------
  // Options
  // ---------------------------------------------------------------------------------------

  /** The typed value of one option: `limit` and `index` through `Integer.valueOf`, which
      throws on anything but an int; `transform` as the list of its `|`-separated parts;
      any other key as the raw string. */
  function TypedOption(key: string, value: string): (r: Try<OptValue>)
    ensures key == "limit" || key == "index" ==>
      (r.Ok? <==> ParseInt(value).Some?) && (r.Ok? ==> r.value == OInt(ParseInt(value).value))
    ensures r.Throws? ==> r.exception == NumberFormat
  {
    if key == "limit" || key == "index" then
      match ParseInt(value)
      case None => Throws(NumberFormat)
      case Some(n) => Ok(OInt(n))
    else if key == "transform" then Ok(OList(Split(value, '|')))
    else Ok(OStr(value))
  }

  /** The options of the `key: value` pairs, put in order (a later pair overwrites). */
  function OptionsOf(pairs: seq<(string, string)>): (r: Try<OptionMap>)
    ensures r.Ok? ==> r.value.Keys == set k | 0 <= k < |pairs| :: pairs[k].0
  {
    if pairs == [] then Ok(map[])
    else
      var m :- OptionsOf(pairs[..|pairs| - 1]);
      var last := pairs[|pairs| - 1];
      var v :- TypedOption(last.0, last.1);
      assert forall k :: 0 <= k < |pairs| - 1 ==> pairs[..|pairs| - 1][k] == pairs[k];
      Ok(m[last.0 := v])
  }

  /** `parseOptions`: empty options for a line without a bracket group, else the typed options
      of every `key: value` pair the group holds. */
  function OptionsSpec(optStr: Option<string>): Try<OptionMap> {
    match optStr
    case None => Ok(map[])
    case Some(s) => OptionsOf(OptionPairs(s, 0))
  }

  /** The options fail exactly when a `limit` or `index` value is not an int. */
  lemma {:induction false} OptionsOfThrows(pairs: seq<(string, string)>)
    ensures OptionsOf(pairs).Throws? <==>
      exists k :: 0 <= k < |pairs| && (pairs[k].0 == "limit" || pairs[k].0 == "index") && ParseInt(pairs[k].1).None?
  {
    if pairs != [] {
      var init := pairs[..|pairs| - 1];
      OptionsOfThrows(init);
      assert forall k :: 0 <= k < |init| ==> init[k] == pairs[k];
    }
  }

  /** The last pair of a key gives its value. */
  lemma {:induction false} OptionsOfLastWins(pairs: seq<(string, string)>, k: nat)
    requires k < |pairs| && OptionsOf(pairs).Ok?
    requires forall j :: k < j < |pairs| ==> pairs[j].0 != pairs[k].0
    ensures TypedOption(pairs[k].0, pairs[k].1).Ok?
    ensures OptionsOf(pairs).value[pairs[k].0] == TypedOption(pairs[k].0, pairs[k].1).value
  {
    var init := pairs[..|pairs| - 1];
    if k < |pairs| - 1 {
      assert init[k] == pairs[k];
      OptionsOfLastWins(init, k);
    }
  }

  /** A group without `:` holds only bare flags, and those are ignored. */
  lemma {:induction false} OptionPairsBareFlags(s: string, i: nat)
    requires i <= |s|
    requires forall k :: i <= k < |s| ==> s[k] != ':'
    ensures OptionPairs(s, i) == []
    decreases |s| - i
  {
    if i < |s| {
      OptionPairsBareFlags(s, i + 1);
    }
  }

  /** A prefix that throws makes the whole run throw the same exception. */
  lemma {:induction false} OptionsOfThrowsEarly(pairs: seq<(string, string)>, n: nat)
    requires n <= |pairs| && OptionsOf(pairs[..n]).Throws?
    ensures OptionsOf(pairs) == OptionsOf(pairs[..n])
    decreases |pairs| - n
  {
    if n < |pairs| {
      assert pairs[..n + 1][..n] == pairs[..n];
      OptionsOfThrowsEarly(pairs, n + 1);
    } else {
      assert pairs[..n] == pairs;
    }
  }

  /** The `while (optMatcher.find())` loop of `parseOptions`. */
  method ParseOptions(optStr: Option<string>) returns (r: Try<OptionMap>)
    ensures r == OptionsSpec(optStr)
  {
    if optStr.None? { return Ok(map[]); }
    var pairs := OptionPairs(optStr.value, 0);
    var opts: OptionMap := map[];
    for k := 0 to |pairs|
      invariant OptionsOf(pairs[..k]) == Ok(opts)
    {
      assert pairs[..k + 1][..k] == pairs[..k];
      var v := TypedOption(pairs[k].0, pairs[k].1);
      if v.Throws? {
        OptionsOfThrowsEarly(pairs, k + 1);
        return Throws(v.exception);
      }
      opts := opts[pairs[k].0 := v.value];
    }
    assert pairs[..|pairs|] == pairs;
    r := Ok(opts);
  }

  // ---------------------------------------------------------------------------------------
  // Blocks
  // ---------------------------------------------------------------------------------------

  /** What `FIELD_PATTERN` makes of a line: key, trimmed selector and the bracket text, if any. */
  type Decl = Option<(string, string, Option<string>)>

  /** The field-line match of every line, in order. */
  function DeclsOf(lines: seq<string>): (d: seq<Decl>)
    ensures |d| == |lines|
  {
    seq(|lines|, j requires 0 <= j < |lines| => LegacyFieldLine(lines[j]))
  }

  /** The selector and option maps a block fills. */
  datatype FieldMaps = FieldMaps(selectors: map<string, string>, options: map<string, OptionMap>)

  /** A field line put into the maps: its selector and its options overwrite earlier ones. */
  function PutField(m: FieldMaps, key: string, sel: string, opts: OptionMap): FieldMaps {
    FieldMaps(m.selectors[key := sel], m.options[key := opts])
  }

  /** One line of an items sub-block: a field line puts its selector and options. */
  function TemplateLine(acc: FieldMaps, decl: Decl): Try<FieldMaps> {
    match decl
    case None => Ok(acc)
    case Some((key, sel, optStr)) =>
      var opts :- OptionsSpec(optStr);
      Ok(PutField(acc, key, sel, opts))
  }

  /** The first `n` lines of an items sub-block, put in order. */
  function TemplateFields(decls: seq<Decl>, n: nat): (r: Try<FieldMaps>)
    requires n <= |decls|
  {
    if n == 0 then Ok(FieldMaps(map[], map[]))
    else
      var acc :- TemplateFields(decls, n - 1);
      TemplateLine(acc, decls[n - 1])
  }

  /** `buildItemTemplate`: a node named `item` with the given selector, the fields of the
      sub-block, empty section options and no template of its own. */
  function ItemTemplate(itemSel: string, subBlock: seq<string>): (r: Try<Rule>)
    ensures r.Ok? ==> r.value.name == Some("item") && r.value.selector == Some(itemSel)
    ensures r.Ok? ==> r.value.itemTemplate.None? && r.value.sectionOptions == Some(map[])
  {
    TemplateOf(itemSel, DeclsOf(subBlock))
  }

  /** The template of the field-line matches of a sub-block. */
  function TemplateOf(itemSel: string, decls: seq<Decl>): (r: Try<Rule>)
    ensures r.Ok? ==> r.value.name == Some("item") && r.value.selector == Some(itemSel)
    ensures r.Ok? ==> r.value.itemTemplate.None? && r.value.sectionOptions == Some(map[])
  {
    var f :- TemplateFields(decls, |decls|);
    Ok(Rule(Some("item"), Some(itemSel), f.selectors, f.options, None, Some(map[])))
  }

  /** A prefix of the sub-block that throws makes the whole sub-block throw. */
  lemma {:induction false} TemplateFieldsThrowsEarly(decls: seq<Decl>, n: nat)
    requires n <= |decls| && TemplateFields(decls, n).Throws?
    ensures TemplateFields(decls, |decls|) == TemplateFields(decls, n)
    decreases |decls| - n
  {
    if n < |decls| {
      TemplateFieldsThrowsEarly(decls, n + 1);
    }
  }

  /** One line of the `buildItemTemplate` loop, given the line's field-line match. */
  method TemplateFieldLine(acc: FieldMaps, decl: Decl) returns (r: Try<FieldMaps>)
    ensures r == TemplateLine(acc, decl)
  {
    if decl.None? { return Ok(acc); }
    var opts := ParseOptions(decl.value.2);
    if opts.Throws? { return Throws(opts.exception); }
    r := Ok(PutField(acc, decl.value.0, decl.value.1, opts.value));
  }

  /** The loop of `buildItemTemplate` over the matches of the sub-block's lines. */
  method FoldTemplate(itemSel: string, decls: seq<Decl>) returns (r: Try<Rule>)
    ensures r == TemplateOf(itemSel, decls)
  {
    var acc := FieldMaps(map[], map[]);
    for k := 0 to |decls|
      invariant TemplateFields(decls, k) == Ok(acc)
    {
      var next := TemplateFieldLine(acc, decls[k]);
      if next.Throws? {
        TemplateFieldsThrowsEarly(decls, k + 1);
        return Throws(next.exception);
      }
      acc := next.value;
    }
    r := Ok(Rule(Some("item"), Some(itemSel), acc.selectors, acc.options, None, Some(map[])));
  }

  /** `buildItemTemplate`: each line of the sub-block is matched, then the matches are put in order. */
  method BuildItemTemplate(itemSel: string, subBlock: seq<string>) returns (r: Try<Rule>)
    ensures r == ItemTemplate(itemSel, subBlock)
  {
    r := FoldTemplate(itemSel, DeclsOf(subBlock));
  }

  /** `block.indexOf(line)`: the first position holding an equal line. */
  function FirstIndex(block: seq<string>, line: string): (k: nat)
    requires line in block
    ensures k < |block| && block[k] == line
    ensures forall j :: 0 <= j < k ==> block[j] != line
  {
    if block[0] == line then 0 else 1 + FirstIndex(block[1..], line)
  }

  /** What `processBlock` has gathered so far: the section's fields and the items template. */
  datatype BlockAcc = BlockAcc(fields: FieldMaps, itemT: Option<Rule>)

  /** Line `k` of a block, whose field-line match is `decls[k]`: a field line named `items`
      builds the template from the lines after the first line equal to it; any other field
      line is put into the maps. */
  function BlockLine(acc: BlockAcc, block: seq<string>, decls: seq<Decl>, k: nat): Try<BlockAcc>
    requires |decls| == |block| && k < |block|
  {
    match decls[k]
    case None => Ok(acc)
    case Some((key, sel, optStr)) =>
      var opts :- OptionsSpec(optStr);
      if key == "items" then
        var t :- TemplateOf(sel, decls[FirstIndex(block, block[k]) + 1..]);
        Ok(acc.(itemT := Some(t)))
      else Ok(acc.(fields := PutField(acc.fields, key, sel, opts)))
  }

  /** The first `n` lines of a block, gathered in order. */
  function BlockFold(block: seq<string>, decls: seq<Decl>, n: nat): (r: Try<BlockAcc>)
    requires |decls| == |block| && n <= |block|
    ensures r.Ok? ==> r.value.fields.selectors.Keys == r.value.fields.options.Keys
  {
    if n == 0 then Ok(BlockAcc(FieldMaps(map[], map[]), None))
    else
      var acc :- BlockFold(block, decls, n - 1);
      BlockLine(acc, block, decls, n - 1)
  }

  /** `processBlock`: the section node of a block, with empty section options; a block with an
      items line gets a template named `item`. */
  function BlockNode(block: seq<string>, name: Option<string>, selector: Option<string>): Try<Rule> {
    NodeOf(block, DeclsOf(block), name, selector)
  }

  /** The node of a block whose lines' field-line matches are `decls`. */
  function NodeOf(block: seq<string>, decls: seq<Decl>, name: Option<string>, selector: Option<string>): Try<Rule>
    requires |decls| == |block|
  {
    var acc :- BlockFold(block, decls, |block|);
    Ok(NodeFrom(acc, name, selector))
  }

  /** The node of what a block has gathered: the template is renamed `item`. */
  function NodeFrom(acc: BlockAcc, name: Option<string>, selector: Option<string>): Rule {
    var f := acc.fields;
    match acc.itemT
    case Some(t) =>
      var item := Rule(Some("item"), t.selector, t.fieldSelectors, t.fieldOptions, None, Some(map[]));
      Rule(name, selector, f.selectors, f.options, Some(item), Some(map[]))
    case None => Rule(name, selector, f.selectors, f.options, None, Some(map[]))
  }

  /** The node keeps the block's name and selector; its section options are always empty, and
      its template, if any, is named `item` and has none of its own. */
  lemma BlockNodeShape(block: seq<string>, name: Option<string>, selector: Option<string>)
    requires BlockNode(block, name, selector).Ok?
    ensures var r := BlockNode(block, name, selector).value;
      r.name == name && r.selector == selector && r.sectionOptions == Some(map[]) &&
      (r.itemTemplate.Some? ==> r.itemTemplate.value.name == Some("item") &&
                                r.itemTemplate.value.itemTemplate.None? &&
                                r.itemTemplate.value.sectionOptions == Some(map[]))
  {
  }

  /** A line that does not declare `key` leaves its entries as they are. */
  lemma BlockLineOther(acc: BlockAcc, block: seq<string>, decls: seq<Decl>, j: nat, key: string)
    requires |decls| == |block| && j < |block| && BlockLine(acc, block, decls, j).Ok?
    requires decls[j].None? || decls[j].value.0 != key
    ensures var r := BlockLine(acc, block, decls, j).value;
      (key in r.fields.selectors <==> key in acc.fields.selectors) &&
      (key in acc.fields.selectors ==> r.fields.selectors[key] == acc.fields.selectors[key]) &&
      (key in acc.fields.options ==> key in r.fields.options && r.fields.options[key] == acc.fields.options[key])
  {
  }

  /** A field line other than `items` puts its selector and options. */
  lemma BlockLineField(acc: BlockAcc, block: seq<string>, decls: seq<Decl>, j: nat)
    requires |decls| == |block| && j < |block| && BlockLine(acc, block, decls, j).Ok?
    requires decls[j].Some? && decls[j].value.0 != "items"
    ensures var (key, sel, optStr) := decls[j].value;
      var r := BlockLine(acc, block, decls, j).value;
      OptionsSpec(optStr).Ok? && key in r.fields.selectors && r.fields.selectors[key] == sel &&
      key in r.fields.options && r.fields.options[key] == OptionsSpec(optStr).value
  {
  }

  /** An `items` line leaves the section's fields as they are. */
  lemma BlockLineItems(acc: BlockAcc, block: seq<string>, decls: seq<Decl>, j: nat)
    requires |decls| == |block| && j < |block| && BlockLine(acc, block, decls, j).Ok?
    requires decls[j].Some? && decls[j].value.0 == "items"
    ensures BlockLine(acc, block, decls, j).value.fields == acc.fields
  {
  }

  /** A field other than `items` declared on line `k` and not again later keeps the selector and
      options of line `k`: the last definition wins. */
  lemma {:induction false} BlockFoldLastWins(block: seq<string>, decls: seq<Decl>, n: nat, k: nat)
    requires |decls| == |block| && k < n <= |block| && BlockFold(block, decls, n).Ok?
    requires decls[k].Some? && decls[k].value.0 != "items"
    requires forall j :: k < j < n ==> decls[j].None? || decls[j].value.0 != decls[k].value.0
    ensures var (key, sel, optStr) := decls[k].value;
      var r := BlockFold(block, decls, n).value;
      OptionsSpec(optStr).Ok? && key in r.fields.selectors && r.fields.selectors[key] == sel &&
      r.fields.options[key] == OptionsSpec(optStr).value
  {
    var prev := BlockFold(block, decls, n - 1).value;
    assert BlockLine(prev, block, decls, n - 1) == BlockFold(block, decls, n);
    if k < n - 1 {
      BlockFoldLastWins(block, decls, n - 1, k);
      BlockLineOther(prev, block, decls, n - 1, decls[k].value.0);
    } else {
      BlockLineField(prev, block, decls, k);
    }
  }

  /** A line adds `key` to the fields exactly when it is a field line declaring it, `items` aside. */
  lemma BlockLineKeys(acc: BlockAcc, block: seq<string>, decls: seq<Decl>, j: nat, key: string)
    requires |decls| == |block| && j < |block| && BlockLine(acc, block, decls, j).Ok?
    ensures key in BlockLine(acc, block, decls, j).value.fields.selectors <==>
      key in acc.fields.selectors || (key != "items" && decls[j].Some? && decls[j].value.0 == key)
  {
    if decls[j].None? || decls[j].value.0 != key {
      BlockLineOther(acc, block, decls, j, key);
    } else if key != "items" {
      BlockLineField(acc, block, decls, j);
    } else {
      BlockLineItems(acc, block, decls, j);
    }
  }

  /** The fields gathered are exactly those of the field lines read, `items` aside. */
  lemma {:induction false} BlockFoldKeys(block: seq<string>, decls: seq<Decl>, n: nat, key: string)
    requires |decls| == |block| && n <= |block| && BlockFold(block, decls, n).Ok?
    ensures key in BlockFold(block, decls, n).value.fields.selectors <==>
      key != "items" && exists j :: 0 <= j < n && decls[j].Some? && decls[j].value.0 == key
  {
    if n > 0 {
      BlockFoldKeys(block, decls, n - 1, key);
      BlockLineKeys(BlockFold(block, decls, n - 1).value, block, decls, n - 1, key);
    }
  }

  /** In a node, the last field line for a key other than `items` gives the key's selector and
      options: a repeated field overwrites the earlier one. */
  lemma BlockNodeLastWins(block: seq<string>, name: Option<string>, selector: Option<string>, k: nat)
    requires k < |block| && BlockNode(block, name, selector).Ok?
    requires LegacyFieldLine(block[k]).Some? && LegacyFieldLine(block[k]).value.0 != "items"
    requires forall j :: k < j < |block| ==>
      LegacyFieldLine(block[j]).None? || LegacyFieldLine(block[j]).value.0 != LegacyFieldLine(block[k]).value.0
    ensures var (key, sel, optStr) := LegacyFieldLine(block[k]).value;
      var r := BlockNode(block, name, selector).value;
      OptionsSpec(optStr).Ok? && key in r.fieldSelectors && r.fieldSelectors[key] == sel &&
      r.fieldOptions[key] == OptionsSpec(optStr).value
  {
    BlockFoldLastWins(block, DeclsOf(block), |block|, k);
  }

  /** A node declares exactly the keys of its block's field lines, `items` aside. */
  lemma BlockNodeKeys(block: seq<string>, name: Option<string>, selector: Option<string>, key: string)
    requires BlockNode(block, name, selector).Ok?
    ensures var decls := DeclsOf(block);
      key in BlockNode(block, name, selector).value.fieldSelectors <==>
      key != "items" && exists j :: 0 <= j < |block| && decls[j].Some? && decls[j].value.0 == key
  {
    BlockFoldKeys(block, DeclsOf(block), |block|, key);
  }

  /** A prefix of a block that throws makes the whole block throw. */
  lemma {:induction false} BlockFoldThrowsEarly(block: seq<string>, decls: seq<Decl>, n: nat)
    requires |decls| == |block| && n <= |block| && BlockFold(block, decls, n).Throws?
    ensures BlockFold(block, decls, |block|) == BlockFold(block, decls, n)
    decreases |block| - n
  {
    if n < |block| {
      BlockFoldThrowsEarly(block, decls, n + 1);
    }
  }

  /** One line of the `processBlock` loop, given the field-line matches of the block. */
  method ProcessLine(acc: BlockAcc, block: seq<string>, decls: seq<Decl>, k: nat) returns (r: Try<BlockAcc>)
    requires |decls| == |block| && k < |block| && BlockFold(block, decls, k) == Ok(acc)
    ensures r == BlockFold(block, decls, k + 1)
  {
    var m := decls[k];
    if m.None? { return Ok(acc); }
    var opts := ParseOptions(m.value.2);
    if opts.Throws? { return Throws(opts.exception); }
    if m.value.0 == "items" {
      var t := FoldTemplate(m.value.1, decls[FirstIndex(block, block[k]) + 1..]);
      if t.Throws? { return Throws(t.exception); }
      r := Ok(acc.(itemT := Some(t.value)));
    } else {
      r := Ok(acc.(fields := PutField(acc.fields, m.value.0, m.value.1, opts.value)));
    }
  }

  /** The loop of `processBlock` over a block whose lines' matches are `decls`. */
  method FoldLines(block: seq<string>, decls: seq<Decl>) returns (r: Try<BlockAcc>)
    requires |decls| == |block|
    ensures r == BlockFold(block, decls, |block|)
  {
    var acc := BlockAcc(FieldMaps(map[], map[]), None);
    for k := 0 to |block|
      invariant BlockFold(block, decls, k) == Ok(acc)
    {
      var next := ProcessLine(acc, block, decls, k);
      if next.Throws? {
        BlockFoldThrowsEarly(block, decls, k + 1);
        return next;
      }
      acc := next.value;
    }
    r := Ok(acc);
  }

  /** The loop of `processBlock`, then the node of what it gathered. */
  method FoldBlock(block: seq<string>, decls: seq<Decl>, name: Option<string>, selector: Option<string>)
    returns (r: Try<Rule>)
    requires |decls| == |block|
    ensures r == NodeOf(block, decls, name, selector)
  {
    var acc := FoldLines(block, decls);
    if acc.Throws? { return Throws(acc.exception); }
    r := Ok(NodeFrom(acc.value, name, selector));
  }

  /** `processBlock`: each line of the block is matched, then the matches are gathered in order. */
  method ProcessBlock(block: seq<string>, name: Option<string>, selector: Option<string>) returns (r: Try<Rule>)
    ensures r == BlockNode(block, name, selector)
  {
    r := FoldBlock(block, DeclsOf(block), name, selector);
  }

  // ---------------------------------------------------------------------------------------
  // The line state machine
  // ---------------------------------------------------------------------------------------

  /** The local variables of `parse`: the nodes so far, the globals, the brace level, the
      pending section's name, selector and lines, and the two mode flags. */
  datatype State = State(
    sections: seq<Rule>,
    globals: map<string, string>,
    level: int,
    name: Option<string>,
    selector: Option<string>,
    block: seq<string>,
    inItems: bool,
    inGlobals: bool)

  const Start: State := State([], map[], 0, None, None, [], false, false)

  /** A field line as the block stores it: `key: selector`, then ` [options]` when it has them. */
  function FieldText(key: string, sel: string, optStr: Option<string>): string {
    key + ": " + sel + (if optStr.Some? then " [" + optStr.value + "]" else "")
  }

  /** The nodes with the pending block's node appended, when the block holds any line. */
  function Flush(st: State): (r: Try<seq<Rule>>)
    ensures r.Ok? ==> st.sections <= r.value && |r.value| <= |st.sections| + 1
  {
    if st.block == [] then Ok(st.sections)
    else
      var node :- BlockNode(st.block, st.name, st.selector);
      Ok(st.sections + [node])
  }

  /** One line of `parse`: trimmed; blank and `#` lines skipped; the brace count added to the
      level; then, in order, the page-type line, the globals header, a line of the globals
      block, a section header (which flushes the pending block and starts a new one at level 1),
      and, only while the level is positive, a lone `}` (which flushes), an items header, a
      field line (stored normalised) or any other line (stored as it is). */
  function Step(st: State, raw: string): (r: Try<State>)
    ensures r.Ok? ==> st.sections <= r.value.sections
  {
    var line := Trim(raw);
    if line == [] || StartsWith(line, "#") then Ok(st)
    else
      var level := st.level + Braces.Balance(line);
      if StartsWith(line, "page-type: ") then Ok(st.(level := level))
      else if IsGlobalsLine(line) then Ok(st.(inGlobals := true, level := 1))
      else if st.inGlobals then GlobalsLine(st, line, level)
      else
        match LegacySectionLine(line)
        case Some((name, selector)) =>
          var sections :- Flush(st);
          Ok(State(sections, st.globals, 1, Some(name), Some(selector), [], false, false))
        case None => BodyLine(st, line, level)
  }

  /** A line inside `globals { ... }`: the level back at 0 ends the block; otherwise the first
      `key: value` of the line is recorded. */
  function GlobalsLine(st: State, line: string, level: int): (r: Try<State>)
    ensures r.Ok? && r.value.sections == st.sections
  {
    if level == 0 then Ok(st.(inGlobals := false, level := level))
    else
      var pairs := OptionPairs(line, 0);
      if pairs == [] then Ok(st.(level := level))
      else Ok(st.(level := level, globals := st.globals[pairs[0].0 := pairs[0].1]))
  }

  /** A line that is neither a header nor part of the globals. */
  function BodyLine(st: State, line: string, level: int): (r: Try<State>)
    ensures r.Ok? ==> st.sections <= r.value.sections
  {
    if level <= 0 then Ok(st.(level := level))
    else if line == "}" then
      if st.block == [] then Ok(st.(level := 0))
      else
        var sections :- Flush(st);
        Ok(st.(sections := sections, level := 0, name := None, selector := None, block := []))
    else if IsLegacyItemsLine(line) then Ok(st.(level := level, inItems := true, block := st.block + [line]))
    else
      match LegacyFieldLine(line)
      case Some((key, sel, optStr)) => Ok(st.(level := level, block := st.block + [FieldText(key, sel, optStr)]))
      case None => Ok(st.(level := level, block := st.block + [line]))
  }

  /** The lines run through the machine from the start state; an exception stops the run. */
  function Run(lines: seq<string>): Try<State> {
    if lines == [] then Ok(Start)
    else
      var st :- Run(lines[..|lines| - 1]);
      Step(st, lines[|lines| - 1])
  }

  /** The lines `parse` reads: the normalised text cut at line feeds (`split("\n")`). */
  function LinesOf(text: string): seq<string> {
    Split(Normalised(text), '\n')
  }

  /** Blank lines and `#` comments change nothing. */
  lemma StepSkipsBlank(st: State, raw: string)
    requires Trim(raw) == [] || StartsWith(Trim(raw), "#")
    ensures Step(st, raw) == Ok(st)
  {
  }

  /** A section header outside the globals flushes the pending block, then starts an empty block
      for the new name and selector at level 1. */
  lemma StepSectionHeader(st: State, raw: string, name: string, selector: string)
    requires !st.inGlobals
    requires LegacySectionLine(Trim(raw)) == Some((name, selector))
    requires Flush(st).Ok?
    ensures Step(st, raw) == Ok(State(Flush(st).value, st.globals, 1, Some(name), Some(selector), [], false, false))
  {
    SectionLineOnly(Trim(raw));
  }

  /** A line that starts with `section:` is not blank, not a comment, not the page type and
      not the globals header. */
  lemma SectionLineOnly(line: string)
    requires StartsWith(line, "section:")
    ensures line != [] && !StartsWith(line, "#") && !StartsWith(line, "page-type: ") && !IsGlobalsLine(line)
  {
    assert line[..8][0] == 's' && line[..8][1] == 'e';
  }

  /** Inside the globals block, a line that leaves the level positive records its first option
      pair, and one that brings the level back to 0 ends the block. */
  lemma StepGlobals(st: State, raw: string)
    requires st.inGlobals
    requires var line := Trim(raw);
      line != [] && !StartsWith(line, "#") && !StartsWith(line, "page-type: ") && !IsGlobalsLine(line)
    ensures var line := Trim(raw);
      var level := st.level + Braces.Count(line, '{') - Braces.Count(line, '}');
      var pairs := OptionPairs(line, 0);
      Step(st, raw) == Ok(
        if level == 0 then st.(inGlobals := false, level := 0)
        else if pairs == [] then st.(level := level)
        else st.(level := level, globals := st.globals[pairs[0].0 := pairs[0].1]))
  {
  }

  /** Nodes are only ever appended, in the order their blocks are flushed. */
  lemma {:induction false} RunSectionsGrow(lines: seq<string>, n: nat)
    requires n <= |lines| && Run(lines).Ok?
    ensures Run(lines[..n]).Ok?
    ensures Run(lines[..n]).value.sections <= Run(lines).value.sections
    decreases |lines| - n
  {
    if n < |lines| {
      var init := lines[..|lines| - 1];
      assert init[..n] == lines[..n];
      RunSectionsGrow(init, n);
    } else {
      assert lines[..n] == lines;
    }
  }

  // ---------------------------------------------------------------------------------------
  // The result, as written and corrected
  // ---------------------------------------------------------------------------------------

  /** `parse` as written: the nodes flushed while reading; the block still pending after the
      last line is never turned into a node. */
  function ParsedAsWritten(text: string): Try<seq<Rule>> {
    var st :- Run(LinesOf(text));
    Ok(st.sections)
  }

  /** A lone `}` that brings the level from 1 to 0 does not flush: the check for `}` sits
      behind the test for a positive level, which the brace count has already made 0. */
  lemma ClosingBraceKeepsBlock(st: State)
    requires !st.inGlobals && st.level == 1
    ensures Step(st, "}") == Ok(st.(level := 0))
  {
    ClosingBraceLine();
  }

  /** The line `}`: already trimmed, no header of any kind, and a brace count of -1. */
  lemma ClosingBraceLine()
    ensures Trim("}") == "}"
    ensures !StartsWith("}", "#") && !StartsWith("}", "page-type: ") && !IsGlobalsLine("}")
    ensures LegacySectionLine("}").None?
    ensures Braces.Balance("}") == -1
  {
    TrimOfTrimmed("}");
    assert "}"[..0] == [];
  }

  /** A trimmed field line without braces that is no header of any kind. */
  predicate PlainFieldLine(line: string, key: string, sel: string, optStr: Option<string>) {
    Trim(line) == line && line != [] && !StartsWith(line, "#") && !StartsWith(line, "page-type: ") &&
    !IsGlobalsLine(line) && Braces.Balance(line) == 0 && LegacySectionLine(line).None? &&
    line != "}" && !IsLegacyItemsLine(line) && LegacyFieldLine(line) == Some((key, sel, optStr))
  }

  /** Inside an open section, such a line is stored in the block as `FieldText` rebuilds it. */
  lemma StepFieldLine(st: State, line: string, key: string, sel: string, optStr: Option<string>)
    requires PlainFieldLine(line, key, sel, optStr) && !st.inGlobals && st.level > 0
    ensures Step(st, line) == Ok(st.(block := st.block + [FieldText(key, sel, optStr)]))
  {
    StepBodyLine(st, line);
    BodyFieldLine(st, line, key, sel, optStr);
  }

  /** A trimmed line without braces that is neither blank, a comment, a page-type line, a
      globals header nor a section header is a body line, outside the globals. */
  lemma StepBodyLine(st: State, line: string)
    requires Trim(line) == line && line != [] && !StartsWith(line, "#")
    requires !StartsWith(line, "page-type: ") && !IsGlobalsLine(line) && !st.inGlobals
    requires LegacySectionLine(line).None? && Braces.Balance(line) == 0
    ensures Step(st, line) == BodyLine(st, line, st.level)
  {
    var level := st.level + Braces.Balance(Trim(line));
    assert level == st.level;
  }

  /** The body-line step of such a line. */
  lemma BodyFieldLine(st: State, line: string, key: string, sel: string, optStr: Option<string>)
    requires PlainFieldLine(line, key, sel, optStr) && st.level > 0
    ensures BodyLine(st, line, st.level) == Ok(st.(block := st.block + [FieldText(key, sel, optStr)]))
  {
  }

  /** After any lines that leave a section open at level 1, reading its closing `}` leaves
      the nodes as they were and the block pending. */
  lemma RunClose(lines: seq<string>, st: State)
    requires Run(lines) == Ok(st) && !st.inGlobals && st.level == 1
    ensures Run(lines + ["}"]) == Ok(st.(level := 0))
  {
    ClosingBraceKeepsBlock(st);
    RunStep(lines, "}", st, st.(level := 0));
  }

  /** After any lines that leave a section open, a field line joins its block. */
  lemma RunFieldLine(lines: seq<string>, st: State, line: string, key: string, sel: string, optStr: Option<string>)
    requires Run(lines) == Ok(st) && !st.inGlobals && st.level > 0
    requires PlainFieldLine(line, key, sel, optStr)
    ensures Run(lines + [line]) == Ok(st.(block := st.block + [FieldText(key, sel, optStr)]))
  {
    StepFieldLine(st, line, key, sel, optStr);
    RunStep(lines, line, st, st.(block := st.block + [FieldText(key, sel, optStr)]));
  }

  /** A step that succeeds extends a run that succeeded. */
  lemma RunStep(lines: seq<string>, line: string, st: State, next: State)
    requires Run(lines) == Ok(st) && Step(st, line) == Ok(next)
    ensures Run(lines + [line]) == Ok(next)
  {
    assert (lines + [line])[..|lines|] == lines;
  }

  /** A section header as the first line opens its section at level 1 with an empty block. */
  lemma HeaderFirst(header: string, name: string, selector: string)
    requires Trim(header) == header && LegacySectionLine(header) == Some((name, selector))
    ensures Run([header]) == Ok(State([], map[], 1, Some(name), Some(selector), [], false, false))
  {
    StepSectionHeader(Start, header, name, selector);
    RunAppend([], header);
    assert [] + [header] == [header];
  }

  /** Flushing a pending block adds exactly one node. */
  lemma FlushPending(st: State)
    requires st.block != [] && Flush(st).Ok?
    ensures |Flush(st).value| == |st.sections| + 1
  {
  }

  /** Reading one more line is one more step, unless the lines read already threw. */
  lemma RunAppend(lines: seq<string>, line: string)
    ensures Run(lines + [line]) == if Run(lines).Throws? then Run(lines) else Step(Run(lines).value, line)
  {
    assert (lines + [line])[..|lines|] == lines;
  }

  /** After lines that open a section with an empty block, one field line and a lone `}` end
      the run with no node flushed and the section's block still pending. */
  lemma LostBlockRun(lines: seq<string>, line: string, name: string, selector: string, key: string, sel: string)
    requires Run(lines) == Ok(State([], map[], 1, Some(name), Some(selector), [], false, false))
    requires PlainFieldLine(line, key, sel, None) && FieldText(key, sel, None) == line
    ensures Run(lines + [line] + ["}"]) == Ok(State([], map[], 0, Some(name), Some(selector), [line], false, false))
  {
    var st := State([], map[], 1, Some(name), Some(selector), [], false, false);
    RunFieldLine(lines, st, line, key, sel, None);
    assert st.block + [FieldText(key, sel, None)] == [line];
    assert Run(lines + [line]) == Ok(st.(block := [line]));
    RunClose(lines + [line], st.(block := [line]));
  }

  /** The lines of that input: a section header for `a` and a plain field line for `text`. */
  lemma LostBlockLines()
    ensures Trim("section: a .x {") == "section: a .x {"
    ensures LegacySectionLine("section: a .x {") == Some(("a", ".x"))
    ensures PlainFieldLine("text: h1", "text", "h1", None)
  {
    OpenLineTrimmed();
    OpenLineHeader();
    FieldLineTrimmed();
    FieldLineNoHeader();
    FieldLineMatch();
  }

  /** The field line is stored as it is read. */
  lemma LostBlockFieldText()
    ensures FieldText("text", "h1", None) == "text: h1"
  {
  }

  /** `section: a .x {` followed by `text: h1` and `}` is such an input: `parse` as written
      returns no section for it, the block of section `a` being still pending at the end. */
  lemma LostBlockExample()
    ensures Run(["section: a .x {"] + ["text: h1"] + ["}"]) ==
            Ok(State([], map[], 0, Some("a"), Some(".x"), ["text: h1"], false, false))
  {
    LostBlockLines();
    LostBlockFieldText();
    HeaderFirst("section: a .x {", "a", ".x");
    LostBlockRun(["section: a .x {"], "text: h1", "a", ".x", "text", "h1");
  }

  /** The header line is trimmed, opens one brace and is no other kind of line. */
  lemma OpenLineTrimmed()
    ensures Trim("section: a .x {") == "section: a .x {"
    ensures Braces.Balance("section: a .x {") == 1
    ensures !StartsWith("section: a .x {", "#") && !StartsWith("section: a .x {", "page-type: ")
    ensures !IsGlobalsLine("section: a .x {")
  {
    var line := "section: a .x {";
    TrimOfTrimmed(line);
    var head := "section: a .x ";
    assert line[..|line| - 1] == head;
    Braces.CountAbsent(head, '{');
    Braces.CountAbsent(head, '}');
  }

  /** The header line declares section `a` with selector `.x`. */
  lemma OpenLineHeader()
    ensures LegacySectionLine("section: a .x {") == Some(("a", ".x"))
  {
    var line := "section: a .x {";
    assert StartsWith(line, "section:") by { assert line[..8] == "section:"; }
    assert SkipSpaces(line, 9) == 9;
    assert SkipSpaces(line, 8) == 9;
    assert RunEnd(line, 9, KeyClass) == 10;
    assert SkipSpaces(line, 10) == 11;
    assert RunEnd(line, 12, NoneOf(' ', '{')) == 13;
    assert RunEnd(line, 11, NoneOf(' ', '{')) == 13;
    assert SkipSpaces(line, 13) == 14;
    assert line[9..10] == "a" && line[11..13] == ".x";
    TrimOfTrimmed(line[11..13]);
  }

  /** The field line is trimmed and holds no brace. */
  lemma FieldLineTrimmed()
    ensures Trim("text: h1") == "text: h1"
    ensures Braces.Balance("text: h1") == 0
  {
    var line := "text: h1";
    TrimOfTrimmed(line);
    Braces.CountAbsent(line, '{');
    Braces.CountAbsent(line, '}');
  }

  /** The field line is no comment, page type, globals, section or items line. */
  lemma FieldLineNoHeader()
    ensures !StartsWith("text: h1", "#") && !StartsWith("text: h1", "page-type: ")
    ensures !IsGlobalsLine("text: h1") && LegacySectionLine("text: h1").None?
    ensures !IsLegacyItemsLine("text: h1")
  {
    var line := "text: h1";
    FirstCharDiffers(line, "#");
    FirstCharDiffers(line, "page-type: ");
    FirstCharDiffers(line, "globals");
    FirstCharDiffers(line, "section:");
    FirstCharDiffers(line, "items:");
  }

  /** A string does not start with a literal whose first char differs from its own. */
  lemma FirstCharDiffers(s: string, lit: string)
    requires s != [] && lit != [] && s[0] != lit[0]
    ensures !StartsWith(s, lit)
  {
    if |lit| <= |s| {
      assert s[0..|lit|][0] == s[0];
    }
  }

  /** The field line declares `text` with selector `h1` and no options. */
  lemma FieldLineMatch()
    ensures LegacyFieldLine("text: h1") == Some(("text", "h1", None))
  {
    var line := "text: h1";
    assert RunEnd(line, 3, KeyClass) == 4;
    assert RunEnd(line, 1, KeyClass) == 4;
    assert RunEnd(line, 0, KeyClass) == 4;
    assert SkipSpaces(line, 5) == 6;
    assert RunEnd(line, 6, NoneOf('[', ' ')) == 8;
    assert line[..4] == "text" && line[6..8] == "h1";
    TrimOfTrimmed(line[6..8]);
  }

  /** `parse`, corrected: the block still pending after the last line is flushed too. */
  function Parsed(text: string): Try<seq<Rule>> {
    var st :- Run(LinesOf(text));
    Flush(st)
  }

  /** The corrected result keeps every node flushed while reading, and ends with the node of
      the block pending after the last line, when that block holds any line. */
  lemma ParsedKeepsLastBlock(text: string)
    requires Run(LinesOf(text)).Ok?
    ensures var st := Run(LinesOf(text)).value;
      ParsedAsWritten(text) == Ok(st.sections)
    ensures var st := Run(LinesOf(text)).value;
      Parsed(text).Ok? ==> st.sections <= Parsed(text).value
    ensures var st := Run(LinesOf(text)).value;
      st.block != [] && BlockNode(st.block, st.name, st.selector).Ok? ==>
        Parsed(text) == Ok(st.sections + [BlockNode(st.block, st.name, st.selector).value])
  {
  }

  /** One line of the `parse` loop. */
  method ParseLine(st: State, raw: string) returns (r: Try<State>)
    ensures r == Step(st, raw)
  {
    var line := Trim(raw);
    if line == [] || StartsWith(line, "#") { return Ok(st); }
    var braces := CountBraces(line);
    var level := st.level + braces;
    if StartsWith(line, "page-type: ") { return Ok(st.(level := level)); }
    if IsGlobalsLine(line) { return Ok(st.(inGlobals := true, level := 1)); }
    if st.inGlobals {
      r := ParseGlobalsLine(st, line, level);
      return;
    }
    var header := LegacySectionLine(line);
    if header.Some? {
      var sections := FlushBlock(st);
      if sections.Throws? { return Throws(sections.exception); }
      return Ok(State(sections.value, st.globals, 1, Some(header.value.0), Some(header.value.1), [], false, false));
    }
    r := ParseBodyLine(st, line, level);
  }

  /** The part of the loop body for lines inside `globals { ... }`. */
  method ParseGlobalsLine(st: State, line: string, level: int) returns (r: Try<State>)
    ensures r == GlobalsLine(st, line, level)
  {
    if level == 0 { return Ok(st.(inGlobals := false, level := level)); }
    var pairs := OptionPairs(line, 0);
    if pairs != [] {
      return Ok(st.(level := level, globals := st.globals[pairs[0].0 := pairs[0].1]));
    }
    r := Ok(st.(level := level));
  }

  /** The pending section's node, when its block holds any line, appended to the nodes. */
  method FlushBlock(st: State) returns (r: Try<seq<Rule>>)
    ensures r == Flush(st)
  {
    if st.block == [] { return Ok(st.sections); }
    var node := ProcessBlock(st.block, st.name, st.selector);
    if node.Throws? { return Throws(node.exception); }
    r := Ok(st.sections + [node.value]);
  }

  /** The part of the loop body for lines inside a section. */
  method ParseBodyLine(st: State, line: string, level: int) returns (r: Try<State>)
    ensures r == BodyLine(st, line, level)
  {
    if level <= 0 { return Ok(st.(level := level)); }
    if line == "}" {
      if st.block == [] { return Ok(st.(level := 0)); }
      var sections := FlushBlock(st);
      if sections.Throws? { return Throws(sections.exception); }
      return Ok(st.(sections := sections.value, level := 0, name := None, selector := None, block := []));
    }
    if IsLegacyItemsLine(line) {
      return Ok(st.(level := level, inItems := true, block := st.block + [line]));
    }
    var field := LegacyFieldLine(line);
    if field.Some? {
      return Ok(st.(level := level, block := st.block + [FieldText(field.value.0, field.value.1, field.value.2)]));
    }
    r := Ok(st.(level := level, block := st.block + [line]));
  }

  /** A prefix of the lines that throws makes the whole run throw. */
  lemma {:induction false} RunThrowsEarly(lines: seq<string>, n: nat)
    requires n <= |lines| && Run(lines[..n]).Throws?
    ensures Run(lines) == Run(lines[..n])
    decreases |lines| - n
  {
    if n < |lines| {
      assert lines[..n + 1][..n] == lines[..n];
      RunThrowsEarly(lines, n + 1);
    } else {
      assert lines[..n] == lines;
    }
  }

  /** `parse`: every line through the machine, then (corrected) the pending block flushed. */
  method Parse(rulesText: string) returns (r: Try<seq<Rule>>)
    ensures r == Parsed(rulesText)
  {
    var lines := Split(Normalised(rulesText), '\n');
    var st := Start;
    for k := 0 to |lines|
      invariant Run(lines[..k]) == Ok(st)
    {
      assert lines[..k + 1][..k] == lines[..k];
      var next := ParseLine(st, lines[k]);
      if next.Throws? {
        RunThrowsEarly(lines, k + 1);
        return Throws(next.exception);
      }
      st := next.value;
    }
    assert lines[..|lines|] == lines;
    r := FlushBlock(st);
  }
}
