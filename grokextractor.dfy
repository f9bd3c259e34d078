/** The ordered extractor: only the direct element children of the body are visited, each is
    given to the first rule whose selector finds something inside it, and a field's selection is
    narrowed by its `index` and `limit` options before values are read and transformed. The
    rule compiler it calls is a parameter (`parse`), and so is the `url-join` transform
    (`urlJoin`, URL resolution against a base). */
module GrokExtractor {
  import opened Wrappers
  import opened JavaString
  import opened Values
  import opened Dom
  import opened GrokRuleNode
  import LegacyParser

  /** A rule node as this extractor reads it: `fields` holds the field selectors in the order
      the node's hash map yields them, `fieldOptions` the options per field, and
      `sectionOptions` the node's own options (never null: the node's constructor fills them in). */
  datatype GrokRule = GrokRule(
    name: Option<string>,
    selector: Option<string>,
    fields: seq<(string, string)>,
    fieldOptions: map<string, OptionMap>,
    itemTemplate: Option<GrokRule>,
    sectionOptions: OptionMap)

  /** The selector text that stands for "no value". */
  const NullSelector: string := "null"

  // ---------------------------------------------------------------------------------------
  // Rules and page type
  // ---------------------------------------------------------------------------------------

  /** The text of the rule script: "" without the script element, else its text with
      `&#10;`, `&#13;` and CR LF normalised. */
  function ScriptText(scriptHtml: Option<string>): string {
    match scriptHtml
    case None => ""
    case Some(h) => LegacyParser.Normalised(h)
  }

  /** Whether a line declares the page type: once trimmed it starts with `page-type: `. */
  predicate DeclaresPageType(line: string) {
    StartsWith(Trim(line), "page-type: ")
  }

  /** The page type declared by the first declaring line: what follows `page-type: `, trimmed;
      null when no line declares one. */
  function PageTypeIn(lines: seq<string>): (r: Option<string>)
  {
    if lines == [] then None
    else if DeclaresPageType(lines[0]) then Some(Trim(Trim(lines[0])[11..]))
    else PageTypeIn(lines[1..])
  }

  /** The first declaring line decides; the lines after it do not matter. */
  lemma {:induction false} PageTypeFirstLine(lines: seq<string>, k: nat)
    requires k < |lines| && DeclaresPageType(lines[k])
    requires forall j :: 0 <= j < k ==> !DeclaresPageType(lines[j])
    ensures PageTypeIn(lines) == Some(Trim(Trim(lines[k])[11..]))
    decreases k
  {
    if k > 0 {
      assert !DeclaresPageType(lines[0]);
      forall j | 0 <= j < k - 1
        ensures !DeclaresPageType(lines[1..][j])
      {
        assert lines[1..][j] == lines[j + 1];
      }
      PageTypeFirstLine(lines[1..], k - 1);
    }
  }

  /** No page type is found exactly when no line declares one. */
  lemma {:induction false} PageTypeNone(lines: seq<string>)
    ensures PageTypeIn(lines).None? <==> forall k :: 0 <= k < |lines| ==> !DeclaresPageType(lines[k])
    decreases |lines|
  {
    if lines != [] {
      PageTypeNone(lines[1..]);
      if PageTypeIn(lines).None? {
        forall k | 0 <= k < |lines|
          ensures !DeclaresPageType(lines[k])
        {
          if k > 0 {
            assert lines[1..][k - 1] == lines[k];
          }
        }
      } else if forall k :: 0 <= k < |lines| ==> !DeclaresPageType(lines[k]) {
        assert !DeclaresPageType(lines[0]);
        forall j | 0 <= j < |lines| - 1
          ensures !DeclaresPageType(lines[1..][j])
        {
          assert lines[1..][j] == lines[j + 1];
        }
      }
    }
  }

  // ---------------------------------------------------------------------------------------
  // Narrowing a selection
  // ---------------------------------------------------------------------------------------

  /** `index`, then `limit`: an index below the size keeps only that element (a negative one
      makes `get` throw); a limit below the size keeps that many first elements (a negative one
      makes `subList` throw). */
  function Sliced(els: seq<Node>, idx: Option<int>, limit: Option<int>): (r: Try<seq<Node>>)
  {
    var picked :- if idx.Some? && idx.value < |els| then
                    (if idx.value < 0 then Throws(IndexOutOfBounds) else Ok([els[idx.value]]))
                  else Ok(els);
    if limit.Some? && |picked| > limit.value then
      (if limit.value < 0 then Throws(IllegalArgument) else Ok(picked[..limit.value]))
    else Ok(picked)
  }

  /** Narrowing throws exactly when the index or the limit is negative; the index is checked
      first. */
  lemma SlicedThrows(els: seq<Node>, idx: Option<int>, limit: Option<int>)
    ensures Sliced(els, idx, limit).Throws? <==>
              (idx.Some? && idx.value < 0) || (limit.Some? && limit.value < 0)
    ensures idx.Some? && idx.value < 0 ==> Sliced(els, idx, limit) == Throws(IndexOutOfBounds)
    ensures !(idx.Some? && idx.value < 0) && limit.Some? && limit.value < 0 ==>
              Sliced(els, idx, limit) == Throws(IllegalArgument)
  {
  }

  /** What survives narrowing: the indexed element alone when the index is in range, else a
      prefix of the selection; and never more than a non-negative limit. */
  lemma SlicedKeeps(els: seq<Node>, idx: Option<int>, limit: Option<int>)
    requires Sliced(els, idx, limit).Ok?
    ensures var r := Sliced(els, idx, limit).value;
            (idx.Some? && idx.value < |els| ==> r == [els[idx.value]][..|r|]) &&
            (!(idx.Some? && idx.value < |els|) ==> r == els[..|r|]) &&
            (limit.Some? ==> |r| <= limit.value) &&
            (limit.None? ==> |r| == if idx.Some? && idx.value < |els| then 1 else |els|)
  {
  }

  // ---------------------------------------------------------------------------------------
  // Reading a value
  // ---------------------------------------------------------------------------------------

  /** The first of the attributes `names` (each trimmed) whose value is not empty. */
  function FirstAttr(html: Html, el: Node, names: seq<string>): (r: Option<string>)
    ensures r.Some? ==> r.value != []
  {
    if names == [] then None
    else
      var v := html.attr(el, Trim(names[0]));
      if v != [] then Some(v) else FirstAttr(html, el, names[1..])
  }

  /** `attrFallback`: the chain, or the default when there is none, split on `|`. */
  function AttrFallback(html: Html, el: Node, chain: Option<string>, def: string): Option<string> {
    FirstAttr(html, el, Split(chain.GetOr(def), '|'))
  }

  /** The attribute `names[k]` answers when it is the first non-empty one. */
  lemma {:induction false} FirstAttrAt(html: Html, el: Node, names: seq<string>, k: nat)
    requires k < |names| && html.attr(el, Trim(names[k])) != []
    requires forall j :: 0 <= j < k ==> html.attr(el, Trim(names[j])) == []
    ensures FirstAttr(html, el, names) == Some(html.attr(el, Trim(names[k])))
    decreases k
  {
    if k > 0 {
      assert html.attr(el, Trim(names[0])) == [];
      forall j | 0 <= j < k - 1
        ensures html.attr(el, Trim(names[1..][j])) == []
      {
        assert names[1..][j] == names[j + 1];
      }
      FirstAttrAt(html, el, names[1..], k - 1);
    }
  }

  /** Nothing is found exactly when every attribute of the chain is empty. */
  lemma {:induction false} FirstAttrNone(html: Html, el: Node, names: seq<string>)
    ensures FirstAttr(html, el, names).None? <==>
            forall k :: 0 <= k < |names| ==> html.attr(el, Trim(names[k])) == []
    decreases |names|
  {
    if names != [] {
      FirstAttrNone(html, el, names[1..]);
      if FirstAttr(html, el, names).None? {
        forall k | 0 <= k < |names|
          ensures html.attr(el, Trim(names[k])) == []
        {
          if k > 0 {
            assert names[1..][k - 1] == names[k];
          }
        }
      } else if forall k :: 0 <= k < |names| ==> html.attr(el, Trim(names[k])) == [] {
        assert html.attr(el, Trim(names[0])) == [];
        forall j | 0 <= j < |names| - 1
          ensures html.attr(el, Trim(names[1..][j])) == []
        {
          assert names[1..][j] == names[j + 1];
        }
      }
    }
  }

  /** One transform step: `trim` trims, `url-join` resolves against the base, others do nothing. */
  function TransformStep(s: string, op: string, urlJoin: string -> string): string {
    if op == "trim" then Trim(s) else if op == "url-join" then urlJoin(s) else s
  }

  /** The transforms applied left to right. */
  function Transformed(s: string, ops: seq<string>, urlJoin: string -> string): string
    decreases |ops|
  {
    if ops == [] then s
    else TransformStep(Transformed(s, ops[..|ops| - 1], urlJoin), ops[|ops| - 1], urlJoin)
  }

  /** Applying two lists one after the other is applying their concatenation. */
  lemma {:induction false} TransformedAppend(s: string, a: seq<string>, b: seq<string>, urlJoin: string -> string)
    ensures Transformed(s, a + b, urlJoin) == Transformed(Transformed(s, a, urlJoin), b, urlJoin)
    decreases |b|
  {
    if b == [] {
      assert a + b == a;
    } else {
      assert (a + b)[..|a + b| - 1] == a + b[..|b| - 1];
      TransformedAppend(s, a, b[..|b| - 1], urlJoin);
    }
  }

  /** Unknown transforms leave the value as it is. */
  lemma {:induction false} TransformedUnknown(s: string, ops: seq<string>, urlJoin: string -> string)
    requires forall k :: 0 <= k < |ops| ==> ops[k] != "trim" && ops[k] != "url-join"
    ensures Transformed(s, ops, urlJoin) == s
    decreases |ops|
  {
    if ops != [] {
      TransformedUnknown(s, ops[..|ops| - 1], urlJoin);
    }
  }

  /** Any number of `trim`s is one `trim`. */
  lemma {:induction false} TransformedTrims(s: string, ops: seq<string>, urlJoin: string -> string)
    requires |ops| >= 1 && forall k :: 0 <= k < |ops| ==> ops[k] == "trim"
    ensures Transformed(s, ops, urlJoin) == Trim(s)
    decreases |ops|
  {
    if |ops| > 1 {
      TransformedTrims(s, ops[..|ops| - 1], urlJoin);
      TrimIdempotent(s);
    }
  }

  /** The `attr` option of a field. */
  function AttrOption(opt: Option<OptionMap>): Option<string> {
    if opt.Some? then GetString(opt.value, "attr") else None
  }

  /** The `transform` option of a field, as a list. */
  function TransformOption(opt: Option<OptionMap>): seq<string> {
    if opt.Some? then GetList(opt.value, "transform") else []
  }

  /** The raw value of one element: its text for `text`; the attribute chain (default `src`)
      for `img`; the `href` of the first `a` inside it for `link`; null for other kinds. */
  function RawValue(html: Html, el: Node, kind: string, attr: Option<string>): Option<string> {
    if kind == "text" then Some(html.text(el))
    else if kind == "img" then AttrFallback(html, el, attr, "src")
    else if kind == "link" then
      match SelectFirst(html, el, "a")
      case Some(a) => AttrFallback(html, a, Some("href"), "href")
      case None => None
    else None
  }

  /** `process`: null for a null or empty raw value, else the raw value transformed. */
  function Processed(html: Html, el: Node, kind: string, opt: Option<OptionMap>,
                     urlJoin: string -> string): (r: Option<string>)
  {
    var raw := RawValue(html, el, kind, AttrOption(opt));
    if raw.None? || raw.value == [] then None else Some(Transformed(raw.value, TransformOption(opt), urlJoin))
  }

  /** Only a missing or empty raw value is dropped; whatever the transforms make of a
      non-empty one is kept. */
  lemma ProcessedNull(html: Html, el: Node, kind: string, opt: Option<OptionMap>, urlJoin: string -> string)
    ensures Processed(html, el, kind, opt, urlJoin).None? <==>
            RawValue(html, el, kind, AttrOption(opt)) in {None, Some("")}
  {
  }

  /** `link` and `text` do not look at the `attr` option. */
  lemma AttrOptionIgnored(html: Html, el: Node, kind: string, opts1: OptionMap, opts2: OptionMap,
                          urlJoin: string -> string)
    requires kind == "link" || kind == "text"
    requires GetList(opts1, "transform") == GetList(opts2, "transform")
    ensures Processed(html, el, kind, Some(opts1), urlJoin) == Processed(html, el, kind, Some(opts2), urlJoin)
  {
  }

  /** Without an `attr` option an image is its non-empty `src`, else null. */
  lemma ImageDefaultsToSrc(html: Html, el: Node)
    ensures html.attr(el, "src") != [] ==> RawValue(html, el, "img", None) == Some(html.attr(el, "src"))
    ensures html.attr(el, "src") == [] ==> RawValue(html, el, "img", None).None?
  {
    var names := ["src"];
    assert Split("src", '|') == names;
    assert Trim("src") == "src" by { TrimOfTrimmed("src"); }
    assert names[1..] == [];
    assert RawValue(html, el, "img", None) == FirstAttr(html, el, names);
  }

  /** The processed values of several elements, in selection order, nulls dropped. */
  function ProcessedAll(html: Html, els: seq<Node>, kind: string, opt: Option<OptionMap>,
                        urlJoin: string -> string): (r: seq<Json>)
    ensures |r| <= |els|
    ensures forall k :: 0 <= k < |r| ==> r[k].JStr?
    decreases |els|
  {
    if els == [] then []
    else
      var front := ProcessedAll(html, els[..|els| - 1], kind, opt, urlJoin);
      match Processed(html, els[|els| - 1], kind, opt, urlJoin)
      case Some(v) => front + [JStr(v)]
      case None => front
  }

  /** When no element is dropped, the list holds every element's value, in order. */
  lemma {:induction false} ProcessedAllKeepsAll(html: Html, els: seq<Node>, kind: string,
                                                opt: Option<OptionMap>, urlJoin: string -> string)
    requires forall k :: 0 <= k < |els| ==> Processed(html, els[k], kind, opt, urlJoin).Some?
    ensures |ProcessedAll(html, els, kind, opt, urlJoin)| == |els|
    ensures forall k :: 0 <= k < |els| ==>
              ProcessedAll(html, els, kind, opt, urlJoin)[k] == JStr(Processed(html, els[k], kind, opt, urlJoin).value)
    decreases |els|
  {
    if els != [] {
      var front := els[..|els| - 1];
      assert forall k :: 0 <= k < |front| ==> front[k] == els[k];
      ProcessedAllKeepsAll(html, front, kind, opt, urlJoin);
    }
  }

  /** `extractField`: null for an empty selection; else the narrowed selection, a single element
      giving its value and several giving the list of their non-null values. */
  function FieldValue(html: Html, parent: Node, kind: string, sel: string, opt: Option<OptionMap>,
                      urlJoin: string -> string): (r: Try<Json>)
  {
    var els := html.select(parent, sel);
    if els == [] then Ok(JNull)
    else
      var limit := if opt.Some? then GetInt(opt.value, "limit") else None;
      var idx := if opt.Some? then GetInt(opt.value, "index") else None;
      var kept :- Sliced(els, idx, limit);
      if |kept| == 1 then Ok(StrOrNull(Processed(html, kept[0], kind, opt, urlJoin)))
      else Ok(JList(ProcessedAll(html, kept, kind, opt, urlJoin)))
  }

  /** A field's value is null, a string or a list of strings, and null when nothing is selected. */
  lemma FieldValueShape(html: Html, parent: Node, kind: string, sel: string, opt: Option<OptionMap>,
                        urlJoin: string -> string)
    ensures html.select(parent, sel) == [] ==> FieldValue(html, parent, kind, sel, opt, urlJoin) == Ok(JNull)
    ensures var r := FieldValue(html, parent, kind, sel, opt, urlJoin);
            r.Ok? ==> r.value.JNull? || r.value.JStr? ||
                      (r.value.JList? && forall k :: 0 <= k < |r.value.items| ==> r.value.items[k].JStr?)
  {
  }

  // ---------------------------------------------------------------------------------------
  // Records
  // ---------------------------------------------------------------------------------------

  /** The options of field `f`, or null. */
  function OptionsOf(fieldOptions: map<string, OptionMap>, f: string): Option<OptionMap> {
    if f in fieldOptions then Some(fieldOptions[f]) else None
  }

  /** The value stored for one field: null for the `null` selector, else the field's value. */
  function FieldEntry(html: Html, el: Node, field: (string, string), fieldOptions: map<string, OptionMap>,
                      urlJoin: string -> string): Try<Json>
  {
    if field.1 == NullSelector then Ok(JNull)
    else FieldValue(html, el, field.0, field.1, OptionsOf(fieldOptions, field.0), urlJoin)
  }

  /** The fields stored one after the other; the first field that throws ends the loop. */
  function FieldsOf(html: Html, el: Node, fields: seq<(string, string)>, fieldOptions: map<string, OptionMap>,
                    urlJoin: string -> string): Try<map<string, Json>>
    decreases |fields|
  {
    if fields == [] then Ok(map[])
    else
      var data :- FieldsOf(html, el, fields[..|fields| - 1], fieldOptions, urlJoin);
      var field := fields[|fields| - 1];
      var v :- FieldEntry(html, el, field, fieldOptions, urlJoin);
      Ok(data[field.0 := v])
  }

  /** The field names of a list of selectors. */
  function FieldNames(fields: seq<(string, string)>): set<string> {
    set k | 0 <= k < |fields| :: fields[k].0
  }

  /** Field names are distinct, as a map's keys are. */
  predicate DistinctNames(fields: seq<(string, string)>) {
    forall i, j :: 0 <= i < j < |fields| ==> fields[i].0 != fields[j].0
  }

  /** Every field is stored, whatever its value, and nothing else is. */
  lemma {:induction false} FieldsOfKeys(html: Html, el: Node, fields: seq<(string, string)>,
                                        fieldOptions: map<string, OptionMap>, urlJoin: string -> string)
    requires FieldsOf(html, el, fields, fieldOptions, urlJoin).Ok?
    ensures FieldsOf(html, el, fields, fieldOptions, urlJoin).value.Keys == FieldNames(fields)
    decreases |fields|
  {
    if fields != [] {
      var front := fields[..|fields| - 1];
      FieldsOfKeys(html, el, front, fieldOptions, urlJoin);
      assert FieldNames(fields) == FieldNames(front) + {fields[|fields| - 1].0} by {
        forall x | x in FieldNames(fields) ensures x in FieldNames(front) + {fields[|fields| - 1].0} {
          var k :| 0 <= k < |fields| && fields[k].0 == x;
          if k < |fields| - 1 {
            assert front[k] == fields[k];
          }
        }
        forall x | x in FieldNames(front) ensures x in FieldNames(fields) {
          var k :| 0 <= k < |front| && front[k].0 == x;
          assert fields[k] == front[k];
        }
      }
    }
  }

  /** Each field holds its own value (a `null` selector gives null). */
  lemma {:induction false} FieldsOfAt(html: Html, el: Node, fields: seq<(string, string)>,
                                      fieldOptions: map<string, OptionMap>, urlJoin: string -> string, k: nat)
    requires DistinctNames(fields) && k < |fields|
    requires FieldsOf(html, el, fields, fieldOptions, urlJoin).Ok?
    ensures fields[k].0 in FieldsOf(html, el, fields, fieldOptions, urlJoin).value
    ensures Ok(FieldsOf(html, el, fields, fieldOptions, urlJoin).value[fields[k].0]) ==
            FieldEntry(html, el, fields[k], fieldOptions, urlJoin)
    decreases |fields|
  {
    var front := fields[..|fields| - 1];
    if k < |fields| - 1 {
      assert front[k] == fields[k];
      assert DistinctNames(front) by {
        forall i, j | 0 <= i < j < |front| ensures front[i].0 != front[j].0 {
          assert front[i] == fields[i] && front[j] == fields[j];
        }
      }
      FieldsOfAt(html, el, front, fieldOptions, urlJoin, k);
    }
  }

  /** Storing the fields fails exactly when one of them fails. */
  lemma {:induction false} FieldsOfOk(html: Html, el: Node, fields: seq<(string, string)>,
                                      fieldOptions: map<string, OptionMap>, urlJoin: string -> string)
    ensures FieldsOf(html, el, fields, fieldOptions, urlJoin).Ok? <==>
            forall k :: 0 <= k < |fields| ==> FieldEntry(html, el, fields[k], fieldOptions, urlJoin).Ok?
    decreases |fields|
  {
    if fields != [] {
      var front := fields[..|fields| - 1];
      FieldsOfOk(html, el, front, fieldOptions, urlJoin);
      assert forall k :: 0 <= k < |front| ==> front[k] == fields[k];
    }
  }

  /** The item maps of the narrowed item elements; an empty map is not listed. */
  function ItemMaps(html: Html, els: seq<Node>, template: GrokRule, urlJoin: string -> string): Try<seq<Json>>
    decreases |els|
  {
    if els == [] then Ok([])
    else
      var front :- ItemMaps(html, els[..|els| - 1], template, urlJoin);
      var m :- FieldsOf(html, els[|els| - 1], template.fields, template.fieldOptions, urlJoin);
      Ok(front + if m != map[] then [JObject(m)] else [])
  }

  /** `extractItems`: the template's selection inside the container, narrowed by the template's
      own `index` and `limit`, one map per item. */
  function ItemsOf(html: Html, container: Node, template: GrokRule, urlJoin: string -> string): Try<seq<Json>> {
    var items := SelectOrNone(html, container, template.selector);
    var kept :- Sliced(items, GetInt(template.sectionOptions, "index"), GetInt(template.sectionOptions, "limit"));
    ItemMaps(html, kept, template, urlJoin)
  }

  /** A template with fields gives one map per item, in order; one without gives none. */
  lemma {:induction false} ItemMapsCount(html: Html, els: seq<Node>, template: GrokRule, urlJoin: string -> string)
    requires ItemMaps(html, els, template, urlJoin).Ok?
    ensures |ItemMaps(html, els, template, urlJoin).value| == if template.fields == [] then 0 else |els|
    ensures forall k :: 0 <= k < |ItemMaps(html, els, template, urlJoin).value| ==>
              ItemMaps(html, els, template, urlJoin).value[k].JObject?
    decreases |els|
  {
    if els != [] {
      var last := els[|els| - 1];
      ItemMapsCount(html, els[..|els| - 1], template, urlJoin);
      FieldsOfKeys(html, last, template.fields, template.fieldOptions, urlJoin);
      var m := FieldsOf(html, last, template.fields, template.fieldOptions, urlJoin).value;
      if template.fields != [] {
        assert template.fields[0].0 in FieldNames(template.fields);
        assert m != map[] by { assert template.fields[0].0 in m; }
      } else {
        assert FieldNames(template.fields) == {};
      }
    }
  }

  /** `extractSection`: every field, then `items` when the rule has an item template. */
  function SectionData(html: Html, container: Node, rule: GrokRule, urlJoin: string -> string): Try<map<string, Json>> {
    var data :- FieldsOf(html, container, rule.fields, rule.fieldOptions, urlJoin);
    if rule.itemTemplate.Some? then
      var items :- ItemsOf(html, container, rule.itemTemplate.value, urlJoin);
      Ok(data[JsonItemsKey := JList(items)])
    else Ok(data)
  }

  /** The key of the item list. */
  const JsonItemsKey: string := "items"

  /** A section's keys are its field names, plus `items` when it has a template: so a section
      is empty only when its rule has neither fields nor template. */
  lemma SectionDataKeys(html: Html, container: Node, rule: GrokRule, urlJoin: string -> string)
    requires SectionData(html, container, rule, urlJoin).Ok?
    ensures SectionData(html, container, rule, urlJoin).value.Keys ==
            FieldNames(rule.fields) + if rule.itemTemplate.Some? then {JsonItemsKey} else {}
  {
    FieldsOfKeys(html, container, rule.fields, rule.fieldOptions, urlJoin);
  }

  // ---------------------------------------------------------------------------------------
  // Matching and the ordered walk
  // ---------------------------------------------------------------------------------------

  /** Whether a rule's selector finds something inside the element. */
  predicate Finds(html: Html, el: Node, rule: GrokRule) {
    SelectOrNone(html, el, rule.selector) != []
  }

  /** `match`: the first rule whose selector finds something, or null. */
  function FirstMatching(html: Html, el: Node, rules: seq<GrokRule>): (r: Option<GrokRule>)
    ensures r.Some? ==> r.value in rules && Finds(html, el, r.value)
  {
    if rules == [] then None
    else if Finds(html, el, rules[0]) then Some(rules[0])
    else FirstMatching(html, el, rules[1..])
  }

  /** The rule found is the first that finds something: no earlier rule does. */
  lemma {:induction false} FirstMatchingFirst(html: Html, el: Node, rules: seq<GrokRule>, k: nat)
    requires k < |rules| && Finds(html, el, rules[k])
    requires forall j :: 0 <= j < k ==> !Finds(html, el, rules[j])
    ensures FirstMatching(html, el, rules) == Some(rules[k])
    decreases k
  {
    if k > 0 {
      assert !Finds(html, el, rules[0]);
      forall j | 0 <= j < k - 1
        ensures !Finds(html, el, rules[1..][j])
      {
        assert rules[1..][j] == rules[j + 1];
      }
      FirstMatchingFirst(html, el, rules[1..], k - 1);
    }
  }

  /** No rule is found exactly when no rule finds anything. */
  lemma {:induction false} FirstMatchingNone(html: Html, el: Node, rules: seq<GrokRule>)
    ensures FirstMatching(html, el, rules).None? <==> forall k :: 0 <= k < |rules| ==> !Finds(html, el, rules[k])
    decreases |rules|
  {
    if rules != [] {
      FirstMatchingNone(html, el, rules[1..]);
      if FirstMatching(html, el, rules).None? {
        forall k | 0 <= k < |rules|
          ensures !Finds(html, el, rules[k])
        {
          if k > 0 {
            assert rules[1..][k - 1] == rules[k];
          }
        }
      } else if forall k :: 0 <= k < |rules| ==> !Finds(html, el, rules[k]) {
        assert !Finds(html, el, rules[0]);
        forall j | 0 <= j < |rules| - 1
          ensures !Finds(html, el, rules[1..][j])
        {
          assert rules[1..][j] == rules[j + 1];
        }
      }
    }
  }

  /** `match` on the extractor's rules; the rules are null until they are parsed. */
  function Match(html: Html, el: Node, sections: Option<seq<GrokRule>>): Try<Option<GrokRule>> {
    match sections
    case None => Throws(NullPointer)
    case Some(rules) => Ok(FirstMatching(html, el, rules))
  }

  /** The record of a section: its `type` (the rule's name), with the section's own entries
      put over it. */
  function Record(name: Option<string>, data: map<string, Json>): Json {
    JObject(map["type" := StrOrNull(name)] + data)
  }

  /** The record a child of the body contributes: none for a non-element, an unmatched element
      or an empty section. */
  function ChildRecord(html: Html, child: Node, sections: Option<seq<GrokRule>>,
                       urlJoin: string -> string): Try<Option<Json>>
  {
    if child.Leaf? then Ok(None)
    else
      var rule :- Match(html, child, sections);
      if rule.None? then Ok(None)
      else
        var data :- SectionData(html, child, rule.value, urlJoin);
        if data == map[] then Ok(None) else Ok(Some(Record(rule.value.name, data)))
  }

  /** The records of the children, in order; the first child that throws ends the walk. */
  function RecordsOf(html: Html, children: seq<Node>, sections: Option<seq<GrokRule>>,
                     urlJoin: string -> string): Try<seq<Json>>
    decreases |children|
  {
    if children == [] then Ok([])
    else
      var front :- RecordsOf(html, children[..|children| - 1], sections, urlJoin);
      var rec :- ChildRecord(html, children[|children| - 1], sections, urlJoin);
      Ok(front + match rec case Some(r) => [r] case None => [])
  }

  /** The direct children of the body. */
  function ChildrenOf(body: Node): seq<Node> {
    match body
    case Element(_, children) => children
    case Leaf(_) => []
  }

  /** `extractOrdered`: the page type and the records of the body's children. */
  function Ordered(html: Html, body: Node, sections: Option<seq<GrokRule>>, pageType: string,
                   urlJoin: string -> string): Try<map<string, Json>>
  {
    var records :- RecordsOf(html, ChildrenOf(body), sections, urlJoin);
    Ok(map["page-type" := JStr(pageType), "sections" := JList(records)])
  }

  /** A record carries `type` and the section's entries; `type` is the rule's name unless the
      section has an entry of that name itself. */
  lemma RecordShape(name: Option<string>, data: map<string, Json>)
    ensures Record(name, data).fields.Keys == data.Keys + {"type"}
    ensures forall k :: k in data ==> Record(name, data).fields[k] == data[k]
    ensures "type" !in data ==> Record(name, data).fields["type"] == StrOrNull(name)
  {
  }

  /** How many children contribute a record. */
  function Contributing(html: Html, children: seq<Node>, sections: Option<seq<GrokRule>>,
                        urlJoin: string -> string): nat
    decreases |children|
  {
    if children == [] then 0
    else
      var last := ChildRecord(html, children[|children| - 1], sections, urlJoin);
      Contributing(html, children[..|children| - 1], sections, urlJoin) +
        if last.Ok? && last.value.Some? then 1 else 0
  }

  /** One record per contributing child, each a map. */
  lemma {:induction false} RecordsOfCount(html: Html, children: seq<Node>, sections: Option<seq<GrokRule>>,
                                          urlJoin: string -> string)
    requires RecordsOf(html, children, sections, urlJoin).Ok?
    ensures |RecordsOf(html, children, sections, urlJoin).value| == Contributing(html, children, sections, urlJoin)
    ensures forall k :: 0 <= k < |RecordsOf(html, children, sections, urlJoin).value| ==>
              RecordsOf(html, children, sections, urlJoin).value[k].JObject?
    decreases |children|
  {
    if children != [] {
      RecordsOfCount(html, children[..|children| - 1], sections, urlJoin);
    }
  }

  /** Before the rules are parsed, the walk throws as soon as the body has an element child,
      and finds nothing otherwise. */
  lemma {:induction false} UnparsedRecords(html: Html, children: seq<Node>, urlJoin: string -> string)
    ensures (exists k :: 0 <= k < |children| && children[k].Element?) ==>
              RecordsOf(html, children, None, urlJoin) == Throws(NullPointer)
    ensures (forall k :: 0 <= k < |children| ==> children[k].Leaf?) ==>
              RecordsOf(html, children, None, urlJoin).Ok? && RecordsOf(html, children, None, urlJoin).value == []
    decreases |children|
  {
    if children != [] {
      var front := children[..|children| - 1];
      UnparsedRecords(html, front, urlJoin);
      if exists k :: 0 <= k < |front| && front[k].Element? {
        var k :| 0 <= k < |front| && front[k].Element?;
        assert children[k] == front[k];
      } else if children[|children| - 1].Leaf? {
        forall k | 0 <= k < |children| ensures children[k].Leaf? {
          if k < |front| {
            assert children[k] == front[k];
          }
        }
        assert ChildRecord(html, children[|children| - 1], None, urlJoin) == Ok(None);
      } else {
        assert children[|children| - 1].Element?;
      }
    }
  }

  // ---------------------------------------------------------------------------------------
  // The steps of the loops: a throw ends the whole loop with that exception
  // ---------------------------------------------------------------------------------------

  lemma {:induction false} FieldsOfPrefixThrows(html: Html, el: Node, fields: seq<(string, string)>,
                                                fieldOptions: map<string, OptionMap>, urlJoin: string -> string, k: nat)
    requires k <= |fields| && FieldsOf(html, el, fields[..k], fieldOptions, urlJoin).Throws?
    ensures FieldsOf(html, el, fields, fieldOptions, urlJoin) == FieldsOf(html, el, fields[..k], fieldOptions, urlJoin)
    decreases |fields|
  {
    if k < |fields| {
      var front := fields[..|fields| - 1];
      assert front[..k] == fields[..k];
      FieldsOfPrefixThrows(html, el, front, fieldOptions, urlJoin, k);
    } else {
      assert fields[..k] == fields;
    }
  }

  lemma {:induction false} ItemMapsPrefixThrows(html: Html, els: seq<Node>, template: GrokRule,
                                                urlJoin: string -> string, k: nat)
    requires k <= |els| && ItemMaps(html, els[..k], template, urlJoin).Throws?
    ensures ItemMaps(html, els, template, urlJoin) == ItemMaps(html, els[..k], template, urlJoin)
    decreases |els|
  {
    if k < |els| {
      var front := els[..|els| - 1];
      assert front[..k] == els[..k];
      ItemMapsPrefixThrows(html, front, template, urlJoin, k);
    } else {
      assert els[..k] == els;
    }
  }

  lemma {:induction false} RecordsOfPrefixThrows(html: Html, children: seq<Node>, sections: Option<seq<GrokRule>>,
                                                 urlJoin: string -> string, k: nat)
    requires k <= |children| && RecordsOf(html, children[..k], sections, urlJoin).Throws?
    ensures RecordsOf(html, children, sections, urlJoin) == RecordsOf(html, children[..k], sections, urlJoin)
    decreases |children|
  {
    if k < |children| {
      var front := children[..|children| - 1];
      assert front[..k] == children[..k];
      RecordsOfPrefixThrows(html, front, sections, urlJoin, k);
    } else {
      assert children[..k] == children;
    }
  }

  lemma ItemMapsNext(html: Html, els: seq<Node>, template: GrokRule, urlJoin: string -> string,
                     i: nat, list: seq<Json>, m: map<string, Json>)
    requires i < |els| && ItemMaps(html, els[..i], template, urlJoin) == Ok(list)
    requires FieldsOf(html, els[i], template.fields, template.fieldOptions, urlJoin) == Ok(m)
    ensures m != map[] ==> ItemMaps(html, els[..i + 1], template, urlJoin) == Ok(list + [JObject(m)])
    ensures m == map[] ==> ItemMaps(html, els[..i + 1], template, urlJoin) == Ok(list)
  {
    assert els[..i + 1][..i] == els[..i];
    assert list + [] == list;
  }

  lemma RecordsOfNext(html: Html, children: seq<Node>, sections: Option<seq<GrokRule>>, urlJoin: string -> string,
                      i: nat, secs: seq<Json>, rec: Option<Json>)
    requires i < |children| && RecordsOf(html, children[..i], sections, urlJoin) == Ok(secs)
    requires ChildRecord(html, children[i], sections, urlJoin) == Ok(rec)
    ensures rec.Some? ==> RecordsOf(html, children[..i + 1], sections, urlJoin) == Ok(secs + [rec.value])
    ensures rec.None? ==> RecordsOf(html, children[..i + 1], sections, urlJoin) == Ok(secs)
  {
    assert children[..i + 1][..i] == children[..i];
    assert secs + [] == secs;
  }

  // ---------------------------------------------------------------------------------------
  // The engine
  // ---------------------------------------------------------------------------------------

  /** `transform`: the loop over the operations. */
  method Transform(s: string, ops: seq<string>, urlJoin: string -> string) returns (r: string)
    ensures r == Transformed(s, ops, urlJoin)
  {
    r := s;
    for i := 0 to |ops|
      invariant r == Transformed(s, ops[..i], urlJoin)
    {
      assert ops[..i + 1][..i] == ops[..i];
      if ops[i] == "trim" {
        r := Trim(r);
      } else if ops[i] == "url-join" {
        r := urlJoin(r);
      }
    }
    assert ops[..|ops|] == ops;
  }

  /** `process`: the raw value of the element, transformed unless it is null or empty. */
  method Process(html: Html, el: Node, kind: string, opt: Option<OptionMap>, urlJoin: string -> string)
    returns (r: Option<string>)
    ensures r == Processed(html, el, kind, opt, urlJoin)
  {
    var raw := RawValue(html, el, kind, AttrOption(opt));
    if raw.None? || raw.value == [] {
      return None;
    }
    var v := Transform(raw.value, TransformOption(opt), urlJoin);
    return Some(v);
  }

  /** The `index`/`limit` narrowing of `extractField` and `extractItems`. */
  method Narrow(els: seq<Node>, idx: Option<int>, limit: Option<int>) returns (r: Try<seq<Node>>)
    ensures r == Sliced(els, idx, limit)
  {
    var kept := els;
    if idx.Some? && idx.value < |kept| {
      if idx.value < 0 {
        return Throws(IndexOutOfBounds);
      }
      kept := [kept[idx.value]];
    }
    if limit.Some? && |kept| > limit.value {
      if limit.value < 0 {
        return Throws(IllegalArgument);
      }
      kept := kept[..limit.value];
    }
    return Ok(kept);
  }

  /** `extractField`: select, narrow, then one value or the list of non-null values. */
  method ExtractField(html: Html, parent: Node, kind: string, sel: string, opt: Option<OptionMap>,
                      urlJoin: string -> string) returns (r: Try<Json>)
    ensures r == FieldValue(html, parent, kind, sel, opt, urlJoin)
  {
    var els := html.select(parent, sel);
    if els == [] {
      return Ok(JNull);
    }
    var limit := if opt.Some? then GetInt(opt.value, "limit") else None;
    var idx := if opt.Some? then GetInt(opt.value, "index") else None;
    var narrowed := Narrow(els, idx, limit);
    if narrowed.Throws? {
      return Throws(narrowed.exception);
    }
    var kept := narrowed.value;
    if |kept| == 1 {
      var v := Process(html, kept[0], kind, opt, urlJoin);
      return Ok(StrOrNull(v));
    }
    var list := [];
    for i := 0 to |kept|
      invariant list == ProcessedAll(html, kept[..i], kind, opt, urlJoin)
    {
      assert kept[..i + 1][..i] == kept[..i];
      var v := Process(html, kept[i], kind, opt, urlJoin);
      if v.Some? {
        list := list + [JStr(v.value)];
      }
    }
    assert kept[..|kept|] == kept;
    return Ok(JList(list));
  }

  /** The field loop of `extractSection` and `extractItems`: each field in turn, `null` for the
      `null` selector; the first field that throws ends the loop. */
  method ExtractFields(html: Html, el: Node, fields: seq<(string, string)>,
                       fieldOptions: map<string, OptionMap>, urlJoin: string -> string)
    returns (r: Try<map<string, Json>>)
    ensures r == FieldsOf(html, el, fields, fieldOptions, urlJoin)
  {
    var data := map[];
    for i := 0 to |fields|
      invariant FieldsOf(html, el, fields[..i], fieldOptions, urlJoin) == Ok(data)
    {
      assert fields[..i + 1][..i] == fields[..i];
      var (f, sel) := fields[i];
      var v: Json;
      if sel == NullSelector {
        v := JNull;
      } else {
        var t := ExtractField(html, el, f, sel, OptionsOf(fieldOptions, f), urlJoin);
        if t.Throws? {
          FieldsOfPrefixThrows(html, el, fields, fieldOptions, urlJoin, i + 1);
          return Throws(t.exception);
        }
        v := t.value;
      }
      data := data[f := v];
    }
    assert fields[..|fields|] == fields;
    return Ok(data);
  }

  /** The item loop of `extractItems`: one non-empty map per item; a throw ends the loop. */
  method ExtractItemMaps(html: Html, kept: seq<Node>, template: GrokRule, urlJoin: string -> string)
    returns (r: Try<seq<Json>>)
    ensures r == ItemMaps(html, kept, template, urlJoin)
  {
    var list: seq<Json> := [];
    for i := 0 to |kept|
      invariant ItemMaps(html, kept[..i], template, urlJoin) == Ok(list)
    {
      var m := ExtractFields(html, kept[i], template.fields, template.fieldOptions, urlJoin);
      if m.Throws? {
        assert kept[..i + 1][..i] == kept[..i];
        ItemMapsPrefixThrows(html, kept, template, urlJoin, i + 1);
        return Throws(m.exception);
      }
      ItemMapsNext(html, kept, template, urlJoin, i, list, m.value);
      if m.value != map[] {
        list := list + [JObject(m.value)];
      }
    }
    assert kept[..|kept|] == kept;
    return Ok(list);
  }

  /** `extractItems`: the template's selection inside the container, narrowed, then the item loop. */
  method ExtractItems(html: Html, container: Node, template: GrokRule, urlJoin: string -> string)
    returns (r: Try<seq<Json>>)
    ensures r == ItemsOf(html, container, template, urlJoin)
  {
    var items := SelectOrNone(html, container, template.selector);
    var narrowed := Narrow(items, GetInt(template.sectionOptions, "index"), GetInt(template.sectionOptions, "limit"));
    if narrowed.Throws? {
      return Throws(narrowed.exception);
    }
    r := ExtractItemMaps(html, narrowed.value, template, urlJoin);
  }

  /** `extractSection`: the fields, then the items when the rule has a template. */
  method ExtractSection(html: Html, container: Node, rule: GrokRule, urlJoin: string -> string)
    returns (r: Try<map<string, Json>>)
    ensures r == SectionData(html, container, rule, urlJoin)
  {
    var data := ExtractFields(html, container, rule.fields, rule.fieldOptions, urlJoin);
    if data.Throws? || rule.itemTemplate.None? {
      return data;
    }
    var items := ExtractItems(html, container, rule.itemTemplate.value, urlJoin);
    if items.Throws? {
      return Throws(items.exception);
    }
    return Ok(data.value[JsonItemsKey := JList(items.value)]);
  }

  /** The ordered extractor: the parsed rules and the page type. */
  class Extractor {
    var sections: Option<seq<GrokRule>>
    var pageType: string

    /** No rules yet (the list is null) and the page type `generic`. */
    constructor ()
      ensures sections == None && pageType == "generic"
    {
      sections := None;
      pageType := "generic";
    }

    /** `parseRules(String)`: `&#10;` becomes a line feed, the compiler's rules are kept, and
        the first declaring line sets the page type (else it stays as it was). */
    method ParseRules(rules: string, parse: string -> seq<GrokRule>)
      modifies this
      ensures var text := Replace(rules, "&#10;", "\n");
              sections == Some(parse(text)) &&
              pageType == PageTypeIn(Split(text, '\n')).GetOr(old(pageType))
    {
      var text := Replace(rules, "&#10;", "\n");
      sections := Some(parse(text));
      var lines := Split(text, '\n');
      var i := 0;
      while i < |lines|
        invariant 0 <= i <= |lines|
        invariant sections == Some(parse(text)) && pageType == old(pageType)
        invariant PageTypeIn(lines) == PageTypeIn(lines[i..])
      {
        if DeclaresPageType(lines[i]) {
          pageType := Trim(Trim(lines[i])[11..]);
          return;
        }
        assert lines[i..][1..] == lines[i + 1..];
        i := i + 1;
      }
    }

    /** `parseRules(Document)`: the rule script; without one (or an empty one) there are no
        rules and the page type is left alone. */
    method ParseRulesFromPage(scriptHtml: Option<string>, parse: string -> seq<GrokRule>)
      modifies this
      ensures ScriptText(scriptHtml) == [] ==> sections == Some([]) && pageType == old(pageType)
      ensures ScriptText(scriptHtml) != [] ==>
                var text := Replace(ScriptText(scriptHtml), "&#10;", "\n");
                sections == Some(parse(text)) &&
                pageType == PageTypeIn(Split(text, '\n')).GetOr(old(pageType))
    {
      var content := ScriptText(scriptHtml);
      if content == [] {
        sections := Some([]);
        return;
      }
      ParseRules(content, parse);
    }

    /** The body of the child loop of `extractOrdered`: the record one child contributes. */
    method ExtractChild(html: Html, child: Node, urlJoin: string -> string) returns (r: Try<Option<Json>>)
      ensures r == ChildRecord(html, child, sections, urlJoin)
    {
      if child.Leaf? {
        return Ok(None);
      }
      var rule := Match(html, child, sections);
      if rule.Throws? {
        return Throws(rule.exception);
      }
      if rule.value.None? {
        return Ok(None);
      }
      var data := ExtractSection(html, child, rule.value.value, urlJoin);
      if data.Throws? {
        return Throws(data.exception);
      }
      if data.value == map[] {
        return Ok(None);
      }
      return Ok(Some(Record(rule.value.value.name, data.value)));
    }

    /** `extractOrdered`: the page type and one record per contributing child of the body. */
    method ExtractOrdered(html: Html, body: Node, urlJoin: string -> string) returns (r: Try<map<string, Json>>)
      ensures r == Ordered(html, body, sections, pageType, urlJoin)
    {
      var children := ChildrenOf(body);
      var secs := [];
      for i := 0 to |children|
        invariant RecordsOf(html, children[..i], sections, urlJoin) == Ok(secs)
      {
        var rec := ExtractChild(html, children[i], urlJoin);
        if rec.Throws? {
          assert children[..i + 1][..i] == children[..i];
          RecordsOfPrefixThrows(html, children, sections, urlJoin, i + 1);
          return Throws(rec.exception);
        }
        RecordsOfNext(html, children, sections, urlJoin, i, secs, rec.value);
        if rec.value.Some? {
          secs := secs + [rec.value.value];
        }
      }
      assert children[..|children|] == children;
      return Ok(map["page-type" := JStr(pageType), "sections" := JList(secs)]);
    }
  }
}
