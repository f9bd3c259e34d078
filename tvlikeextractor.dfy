/** The `HtmlExtractor` of the single-file TVLike pipeline: a compiled section rule applied to
    a parsed document gives a record with the keys `type`, `text`, `img`, `link` and `items`. */
module TVLikeExtractor {
  import opened Wrappers
  import opened JavaString
  import opened Values
  import opened Rules
  import opened Dom

  /** A record as the extractor builds it: field name to value. */
  type Record = map<string, Json>

  /** The options of a field, or empty options when the rule has none for it. */
  function FieldOpts(rule: Rule, field: string): OptionMap {
    if field in rule.fieldOptions then rule.fieldOptions[field] else map[]
  }

  /** The selector of a field, or null. */
  function FieldSel(rule: Rule, field: string): Option<string> {
    if field in rule.fieldSelectors then Some(rule.fieldSelectors[field]) else None
  }

  /** The raw value of a found element: the attribute named by `attr` (in its string form)
      when that option is present, else the element's text. */
  function RawValue(html: Html, el: Node, opts: OptionMap): string {
    if "attr" in opts then html.attr(el, ValueOf(opts["attr"])) else html.text(el)
  }

  /** Whether the options ask for the `trim` transform (compared ignoring case). */
  predicate TrimRequested(opts: OptionMap) {
    "transform" in opts && EqualsIgnoreCase(ValueOf(opts["transform"]), "trim")
  }

  /** The transform step: `trim` trims; any other transform leaves the value as it is. */
  function Transformed(v: string, opts: OptionMap): string {
    if TrimRequested(opts) then Trim(v) else v
  }

  /** `extractField`: the transformed raw value of the first element the trimmed selector
      finds inside `context`; null when the selector is null, nothing is found, or the value
      comes out empty. */
  function ExtractField(html: Html, context: Node, selector: Option<string>, opts: OptionMap): (r: Option<string>)
    ensures r.Some? ==> r.value != []
    ensures selector.None? ==> r.None?
  {
    match selector
    case None => None
    case Some(sel) =>
      match SelectFirst(html, context, Trim(sel))
      case None => None
      case Some(el) =>
        var v := Transformed(RawValue(html, el, opts), opts);
        if v == [] then None else Some(v)
  }

  /** The value is null exactly when there is no selector, no element, or an empty value; and
      otherwise it comes from the first element found. */
  lemma ExtractFieldCases(html: Html, context: Node, selector: Option<string>, opts: OptionMap)
    ensures var r := ExtractField(html, context, selector, opts);
      r.None? <==>
        selector.None? || html.select(context, Trim(selector.value)) == [] ||
        Transformed(RawValue(html, html.select(context, Trim(selector.value))[0], opts), opts) == []
    ensures var r := ExtractField(html, context, selector, opts);
      r.Some? ==> r.value == Transformed(RawValue(html, html.select(context, Trim(selector.value))[0], opts), opts)
  {
  }

  /** Surrounding spaces of the selector do not matter. */
  lemma ExtractFieldSelectorTrimmed(html: Html, context: Node, sel: string, opts: OptionMap)
    ensures ExtractField(html, context, Some(sel), opts) == ExtractField(html, context, Some(Trim(sel)), opts)
  {
    TrimIdempotent(sel);
  }

  /** With the `trim` transform, a value has no surrounding spaces: trimming it again changes nothing. */
  lemma ExtractFieldTrimmed(html: Html, context: Node, selector: Option<string>, opts: OptionMap)
    requires TrimRequested(opts)
    ensures var r := ExtractField(html, context, selector, opts);
      r.Some? ==> Trim(r.value) == r.value
  {
    if selector.Some? {
      var found := SelectFirst(html, context, Trim(selector.value));
      if found.Some? {
        TrimIdempotent(RawValue(html, found.value, opts));
      }
    }
  }

  /** Without `attr` and `transform`, the value is the element's text, when it is not empty. */
  lemma ExtractFieldText(html: Html, context: Node, sel: string, opts: OptionMap)
    requires "attr" !in opts && "transform" !in opts
    requires html.select(context, Trim(sel)) != []
    ensures var t := html.text(html.select(context, Trim(sel))[0]);
      ExtractField(html, context, Some(sel), opts) == if t == [] then None else Some(t)
  {
  }

  /** The value of one field of a rule, as a record entry. */
  function FieldJson(html: Html, el: Node, rule: Rule, field: string): Json {
    StrOrNull(ExtractField(html, el, FieldSel(rule, field), FieldOpts(rule, field)))
  }

  /** The entries of the listed fields, put in list order. */
  function FieldsRecord(html: Html, el: Node, rule: Rule, fields: seq<string>): (r: Record)
    ensures r.Keys == set f | f in fields
  {
    if fields == [] then map[]
    else
      var last := fields[|fields| - 1];
      FieldsRecord(html, el, rule, fields[..|fields| - 1])[last := FieldJson(html, el, rule, last)]
  }

  /** Every listed field holds its own value. */
  lemma {:induction false} FieldsRecordAt(html: Html, el: Node, rule: Rule, fields: seq<string>, f: string)
    requires f in fields
    ensures f in FieldsRecord(html, el, rule, fields)
    ensures FieldsRecord(html, el, rule, fields)[f] == FieldJson(html, el, rule, f)
  {
    var last := fields[|fields| - 1];
    if f != last {
      assert f in fields[..|fields| - 1] by {
        var k :| 0 <= k < |fields| && fields[k] == f;
        assert fields[..|fields| - 1][k] == f;
      }
      FieldsRecordAt(html, el, rule, fields[..|fields| - 1], f);
    }
  }

  /** The loop over "text", "img", "link" that fills one record. */
  method ExtractFields(html: Html, el: Node, rule: Rule) returns (item: Record)
    ensures item == FieldsRecord(html, el, rule, Fields)
  {
    item := map[];
    for k := 0 to |Fields|
      invariant item == FieldsRecord(html, el, rule, Fields[..k])
    {
      assert Fields[..k + 1][..k] == Fields[..k];
      var f := Fields[k];
      var sel := FieldSel(rule, f);
      var opts := FieldOpts(rule, f);
      var v := ExtractField(html, el, sel, opts);
      item := item[f := StrOrNull(v)];
    }
    assert Fields[..|Fields|] == Fields;
  }

  const IntModulus: int := 0x1_0000_0000

  /** `Number.intValue()`: the value narrowed to 32 bits, wrapping around. */
  function IntValue(i: int): (r: int)
    ensures IntMin <= r <= IntMax
    ensures IntMin <= i <= IntMax ==> r == i
  {
    (i - IntMin) % IntModulus + IntMin
  }

  /** The item limit: a number as its int value, anything else parsed as an int; no `limit`
      option, or one that does not parse, leaves the limit at `Integer.MAX_VALUE`. */
  function ItemLimit(sectionOptions: Option<OptionMap>): (limit: int)
    ensures IntMin <= limit <= IntMax
  {
    if sectionOptions.None? || "limit" !in sectionOptions.value then IntMax
    else
      match sectionOptions.value["limit"]
      case OInt(i) => IntValue(i)
      case o => ParseInt(ValueOf(o)).GetOr(IntMax)
  }

  /** A limit that is not a number and does not parse leaves the count unbounded. */
  lemma ItemLimitUnparsable(opts: OptionMap)
    requires "limit" in opts && !opts["limit"].OInt? && ParseInt(ValueOf(opts["limit"])).None?
    ensures ItemLimit(Some(opts)) == IntMax
  {
  }

  /** How many items are emitted: `Math.min(limit, size)`, and none when that is negative. */
  function TakeCount(limit: int, size: nat): (n: nat)
    ensures n <= size
    ensures limit >= 0 ==> n == if limit < size then limit else size
    ensures limit < 0 ==> n == 0
  {
    var m := if limit < size then limit else size;
    if m < 0 then 0 else m
  }

  /** `extractItems`: one record per element the template's selector finds, in selection
      order, up to the limit. */
  function ItemsOf(html: Html, root: Node, itemRule: Rule): (r: seq<Record>)
    requires itemRule.selector.Some?
  {
    var els := html.select(root, itemRule.selector.value);
    var n := TakeCount(ItemLimit(itemRule.sectionOptions), |els|);
    seq(n, i requires 0 <= i < n => FieldsRecord(html, els[i], itemRule, Fields))
  }

  /** Exactly `min(limit, count)` items (none for a negative limit), each made from the element
      at the same position of the selection. */
  lemma ItemsOfCount(html: Html, root: Node, itemRule: Rule)
    requires itemRule.selector.Some?
    ensures var els := html.select(root, itemRule.selector.value);
      var limit := ItemLimit(itemRule.sectionOptions);
      |ItemsOf(html, root, itemRule)| == (if limit < 0 then 0 else if limit < |els| then limit else |els|)
    ensures var els := html.select(root, itemRule.selector.value);
      forall i :: 0 <= i < |ItemsOf(html, root, itemRule)| ==>
        ItemsOf(html, root, itemRule)[i] == FieldsRecord(html, els[i], itemRule, Fields)
  {
  }

  /** The loop of `extractItems`. */
  method ExtractItems(html: Html, root: Node, itemRule: Rule) returns (out: seq<Record>)
    requires itemRule.selector.Some?
    ensures out == ItemsOf(html, root, itemRule)
  {
    out := [];
    var els := html.select(root, itemRule.selector.value);
    var limit := IntMax;
    if itemRule.sectionOptions.Some? && "limit" in itemRule.sectionOptions.value {
      var o := itemRule.sectionOptions.value["limit"];
      if o.OInt? {
        limit := IntValue(o.i);
      } else {
        var parsed := ParseInt(ValueOf(o));
        if parsed.Some? { limit := parsed.value; }
      }
    }
    var take := if limit < |els| then limit else |els|;
    var i := 0;
    while i < take
      invariant take >= 0 ==> 0 <= i <= take
      invariant take < 0 ==> i == 0
      invariant |out| == i
      invariant forall j :: 0 <= j < i ==> out[j] == FieldsRecord(html, els[j], itemRule, Fields)
    {
      var item := ExtractFields(html, els[i], itemRule);
      out := out + [item];
      i := i + 1;
    }
  }

  /** The items entry: the template's items, or an empty list when the rule has no template. */
  function ItemsJson(html: Html, root: Node, rule: Rule): Json
    requires rule.itemTemplate.Some? ==> rule.itemTemplate.value.selector.Some?
  {
    match rule.itemTemplate
    case None => JList([])
    case Some(t) =>
      var items := ItemsOf(html, root, t);
      JList(seq(|items|, i requires 0 <= i < |items| => JObject(items[i])))
  }

  /** `extractSection`: the rule's name as `type`; when the section's selector finds nothing,
      null fields and no items; otherwise the fields of the first element found and its items. */
  function SectionRecord(html: Html, doc: Node, rule: Rule): (r: Record)
    requires rule.selector.Some?
    requires rule.itemTemplate.Some? ==> rule.itemTemplate.value.selector.Some?
  {
    match SelectFirst(html, doc, rule.selector.value)
    case None =>
      map["type" := StrOrNull(rule.name), "text" := JNull, "img" := JNull, "link" := JNull, "items" := JList([])]
    case Some(root) =>
      FieldsRecord(html, root, rule, Fields)["type" := StrOrNull(rule.name)]["items" := ItemsJson(html, root, rule)]
  }

  /** The five keys are always present; a section that is not found has null fields and no items. */
  lemma SectionRecordShape(html: Html, doc: Node, rule: Rule)
    requires rule.selector.Some?
    requires rule.itemTemplate.Some? ==> rule.itemTemplate.value.selector.Some?
    ensures SectionRecord(html, doc, rule).Keys == {"type", "text", "img", "link", "items"}
    ensures SectionRecord(html, doc, rule)["type"] == StrOrNull(rule.name)
    ensures html.select(doc, rule.selector.value) == [] ==>
      var r := SectionRecord(html, doc, rule);
      r["text"] == JNull && r["img"] == JNull && r["link"] == JNull && r["items"] == JList([])
  {
    var r := SectionRecord(html, doc, rule);
    if html.select(doc, rule.selector.value) != [] {
      assert (set f | f in Fields) == {"text", "img", "link"} by {
        assert Fields[0] == "text" && Fields[1] == "img" && Fields[2] == "link";
      }
    }
  }

  /** A section that is found has the field values of its first element. */
  lemma SectionRecordFields(html: Html, doc: Node, rule: Rule, f: string)
    requires rule.selector.Some?
    requires rule.itemTemplate.Some? ==> rule.itemTemplate.value.selector.Some?
    requires html.select(doc, rule.selector.value) != []
    requires f in Fields
    ensures SectionRecord(html, doc, rule)[f] == FieldJson(html, html.select(doc, rule.selector.value)[0], rule, f)
  {
    FieldsRecordAt(html, html.select(doc, rule.selector.value)[0], rule, Fields, f);
  }

  /** The method `extractSection`. */
  method ExtractSection(html: Html, doc: Node, rule: Rule) returns (out: Record)
    requires rule.selector.Some?
    requires rule.itemTemplate.Some? ==> rule.itemTemplate.value.selector.Some?
    ensures out == SectionRecord(html, doc, rule)
  {
    var root := SelectFirst(html, doc, rule.selector.value);
    if root.None? {
      out := map["type" := StrOrNull(rule.name), "text" := JNull, "img" := JNull, "link" := JNull, "items" := JList([])];
      return;
    }
    var fields := ExtractFields(html, root.value, rule);
    out := fields["type" := StrOrNull(rule.name)];
    if rule.itemTemplate.Some? {
      var items := ExtractItems(html, root.value, rule.itemTemplate.value);
      out := out["items" := JList(seq(|items|, i requires 0 <= i < |items| => JObject(items[i])))];
    } else {
      out := out["items" := JList([])];
    }
  }
}
