/** The engine of the brace-block pipeline: a pre-order walk of the page body in which each
    element yields the record of the first rule that both matches it and extracts something. */
module ChatExtractor {
  import opened Wrappers
  import opened JavaString
  import opened Values
  import opened Rules
  import opened Dom
  import opened Traversal
  import opened FieldLoop

  /** A record: key to value, in the order-free form of a map. */
  type Record = map<string, Json>

  /** `resolveAttr`: the string form of the field's `attr` option, or null. */
  function ResolveAttr(rule: Rule, field: string): (r: Option<string>)
    ensures r.Some? <==> field in rule.fieldOptions && "attr" in rule.fieldOptions[field]
  {
    if field in rule.fieldOptions && "attr" in rule.fieldOptions[field]
    then Some(ValueOf(rule.fieldOptions[field]["attr"]))
    else None
  }

  /** `extractValue`: null when the selector finds nothing inside `el` or the field is not
      `text`, `img` or `link`; otherwise the trimmed text or attribute of the first element
      found. `text` takes the `attr` attribute when that is set and not empty, else the text;
      `img` and `link` take the `attr` attribute, by default `src` and `href`. */
  function ExtractValue(html: Html, el: Node, field: string, selector: string, attr: Option<string>): Option<string> {
    match SelectFirst(html, el, selector)
    case None => None
    case Some(target) =>
      if field == "text" then
        var v := if attr.Some? then Trim(html.attr(target, attr.value)) else [];
        if v != [] then Some(v) else Some(Trim(html.text(target)))
      else if field == "img" then Some(Trim(html.attr(target, attr.GetOr("src"))))
      else if field == "link" then Some(Trim(html.attr(target, attr.GetOr("href"))))
      else None
  }

  /** A value needs an element found and a known field, and has no surrounding spaces. */
  lemma ExtractValueCases(html: Html, el: Node, field: string, selector: string, attr: Option<string>)
    ensures var r := ExtractValue(html, el, field, selector, attr);
      (html.select(el, selector) == [] ==> r.None?) &&
      (field != "text" && field != "img" && field != "link" ==> r.None?) &&
      (r.Some? ==> Trim(r.value) == r.value)
  {
    var found := SelectFirst(html, el, selector);
    if found.Some? {
      var t := found.value;
      TrimIdempotent(html.text(t));
      TrimIdempotent(html.attr(t, attr.GetOr("src")));
      TrimIdempotent(html.attr(t, attr.GetOr("href")));
      if attr.Some? { TrimIdempotent(html.attr(t, attr.value)); }
    }
  }

  /** The text field prefers a non-empty attribute and falls back to the trimmed text. */
  lemma TextPrefersAttr(html: Html, el: Node, selector: string, attr: string)
    requires html.select(el, selector) != []
    ensures var t := html.select(el, selector)[0];
      var a := Trim(html.attr(t, attr));
      ExtractValue(html, el, "text", selector, Some(attr)) == Some(if a != [] then a else Trim(html.text(t)))
  {
    TrimIdempotent(html.attr(html.select(el, selector)[0], attr));
  }

  /** Without `attr`, `img` and `link` read `src` and `href`. */
  lemma DefaultAttributes(html: Html, el: Node, selector: string)
    requires html.select(el, selector) != []
    ensures var t := html.select(el, selector)[0];
      ExtractValue(html, el, "img", selector, None) == Some(Trim(html.attr(t, "src"))) &&
      ExtractValue(html, el, "link", selector, None) == Some(Trim(html.attr(t, "href")))
  {
  }

  /** The value of a field, when it is to be written: not null and not empty. */
  function Produced(html: Html, el: Node, rule: Rule, field: string): Option<string> {
    if field !in rule.fieldSelectors then None
    else
      var v := ExtractValue(html, el, field, rule.fieldSelectors[field], ResolveAttr(rule, field));
      if v.Some? && v.value != [] then v else None
  }

  /** The produced value as it is stored: a String. */
  function Stored(html: Html, el: Node, rule: Rule, field: string): Option<Json> {
    match Produced(html, el, rule, field)
    case Some(v) => Some(JStr(v))
    case None => None
  }

  /** What `extractFields` writes into `out`: every field with a produced value that `out`
      does not hold yet. */
  function FieldsInto(html: Html, el: Node, rule: Rule, out: Record): Record {
    Collected(out, rule.fieldSelectors.Keys, k => Stored(html, el, rule, k))
  }

  /** The loop of `extractFields` over the field selectors. */
  method ExtractFields(html: Html, el: Node, rule: Rule, out: Record) returns (res: Record)
    ensures res == FieldsInto(html, el, rule, out)
  {
    res := out;
    var todo := rule.fieldSelectors.Keys;
    ghost var done: set<string> := {};
    while todo != {}
      invariant todo + done == rule.fieldSelectors.Keys && todo * done == {}
      invariant res == Collected(out, done, k => Stored(html, el, rule, k))
      decreases todo
    {
      var field :| field in todo;
      var selector := rule.fieldSelectors[field];
      var attr := ResolveAttr(rule, field);
      var value := ExtractValue(html, el, field, selector, attr);
      CollectedStep(out, done, k => Stored(html, el, rule, k), field);
      if value.Some? && value.value != [] && field !in res {
        res := res[field := JStr(value.value)];
      }
      todo := todo - {field};
      done := done + {field};
    }
  }

  /** The item maps of the elements `els`, one per element, in order. */
  function ItemsOver(html: Html, els: seq<Node>, template: Rule): (items: seq<Record>)
    ensures |items| == |els|
  {
    if els == [] then []
    else ItemsOver(html, els[..|els| - 1], template) + [FieldsInto(html, els[|els| - 1], template, map[])]
  }

  /** Item `i` is the map of element `i`. */
  lemma {:induction false} ItemsOverAt(html: Html, els: seq<Node>, template: Rule, i: nat)
    requires i < |els|
    ensures ItemsOver(html, els, template)[i] == FieldsInto(html, els[i], template, map[])
  {
    if i < |els| - 1 {
      ItemsOverAt(html, els[..|els| - 1], template, i);
    }
  }

  /** One item map per element the template's selector finds inside `el`, in selection order,
      without any limit. */
  function ItemsOf(html: Html, el: Node, template: Rule): seq<Record> {
    ItemsOver(html, SelectOrNone(html, el, template.selector), template)
  }

  /** The items as the JSON list stored under `items`. */
  function ItemList(items: seq<Record>): (r: seq<Json>)
    ensures |r| == |items|
    ensures forall k :: 0 <= k < |items| ==> r[k] == JObject(items[k])
  {
    if items == [] then [] else ItemList(items[..|items| - 1]) + [JObject(items[|items| - 1])]
  }

  /** `extractSection`: the section's fields, then `items` when the template found any. */
  function SectionOf(html: Html, el: Node, rule: Rule): Record {
    var fields := FieldsInto(html, el, rule, map[]);
    match rule.itemTemplate
    case None => fields
    case Some(t) =>
      var items := ItemsOf(html, el, t);
      if items == [] then fields else fields["items" := JList(ItemList(items))]
  }

  /** Only `text`, `img` and `link` ever produce a value. */
  lemma FieldsKeys(html: Html, el: Node, rule: Rule, out: Record)
    ensures FieldsInto(html, el, rule, out).Keys <= out.Keys + {"text", "img", "link"}
  {
    forall k | k in FieldsInto(html, el, rule, out) && k !in out ensures k == "text" || k == "img" || k == "link" {
      CollectedEntries(out, rule.fieldSelectors.Keys, f => Stored(html, el, rule, f), k);
      ExtractValueCases(html, el, k, rule.fieldSelectors[k], ResolveAttr(rule, k));
    }
  }

  /** A section holds only `text`, `img`, `link` and `items`. */
  lemma SectionKeys(html: Html, el: Node, rule: Rule)
    ensures SectionOf(html, el, rule).Keys <= {"text", "img", "link", "items"}
  {
    FieldsKeys(html, el, rule, map[]);
  }

  /** `items` is there only for a rule with an item template, and is never an empty list. */
  lemma SectionItems(html: Html, el: Node, rule: Rule)
    ensures "items" in SectionOf(html, el, rule) ==>
      rule.itemTemplate.Some? && SectionOf(html, el, rule)["items"] == JList(ItemList(ItemsOf(html, el, rule.itemTemplate.value))) &&
      ItemsOf(html, el, rule.itemTemplate.value) != []
  {
    var fields := FieldsInto(html, el, rule, map[]);
    FieldsKeys(html, el, rule, map[]);
    assert "items" !in fields;
    if rule.itemTemplate.Some? && ItemsOf(html, el, rule.itemTemplate.value) != [] {
      assert SectionOf(html, el, rule) == fields["items" := JList(ItemList(ItemsOf(html, el, rule.itemTemplate.value)))];
    } else {
      assert SectionOf(html, el, rule) == fields;
    }
  }

  /** The method `extractSection`. */
  method ExtractSection(html: Html, el: Node, rule: Rule) returns (res: Record)
    ensures res == SectionOf(html, el, rule)
  {
    res := ExtractFields(html, el, rule, map[]);
    if rule.itemTemplate.Some? {
      var t := rule.itemTemplate.value;
      var elements := SelectOrNone(html, el, t.selector);
      var items: seq<Record> := [];
      for i := 0 to |elements|
        invariant items == ItemsOver(html, elements[..i], t)
      {
        assert elements[..i + 1][..i] == elements[..i];
        var item := ExtractFields(html, elements[i], t, map[]);
        items := items + [item];
      }
      assert elements[..|elements|] == elements;
      if items != [] {
        res := res["items" := JList(ItemList(items))];
      }
    }
  }

  /** A rule that would produce a record at `el`: it matches and its section is not empty. */
  predicate Productive(html: Html, el: Node, rule: Rule) {
    Matches(html, el, rule.selector) && SectionOf(html, el, rule) != map[]
  }

  /** The record a productive rule gives: its section with `type` added last. */
  function RecordOf(html: Html, el: Node, rule: Rule): Record {
    SectionOf(html, el, rule)["type" := StrOrNull(rule.name)]
  }

  /** What one element yields: the record of the first productive rule, if any. */
  function RecordsAt(html: Html, rules: seq<Rule>, el: Node): (r: seq<Record>)
    ensures |r| <= 1
  {
    if rules == [] then []
    else if Productive(html, el, rules[0]) then [RecordOf(html, el, rules[0])]
    else RecordsAt(html, rules[1..], el)
  }

  /** The rule loop at one element, with its `continue` on an empty section and its `break`
      after the first record. */
  method RulesAt(html: Html, el: Node, rules: seq<Rule>) returns (r: seq<Record>)
    ensures r == RecordsAt(html, rules, el)
  {
    var i := 0;
    while i < |rules|
      invariant 0 <= i <= |rules| && RecordsAt(html, rules, el) == RecordsAt(html, rules[i..], el)
    {
      if Matches(html, el, rules[i].selector) {
        var parsed := ExtractSection(html, el, rules[i]);
        if parsed != map[] {
          parsed := parsed["type" := StrOrNull(rules[i].name)];
          return [parsed];
        }
      }
      assert rules[i..][1..] == rules[i + 1..];
      i := i + 1;
    }
    return [];
  }

  /** The first productive rule gives the element's record. */
  lemma {:induction false} RecordsAtFirst(html: Html, rules: seq<Rule>, el: Node, i: nat)
    requires i < |rules| && Productive(html, el, rules[i])
    requires forall j :: 0 <= j < i ==> !Productive(html, el, rules[j])
    ensures RecordsAt(html, rules, el) == [RecordOf(html, el, rules[i])]
  {
    if i > 0 {
      assert !Productive(html, el, rules[0]);
      forall j | 0 <= j < i - 1 ensures !Productive(html, el, rules[1..][j]) {
        assert rules[1..][j] == rules[j + 1];
      }
      RecordsAtFirst(html, rules[1..], el, i - 1);
    }
  }

  /** With no productive rule the element yields nothing. */
  lemma {:induction false} RecordsAtNone(html: Html, rules: seq<Rule>, el: Node)
    requires forall j :: 0 <= j < |rules| ==> !Productive(html, el, rules[j])
    ensures RecordsAt(html, rules, el) == []
  {
    if rules != [] {
      RecordsAtNone(html, rules[1..], el);
    }
  }

  /** A record comes from a productive rule with no productive rule before it. */
  lemma {:induction false} RecordsAtFrom(html: Html, rules: seq<Rule>, el: Node)
    requires RecordsAt(html, rules, el) != []
    ensures exists i :: (0 <= i < |rules| && Productive(html, el, rules[i]) &&
      (forall j :: 0 <= j < i ==> !Productive(html, el, rules[j])) &&
      RecordsAt(html, rules, el) == [RecordOf(html, el, rules[i])])
  {
    if !Productive(html, el, rules[0]) {
      RecordsAtFrom(html, rules[1..], el);
      var i :| 0 <= i < |rules[1..]| && Productive(html, el, rules[1..][i]) &&
        (forall j :: 0 <= j < i ==> !Productive(html, el, rules[1..][j])) &&
        RecordsAt(html, rules[1..], el) == [RecordOf(html, el, rules[1..][i])];
      assert forall j :: 0 <= j < i + 1 ==> !Productive(html, el, rules[j]) by {
        forall j | 0 < j < i + 1 ensures !Productive(html, el, rules[j]) {
          assert rules[j] == rules[1..][j - 1];
        }
      }
      assert Productive(html, el, rules[i + 1]) && RecordsAt(html, rules, el) == [RecordOf(html, el, rules[i + 1])];
    }
  }

  /** `type` is added to a section that does not hold it: removing it again gives back the
      section, which a productive rule never leaves empty. */
  lemma RecordShape(html: Html, el: Node, rule: Rule)
    ensures "type" !in SectionOf(html, el, rule)
    ensures RecordOf(html, el, rule) - {"type"} == SectionOf(html, el, rule)
    ensures RecordOf(html, el, rule)["type"] == StrOrNull(rule.name)
  {
    SectionKeys(html, el, rule);
    TypeAbsent(SectionOf(html, el, rule));
    AddRemove(SectionOf(html, el, rule), "type", StrOrNull(rule.name));
  }

  /** None of a section's keys is `type`. */
  lemma TypeAbsent(s: Record)
    requires s.Keys <= {"text", "img", "link", "items"}
    ensures "type" !in s
  {
  }

  /** Adding a key a map does not hold and removing it again gives back the map. */
  lemma AddRemove(s: Record, key: string, v: Json)
    requires key !in s
    ensures s[key := v] - {key} == s
  {
  }

  /** A rule whose selector throws never yields the record: dropping it changes nothing. */
  lemma {:induction false} ThrowingSelectorSkipped(html: Html, rules: seq<Rule>, el: Node, k: nat)
    requires k < |rules| && rules[k].selector.Some? && html.matches(el, rules[k].selector.value).None?
    ensures RecordsAt(html, rules, el) == RecordsAt(html, rules[..k] + rules[k + 1..], el)
  {
    var others := rules[..k] + rules[k + 1..];
    if k > 0 {
      assert others[0] == rules[0];
      assert rules[1..][..k - 1] + rules[1..][k..] == others[1..];
      ThrowingSelectorSkipped(html, rules[1..], el, k - 1);
    } else {
      assert others == rules[1..];
    }
  }

  /** The recursive `traverse`: the element's record, if any, then its children's, appended to
      `result`. */
  method Traverse(html: Html, node: Node, rules: seq<Rule>, result: seq<Record>) returns (out: seq<Record>)
    ensures out == result + Walk(node, e => RecordsAt(html, rules, e))
    decreases node
  {
    out := result;
    if node.Leaf? { return; }
    var here := RulesAt(html, node, rules);
    out := out + here;
    var cs := node.children;
    for k := 0 to |cs|
      invariant out == result + here + WalkAll(cs[..k], e => RecordsAt(html, rules, e))
    {
      assert cs[..k + 1][..k] == cs[..k];
      out := Traverse(html, cs[k], rules, out);
    }
    assert cs[..|cs|] == cs;
  }

  /** `extract`: the records of the whole body, one per element at most, in document order. */
  method Extract(html: Html, body: Node, rules: seq<Rule>) returns (result: seq<Record>)
    ensures result == FlatMap(PreOrder(body), e => RecordsAt(html, rules, e))
  {
    result := Traverse(html, body, rules, []);
    WalkIsPreOrder(body, e => RecordsAt(html, rules, e));
  }
}
