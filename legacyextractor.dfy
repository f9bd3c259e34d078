/** The engine of the line-based pipeline: a pre-order walk of the page body in which EVERY rule
    that matches an element adds a record; extracted values are wrapped in `Result` maps that
    carry the readable options beside the value. */
module LegacyExtractor {
  import opened Wrappers
  import opened JavaString
  import opened Values
  import opened Rules
  import opened Dom
  import opened OptionKeys
  import opened ResultMap
  import opened Traversal
  import opened FieldLoop

  /** A record: key to value, in the order-free form of a map. */
  type Record = map<string, Json>

  /** The readable entries of an option set: every option that is not executable, as a value. */
  function Readable(opts: OptionMap): Record {
    map k | k in opts && !Executable(k) :: OptionJson(opts[k])
  }

  /** Only `attr` and `limit` are held back; every other option is copied unchanged. */
  lemma ReadableKeys(opts: OptionMap, k: string)
    ensures k in Readable(opts) <==> k in opts && k != "attr" && k != "limit"
    ensures k in Readable(opts) ==> Readable(opts)[k] == OptionJson(opts[k])
  {
    ExecutableKeys(k);
  }

  /** `new Result(value)` followed by a `put` of each readable option: the options join the
      value, and an option named `value` throws. */
  function ResultWith(value: Json, opts: Record): Try<Record> {
    if ValueKey in opts then Throws(UnsupportedOperation) else Ok(opts[ValueKey := value])
  }

  /** A built result holds the value under `value` and exactly the options besides. */
  lemma ResultWithParts(value: Json, opts: Record)
    ensures ResultWith(value, opts).Ok? <==> ValueKey !in opts
    ensures ResultWith(value, opts).Ok? ==>
      ValueKey in ResultWith(value, opts).value && ResultWith(value, opts).value[ValueKey] == value &&
      ResultWith(value, opts).value - {ValueKey} == opts
    ensures ResultWith(value, opts).Throws? ==> ResultWith(value, opts).exception == UnsupportedOperation
  {
    if ValueKey !in opts {
      assert opts[ValueKey := value] - {ValueKey} == opts;
    }
  }

  /** The construction on the `Result` class itself: the constructor, then one `put` per option
      in map order; the first `put` of `value` throws. */
  method BuildResult(value: Json, opts: Record) returns (t: Try<Record>)
    ensures t == ResultWith(value, opts)
  {
    var result := new Result(value);
    var todo := opts.Keys;
    ghost var done: set<string> := {};
    while todo != {}
      invariant todo + done == opts.Keys && todo * done == {}
      invariant ValueKey !in done
      invariant result.entries == (map k | k in done :: opts[k])[ValueKey := value]
      decreases todo
    {
      var key :| key in todo;
      var put := result.Put(key, opts[key]);
      if put.Throws? {
        return Throws(put.exception);
      }
      todo := todo - {key};
      done := done + {key};
    }
    assert (map k | k in done :: opts[k]) == opts;
    return Ok(result.entries);
  }

  /** `getFieldOptions`: the option set of a field, or null. */
  function FieldOptions(rule: Rule, field: string): Option<OptionMap> {
    if field in rule.fieldOptions then Some(rule.fieldOptions[field]) else None
  }

  /** `resolveAttr`: the string form of the field's `attr` option, or null. */
  function ResolveAttr(rule: Rule, field: string): Option<string> {
    match FieldOptions(rule, field)
    case Some(o) => if "attr" in o then Some(ValueOf(o["attr"])) else None
    case None => None
  }

  /** The raw value in `extractValue`: null when the selector finds nothing or the field is not
      `text`, `img` or `link`; else the trimmed attribute named by `attr` (`text` falls back to
      the text only when `attr` is absent; `img` and `link` default to `src` and `href`). */
  function RawValue(html: Html, el: Node, field: string, selector: string, attr: Option<string>): Option<string> {
    match SelectFirst(html, el, selector)
    case None => None
    case Some(target) =>
      if field == "text" then
        if attr.Some? then Some(Trim(html.attr(target, attr.value))) else Some(Trim(html.text(target)))
      else if field == "img" then Some(Trim(html.attr(target, attr.GetOr("src"))))
      else if field == "link" then Some(Trim(html.attr(target, attr.GetOr("href"))))
      else None
  }

  /** With `attr` set, a text field takes the trimmed attribute even when it is empty. */
  lemma TextTakesAttr(html: Html, el: Node, selector: string, attr: string)
    requires html.select(el, selector) != []
    ensures RawValue(html, el, "text", selector, Some(attr)) ==
      Some(Trim(html.attr(html.select(el, selector)[0], attr)))
  {
  }

  /** A raw value needs an element found and a known field. */
  lemma RawValueNull(html: Html, el: Node, field: string, selector: string, attr: Option<string>)
    ensures html.select(el, selector) == [] ==> RawValue(html, el, field, selector, attr).None?
    ensures field != "text" && field != "img" && field != "link" ==> RawValue(html, el, field, selector, attr).None?
    ensures html.select(el, selector) != [] && (field == "text" || field == "img" || field == "link") ==>
      RawValue(html, el, field, selector, attr).Some?
  {
  }

  /** `extractValue`: null without a raw value; otherwise a `Result` of the value with the
      field's readable options. */
  function ExtractValue(html: Html, el: Node, field: string, selector: string, rule: Rule): Try<Option<Record>> {
    match RawValue(html, el, field, selector, ResolveAttr(rule, field))
    case None => Ok(None)
    case Some(v) =>
      var r :- ResultWith(JStr(v), Readable(FieldOptions(rule, field).GetOr(map[])));
      Ok(Some(r))
  }

  /** A field throws exactly when it has a raw value and an option named `value`; the result
      otherwise holds the value and the readable options. */
  lemma ExtractValueCases(html: Html, el: Node, field: string, selector: string, rule: Rule)
    ensures var raw := RawValue(html, el, field, selector, ResolveAttr(rule, field));
      var opts := FieldOptions(rule, field).GetOr(map[]);
      var r := ExtractValue(html, el, field, selector, rule);
      (r.Throws? <==> raw.Some? && ValueKey in opts) &&
      (r.Throws? ==> r.exception == UnsupportedOperation) &&
      (r.Ok? && r.value.Some? ==> raw.Some? && r.value.value[ValueKey] == JStr(raw.value) &&
                                  r.value.value - {ValueKey} == Readable(opts)) &&
      (r.Ok? && r.value.None? <==> raw.None?)
  {
    var raw := RawValue(html, el, field, selector, ResolveAttr(rule, field));
    var opts := FieldOptions(rule, field).GetOr(map[]);
    ReadableKeys(opts, ValueKey);
    assert !Executable(ValueKey) by { ExecutableKeys(ValueKey); }
    if raw.Some? {
      ResultWithParts(JStr(raw.value), Readable(opts));
    }
  }

  /** The only exception a field can raise is the `Result` refusing to overwrite `value`. */
  lemma ExtractValueThrows(html: Html, el: Node, field: string, selector: string, rule: Rule)
    ensures ExtractValue(html, el, field, selector, rule).Throws? ==>
      ExtractValue(html, el, field, selector, rule).exception == UnsupportedOperation
  {
  }

  /** What the loop gets for one field: null when there is no selector for it. */
  function FieldOutcome(html: Html, el: Node, rule: Rule, field: string): Try<Option<Record>> {
    if field in rule.fieldSelectors then ExtractValue(html, el, field, rule.fieldSelectors[field], rule)
    else Ok(None)
  }

  /** The stored value of a field: any result that is not null, since a `Result` is never
      empty. */
  function Stored(html: Html, el: Node, rule: Rule, field: string): Option<Json> {
    match FieldOutcome(html, el, rule, field)
    case Ok(Some(r)) => Some(JObject(r))
    case _ => None
  }

  /** `extractFields` writing into `out`: it throws when some field's result throws, and
      otherwise adds every field with a result that `out` does not hold yet. */
  function FieldsInto(html: Html, el: Node, rule: Rule, out: Record): Try<Record> {
    if AnyFails(rule.fieldSelectors.Keys, k => FieldOutcome(html, el, rule, k).Throws?)
    then Throws(UnsupportedOperation)
    else Ok(Collected(out, rule.fieldSelectors.Keys, k => Stored(html, el, rule, k)))
  }

  /** The loop of `extractFields` over the field selectors. */
  method ExtractFields(html: Html, el: Node, rule: Rule, out: Record) returns (res: Try<Record>)
    ensures res == FieldsInto(html, el, rule, out)
  {
    var acc := out;
    var todo := rule.fieldSelectors.Keys;
    ghost var done: set<string> := {};
    while todo != {}
      invariant todo + done == rule.fieldSelectors.Keys && todo * done == {}
      invariant !AnyFails(done, k => FieldOutcome(html, el, rule, k).Throws?)
      invariant acc == Collected(out, done, k => Stored(html, el, rule, k))
      decreases todo
    {
      var field :| field in todo;
      var selector := rule.fieldSelectors[field];
      var value := ExtractValue(html, el, field, selector, rule);
      AnyFailsStep(done, k => FieldOutcome(html, el, rule, k).Throws?, field);
      if value.Throws? {
        ExtractValueThrows(html, el, field, selector, rule);
        assert AnyFails(rule.fieldSelectors.Keys, k => FieldOutcome(html, el, rule, k).Throws?) by {
          assert field in rule.fieldSelectors.Keys;
        }
        return Throws(value.exception);
      }
      CollectedStep(out, done, k => Stored(html, el, rule, k), field);
      if value.value.Some? && field !in acc {
        acc := acc[field := JObject(value.value.value)];
      }
      todo := todo - {field};
      done := done + {field};
    }
    return Ok(acc);
  }

  /** A field with a raw value is stored even when that value is the empty string: the
      emptiness test looks at the `Result` map, which always holds `value`. */
  lemma EmptyValueStored(html: Html, el: Node, rule: Rule, field: string)
    requires field in rule.fieldSelectors
    requires RawValue(html, el, field, rule.fieldSelectors[field], ResolveAttr(rule, field)) == Some("")
    requires FieldsInto(html, el, rule, map[]).Ok?
    ensures field in FieldsInto(html, el, rule, map[]).value
    ensures FieldsInto(html, el, rule, map[]).value[field].JObject?
    ensures FieldsInto(html, el, rule, map[]).value[field].fields[ValueKey] == JStr("")
  {
    var sel := rule.fieldSelectors[field];
    ExtractValueCases(html, el, field, sel, rule);
    assert !FieldOutcome(html, el, rule, field).Throws?;
    CollectedEntries(map[], rule.fieldSelectors.Keys, k => Stored(html, el, rule, k), field);
  }

  /** `resolveLimit`: -1 without a `limit` option, else the option's string form read by
      `Long.parseLong`, which throws on anything but a long. */
  function ResolveLimit(template: Rule): Try<int> {
    match template.sectionOptions
    case None => Ok(-1)
    case Some(o) =>
      if LimitKey() !in o then Ok(-1)
      else match ParseInteger(ValueOf(o[LimitKey()]), LongMin, LongMax)
        case None => Throws(NumberFormat)
        case Some(n) => Ok(n)
  }

  /** The `limit` option's key. */
  function LimitKey(): string {
    Key(Limit)
  }

  /** How many of `n` found items the loop extracts: all of them unless the limit is positive. */
  function Capped(n: nat, limit: int): (k: nat)
    ensures k <= n
    ensures limit > 0 ==> k <= limit
    ensures k < n ==> limit > 0 && k == limit
  {
    if limit > 0 && limit < n then limit else n
  }

  /** The item maps of the elements `els`, in order; the first throwing item ends the list. */
  function ItemsOver(html: Html, els: seq<Node>, template: Rule): Try<seq<Record>> {
    if els == [] then Ok([])
    else
      var init :- ItemsOver(html, els[..|els| - 1], template);
      var last :- FieldsInto(html, els[|els| - 1], template, map[]);
      Ok(init + [last])
  }

  /** Without a throw, there is one item per element, each the element's field map. */
  lemma {:induction false} ItemsOverOk(html: Html, els: seq<Node>, template: Rule, i: nat)
    requires ItemsOver(html, els, template).Ok?
    ensures |ItemsOver(html, els, template).value| == |els|
    ensures i < |els| ==> (FieldsInto(html, els[i], template, map[]).Ok? &&
      ItemsOver(html, els, template).value[i] == FieldsInto(html, els[i], template, map[]).value)
  {
    if els != [] {
      var init := els[..|els| - 1];
      if i < |init| {
        ItemsOverOk(html, init, template, i);
        assert init[i] == els[i];
      } else {
        ItemsOverOk(html, init, template, 0);
      }
    }
  }

  /** Once the items so far throw, the remaining elements change nothing. */
  lemma {:induction false} ItemsOverPrefixThrows(html: Html, els: seq<Node>, template: Rule, k: nat)
    requires k <= |els| && ItemsOver(html, els[..k], template).Throws?
    ensures ItemsOver(html, els, template) == ItemsOver(html, els[..k], template)
    decreases |els|
  {
    if k < |els| {
      assert els[..|els| - 1][..k] == els[..k];
      ItemsOverPrefixThrows(html, els[..|els| - 1], template, k);
    } else {
      assert els[..k] == els;
    }
  }

  /** One more element: its item joins the items so far, or its exception ends the list. */
  lemma ItemsOverNext(html: Html, els: seq<Node>, template: Rule, i: nat)
    requires i < |els|
    ensures ItemsOver(html, els[..i + 1], template) ==
      (var init :- ItemsOver(html, els[..i], template);
       var last :- FieldsInto(html, els[i], template, map[]);
       Ok(init + [last]))
  {
    assert els[..i + 1][..i] == els[..i];
  }

  /** An element whose item throws, after items that did not, ends any longer list with its
      exception. */
  lemma ItemsOverThrowsAt(html: Html, els: seq<Node>, template: Rule, i: nat, cap: nat)
    requires i < cap <= |els| && ItemsOver(html, els[..i], template).Ok?
    requires FieldsInto(html, els[i], template, map[]).Throws?
    ensures ItemsOver(html, els[..cap], template) == FieldsInto(html, els[i], template, map[]).PropagateFailure()
  {
    ItemsOverNext(html, els, template, i);
    assert els[..cap][..i + 1] == els[..i + 1];
    ItemsOverPrefixThrows(html, els[..cap], template, i + 1);
  }

  /** The items a template yields inside `el`: the limit is resolved first, then the first
      `Capped` elements found are extracted. */
  function ItemsOf(html: Html, el: Node, template: Rule): Try<seq<Record>> {
    var limit :- ResolveLimit(template);
    var els := SelectOrNone(html, el, template.selector);
    ItemsOver(html, els[..Capped(|els|, limit)], template)
  }

  /** With a positive limit, at most that many items; without one, every element found. */
  lemma ItemsOfCount(html: Html, el: Node, template: Rule)
    requires ItemsOf(html, el, template).Ok?
    ensures var els := SelectOrNone(html, el, template.selector);
      var limit := ResolveLimit(template).value;
      |ItemsOf(html, el, template).value| == Capped(|els|, limit) &&
      (limit > 0 ==> |ItemsOf(html, el, template).value| <= limit) &&
      (limit <= 0 ==> |ItemsOf(html, el, template).value| == |els|)
  {
    var els := SelectOrNone(html, el, template.selector);
    var limit := ResolveLimit(template).value;
    ItemsOverOk(html, els[..Capped(|els|, limit)], template, 0);
  }

  /** The items as the JSON list wrapped in the items `Result`. */
  function ItemList(items: seq<Record>): (r: seq<Json>)
    ensures |r| == |items|
    ensures forall k :: 0 <= k < |items| ==> r[k] == JObject(items[k])
  {
    if items == [] then [] else ItemList(items[..|items| - 1]) + [JObject(items[|items| - 1])]
  }

  /** The readable section options of a rule; none when it has no section options. */
  function SectionReadable(rule: Rule): Record {
    match rule.sectionOptions
    case None => map[]
    case Some(o) => Readable(o)
  }

  /** `extractSection`: the section's fields, then, for a rule with an item template and at
      least one item, `items` holding a `Result` of the item list with the template's readable
      section options. */
  function SectionOf(html: Html, el: Node, rule: Rule): Try<Record> {
    var fields :- FieldsInto(html, el, rule, map[]);
    match rule.itemTemplate
    case None => Ok(fields)
    case Some(t) =>
      var items :- ItemsOf(html, el, t);
      if items == [] then Ok(fields)
      else
        var wrapped :- ResultWith(JList(ItemList(items)), SectionReadable(t));
        Ok(fields["items" := JObject(wrapped)])
  }

  /** The item loop of `extractSection`: the limit is resolved, then items are extracted until
      the elements run out or a positive limit is reached. */
  method ExtractItems(html: Html, el: Node, t: Rule) returns (res: Try<seq<Record>>)
    ensures res == ItemsOf(html, el, t)
  {
    var elements := SelectOrNone(html, el, t.selector);
    var items: seq<Record> := [];
    var limit := ResolveLimit(t);
    if limit.Throws? {
      return Throws(limit.exception);
    }
    var cap := Capped(|elements|, limit.value);
    var i := 0;
    while i < |elements|
      invariant 0 <= i <= cap
      invariant ItemsOver(html, elements[..i], t) == Ok(items)
    {
      if limit.value > 0 && i >= limit.value {
        break;
      }
      var item := ExtractFields(html, elements[i], t, map[]);
      ItemsOverNext(html, elements, t, i);
      if item.Throws? {
        ItemsOverThrowsAt(html, elements, t, i, cap);
        return Throws(item.exception);
      }
      items := items + [item.value];
      i := i + 1;
    }
    assert i == cap;
    return Ok(items);
  }

  /** The method `extractSection`. */
  method ExtractSection(html: Html, el: Node, rule: Rule) returns (res: Try<Record>)
    ensures res == SectionOf(html, el, rule)
  {
    var fields := ExtractFields(html, el, rule, map[]);
    if fields.Throws? {
      return fields;
    }
    var result := fields.value;
    if rule.itemTemplate.Some? {
      var t := rule.itemTemplate.value;
      var items := ExtractItems(html, el, t);
      if items.Throws? {
        return Throws(items.exception);
      }
      if items.value != [] {
        var wrapped := BuildResult(JList(ItemList(items.value)), SectionReadable(t));
        if wrapped.Throws? {
          return Throws(wrapped.exception);
        }
        result := result["items" := JObject(wrapped.value)];
      }
    }
    return Ok(result);
  }

  /** The record a matching rule adds: `section` set to the rule's name, then the readable
      section options, then the extracted section, each layer overriding the one before. */
  function RecordOf(html: Html, el: Node, rule: Rule): Try<Record> {
    var section :- SectionOf(html, el, rule);
    Ok(map["section" := StrOrNull(rule.name)] + SectionReadable(rule) + section)
  }

  /** What one element yields: a record for every matching rule, in rule order; the first
      throw ends the whole extraction. */
  function RecordsAt(html: Html, rules: seq<Rule>, el: Node): Try<seq<Record>> {
    if rules == [] then Ok([])
    else if Matches(html, el, rules[0].selector) then
      var first :- RecordOf(html, el, rules[0]);
      var rest :- RecordsAt(html, rules[1..], el);
      Ok([first] + rest)
    else RecordsAt(html, rules[1..], el)
  }

  /** How many rules match the element. */
  function MatchCount(html: Html, rules: seq<Rule>, el: Node): nat {
    if rules == [] then 0
    else (if Matches(html, el, rules[0].selector) then 1 else 0) + MatchCount(html, rules[1..], el)
  }

  /** Without a throw, an element yields exactly one record per matching rule. */
  lemma {:induction false} RecordsAtCount(html: Html, rules: seq<Rule>, el: Node)
    requires RecordsAt(html, rules, el).Ok?
    ensures |RecordsAt(html, rules, el).value| == MatchCount(html, rules, el)
  {
    if rules != [] {
      RecordsAtCount(html, rules[1..], el);
    }
  }

  /** A rule that does not match adds nothing: dropping it changes nothing. */
  lemma {:induction false} UnmatchedSkipped(html: Html, rules: seq<Rule>, el: Node, k: nat)
    requires k < |rules| && !Matches(html, el, rules[k].selector)
    ensures RecordsAt(html, rules, el) == RecordsAt(html, rules[..k] + rules[k + 1..], el)
  {
    var others := rules[..k] + rules[k + 1..];
    if k > 0 {
      assert others[0] == rules[0];
      assert rules[1..][..k - 1] + rules[1..][k..] == others[1..];
      UnmatchedSkipped(html, rules[1..], el, k - 1);
    } else {
      assert others == rules[1..];
    }
  }

  /** Layering of a record: extracted keys win, then readable section options, and `section`
      holds the rule's name unless a readable option of that name replaced it. */
  lemma RecordLayers(html: Html, el: Node, rule: Rule, k: string)
    requires RecordOf(html, el, rule).Ok?
    ensures var r := RecordOf(html, el, rule).value;
      var s := SectionOf(html, el, rule).value;
      "section" in r &&
      (k in s ==> k in r && r[k] == s[k]) &&
      (k !in s && k in SectionReadable(rule) ==> k in r && r[k] == SectionReadable(rule)[k]) &&
      ("section" !in s && "section" !in SectionReadable(rule) ==> r["section"] == StrOrNull(rule.name))
  {
  }

  /** The rule loop at one element: no `break`, so every matching rule is applied. */
  method RulesAt(html: Html, el: Node, rules: seq<Rule>) returns (r: Try<seq<Record>>)
    ensures r == RecordsAt(html, rules, el)
  {
    var acc: seq<Record> := [];
    var i := 0;
    assert rules[0..] == rules;
    PrependEmpty(RecordsAt(html, rules, el));
    while i < |rules|
      invariant 0 <= i <= |rules|
      invariant RecordsAt(html, rules, el) == (var rest :- RecordsAt(html, rules[i..], el); Ok(acc + rest))
    {
      assert rules[i..][1..] == rules[i + 1..];
      if Matches(html, el, rules[i].selector) {
        var section := ExtractSection(html, el, rules[i]);
        if section.Throws? {
          return Throws(section.exception);
        }
        var parsed := map["section" := StrOrNull(rules[i].name)] + SectionReadable(rules[i]) + section.value;
        assert RecordOf(html, el, rules[i]) == Ok(parsed);
        AppendAssoc(acc, [parsed], RecordsAt(html, rules[i + 1..], el));
        acc := acc + [parsed];
      }
      i := i + 1;
    }
    assert rules[i..] == [];
    assert acc + [] == acc;
    return Ok(acc);
  }

  /** Prepending nothing to an outcome changes nothing. */
  lemma PrependEmpty(t: Try<seq<Record>>)
    ensures (var x :- t; Ok([] + x)) == t
  {
    if t.Ok? {
      assert [] + t.value == t.value;
    }
  }

  /** Prepending `a` then `b` to an outcome is prepending `a + b`. */
  lemma AppendAssoc(a: seq<Record>, b: seq<Record>, t: Try<seq<Record>>)
    ensures (var rest :- (var x :- t; Ok(b + x)); Ok(a + rest)) == (var x :- t; Ok((a + b) + x))
  {
    if t.Ok? {
      assert a + (b + t.value) == (a + b) + t.value;
    }
  }

  /** The recursive `traverse`: the element's records, then its children's, appended to
      `result`; an exception ends the walk. */
  method Traverse(html: Html, node: Node, rules: seq<Rule>, result: seq<Record>) returns (out: Try<seq<Record>>)
    ensures out == (var w :- WalkTry(node, e => RecordsAt(html, rules, e)); Ok(result + w))
    decreases node
  {
    if node.Leaf? {
      assert result + [] == result;
      return Ok(result);
    }
    var here := RulesAt(html, node, rules);
    if here.Throws? {
      return Throws(here.exception);
    }
    var acc := result + here.value;
    var cs := node.children;
    for k := 0 to |cs|
      invariant WalkAllTry(cs[..k], e => RecordsAt(html, rules, e)).Ok?
      invariant acc == result + here.value + WalkAllTry(cs[..k], e => RecordsAt(html, rules, e)).value
    {
      WalkAllTryNext(cs, k, e => RecordsAt(html, rules, e));
      var next := Traverse(html, cs[k], rules, acc);
      if next.Throws? {
        WalkAllTryPrefixThrows(cs, k + 1, e => RecordsAt(html, rules, e));
        return Throws(next.exception);
      }
      acc := next.value;
    }
    assert cs[..|cs|] == cs;
    assert acc == result + (here.value + WalkAllTry(cs, e => RecordsAt(html, rules, e)).value);
    return Ok(acc);
  }

  /** `extract`: the records of the whole body in document order, or the first exception. */
  method Extract(html: Html, body: Node, rules: seq<Rule>) returns (result: Try<seq<Record>>)
    ensures result == FlatMapTry(PreOrder(body), e => RecordsAt(html, rules, e))
  {
    result := Traverse(html, body, rules, []);
    WalkTryIsPreOrder(body, e => RecordsAt(html, rules, e));
    PrependEmpty(WalkTry(body, e => RecordsAt(html, rules, e)));
  }
}
