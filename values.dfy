/** The loosely typed values the rule model stores and the extractors emit. */
module Values {
  import opened Wrappers
  import opened JavaString

  /** An option value: a String, an Integer, Boolean.TRUE (a bare flag) or a List of Strings. */
  datatype OptValue = OStr(s: string) | OInt(i: int) | OTrue | OList(items: seq<string>)

  /** An option set, keyed by option name. */
  type OptionMap = map<string, OptValue>

  /** `String.valueOf(v)`, which is `v.toString()` for each kind of value. */
  function ValueOf(v: OptValue): string {
    match v
    case OStr(s) => s
    case OInt(i) => IntToString(i)
    case OTrue => "true"
    case OList(items) => "[" + Join(items, ", ") + "]"
  }

  /** The objects a record holds, as a JSON-like tree (`null`, String, Integer, Boolean, List, Map). */
  datatype Json =
    | JNull
    | JStr(s: string)
    | JInt(i: int)
    | JBool(b: bool)
    | JList(items: seq<Json>)
    | JObject(fields: map<string, Json>)

  /** An option value placed into a record unchanged. */
  function OptionJson(v: OptValue): Json {
    match v
    case OStr(s) => JStr(s)
    case OInt(i) => JInt(i)
    case OTrue => JBool(true)
    case OList(items) => JList(seq(|items|, k requires 0 <= k < |items| => JStr(items[k])))
  }

  /** A possibly-null String as a record value. */
  function StrOrNull(s: Option<string>): Json {
    match s
    case Some(v) => JStr(v)
    case None => JNull
  }
}

/** A compiled rule node (section or item template), as the value the parsers produce. */
module Rules {
  import opened Wrappers
  import opened Values

  /** `name` and `selector` may be null; `fieldSelectors` maps a field name to its selector,
      `fieldOptions` a field name to its options; `itemTemplate` is the nested items rule and
      `sectionOptions` the options of the node as a whole (null where the source leaves it null). */
  datatype Rule = Rule(
    name: Option<string>,
    selector: Option<string>,
    fieldSelectors: map<string, string>,
    fieldOptions: map<string, OptionMap>,
    itemTemplate: Option<Rule>,
    sectionOptions: Option<OptionMap>)

  /** The three field names every parser accepts, in the order the extractors list them. */
  const Fields: seq<string> := ["text", "img", "link"]
}

/** The parsed HTML document, reduced to what the engines ask of jsoup. */
module Dom {
  import opened Wrappers

  /** A node of the document: an element with its child nodes in document order, or a leaf
      (text, comment, data) which has no children. `id` tells equal-looking nodes apart. */
  datatype Node = Element(id: nat, children: seq<Node>) | Leaf(id: nat)

  /** The HTML library's contract, left uninterpreted:
      `matches(el, sel)` is jsoup's `el.is(sel)`, the single-element selector test (None: the selector throws);
      `select(el, sel)` the matches of `sel` inside `el`, in document order;
      `text(el)` the rendered text and `attr(el, name)` the attribute value ("" when absent). */
  datatype Html = Html(
    matches: (Node, string) -> Option<bool>,
    select: (Node, string) -> seq<Node>,
    text: Node -> string,
    attr: (Node, string) -> string)

  /** `selectFirst`: the first match, or null. */
  function SelectFirst(html: Html, el: Node, sel: string): (r: Option<Node>)
    ensures r.None? <==> html.select(el, sel) == []
    ensures r.Some? ==> r.value == html.select(el, sel)[0]
  {
    var all := html.select(el, sel);
    if all == [] then None else Some(all[0])
  }

  /** An engine's `matches(el, selector)`: jsoup's `el.is(selector)`, where a selector that
      throws (a null one included) is no match. */
  predicate Matches(html: Html, el: Node, selector: Option<string>) {
    selector.Some? && html.matches(el, selector.value) == Some(true)
  }

  /** A selector that may be null: jsoup rejects a null selector, which the model reads as no match. */
  function SelectOrNone(html: Html, el: Node, sel: Option<string>): seq<Node> {
    match sel
    case Some(s) => html.select(el, s)
    case None => []
  }
}
