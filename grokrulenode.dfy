/** The immutable rule node of the ordered extractor: maps are copied in, copied out, and
    missing parts are replaced by empty ones. */
module GrokRuleNode {
  import opened Wrappers
  import opened JavaString
  import opened Values

  class Options {
    var values: OptionMap

    constructor ()
      ensures values == map[]
    {
      values := map[];
    }

    /** `put` overwrites and answers the same object, so calls can be chained. */
    method Put(key: string, value: OptValue) returns (self: Options)
      modifies this
      ensures values == old(values)[key := value]
      ensures self == this
    {
      values := values[key := value];
      self := this;
    }
  }

  /** `getString`: the value's string form, or null when the key is absent. */
  function GetString(values: OptionMap, key: string): (r: Option<string>)
    ensures r.None? <==> key !in values
    ensures r.Some? ==> r.value == ValueOf(values[key])
  {
    if key in values then Some(ValueOf(values[key])) else None
  }

  /** `getInt`: the value's string form read as an int; null when the key is absent or the
      string is not an int. */
  function GetInt(values: OptionMap, key: string): (r: Option<int>)
    ensures r.Some? ==> key in values && IntMin <= r.value <= IntMax
    ensures key !in values ==> r.None?
  {
    match GetString(values, key)
    case None => None
    case Some(s) => ParseInt(s)
  }

  /** An int stored under a key is read back by `getInt`. */
  lemma GetIntOfInt(values: OptionMap, key: string, i: int)
    requires IntMin <= i <= IntMax
    ensures GetInt(values[key := OInt(i)], key) == Some(i)
  {
    ParseIntToString(i);
  }

  /** A number written as text under a key is read back by `getInt` too. */
  lemma GetIntOfNumberText(values: OptionMap, key: string, i: int)
    requires IntMin <= i <= IntMax
    ensures GetInt(values[key := OStr(IntToString(i))], key) == Some(i)
  {
    ParseIntToString(i);
  }

  /** A value whose string form is not an optional sign followed by digits reads as null
      (the NumberFormatException is caught). */
  lemma GetIntOfNonNumber(values: OptionMap, key: string)
    requires key in values
    requires var v := ValueOf(values[key]);
             v == [] || (v[0] != '-' && v[0] != '+' && !IsDigit(v[0])) ||
             (exists k :: 1 <= k < |v| && !IsDigit(v[k]))
    ensures GetInt(values, key) == None
  {
    var v := ValueOf(values[key]);
    var signed := |v| > 0 && (v[0] == '-' || v[0] == '+');
    var digits := if signed then v[1..] else v;
    if digits != [] {
      if !signed && !IsDigit(v[0]) {
        assert !IsDigit(digits[0]);
      } else {
        var k :| 1 <= k < |v| && !IsDigit(v[k]);
        if signed {
          assert !IsDigit(digits[k - 1]);
        } else {
          assert !IsDigit(digits[k]);
        }
      }
    }
    assert |digits| == 0 || !AllDigits(digits);
    assert ParseInteger(v, IntMin, IntMax) == None;
    assert GetString(values, key) == Some(v);
  }

  /** Digits beyond the int range read as null. */
  lemma GetIntOutOfRange(values: OptionMap, key: string, n: nat)
    requires key in values && ValueOf(values[key]) == NatToString(n) && n > IntMax
    ensures GetInt(values, key) == None
  {
    NatToStringValue(n);
  }

  /** Drops the leading `\s` run of a piece. */
  function DropLeadingSpaces(s: string): (r: string)
    ensures |r| <= |s| && r == s[|s| - |r|..]
    ensures r == [] || !IsSpace(r[0])
  {
    if s != [] && IsSpace(s[0]) then DropLeadingSpaces(s[1..]) else s
  }

  /** `s.split(",\\s*")`: cut at each comma together with the whitespace after it; trailing
      empty pieces are dropped, and a string without a comma is the only piece. */
  function SplitCommaSpaces(s: string): (r: seq<string>)
    ensures ',' !in s ==> r == [s]
    ensures forall k :: 0 <= k < |r| ==> ',' !in r[k]
    ensures forall k :: 1 <= k < |r| ==> r[k] == [] || !IsSpace(r[k][0])
  {
    if ',' !in s then [s]
    else
      var parts := SplitAll(s, ',');
      assert forall k :: 0 <= k < |parts| ==> ',' !in parts[k] by {
        forall k | 0 <= k < |parts| ensures ',' !in parts[k] { SplitAllNoSep(s, ',', k); }
      }
      DropTrailingEmpty(StripAfterFirst(parts))
  }

  /** Every piece but the first loses the whitespace the separator swallowed. */
  function StripAfterFirst(parts: seq<string>): (r: seq<string>)
    requires forall k :: 0 <= k < |parts| ==> ',' !in parts[k]
    ensures |r| == |parts|
    ensures forall k :: 0 <= k < |r| ==> r[k] == if k == 0 then parts[0] else DropLeadingSpaces(parts[k])
    ensures forall k :: 0 <= k < |r| ==> ',' !in r[k]
  {
    seq(|parts|, k requires 0 <= k < |parts| => if k == 0 then parts[0] else DropLeadingSpaces(parts[k]))
  }

  /** `getList`: a stored list as it is, any other value's string form split on `,\s*`, and an
      empty list when the key is absent. */
  function GetList(values: OptionMap, key: string): (r: seq<string>)
    ensures key !in values ==> r == []
    ensures key in values && values[key].OList? ==> r == values[key].items
    ensures key in values && !values[key].OList? ==> forall k :: 0 <= k < |r| ==> ',' !in r[k]
  {
    if key !in values then []
    else match values[key]
      case OList(items) => items
      case _ => SplitCommaSpaces(ValueOf(values[key]))
  }

  /** A comma-separated string of items is read back item by item by `getList`, when the items
      hold no comma, no item after the first starts with whitespace, and the last is not empty. */
  lemma GetListOfJoined(values: OptionMap, key: string, items: seq<string>)
    requires |items| >= 1
    requires forall k :: 0 <= k < |items| ==> ',' !in items[k]
    requires forall k :: 1 <= k < |items| ==> items[k] != [] && !IsSpace(items[k][0])
    requires items[|items| - 1] != [] || |items| == 1
    ensures GetList(values[key := OStr(Join(items, ","))], key) == items
  {
    SplitCommaSpacesJoin(items);
  }

  lemma SplitCommaSpacesJoin(items: seq<string>)
    requires |items| >= 1
    requires forall k :: 0 <= k < |items| ==> ',' !in items[k]
    requires forall k :: 1 <= k < |items| ==> items[k] != [] && !IsSpace(items[k][0])
    requires items[|items| - 1] != [] || |items| == 1
    ensures SplitCommaSpaces(Join(items, ",")) == items
  {
    var s := Join(items, ",");
    if |items| == 1 {
      assert s == items[0];
    } else {
      SplitAllJoin(items, ',');
      JoinAt(items, ",");
      assert s[|items[0]|] == ',';
      StripAfterFirstKeeps(items);
    }
  }

  /** Items that start with no whitespace lose nothing when the separator's whitespace is dropped. */
  lemma StripAfterFirstKeeps(items: seq<string>)
    requires forall k :: 0 <= k < |items| ==> ',' !in items[k]
    requires forall k :: 1 <= k < |items| ==> items[k] != [] && !IsSpace(items[k][0])
    requires |items| >= 1 && items[|items| - 1] != []
    ensures DropTrailingEmpty(StripAfterFirst(items)) == items
  {
    var stripped := StripAfterFirst(items);
    forall k | 1 <= k < |items| ensures stripped[k] == items[k] {
      assert DropLeadingSpaces(items[k]) == items[k];
    }
    assert stripped == items;
  }

  class RuleNode {
    const name: Option<string>
    const selector: Option<string>
    const fieldSelectors: map<string, string>
    const fieldOptions: map<string, Options>
    const itemTemplate: RuleNode?
    const sectionOptions: Options

    /** Copies both maps (a null map becomes an empty one) and keeps the given section options,
        or a fresh empty `Options` when none are given. */
    constructor (name: Option<string>, selector: Option<string>,
                 fieldSelectors: Option<map<string, string>>, fieldOptions: Option<map<string, Options>>,
                 itemTemplate: RuleNode?, sectionOptions: Options?)
      ensures this.name == name && this.selector == selector && this.itemTemplate == itemTemplate
      ensures this.fieldSelectors == fieldSelectors.GetOr(map[])
      ensures this.fieldOptions == fieldOptions.GetOr(map[])
      ensures sectionOptions != null ==> this.sectionOptions == sectionOptions
      ensures sectionOptions == null ==> fresh(this.sectionOptions) && this.sectionOptions.values == map[]
    {
      this.name := name;
      this.selector := selector;
      this.fieldSelectors := fieldSelectors.GetOr(map[]);
      this.fieldOptions := fieldOptions.GetOr(map[]);
      this.itemTemplate := itemTemplate;
      if sectionOptions != null {
        this.sectionOptions := sectionOptions;
      } else {
        this.sectionOptions := new Options();
      }
    }

    /** `getFieldSelectors`: a copy, which the caller may change without touching the node. */
    function GetFieldSelectors(): (r: map<string, string>)
      ensures r == fieldSelectors
    {
      fieldSelectors
    }

    /** `getFieldOptions`: a copy of the map (the `Options` objects themselves are shared). */
    function GetFieldOptions(): (r: map<string, Options>)
      ensures r == fieldOptions
    {
      fieldOptions
    }
  }

  /** `RuleNode.section`: a node without item template. */
  method Section(name: Option<string>, selector: Option<string>,
                 fieldSelectors: Option<map<string, string>>, fieldOptions: Option<map<string, Options>>,
                 sectionOptions: Options?) returns (node: RuleNode)
    ensures fresh(node)
    ensures node.name == name && node.selector == selector && node.itemTemplate == null
    ensures node.fieldSelectors == fieldSelectors.GetOr(map[])
    ensures node.fieldOptions == fieldOptions.GetOr(map[])
    ensures sectionOptions != null ==> node.sectionOptions == sectionOptions
    ensures sectionOptions == null ==> fresh(node.sectionOptions) && node.sectionOptions.values == map[]
  {
    node := new RuleNode(name, selector, fieldSelectors, fieldOptions, null, sectionOptions);
  }

  /** `RuleNode.sectionWithItems`: a node whose item template is named `item`, has the given
      item selector and fields, fresh empty section options and no template of its own. */
  method SectionWithItems(name: Option<string>, selector: Option<string>,
                          fieldSelectors: Option<map<string, string>>, fieldOptions: Option<map<string, Options>>,
                          itemSel: Option<string>, itemFieldSelectors: Option<map<string, string>>,
                          itemFieldOptions: Option<map<string, Options>>,
                          sectionOptions: Options?) returns (node: RuleNode)
    ensures fresh(node) && node.itemTemplate != null && fresh(node.itemTemplate)
    ensures node.name == name && node.selector == selector
    ensures node.fieldSelectors == fieldSelectors.GetOr(map[])
    ensures node.fieldOptions == fieldOptions.GetOr(map[])
    ensures sectionOptions != null ==> node.sectionOptions == sectionOptions
    ensures sectionOptions == null ==> fresh(node.sectionOptions) && node.sectionOptions.values == map[]
    ensures node.itemTemplate.name == Some("item") && node.itemTemplate.selector == itemSel
    ensures node.itemTemplate.fieldSelectors == itemFieldSelectors.GetOr(map[])
    ensures node.itemTemplate.fieldOptions == itemFieldOptions.GetOr(map[])
    ensures node.itemTemplate.itemTemplate == null
    ensures fresh(node.itemTemplate.sectionOptions) && node.itemTemplate.sectionOptions.values == map[]
  {
    var empty := new Options();
    var item := new RuleNode(Some("item"), itemSel, itemFieldSelectors, itemFieldOptions, null, empty);
    node := new RuleNode(name, selector, fieldSelectors, fieldOptions, item, sectionOptions);
  }
}
