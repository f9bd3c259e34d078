/** The mutable rule node of the brace-block compiler: every setter writes at most once. */
module ChatRuleNode {
  import opened Wrappers
  import opened Values

  /** `Options.putIfAbsent` on the option map: a null key, a null value or a key already
      present leaves the map as it was. */
  function InsertIfAbsent(m: OptionMap, key: Option<string>, value: Option<OptValue>): (r: OptionMap)
    ensures forall k :: k in m ==> k in r && r[k] == m[k]
    ensures key.None? || value.None? ==> r == m
    ensures key.Some? && value.Some? && key.value !in m ==> r == m[key.value := value.value]
  {
    if key.Some? && value.Some? && key.value !in m then m[key.value := value.value] else m
  }

  class Options {
    var values: OptionMap

    constructor ()
      ensures values == map[]
    {
      values := map[];
    }

    method PutIfAbsent(key: Option<string>, value: Option<OptValue>)
      modifies this
      ensures values == InsertIfAbsent(old(values), key, value)
    {
      values := InsertIfAbsent(values, key, value);
    }
  }

  class RuleNode {
    var name: Option<string>
    var selector: Option<string>
    var fieldSelectors: map<string, string>
    var fieldOptions: map<string, Options>
    var itemTemplate: RuleNode?
    var sectionOptions: Options?

    /** `new RuleNode()`: everything null, both field maps empty. */
    constructor Empty()
      ensures name.None? && selector.None? && itemTemplate == null && sectionOptions == null
      ensures fieldSelectors == map[] && fieldOptions == map[]
    {
      name := None;
      selector := None;
      fieldSelectors := map[];
      fieldOptions := map[];
      itemTemplate := null;
      sectionOptions := null;
    }

    /** `new RuleNode(name, selector)`: both stored as given; the maps start empty and the
        section options null. */
    constructor (name: Option<string>, selector: Option<string>)
      ensures this.name == name && this.selector == selector
      ensures itemTemplate == null && sectionOptions == null
      ensures fieldSelectors == map[] && fieldOptions == map[]
    {
      this.name := name;
      this.selector := selector;
      fieldSelectors := map[];
      fieldOptions := map[];
      itemTemplate := null;
      sectionOptions := null;
    }

    /** Takes effect only while the name is still null. */
    method SetName(n: Option<string>)
      modifies this`name
      ensures old(name).Some? ==> name == old(name)
      ensures old(name).None? ==> name == n
    {
      if name.None? { name := n; }
    }

    /** A null argument never changes anything; a selector is written at most once. */
    method SetSelector(s: Option<string>)
      modifies this`selector
      ensures s.None? || old(selector).Some? ==> selector == old(selector)
      ensures s.Some? && old(selector).None? ==> selector == s
    {
      if s.Some? && selector.None? { selector := s; }
    }

    /** Takes effect only while there is no template yet. */
    method SetItemTemplate(t: RuleNode?)
      modifies this`itemTemplate
      ensures old(itemTemplate) != null ==> itemTemplate == old(itemTemplate)
      ensures old(itemTemplate) == null ==> itemTemplate == t
    {
      if itemTemplate == null { itemTemplate := t; }
    }

    /** Takes effect only while the section options are still null. */
    method SetSectionOptions(o: Options?)
      modifies this`sectionOptions
      ensures old(sectionOptions) != null ==> sectionOptions == old(sectionOptions)
      ensures old(sectionOptions) == null ==> sectionOptions == o
    {
      if sectionOptions == null { sectionOptions := o; }
    }
  }
}
