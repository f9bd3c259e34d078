/** The value wrapper the line-based engine emits: a map whose `value` entry, once present,
    can never be overwritten through `put`. */
module ResultMap {
  import opened Wrappers
  import opened Values

  const ValueKey: string := "value"

  class Result {
    var entries: map<string, Json>

    /** The wrapped value is stored under `value`, even when it is null. */
    ghost predicate Valid()
      reads this
    {
      ValueKey in entries
    }

    constructor (value: Json)
      ensures Valid()
      ensures entries == map[ValueKey := value]
    {
      entries := map[ValueKey := value];
    }

    /** `put(key, value)`: a write to `value` while it is present throws and changes nothing;
        any other write is a plain map put that answers the previous value (null when absent). */
    method Put(key: string, value: Json) returns (r: Try<Json>)
      modifies this
      ensures key == ValueKey && ValueKey in old(entries) ==>
                r == Throws(UnsupportedOperation) && entries == old(entries)
      ensures !(key == ValueKey && ValueKey in old(entries)) ==>
                entries == old(entries)[key := value] &&
                r == Ok(if key in old(entries) then old(entries)[key] else JNull)
      ensures old(Valid()) ==> Valid() && entries[ValueKey] == old(entries)[ValueKey]
    {
      if key == ValueKey && ValueKey in entries {
        return Throws(UnsupportedOperation);
      }
      r := Ok(if key in entries then entries[key] else JNull);
      entries := entries[key := value];
    }
  }
}
