/** The shape both engines' `extractFields` loops share: visit the field selectors of a rule
    one key at a time and put a produced value under its key unless the output already holds
    that key. The produced value is a parameter, so these facts hold for either engine. */
module FieldLoop {
  import opened Wrappers

  /** The map after visiting the keys in `done`: `out` with each visited key added whose
      produced value is not null and that `out` does not hold yet. */
  function Collected<V>(out: map<string, V>, done: set<string>, produce: string -> Option<V>): map<string, V> {
    out + map k | k in done && k !in out && produce(k).Some? :: produce(k).value
  }

  /** Visiting one more key adds its value unless `out` holds the key or nothing was produced. */
  lemma CollectedStep<V>(out: map<string, V>, done: set<string>, produce: string -> Option<V>, f: string)
    requires f !in done
    ensures f in Collected(out, done, produce) <==> f in out
    ensures Collected(out, done + {f}, produce) ==
      if f !in out && produce(f).Some? then Collected(out, done, produce)[f := produce(f).value]
      else Collected(out, done, produce)
  {
    var a := Collected(out, done + {f}, produce);
    var b := if f !in out && produce(f).Some? then Collected(out, done, produce)[f := produce(f).value]
      else Collected(out, done, produce);
    assert a.Keys == b.Keys;
  }

  /** `out`'s own keys keep their values; any other key present is a visited key with a
      produced value, and every such key is present. */
  lemma CollectedEntries<V>(out: map<string, V>, done: set<string>, produce: string -> Option<V>, k: string)
    ensures k in out ==> k in Collected(out, done, produce) && Collected(out, done, produce)[k] == out[k]
    ensures k in Collected(out, done, produce) && k !in out ==>
      k in done && produce(k).Some? && Collected(out, done, produce)[k] == produce(k).value
    ensures k in done && produce(k).Some? ==> k in Collected(out, done, produce)
  {
  }

  /** Whether some visited key fails. */
  predicate AnyFails(done: set<string>, fails: string -> bool) {
    exists k :: k in done && fails(k)
  }

  /** Visiting one more key fails exactly when it or an earlier key fails. */
  lemma AnyFailsStep(done: set<string>, fails: string -> bool, f: string)
    ensures AnyFails(done + {f}, fails) <==> AnyFails(done, fails) || fails(f)
  {
    if AnyFails(done + {f}, fails) && !fails(f) {
      var k :| k in done + {f} && fails(k);
      assert k in done;
    }
  }
}
