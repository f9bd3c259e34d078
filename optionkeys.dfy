/** The option keys the engines know, and which of them the engines act on ("executable")
    rather than pass through into the output. */
module OptionKeys {
  datatype OptionKey = Attr | Limit | ImgRatio

  /** The key as written in the rule text (`getKey`). */
  function Key(k: OptionKey): string {
    match k
    case Attr => "attr"
    case Limit => "limit"
    case ImgRatio => "img-ratio"
  }

  /** Whether the engines act on the option themselves (`isExecutable`). */
  predicate IsExecutable(k: OptionKey) {
    k == Attr || k == Limit
  }

  /** The declared constants, in declaration order (`values()`). */
  const AllKeys: seq<OptionKey> := [Attr, Limit, ImgRatio]

  /** The lookup loop of `executable(key)` over `keys`: the flag of the first constant whose key
      equals `key`, or false when none does. */
  function ExecutableIn(keys: seq<OptionKey>, key: string): bool {
    if keys == [] then false
    else if Key(keys[0]) == key then IsExecutable(keys[0])
    else ExecutableIn(keys[1..], key)
  }

  /** The lookup answers with the flag of the FIRST constant carrying the key. */
  lemma {:induction false} ExecutableInFirst(keys: seq<OptionKey>, key: string)
    ensures ExecutableIn(keys, key) <==>
      exists i :: 0 <= i < |keys| && Key(keys[i]) == key && IsExecutable(keys[i]) &&
                  forall j :: 0 <= j < i ==> Key(keys[j]) != key
  {
    if keys != [] && Key(keys[0]) != key {
      var tail := keys[1..];
      ExecutableInFirst(tail, key);
      if ExecutableIn(keys, key) {
        var i :| 0 <= i < |tail| && Key(tail[i]) == key && IsExecutable(tail[i]) &&
                 forall j :: 0 <= j < i ==> Key(tail[j]) != key;
        forall j | 0 <= j < i + 1 ensures Key(keys[j]) != key {
          if j > 0 { assert keys[j] == tail[j - 1]; }
        }
        assert keys[i + 1] == tail[i];
      } else {
        forall i | 0 <= i < |keys| && Key(keys[i]) == key && IsExecutable(keys[i])
          ensures exists j :: 0 <= j < i && Key(keys[j]) == key
        {
          assert i > 0 && keys[i] == tail[i - 1];
          var j :| 0 <= j < i - 1 && Key(tail[j]) == key;
          assert keys[j + 1] == tail[j];
        }
      }
    }
  }

  /** `OptionKeyEnum.executable(key)`. */
  function Executable(key: string): bool {
    ExecutableIn(AllKeys, key)
  }

  /** The keys are told apart by exact, case-sensitive equality: only `attr` and `limit` are
      executable; `img-ratio` and every key that is not declared (`transform`, `index`,
      `Attr`, ...) are passed through. */
  lemma ExecutableKeys(key: string)
    ensures Executable(key) <==> key == "attr" || key == "limit"
  {
    assert "attr" != "limit" by { assert "attr"[0] != "limit"[0]; }
    assert "attr" != "img-ratio" by { assert "attr"[0] != "img-ratio"[0]; }
    assert "limit" != "img-ratio" by { assert "limit"[0] != "img-ratio"[0]; }
    assert [Limit, ImgRatio][1..] == [ImgRatio] && [ImgRatio][1..] == [];
    assert ExecutableIn([ImgRatio], key) == false;
    assert ExecutableIn([Limit, ImgRatio], key) == (key == "limit");
    assert Executable(key) == (key == "attr" || ExecutableIn([Limit, ImgRatio], key));
  }

  /** Looking a constant up by its own key gives back that constant's flag. */
  lemma ExecutableOfKey(k: OptionKey)
    ensures Executable(Key(k)) == IsExecutable(k)
  {
    ExecutableKeys(Key(k));
  }
}
