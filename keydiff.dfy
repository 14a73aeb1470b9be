/**
 * `missing_keys` and `extra_keys`: the two halves of the comparison between
 * the configuration's `section_order` list and the keys of its `sections`
 * hash. Each helper builds its answer by pushing onto an array in a loop,
 * and is proved against the filter it computes.
 */
module KeyDiff {
  import opened Values

  /** The entries of `order` that are not keys of `h`, in order. */
  function NotKeysOf(order: seq<Value>, h: Value): seq<Value>
    requires h.Hash?
  {
    if order == [] then []
    else
      var last := order[|order| - 1];
      NotKeysOf(order[..|order| - 1], h) + if IsKeyOf(last, h) then [] else [last]
  }

  /** The strings of `keys` that do not occur in `values`, in order. */
  function KeysNotIn(keys: seq<string>, values: seq<Value>): seq<string> {
    if keys == [] then []
    else
      var last := keys[|keys| - 1];
      KeysNotIn(keys[..|keys| - 1], values) + if Str(last) in values then [] else [last]
  }

  lemma {:induction false} NotKeysOfMembers(order: seq<Value>, h: Value)
    requires h.Hash?
    ensures forall v :: v in NotKeysOf(order, h) <==> v in order && !IsKeyOf(v, h)
  {
    if order != [] {
      var init := order[..|order| - 1];
      NotKeysOfMembers(init, h);
      assert order == init + [order[|order| - 1]];
    }
  }

  lemma {:induction false} KeysNotInMembers(keys: seq<string>, values: seq<Value>)
    ensures forall k :: k in KeysNotIn(keys, values) <==> k in keys && Str(k) !in values
  {
    if keys != [] {
      var init := keys[..|keys| - 1];
      KeysNotInMembers(init, values);
      assert keys == init + [keys[|keys| - 1]];
    }
  }

  /** `missing_keys(keys, hash)`: the entries of `keys` that `hash` lacks. */
  method MissingKeys(keys: seq<Value>, hash: Value) returns (arr: seq<Value>)
    requires hash.Hash?
    ensures arr == NotKeysOf(keys, hash)
    ensures forall v :: v in arr <==> v in keys && !IsKeyOf(v, hash)
  {
    arr := [];
    var i := 0;
    while i < |keys|
      invariant 0 <= i <= |keys|
      invariant arr == NotKeysOf(keys[..i], hash)
    {
      assert keys[..i + 1][..i] == keys[..i];
      if !IsKeyOf(keys[i], hash) {
        arr := arr + [keys[i]];
      }
      i := i + 1;
    }
    assert keys[..i] == keys;
    NotKeysOfMembers(keys, hash);
  }

  /** `extra_keys(keys, hash)`: the keys of `hash`, in its order, that
      `keys` does not list. */
  method ExtraKeys(keys: seq<Value>, hash: Value) returns (arr: seq<string>)
    requires hash.Hash?
    ensures arr == KeysNotIn(hash.keys, keys)
    ensures forall k :: k in arr <==> k in hash.keys && Str(k) !in keys
  {
    arr := [];
    var i := 0;
    while i < |hash.keys|
      invariant 0 <= i <= |hash.keys|
      invariant arr == KeysNotIn(hash.keys[..i], keys)
    {
      assert hash.keys[..i + 1][..i] == hash.keys[..i];
      if Str(hash.keys[i]) !in keys {
        arr := arr + [hash.keys[i]];
      }
      i := i + 1;
    }
    assert hash.keys[..i] == hash.keys;
    KeysNotInMembers(hash.keys, keys);
  }

  /** Both lists come out empty exactly when `order` and the keys of
      `sections` name the same sections: each entry of `order` is a key and
      each key is listed in `order` (duplicates in `order` are not caught). */
  lemma SectionOrderMatches(order: seq<Value>, sections: Value)
    requires sections.Hash? && WellKeyed(sections)
    ensures NotKeysOf(order, sections) == [] && KeysNotIn(sections.keys, order) == []
            <==> (forall v :: v in order ==> IsKeyOf(v, sections))
                 && (forall k :: k in sections.fields ==> Str(k) in order)
  {
    NotKeysOfMembers(order, sections);
    KeysNotInMembers(sections.keys, order);
    if NotKeysOf(order, sections) != [] {
      assert NotKeysOf(order, sections)[0] in NotKeysOf(order, sections);
    }
    if KeysNotIn(sections.keys, order) != [] {
      assert KeysNotIn(sections.keys, order)[0] in KeysNotIn(sections.keys, order);
    }
  }
}
