/** The order of keys in flattened and rebuilt maps, and what flattening makes of keys that collide. */
module TranslationOrder {
  import opened Results
  import opened Sequences
  import opened OrderedMaps
  import opened DottedKeys
  import opened TranslationTree

  // ----- flattening -----

  /** All entries put one after the other. */
  ghost function PutAll(out: Flat, flat: Flat): Flat
    decreases flat
  {
    if flat == [] then out else PutAll(Put(out, flat[0].0, flat[0].1), flat[1..])
  }

  lemma {:induction false} PutAllConcat(out: Flat, a: Flat, b: Flat)
    ensures PutAll(out, a + b) == PutAll(PutAll(out, a), b)
    decreases a
  {
    hide Put;
    if a == [] {
      assert a + b == b;
    } else {
      assert (a + b)[1..] == a[1..] + b;
      PutAllConcat(Put(out, a[0].0, a[0].1), a[1..], b);
    }
  }

  /** Flattening puts the rendered paths in depth-first order, collisions included. */
  lemma {:induction false} FlattenPuts(entries: Entries, prefix: string, out: Flat)
    ensures FlattenInto(entries, prefix, out) == PutAll(out, Render(prefix, PathsOf(entries)))
    decreases entries
  {
    hide FullKey, Render, Put;
    if entries == [] {
      RenderNothing(prefix);
    } else {
      var entry := entries[0];
      assert entry.1 < entry;
      var fullKey := FullKey(prefix, entry.0);
      RenderFirst(entries, prefix);
      PutAllConcat(out, Render(fullKey, InnerPaths(entry.1)), Render(prefix, PathsOf(entries[1..])));
      match entry.1 {
        case Leaf(text) => PutLeaf(out, fullKey, text);
        case Branch(nested) => FlattenPuts(nested, fullKey, out);
      }
      FlattenPuts(entries[1..], prefix, PutAll(out, Render(fullKey, InnerPaths(entry.1))));
    }
  }

  lemma PutLeaf(out: Flat, key: string, text: string)
    ensures PutAll(out, Render(key, InnerPaths(Leaf(text)))) == Put(out, key, text)
  {
    hide Put;
    var here := Render(key, [([], text)]);
    assert here == [(key, text)] && here[1..] == [];
  }

  /** The last entry with this key, or -1. */
  ghost predicate LastAt(flat: Flat, key: string, i: int) {
    && -1 <= i < |flat| && (i >= 0 ==> flat[i].0 == key)
    && forall j :: i < j < |flat| ==> flat[j].0 != key
  }

  lemma {:induction false} PutAllGet(out: Flat, flat: Flat, key: string, i: int)
    requires LastAt(flat, key, i)
    ensures Get(PutAll(out, flat), key) == if i < 0 then Get(out, key) else Some(flat[i].1)
    decreases flat
  {
    hide Put, Get;
    if flat != [] {
      var rest := flat[1..];
      forall j | 0 <= j < |rest| ensures rest[j] == flat[j + 1] {}
      PutAllGet(Put(out, flat[0].0, flat[0].1), rest, key, if i < 0 then -1 else i - 1);
      GetPut(out, flat[0].0, flat[0].1, key);
    }
  }

  lemma {:induction false} PutAllKeys(flat: Flat)
    ensures KeysOf(PutAll([], flat)) == Unique(KeysOf(flat))
  {
    hide Put, KeysOf;
    if flat == [] {
      NoKeys();
    } else {
      var front, last := flat[..|flat|-1], flat[|flat|-1];
      assert flat == front + [last];
      PutAllKeys(front);
      PutAllConcat([], front, [last]);
      var before := PutAll([], front);
      assert PutAll(before, [last]) == Put(before, last.0, last.1) by { assert [last][1..] == []; }
      KeysSnoc(front, last);
      UniqueMembers(KeysOf(front), last.0);
      if last.0 in KeysOf(before) {
        PutPresent(before, last.0, last.1);
      } else {
        PutNew(before, last.0, last.1);
        KeysSnoc(before, last);
      }
    }
  }

  lemma NoKeys()
    ensures KeysOf<string, string>([]) == []
  {
  }

  lemma KeysSnoc(flat: Flat, e: (string, string))
    ensures KeysOf(flat + [e]) == KeysOf(flat) + [e.0] && |KeysOf(flat)| == |flat|
    ensures KeysOf(flat + [e])[..|flat|] == KeysOf(flat)
  {
  }

  /**
   * Any map, flattened: each full key once, in the order in which the keys first come, and with the text that comes
   * last. `flat` is what the texts are, by full key, in depth-first order.
   */
  lemma FlattenedSpelledOut(entries: Entries, key: string, i: int)
    requires LastAt(Render("", PathsOf(entries)), key, i)
    ensures var flat := Render("", PathsOf(entries));
      && Get(Flattened(entries), key) == (if i < 0 then None else Some(flat[i].1))
      && KeysOf(Flattened(entries)) == Unique(KeysOf(flat))
  {
    FlattenPuts(entries, "", []);
    PutAllGet([], Render("", PathsOf(entries)), key, i);
    PutAllKeys(Render("", PathsOf(entries)));
    assert Get<string, string>([], key) == None;
    hide PutAll, Render, KeysOf, Get, LastAt, FlattenInto, PathsOf;
  }

  // ----- rebuilding -----

  /** One write leaves the order of the keys at every map on its way, and adds a new key at the end. */
  lemma SetPathOrder(entries: Entries, path: Path, value: string)
    requires path != []
    ensures var after := SetPath(entries, path, value);
      && KeysOf(after) == (if path[0] in KeysOf(entries) then KeysOf(entries) else KeysOf(entries) + [path[0]])
      && (forall k :: k != path[0] ==> Get(after, k) == Get(entries, k))
      && Get(after, path[0]) == Some(if |path| == 1 then Leaf(value)
                                     else Branch(SetPath(Child(entries, path[0]), path[1..], value)))
  {
    hide Put, Get, Child, SetPath, KeysOf;
    var next := if |path| == 1 then Leaf(value) else Branch(SetPath(Child(entries, path[0]), path[1..], value));
    SetPathPuts(entries, path, value);
    forall k ensures Get(Put(entries, path[0], next), k) == if k == path[0] then Some(next) else Get(entries, k) {
      GetPut(entries, path[0], next, k);
    }
    if path[0] in KeysOf(entries) {
      PutPresent(entries, path[0], next);
    } else {
      PutNew(entries, path[0], next);
      KeysPrefix(entries, [(path[0], next)]);
      OneKey(path[0], next);
    }
  }

  lemma SetPathPuts(entries: Entries, path: Path, value: string)
    requires path != []
    ensures SetPath(entries, path, value) ==
      Put(entries, path[0], if |path| == 1 then Leaf(value)
                            else Branch(SetPath(Child(entries, path[0]), path[1..], value)))
  {
    hide Put;
  }

  lemma OneKey(key: string, value: Tree)
    ensures KeysOf([(key, value)]) == [key]
  {
  }

  /** Full keys are the keys on the way, joined by dots. */
  lemma FullPathJoins(prefix: string, key: string, path: Path)
    ensures FullPath(prefix, []) == prefix
    ensures prefix != "" ==> FullPath(prefix, [key] + path) == FullPath(prefix + "." + key, path)
    ensures prefix == "" ==> FullPath(prefix, [key] + path) == FullPath(key, path)
  {
    assert ([key] + path)[1..] == path;
  }
}
