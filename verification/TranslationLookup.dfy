/** When flattening a rebuilt map gives the map back: exactly for prefix-free keys without a leading dot. */
module TranslationLookup {
  import opened Results
  import opened Sequences
  import opened OrderedMaps
  import opened DottedKeys
  import opened TranslationTree
  import opened TranslationRoundTrip

  /** The text a path leads to. */
  function TextAt(entries: Entries, path: Path): Option<string>
    decreases path
  {
    if path == [] then None
    else
      var next: Option<Tree> := Get(entries, path[0]);
      if next.None? then None
      else if next.value.Leaf? then (if |path| == 1 then Some(next.value.text) else None)
      else if |path| == 1 then None
      else TextAt(next.value.entries, path[1..])
  }

  /** One path goes on where the other stops. */
  predicate Related(p: Path, q: Path) {
    p != q && (p <= q || q <= p)
  }

  /** A write is read back, hides every related path, and leaves all other paths alone. */
  lemma {:induction false} TextAtSetPath(entries: Entries, p: Path, value: string, q: Path)
    requires p != [] && q != []
    ensures TextAt(SetPath(entries, p, value), q) ==
            if q == p then Some(value) else if Related(p, q) then None else TextAt(entries, q)
    decreases p
  {
    var child := Child(entries, p[0]);
    var next := if |p| == 1 then Leaf(value) else Branch(SetPath(child, p[1..], value));
    GetPut(entries, p[0], next, q[0]);
    if q[0] == p[0] {
      assert p == [p[0]] + p[1..] && q == [q[0]] + q[1..];
      if |p| > 1 && |q| > 1 {
        TextAtSetPath(child, p[1..], value, q[1..]);
        assert p[1..] <= q[1..] ==> p <= q;
        assert q[1..] <= p[1..] ==> q <= p;
        var old_: Option<Tree> := Get(entries, q[0]);
        if old_.None? || old_.value.Leaf? {
          assert child == [];
        }
      }
    } else {
      assert !(p <= q) && !(q <= p);
    }
  }

  lemma PathsOfSplit(entries: Entries, path: Path, text: string)
    requires entries != []
    ensures (path, text) in PathsOf(entries) <==>
              (path != [] && path[0] == entries[0].0 && (path[1..], text) in InnerPaths(entries[0].1))
              || (path, text) in PathsOf(entries[1..])
  {
    var entry := entries[0];
    var inner := InnerPaths(entry.1);
    var here, rest := Prefixed(entry.0, inner), PathsOf(entries[1..]);
    if (path, text) in here {
      var i :| 0 <= i < |here| && here[i] == (path, text);
      assert path[1..] == inner[i].0 && inner[i] == (path[1..], text);
    }
    if path != [] && path[0] == entry.0 && (path[1..], text) in inner {
      var i :| 0 <= i < |inner| && inner[i] == (path[1..], text);
      assert path == [entry.0] + path[1..];
      assert here[i] == (path, text);
    }
  }

  /** The paths of a tree are exactly its readable paths. */
  lemma {:induction false} PathsAreTexts(entries: Entries, path: Path, text: string)
    requires WellKeyed(entries)
    ensures (path, text) in PathsOf(entries) <==> TextAt(entries, path) == Some(text)
    decreases entries
  {
    if entries != [] {
      var entry := entries[0];
      assert entry.1 < entry;
      PathsOfSplit(entries, path, text);
      PathsAreTexts(entries[1..], path, text);
      GetPlace(entries[1..], entry.0);
      if path != [] && path[0] == entry.0 {
        match entry.1 {
          case Leaf(t) =>
            assert InnerPaths(entry.1) == [([], t)];
            assert |path| == 1 <==> path[1..] == [];
          case Branch(nested) =>
            assert InnerPaths(entry.1) == PathsOf(nested);
            PathsAreTexts(nested, path[1..], text);
        }
      }
    }
  }

  // ----- what rebuilding keeps -----

  lemma {:induction false} PutWellKeyed(entries: Entries, key: string, value: Tree)
    requires WellKeyed(entries) && WellKeyedTree(value)
    ensures WellKeyed(Put(entries, key, value))
  {
    if entries != [] && entries[0].0 != key {
      PutWellKeyed(entries[1..], key, value);
      GetPut(entries[1..], key, value, entries[0].0);
      assert Put(entries, key, value)[1..] == Put(entries[1..], key, value);
    } else if entries == [] {
      assert Put(entries, key, value)[1..] == [];
    } else {
      assert Put(entries, key, value)[1..] == entries[1..];
    }
  }

  lemma {:induction false} GetWellKeyed(entries: Entries, key: string)
    requires WellKeyed(entries)
    ensures WellKeyed(Child(entries, key))
  {
    if entries != [] && entries[0].0 != key {
      GetWellKeyed(entries[1..], key);
      assert Child(entries, key) == Child(entries[1..], key);
    }
  }

  lemma {:induction false} SetPathWellKeyed(entries: Entries, path: Path, value: string)
    requires WellKeyed(entries) && path != []
    ensures WellKeyed(SetPath(entries, path, value))
    decreases path
  {
    if |path| == 1 {
      PutWellKeyed(entries, path[0], Leaf(value));
    } else {
      GetWellKeyed(entries, path[0]);
      SetPathWellKeyed(Child(entries, path[0]), path[1..], value);
      PutWellKeyed(entries, path[0], Branch(SetPath(Child(entries, path[0]), path[1..], value)));
    }
  }

  lemma {:induction false} SetAllWellKeyed(entries: Entries, paths: Paths)
    requires WellKeyed(entries) && forall i :: 0 <= i < |paths| ==> paths[i].0 != []
    ensures WellKeyed(SetAll(entries, paths))
    decreases paths
  {
    if paths != [] {
      SetPathWellKeyed(entries, paths[0].0, paths[0].1);
      SetAllWellKeyed(SetPath(entries, paths[0].0, paths[0].1), paths[1..]);
    }
  }

  /** Rebuilding invents nothing. */
  lemma {:induction false} SetAllOnly(entries: Entries, paths: Paths, q: Path, text: string)
    requires forall i :: 0 <= i < |paths| ==> paths[i].0 != []
    requires q != [] && TextAt(SetAll(entries, paths), q) == Some(text)
    ensures (q, text) in paths || TextAt(entries, q) == Some(text)
    decreases paths
  {
    if paths != [] {
      SetAllOnly(SetPath(entries, paths[0].0, paths[0].1), paths[1..], q, text);
      TextAtSetPath(entries, paths[0].0, paths[0].1, q);
      assert paths == [paths[0]] + paths[1..];
    }
  }

  lemma {:induction false} SetAllElsewhere(entries: Entries, paths: Paths, q: Path)
    requires forall i :: 0 <= i < |paths| ==> paths[i].0 != [] && paths[i].0 != q && !Related(paths[i].0, q)
    requires q != []
    ensures TextAt(SetAll(entries, paths), q) == TextAt(entries, q)
    decreases paths
  {
    if paths != [] {
      TextAtSetPath(entries, paths[0].0, paths[0].1, q);
      SetAllElsewhere(SetPath(entries, paths[0].0, paths[0].1), paths[1..], q);
    }
  }

  /** No key is a proper part-wise prefix of another. */
  predicate PrefixFree(paths: Paths) {
    forall i, j :: 0 <= i < |paths| && 0 <= j < |paths| ==> !Related(paths[i].0, paths[j].0)
  }

  lemma {:induction false} SetAllReads(entries: Entries, paths: Paths, i: nat)
    requires forall i :: 0 <= i < |paths| ==> paths[i].0 != []
    requires i < |paths| && PrefixFree(paths) && NoDuplicates(KeysOf(paths))
    ensures TextAt(SetAll(entries, paths), paths[i].0) == Some(paths[i].1)
    decreases paths
  {
    var e := SetPath(entries, paths[0].0, paths[0].1);
    var rest := paths[1..];
    if i == 0 {
      TextAtSetPath(entries, paths[0].0, paths[0].1, paths[0].0);
      forall j | 0 <= j < |rest| ensures rest[j].0 != paths[0].0 && !Related(rest[j].0, paths[0].0) {
        assert KeysOf(paths)[0] != KeysOf(paths)[j + 1];
        assert rest[j] == paths[j + 1];
      }
      SetAllElsewhere(e, rest, paths[0].0);
    } else {
      assert KeysOf(rest) == KeysOf(paths)[1..];
      SetAllReads(e, rest, i - 1);
    }
  }

  /** A tree never holds texts at two related paths. */
  lemma {:induction false} TextsUnrelated(entries: Entries, p: Path, q: Path)
    requires TextAt(entries, p).Some? && TextAt(entries, q).Some?
    ensures !Related(p, q)
    decreases p
  {
    if p[0] == q[0] && |p| > 1 && |q| > 1 {
      TextsUnrelated(Get(entries, p[0]).value.entries, p[1..], q[1..]);
      assert p == [p[0]] + p[1..] && q == [q[0]] + q[1..];
    }
  }
}
