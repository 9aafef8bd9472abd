/** Flattening and rebuilding are inverse, and exactly when. */
module TranslationRoundTrip {
  import opened Results
  import opened Sequences
  import opened OrderedMaps
  import opened DottedKeys
  import opened TranslationTree

  /** JavaScript objects: no key twice, at any level. */
  ghost predicate WellKeyed(entries: Entries)
    decreases entries
  {
    entries == [] ||
    (var entry := entries[0];
     assert entry.1 < entry;
     entry.0 !in KeysOf(entries[1..]) && WellKeyedTree(entry.1) && WellKeyed(entries[1..]))
  }

  ghost predicate WellKeyedTree(tree: Tree)
    decreases tree
  {
    tree.Branch? ==> WellKeyed(tree.entries)
  }

  /** Keys are non-empty and without dots, and no sub-map is empty. */
  ghost predicate Plain(entries: Entries)
    decreases entries
  {
    entries == [] ||
    (var entry := entries[0];
     assert entry.1 < entry;
     entry.0 != "" && DotFree(entry.0) && PlainTree(entry.1) && Plain(entries[1..]))
  }

  ghost predicate PlainTree(tree: Tree)
    decreases tree
  {
    tree.Branch? ==> tree.entries != [] && Plain(tree.entries)
  }

  function SetAll(entries: Entries, paths: Paths): Entries
    requires forall i :: 0 <= i < |paths| ==> paths[i].0 != []
    decreases paths
  {
    if paths == [] then entries
    else SetAll(SetPath(entries, paths[0].0, paths[0].1), paths[1..])
  }

  function SplitKeys(flat: Flat): (paths: Paths)
    ensures |paths| == |flat|
    ensures forall i :: 0 <= i < |paths| ==> paths[i] == (Split(flat[i].0), flat[i].1)
  {
    seq(|flat|, i requires 0 <= i < |flat| => (Split(flat[i].0), flat[i].1))
  }

  lemma {:induction false} RebuildIsSetAll(entries: Entries, flat: Flat)
    ensures RebuildInto(entries, flat) == SetAll(entries, SplitKeys(flat))
    decreases flat
  {
    if flat != [] {
      assert SplitKeys(flat)[1..] == SplitKeys(flat[1..]);
      RebuildIsSetAll(SetPath(entries, Split(flat[0].0), flat[0].1), flat[1..]);
    }
  }

  // ----- paths of a tree -----

  lemma {:induction false} PathsStart(entries: Entries, i: nat)
    requires i < |PathsOf(entries)|
    ensures PathsOf(entries)[i].0 != [] && PathsOf(entries)[i].0[0] in KeysOf(entries)
    decreases |entries|
  {
    var entry := entries[0];
    var here := Prefixed(entry.0, InnerPaths(entry.1));
    assert KeysOf(entries)[0] == entry.0;
    if i >= |here| {
      PathsStart(entries[1..], i - |here|);
      assert KeysOf(entries)[1..] == KeysOf(entries[1..]);
    }
  }

  lemma AllPathsStart(entries: Entries)
    ensures forall i :: 0 <= i < |PathsOf(entries)| ==>
              PathsOf(entries)[i].0 != [] && PathsOf(entries)[i].0[0] in KeysOf(entries)
  {
    forall i | 0 <= i < |PathsOf(entries)|
      ensures PathsOf(entries)[i].0 != [] && PathsOf(entries)[i].0[0] in KeysOf(entries)
    {
      PathsStart(entries, i);
    }
  }

  lemma {:induction false} PathsDistinct(entries: Entries)
    requires WellKeyed(entries)
    ensures NoDuplicates(KeysOf(PathsOf(entries)))
    decreases entries
  {
    if entries != [] {
      var entry := entries[0];
      assert entry.1 < entry;
      var inner := InnerPaths(entry.1);
      var here, rest := Prefixed(entry.0, inner), PathsOf(entries[1..]);
      assert WellKeyedTree(entry.1);
      if entry.1.Branch? {
        PathsDistinct(entry.1.entries);
      }
      PathsDistinct(entries[1..]);
      AllPathsStart(entries[1..]);
      assert forall i, j :: 0 <= i < j < |inner| ==> KeysOf(inner)[i] != KeysOf(inner)[j];
      var all := KeysOf(here + rest);
      forall i, j | 0 <= i < j < |all| ensures all[i] != all[j] {
        if j < |here| {
          assert all[i] == [entry.0] + KeysOf(inner)[i] && all[j] == [entry.0] + KeysOf(inner)[j];
          assert all[i][1..] == KeysOf(inner)[i] && all[j][1..] == KeysOf(inner)[j];
        } else if i < |here| {
          assert all[i][0] == entry.0 && all[j] == rest[j - |here|].0;
        } else {
          assert all[i] == KeysOf(rest)[i - |here|] && all[j] == KeysOf(rest)[j - |here|];
        }
      }
    }
  }

  // ----- rebuilding from paths -----

  lemma {:induction false} PutLast(pre: Entries, key: string, old_: Tree, value: Tree)
    requires key !in KeysOf(pre)
    ensures Put(pre + [(key, old_)], key, value) == pre + [(key, value)]
    ensures Get(pre + [(key, old_)], key) == Some(old_)
    ensures Get(pre, key) == None
  {
    if pre != [] {
      assert KeysOf(pre)[0] == pre[0].0 && KeysOf(pre)[1..] == KeysOf(pre[1..]);
      PutLast(pre[1..], key, old_, value);
      assert (pre + [(key, old_)])[1..] == pre[1..] + [(key, old_)];
    }
  }

  /** Setting paths that share their first key fills the map under that key. */
  lemma {:induction false} SetAllPrefixed(pre: Entries, key: string, inner: Entries, paths: Paths)
    requires key !in KeysOf(pre)
    requires forall i :: 0 <= i < |paths| ==> paths[i].0 != []
    ensures SetAll(pre + [(key, Branch(inner))], Prefixed(key, paths)) == pre + [(key, Branch(SetAll(inner, paths)))]
    decreases paths
  {
    if paths != [] {
      var (path, text) := paths[0];
      PutLast(pre, key, Branch(inner), Branch(SetPath(inner, path, text)));
      assert ([key] + path)[1..] == path;
      assert Prefixed(key, paths)[1..] == Prefixed(key, paths[1..]);
      SetAllPrefixed(pre, key, SetPath(inner, path, text), paths[1..]);
    }
  }

  lemma FirstPrefixed(pre: Entries, key: string, paths: Paths)
    requires key !in KeysOf(pre) && paths != []
    requires forall i :: 0 <= i < |paths| ==> paths[i].0 != []
    ensures SetAll(pre, Prefixed(key, paths)) == pre + [(key, Branch(SetAll([], paths)))]
  {
    var (path, text) := paths[0];
    var value := Branch(SetPath([], path, text));
    PutLast(pre, key, Branch([]), value);
    PutNew(pre, key, value);
    assert ([key] + path)[1..] == path;
    assert Prefixed(key, paths)[1..] == Prefixed(key, paths[1..]);
    SetAllPrefixed(pre, key, SetPath([], path, text), paths[1..]);
  }

  lemma {:induction false} SetAllConcat(entries: Entries, a: Paths, b: Paths)
    requires forall i :: 0 <= i < |a| ==> a[i].0 != []
    requires forall i :: 0 <= i < |b| ==> b[i].0 != []
    ensures SetAll(entries, a + b) == SetAll(SetAll(entries, a), b)
    decreases a
  {
    if a == [] {
      assert a + b == b;
    } else {
      assert (a + b)[1..] == a[1..] + b;
      SetAllConcat(SetPath(entries, a[0].0, a[0].1), a[1..], b);
    }
  }

  lemma {:induction false} PlainHasPaths(entries: Entries)
    requires Plain(entries) && entries != []
    ensures PathsOf(entries) != []
    decreases entries
  {
    var entry := entries[0];
    assert entry.1 < entry;
    if entry.1.Branch? {
      PlainHasPaths(entry.1.entries);
    }
  }

  /** Setting every path of a tree after other entries appends the tree, order included. */
  lemma {:induction false} SetAllRebuilds(pre: Entries, entries: Entries)
    requires WellKeyed(entries) && Plain(entries)
    requires forall k :: k in KeysOf(entries) ==> k !in KeysOf(pre)
    requires forall i :: 0 <= i < |PathsOf(entries)| ==> PathsOf(entries)[i].0 != []
    ensures SetAll(pre, PathsOf(entries)) == pre + entries
    decreases entries
  {
    if entries == [] {
      assert pre + entries == pre;
    } else {
      var entry := entries[0];
      assert entry.1 < entry;
      var here, rest := Prefixed(entry.0, InnerPaths(entry.1)), PathsOf(entries[1..]);
      assert KeysOf(entries) == [entry.0] + KeysOf(entries[1..]);
      assert entry.0 in KeysOf(entries);
      AllPathsStart(entries[1..]);
      SetAllConcat(pre, here, rest);
      SetAllEntry(pre, entry);
      var longer := pre + [entry];
      assert KeysOf(longer) == KeysOf(pre) + [entry.0];
      SetAllRebuilds(longer, entries[1..]);
      assert pre + entries == longer + entries[1..];
    }
  }

  lemma {:induction false} SetAllEntry(pre: Entries, entry: (string, Tree))
    requires entry.0 !in KeysOf(pre) && WellKeyedTree(entry.1) && PlainTree(entry.1)
    ensures SetAll(pre, Prefixed(entry.0, InnerPaths(entry.1))) == pre + [entry]
    decreases entry.1
  {
    var here := Prefixed(entry.0, InnerPaths(entry.1));
    match entry.1 {
      case Leaf(text) =>
        assert InnerPaths(entry.1) == [([], text)];
        assert [entry.0] + [] == [entry.0];
        assert here == [([entry.0], text)];
        PutNew(pre, entry.0, Leaf(text));
        assert SetAll(pre, here) == SetAll(SetPath(pre, [entry.0], text), here[1..]);
      case Branch(nested) =>
        PlainHasPaths(nested);
        AllPathsStart(nested);
        FirstPrefixed(pre, entry.0, PathsOf(nested));
        SetAllRebuilds([], nested);
        assert [] + nested == nested;
    }
  }

  ghost predicate LeadingPaths(paths: Paths) {
    forall i :: 0 <= i < |paths| ==> Leading(paths[i].0) && AllDotFree(paths[i].0)
  }

  ghost predicate PlainPath(path: Path) {
    path != [] && path[0] != "" && AllDotFree(path)
  }

  lemma {:induction false} PlainPaths(entries: Entries)
    requires Plain(entries)
    ensures forall i :: 0 <= i < |PathsOf(entries)| ==> PlainPath(PathsOf(entries)[i].0)
    decreases entries
  {
    if entries != [] {
      var entry := entries[0];
      assert entry.1 < entry;
      var inner := InnerPaths(entry.1);
      var here, rest := Prefixed(entry.0, inner), PathsOf(entries[1..]);
      match entry.1 {
        case Leaf(text) => assert inner == [([], text)];
        case Branch(nested) =>
          PlainPaths(nested);
          assert inner == PathsOf(nested);
      }
      PlainPaths(entries[1..]);
      var all: Paths := here + rest;
      forall i | 0 <= i < |all| ensures PlainPath(all[i].0) {
        if i < |here| {
          assert all[i].0 == [entry.0] + inner[i].0;
          assert inner[i].0 == [] || PlainPath(inner[i].0);
        } else {
          assert all[i] == rest[i - |here|];
        }
      }
    }
  }

  /** Distinct leading paths are written as distinct dotted keys, which split back. */
  lemma RenderSplits(paths: Paths)
    requires LeadingPaths(paths)
    ensures SplitKeys(Render("", paths)) == paths
    ensures NoDuplicates(KeysOf(paths)) ==> NoDuplicates(KeysOf(Render("", paths)))
  {
    var flat := Render("", paths);
    forall i | 0 <= i < |paths| ensures Split(flat[i].0) == paths[i].0 {
      FullPathIsDotted(paths[i].0);
      SplitDotted(paths[i].0);
    }
    assert SplitKeys(flat) == paths;
    if NoDuplicates(KeysOf(paths)) {
      forall i, j | 0 <= i < j < |flat| ensures KeysOf(flat)[i] != KeysOf(flat)[j] {
        assert KeysOf(paths)[i] != KeysOf(paths)[j];
        assert Split(flat[i].0) == KeysOf(paths)[i] && Split(flat[j].0) == KeysOf(paths)[j];
      }
    }
  }

  /** Round trip one: rebuilding a flattened plain tree gives the same tree, key order included. */
  lemma RebuildFlattened(entries: Entries)
    requires WellKeyed(entries) && Plain(entries)
    ensures Rebuilt(Flattened(entries)) == entries
    ensures NoDuplicates(KeysOf(Flattened(entries)))
  {
    var paths := PathsOf(entries);
    PlainPaths(entries);
    PathsDistinct(entries);
    assert LeadingPaths(paths) by {
      forall i | 0 <= i < |paths| ensures Leading(paths[i].0) { assert PlainPath(paths[i].0); }
    }
    RenderSplits(paths);
    assert [] + Render("", paths) == Render("", paths);
    FlattenIsRender(entries, "", []);
    RebuildIsSetAll([], Render("", paths));
    SetAllRebuilds([], entries);
    assert [] + entries == entries;
  }
}
