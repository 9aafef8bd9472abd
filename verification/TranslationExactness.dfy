/** Round trip two, with its exact condition, and independence of insertion order. */
module TranslationExactness {
  import opened Results
  import opened Sequences
  import opened OrderedMaps
  import opened DottedKeys
  import opened TranslationTree
  import opened TranslationRoundTrip
  import opened TranslationLookup

  ghost predicate SameEntries<T(!new)>(a: seq<T>, b: seq<T>) {
    forall e :: e in a <==> e in b
  }

  predicate NoLeadingDot(key: string) {
    key == "" || key[0] != '.'
  }

  /** What a caller can check before rebuilding. */
  predicate RoundTrippable(flat: Flat) {
    PrefixFree(SplitKeys(flat)) && forall i :: 0 <= i < |flat| ==> NoLeadingDot(flat[i].0)
  }

  lemma LeadingSplit(key: string)
    ensures Leading(Split(key)) <==> NoLeadingDot(key)
  {
    if key != "" && key[0] == '.' {
      assert Split(key) == [""] + Split(key[1..]);
    }
  }

  lemma SplitKeysDistinct(flat: Flat)
    requires NoDuplicates(KeysOf(flat))
    ensures NoDuplicates(KeysOf(SplitKeys(flat)))
  {
    var paths := SplitKeys(flat);
    forall i, j | 0 <= i < j < |paths| ensures KeysOf(paths)[i] != KeysOf(paths)[j] {
      assert KeysOf(flat)[i] != KeysOf(flat)[j];
      DottedSplit(flat[i].0);
      DottedSplit(flat[j].0);
    }
  }

  // ----- maps that read like the rebuilt one -----

  /** The same text at every path: all that matters of a map, whatever the order of its keys. */
  ghost predicate SameTexts(a: Entries, b: Entries) {
    forall path :: TextAt(a, path) == TextAt(b, path)
  }

  /** A map that reads like the one rebuilt from `flat`, its keys in any order. */
  ghost predicate Rebuilds(flat: Flat, tree: Entries) {
    WellKeyed(tree) && SameTexts(tree, Rebuilt(flat))
  }

  lemma RebuiltRebuilds(flat: Flat)
    ensures Rebuilds(flat, Rebuilt(flat))
  {
    RebuildIsSetAll([], flat);
    SetAllWellKeyed([], SplitKeys(flat));
  }

  /** Every path of a rebuilt map is the split of one of its keys. */
  lemma RebuiltPaths(flat: Flat, tree: Entries)
    requires Rebuilds(flat, tree)
    ensures forall e :: e in PathsOf(tree) ==> e in SplitKeys(flat)
  {
    var paths := SplitKeys(flat);
    RebuildIsSetAll([], flat);
    forall e | e in PathsOf(tree) ensures e in paths {
      var (path, text) := e;
      PathsAreTexts(tree, path, text);
      SetAllOnly([], paths, path, text);
      assert TextAt([], path) == None;
    }
  }

  lemma RebuiltPathsLeading(flat: Flat, tree: Entries)
    requires Rebuilds(flat, tree)
    requires forall i :: 0 <= i < |flat| ==> NoLeadingDot(flat[i].0)
    ensures LeadingPaths(PathsOf(tree))
  {
    RebuiltPaths(flat, tree);
    var paths, own := SplitKeys(flat), PathsOf(tree);
    forall i | 0 <= i < |own| ensures Leading(own[i].0) && AllDotFree(own[i].0) {
      assert own[i] in own;
      var j :| 0 <= j < |paths| && paths[j] == own[i];
      LeadingSplit(flat[j].0);
    }
  }

  lemma RebuiltKeepsAll(flat: Flat, tree: Entries)
    requires Rebuilds(flat, tree)
    requires NoDuplicates(KeysOf(flat)) && PrefixFree(SplitKeys(flat))
    ensures SameEntries(PathsOf(tree), SplitKeys(flat))
  {
    var paths := SplitKeys(flat);
    RebuiltPaths(flat, tree);
    RebuildIsSetAll([], flat);
    SplitKeysDistinct(flat);
    forall e | e in paths ensures e in PathsOf(tree) {
      var i :| 0 <= i < |paths| && paths[i] == e;
      SetAllReads([], paths, i);
      PathsAreTexts(tree, paths[i].0, paths[i].1);
    }
  }

  lemma RenderEntries(tree: Paths, flat: Flat)
    requires LeadingPaths(tree) && SameEntries(tree, SplitKeys(flat))
    ensures SameEntries(Render("", tree), flat)
  {
    var paths, out := SplitKeys(flat), Render("", tree);
    RenderSplits(tree);
    forall e | e in out ensures e in flat {
      var i :| 0 <= i < |out| && out[i] == e;
      assert tree[i] in tree;
      var j :| 0 <= j < |paths| && paths[j] == tree[i];
      assert SplitKeys(out)[i] == tree[i];
      DottedSplit(flat[j].0);
      DottedSplit(out[i].0);
      assert flat[j] == out[i];
    }
    forall e | e in flat ensures e in out {
      var j :| 0 <= j < |flat| && flat[j] == e;
      assert paths[j] in paths;
      var i :| 0 <= i < |tree| && tree[i] == paths[j];
      assert SplitKeys(out)[i] == tree[i];
      DottedSplit(flat[j].0);
      DottedSplit(out[i].0);
      assert out[i] == flat[j];
    }
  }

  lemma RoundTrippableRoundTrips(flat: Flat, tree: Entries)
    requires Rebuilds(flat, tree)
    requires NoDuplicates(KeysOf(flat)) && RoundTrippable(flat)
    ensures SameEntries(Flattened(tree), flat)
  {
    var paths := PathsOf(tree);
    RebuiltPathsLeading(flat, tree);
    RebuiltKeepsAll(flat, tree);
    PathsDistinct(tree);
    RenderSplits(paths);
    assert [] + Render("", paths) == Render("", paths);
    FlattenIsRender(tree, "", []);
    RenderEntries(paths, flat);
  }

  /** Every flattened key comes from a path, collisions or not. */
  lemma {:induction false} FlattenedKey(entries: Entries, prefix: string, out: Flat, e: (string, string))
    requires e in FlattenInto(entries, prefix, out)
    ensures e in out || exists p :: p in PathsOf(entries) && e == (FullPath(prefix, p.0), p.1)
    decreases entries
  {
    if entries != [] {
      var entry := entries[0];
      assert entry.1 < entry;
      var fullKey := FullKey(prefix, entry.0);
      var inner := InnerPaths(entry.1);
      var next := match entry.1
        case Leaf(text) => Put(out, fullKey, text)
        case Branch(nested) => FlattenInto(nested, fullKey, out);
      FlattenedKey(entries[1..], prefix, next, e);
      if e in next {
        var p: (Path, string);
        match entry.1 {
          case Leaf(text) =>
            PutMembers(out, fullKey, text, e);
            p := ([], text);
            assert inner == [p];
          case Branch(nested) =>
            FlattenedKey(nested, fullKey, out, e);
            assert inner == PathsOf(nested);
            p := if e in out then ([], "") else var q :| q in PathsOf(nested) && e == (FullPath(fullKey, q.0), q.1); q;
        }
        if e !in out {
          var longer := ([entry.0] + p.0, p.1);
          assert longer.0[1..] == p.0;
          PathsOfSplit(entries, longer.0, longer.1);
          assert longer in PathsOf(entries);
        }
      } else {
        var p :| p in PathsOf(entries[1..]) && e == (FullPath(prefix, p.0), p.1);
        PathsOfSplit(entries, p.0, p.1);
        assert p in PathsOf(entries);
      }
    }
  }

  lemma {:induction false} FullPathNoLeadingDot(prefix: string, path: Path)
    requires AllDotFree(path) && NoLeadingDot(prefix)
    ensures NoLeadingDot(FullPath(prefix, path))
    decreases path
  {
    if path != [] {
      FullPathNoLeadingDot(FullKey(prefix, path[0]), path[1..]);
    }
  }

  lemma SurvivingKeyPath(flat: Flat, tree: Entries, key: string)
    requires Rebuilds(flat, tree)
    requires key in KeysOf(Flattened(tree))
    ensures exists p :: p in PathsOf(tree) && p in SplitKeys(flat) && key == FullPath("", p.0)
  {
    var out := Flattened(tree);
    var i :| 0 <= i < |out| && KeysOf(out)[i] == key;
    FlattenedKey(tree, "", [], out[i]);
    RebuiltPaths(flat, tree);
  }

  lemma LeadingDotLost(flat: Flat, tree: Entries, key: string)
    requires Rebuilds(flat, tree) && !NoLeadingDot(key)
    ensures key !in KeysOf(Flattened(tree))
  {
    if key in KeysOf(Flattened(tree)) {
      SurvivingKeyPath(flat, tree, key);
      var p :| p in PathsOf(tree) && p in SplitKeys(flat) && key == FullPath("", p.0);
      var j :| 0 <= j < |flat| && SplitKeys(flat)[j] == p;
      FullPathNoLeadingDot("", p.0);
    }
  }

  /** A key that survives is readable at its own path. */
  lemma SurvivorReadable(flat: Flat, tree: Entries, key: string)
    requires Rebuilds(flat, tree)
    requires forall i :: 0 <= i < |flat| ==> NoLeadingDot(flat[i].0)
    requires key in KeysOf(Flattened(tree))
    ensures TextAt(tree, Split(key)).Some?
  {
    RebuiltPathsLeading(flat, tree);
    SurvivingKeyPath(flat, tree, key);
    var paths := PathsOf(tree);
    var p :| p in paths && p in SplitKeys(flat) && key == FullPath("", p.0);
    var k :| 0 <= k < |paths| && paths[k] == p;
    FullPathIsDotted(paths[k].0);
    SplitDotted(paths[k].0);
    PathsAreTexts(tree, p.0, p.1);
  }

  /** Whatever the texts, a map that is not round-trippable loses one of its keys. */
  lemma SomeKeyLost(flat: Flat, tree: Entries)
    requires Rebuilds(flat, tree) && !RoundTrippable(flat)
    ensures exists i :: 0 <= i < |flat| && flat[i].0 !in KeysOf(Flattened(tree))
  {
    if i :| 0 <= i < |flat| && !NoLeadingDot(flat[i].0) {
      LeadingDotLost(flat, tree, flat[i].0);
    } else {
      var paths := SplitKeys(flat);
      var i, j :| 0 <= i < |paths| && 0 <= j < |paths| && Related(paths[i].0, paths[j].0);
      if flat[i].0 in KeysOf(Flattened(tree)) && flat[j].0 in KeysOf(Flattened(tree)) {
        SurvivorReadable(flat, tree, flat[i].0);
        SurvivorReadable(flat, tree, flat[j].0);
        TextsUnrelated(tree, paths[i].0, paths[j].0);
      }
    }
  }

  /**
   * Round trip two: flattening a rebuilt map, or one that reads like it, gives the entries back
   * if and only if they are round-trippable.
   */
  lemma FlattenRebuilt(flat: Flat, tree: Entries)
    requires Rebuilds(flat, tree) && NoDuplicates(KeysOf(flat))
    ensures SameEntries(Flattened(tree), flat) <==> RoundTrippable(flat)
  {
    if RoundTrippable(flat) {
      RoundTrippableRoundTrips(flat, tree);
    } else {
      SomeKeyLost(flat, tree);
      var i :| 0 <= i < |flat| && flat[i].0 !in KeysOf(Flattened(tree));
      MemberKey(Flattened(tree), flat[i]);
      assert flat[i] in flat;
    }
  }

  /** A source map written with plain keys always meets the condition. */
  lemma PlainSourceRoundTrips(entries: Entries)
    requires WellKeyed(entries) && Plain(entries)
    ensures NoDuplicates(KeysOf(Flattened(entries))) && RoundTrippable(Flattened(entries))
  {
    RebuildFlattened(entries);
    RebuiltRebuilds(Flattened(entries));
    FlattenRebuilt(Flattened(entries), entries);
  }

  // ----- insertion order -----

  /** With prefix-free keys the rebuilt map does not depend on the order in which they are written. */
  lemma RebuildOrderIrrelevant(a: Flat, b: Flat)
    requires NoDuplicates(KeysOf(a)) && NoDuplicates(KeysOf(b)) && SameEntries(a, b)
    requires PrefixFree(SplitKeys(a))
    ensures SameTexts(Rebuilt(a), Rebuilt(b))
  {
    SameSplits(a, b);
    SameSplits(b, a);
    var pa, pb := SplitKeys(a), SplitKeys(b);
    forall i, j | 0 <= i < |pb| && 0 <= j < |pb| ensures !Related(pb[i].0, pb[j].0) {
      assert pb[i] in pb && pb[j] in pb;
      var k :| 0 <= k < |pa| && pa[k] == pb[i];
      var l :| 0 <= l < |pa| && pa[l] == pb[j];
    }
    RebuiltRebuilds(a);
    RebuiltRebuilds(b);
    RebuiltKeepsAll(a, Rebuilt(a));
    RebuiltKeepsAll(b, Rebuilt(b));
    forall path ensures TextAt(Rebuilt(a), path) == TextAt(Rebuilt(b), path) {
      forall text ensures TextAt(Rebuilt(a), path) == Some(text) <==> TextAt(Rebuilt(b), path) == Some(text) {
        PathsAreTexts(Rebuilt(a), path, text);
        PathsAreTexts(Rebuilt(b), path, text);
      }
    }
  }

  /** The same map with its i-th entry written last. */
  function WrittenLast(flat: Flat, i: nat): Flat
    requires i < |flat|
  {
    flat[..i] + flat[i+1..] + [flat[i]]
  }

  lemma WrittenLastSame(flat: Flat, i: nat)
    requires i < |flat| && NoDuplicates(KeysOf(flat))
    ensures SameEntries(flat, WrittenLast(flat, i)) && NoDuplicates(KeysOf(WrittenLast(flat, i)))
  {
    var moved, keys := WrittenLast(flat, i), KeysOf(flat);
    forall e | e in flat ensures e in moved {
      var k :| 0 <= k < |flat| && flat[k] == e;
      assert moved[if k < i then k else if k == i then |flat| - 1 else k - 1] == e;
    }
    forall j, k | 0 <= j < k < |moved| ensures KeysOf(moved)[j] != KeysOf(moved)[k] {
      assert KeysOf(moved)[j] == keys[if j < i then j else j + 1];
      assert KeysOf(moved)[k] == keys[if k < i then k else if k == |flat| - 1 then i else k + 1];
    }
  }

  /** The last write is read back, and hides every related path. */
  lemma LastWriteReads(flat: Flat, i: nat, q: Path)
    requires i < |flat| && q != []
    ensures TextAt(Rebuilt(WrittenLast(flat, i)), Split(flat[i].0)) == Some(flat[i].1)
    ensures Related(Split(flat[i].0), q) ==> TextAt(Rebuilt(WrittenLast(flat, i)), q) == None
  {
    var front, last := flat[..i] + flat[i+1..], [flat[i]];
    var pf, pl := SplitKeys(front), SplitKeys(last);
    assert SplitKeys(WrittenLast(flat, i)) == pf + pl;
    RebuildIsSetAll([], WrittenLast(flat, i));
    SetAllConcat([], pf, pl);
    assert SetAll(SetAll([], pf), pl) == SetPath(SetAll([], pf), pl[0].0, pl[0].1) by { assert pl[1..] == []; }
    TextAtSetPath(SetAll([], pf), pl[0].0, pl[0].1, pl[0].0);
    TextAtSetPath(SetAll([], pf), pl[0].0, pl[0].1, q);
  }

  /** The rebuilt map is the same for every order of the keys if and only if they are prefix-free. */
  lemma RebuildOrderIrrelevantIff(flat: Flat)
    requires NoDuplicates(KeysOf(flat))
    ensures PrefixFree(SplitKeys(flat)) <==>
      forall b :: NoDuplicates(KeysOf(b)) && SameEntries(flat, b) ==> SameTexts(Rebuilt(flat), Rebuilt(b))
  {
    if PrefixFree(SplitKeys(flat)) {
      forall b | NoDuplicates(KeysOf(b)) && SameEntries(flat, b) ensures SameTexts(Rebuilt(flat), Rebuilt(b)) {
        RebuildOrderIrrelevant(flat, b);
      }
    } else {
      var paths := SplitKeys(flat);
      var i, j :| 0 <= i < |paths| && 0 <= j < |paths| && Related(paths[i].0, paths[j].0);
      WrittenLastSame(flat, i);
      WrittenLastSame(flat, j);
      LastWriteReads(flat, i, paths[i].0);
      LastWriteReads(flat, j, paths[i].0);
      var bi, bj := WrittenLast(flat, i), WrittenLast(flat, j);
      assert TextAt(Rebuilt(bi), paths[i].0) != TextAt(Rebuilt(bj), paths[i].0);
      assert !SameTexts(Rebuilt(flat), Rebuilt(bi)) || !SameTexts(Rebuilt(flat), Rebuilt(bj));
    }
  }

  lemma SameSplits(a: Flat, b: Flat)
    requires SameEntries(a, b)
    ensures forall e :: e in SplitKeys(a) ==> e in SplitKeys(b)
  {
    forall e | e in SplitKeys(a) ensures e in SplitKeys(b) {
      var i :| 0 <= i < |a| && SplitKeys(a)[i] == e;
      assert a[i] in a;
      var j :| 0 <= j < |b| && b[j] == a[i];
      assert SplitKeys(b)[j] == e;
    }
  }

  /** The shortest map that does not survive: its only key starts with a dot. */
  lemma LeadingDotIsLost()
    ensures !RoundTrippable([(".b", "x")])
    ensures Rebuilt([(".b", "x")]) == [("", Branch([("b", Leaf("x"))]))]
    ensures Flattened(Rebuilt([(".b", "x")])) == [("b", "x")]
  {
    var flat: Flat := [(".b", "x")];
    assert flat[0].0[0] == '.';
    SplitSingle("b");
    assert Split(".b") == ["", "b"];
    assert Rebuilt(flat) == RebuildInto(SetPath([], ["", "b"], "x"), flat[1..]);
    assert SetPath([], ["b"], "x") == [("b", Leaf("x"))];
    assert ["", "b"][1..] == ["b"];
    var nested: Entries := [("b", Leaf("x"))];
    var tree: Entries := [("", Branch(nested))];
    assert Rebuilt(flat) == tree;
    assert FlattenInto(nested, "", []) == FlattenInto(nested[1..], "", [("b", "x")]);
    assert FlattenInto(tree, "", []) == FlattenInto(tree[1..], "", FlattenInto(nested, "", []));
  }
}
