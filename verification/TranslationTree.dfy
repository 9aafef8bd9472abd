/**
 * `flattenTranslations` and `setNestedValue` of `scripts/control-ui-i18n.ts`.
 * A `TranslationMap` is kept as its entries in `Object.entries` order.
 */
module TranslationTree {
  import opened Results
  import opened Sequences
  import opened OrderedMaps
  import opened DottedKeys

  datatype Tree = Leaf(text: string) | Branch(entries: Entries)

  type Entries = seq<(string, Tree)>

  /** A `Map<string, string>` in insertion order. */
  type Flat = seq<(string, string)>

  /** A flattened tree before its paths are written as dotted keys. */
  type Paths = seq<(Path, string)>

  // ----- flattening -----

  function FlattenInto(entries: Entries, prefix: string, out: Flat): Flat
    decreases entries
  {
    if entries == [] then out
    else
      var entry := entries[0];
      assert entry.1 < entry;
      var fullKey := FullKey(prefix, entry.0);
      var next := match entry.1
        case Leaf(text) => Put(out, fullKey, text)
        case Branch(nested) => FlattenInto(nested, fullKey, out);
      FlattenInto(entries[1..], prefix, next)
  }

  function Flattened(entries: Entries): Flat {
    FlattenInto(entries, "", [])
  }

  method FlattenTranslations(entries: Entries, prefix: string, out: Flat) returns (r: Flat)
    ensures r == FlattenInto(entries, prefix, out)
    decreases entries
  {
    r := out;
    for i := 0 to |entries|
      invariant FlattenInto(entries, prefix, out) == FlattenInto(entries[i..], prefix, r)
    {
      var (key, nested) := entries[i];
      var fullKey := FullKey(prefix, key);
      assert entries[i..][1..] == entries[i+1..];
      match nested
      case Leaf(text) => r := Put(r, fullKey, text);
      case Branch(inner) =>
        var entry := entries[i];
        assert entry.1 < entry;
        r := FlattenTranslations(inner, fullKey, r);
    }
  }

  // ----- rebuilding -----

  /** `!next || typeof next === "string"` starts an empty map in place of whatever was there. */
  function Child(entries: Entries, key: string): Entries {
    var next: Option<Tree> := Get(entries, key);
    if next.Some? && next.value.Branch? then next.value.entries else []
  }

  function SetPath(entries: Entries, path: Path, value: string): Entries
    requires path != []
    decreases path
  {
    if |path| == 1 then Put(entries, path[0], Leaf(value))
    else Put(entries, path[0], Branch(SetPath(Child(entries, path[0]), path[1..], value)))
  }

  /** Puts a changed sub-map back under the maps the cursor came through. */
  function PlugIn(above: seq<(Entries, string)>, cursor: Entries): Entries {
    if above == [] then cursor
    else
      var (outer, key) := above[|above|-1];
      PlugIn(above[..|above|-1], Put(outer, key, Branch(cursor)))
  }

  method SetNestedValue(root: Entries, dottedKey: string, value: string) returns (r: Entries)
    ensures r == SetPath(root, Split(dottedKey), value)
  {
    var parts := Split(dottedKey);
    var cursor := root;
    var above: seq<(Entries, string)> := [];
    for index := 0 to |parts| - 1
      invariant SetPath(root, parts, value) == PlugIn(above, SetPath(cursor, parts[index..], value))
    {
      assert parts[index..][1..] == parts[index+1..];
      above := above + [(cursor, parts[index])];
      assert above[..|above|-1] + [above[|above|-1]] == above;
      cursor := Child(cursor, parts[index]);
    }
    assert parts[|parts|-1..] == [parts[|parts|-1]];
    r := PlugIn(above, Put(cursor, parts[|parts|-1], Leaf(value)));
  }

  function RebuildInto(entries: Entries, flat: Flat): Entries
    decreases flat
  {
    if flat == [] then entries
    else RebuildInto(SetPath(entries, Split(flat[0].0), flat[0].1), flat[1..])
  }

  /** The loop of `syncLocale` that fills `nextMap`. */
  method Rebuild(flat: Flat) returns (r: Entries)
    ensures r == RebuildInto([], flat)
  {
    r := [];
    for i := 0 to |flat|
      invariant RebuildInto([], flat) == RebuildInto(r, flat[i..])
    {
      assert flat[i..][1..] == flat[i+1..];
      r := SetNestedValue(r, flat[i].0, flat[i].1);
    }
  }

  function Rebuilt(flat: Flat): Entries {
    RebuildInto([], flat)
  }

  // ----- flattening as a list of paths -----

  function Prefixed(key: string, paths: Paths): Paths {
    seq(|paths|, i requires 0 <= i < |paths| => ([key] + paths[i].0, paths[i].1))
  }

  /** Every text with the path of keys that leads to it, in depth-first order. */
  function PathsOf(entries: Entries): Paths
    decreases entries
  {
    if entries == [] then []
    else
      var entry := entries[0];
      assert entry.1 < entry;
      Prefixed(entry.0, InnerPaths(entry.1)) + PathsOf(entries[1..])
  }

  function InnerPaths(tree: Tree): Paths
    decreases tree
  {
    match tree
    case Leaf(text) => [([], text)]
    case Branch(nested) => PathsOf(nested)
  }

  function Render(prefix: string, paths: Paths): Flat {
    seq(|paths|, i requires 0 <= i < |paths| => (FullPath(prefix, paths[i].0), paths[i].1))
  }

  lemma RenderPrefixed(prefix: string, key: string, paths: Paths)
    ensures Render(prefix, Prefixed(key, paths)) == Render(FullKey(prefix, key), paths)
  {
    forall i | 0 <= i < |paths|
      ensures Render(prefix, Prefixed(key, paths))[i] == Render(FullKey(prefix, key), paths)[i]
    {
      var path := [key] + paths[i].0;
      assert path[1..] == paths[i].0;
    }
  }

  lemma RenderFirst(entries: Entries, prefix: string)
    requires entries != []
    ensures Render(prefix, PathsOf(entries))
         == Render(FullKey(prefix, entries[0].0), InnerPaths(entries[0].1)) + Render(prefix, PathsOf(entries[1..]))
  {
    hide Render, FullKey, Prefixed;
    var entry := entries[0];
    RenderPrefixed(prefix, entry.0, InnerPaths(entry.1));
    RenderConcat(prefix, Prefixed(entry.0, InnerPaths(entry.1)), PathsOf(entries[1..]));
  }

  lemma RenderConcat(prefix: string, a: Paths, b: Paths)
    ensures Render(prefix, a + b) == Render(prefix, a) + Render(prefix, b)
  {
    hide FullPath;
  }

  /** When no two texts get the same key, flattening just appends the rendered paths. */
  lemma {:induction false} FlattenIsRender(entries: Entries, prefix: string, out: Flat)
    requires NoDuplicates(KeysOf(out + Render(prefix, PathsOf(entries))))
    ensures FlattenInto(entries, prefix, out) == out + Render(prefix, PathsOf(entries))
    decreases entries
  {
    hide NoDuplicates, FullKey, Render;
    if entries != [] {
      var entry := entries[0];
      assert entry.1 < entry;
      var fullKey := FullKey(prefix, entry.0);
      RenderFirst(entries, prefix);
      var here, rest := Render(fullKey, InnerPaths(entry.1)), Render(prefix, PathsOf(entries[1..]));
      assert out + Render(prefix, PathsOf(entries)) == (out + here) + rest;
      KeysPrefix(out + here, rest);
      match entry.1 {
        case Leaf(text) => PutRendered(out, fullKey, text);
        case Branch(nested) => FlattenIsRender(nested, fullKey, out);
      }
      FlattenIsRender(entries[1..], prefix, out + here);
    } else {
      RenderNothing(prefix);
      assert out + Render(prefix, PathsOf(entries)) == out;
    }
  }

  lemma RenderNothing(prefix: string)
    ensures Render(prefix, []) == []
  {
  }

  lemma PutRendered(out: Flat, key: string, text: string)
    requires NoDuplicates(KeysOf(out + Render(key, [([], text)])))
    ensures Put(out, key, text) == out + Render(key, [([], text)])
  {
    var here := Render(key, [([], text)]);
    assert here == [(key, text)];
    var keys := KeysOf(out + here);
    assert keys == KeysOf(out) + [key];
    assert key !in KeysOf(out) by {
      assert keys[|out|] == key;
      assert forall i :: 0 <= i < |out| ==> KeysOf(out)[i] == keys[i];
    }
    PutNew(out, key, text);
  }
}
