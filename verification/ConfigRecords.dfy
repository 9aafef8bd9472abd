/** JSON-like configuration records, and the `mergeMissing` both config migrations share. */
module ConfigRecords {
  datatype Json =
    | Undefined
    | Null
    | Bool(b: bool)
    | Number(n: real)
    | Str(s: string)
    | Arr(items: seq<Json>)
    | Rec(fields: Record)

  /** `Record<string, unknown>`; a key may be present with the value undefined. */
  type Record = map<string, Json>

  type Path = seq<string>

  predicate IsBlockedObjectKey(key: string) {
    key == "__proto__" || key == "prototype" || key == "constructor"
  }

  /** `record[key]` */
  function At(r: Record, key: string): Json {
    if key in r then r[key] else Undefined
  }

  /** A field that merging looks at. */
  predicate Offers(source: Record, key: string) {
    At(source, key) != Undefined && !IsBlockedObjectKey(key)
  }

  /** What merging leaves under a key. */
  function Merged(existing: Json, value: Json): Json
    decreases value, 1
  {
    if existing == Undefined then value
    else if existing.Rec? && value.Rec? then Rec(Merge(existing.fields, value.fields))
    else existing
  }

  function Merge(target: Record, source: Record): Record
    decreases Rec(source), 0
  {
    map k | k in target.Keys + source.Keys && (k in target || Offers(source, k)) ::
      if Offers(source, k) then
        assert source[k] < Rec(source);
        Merged(At(target, k), At(source, k))
      else At(target, k)
  }

  /** The loop over `Object.entries(source)`, in any order of the entries. */
  method MergeMissing(target: Record, source: Record) returns (r: Record)
    ensures r == Merge(target, source)
    decreases Rec(source)
  {
    r := target;
    var rest := source.Keys;
    while rest != {}
      invariant rest <= source.Keys
      invariant forall k :: k in r <==> k in target || (k in source && k !in rest && Offers(source, k))
      invariant forall k :: k in r ==>
        r[k] == (if k in source && k !in rest && Offers(source, k) then Merged(At(target, k), At(source, k)) else At(target, k))
      decreases rest
    {
      var key :| key in rest;
      rest := rest - {key};
      var value := source[key];
      if value != Undefined && !IsBlockedObjectKey(key) {
        var existing := At(r, key);
        if existing == Undefined {
          r := r[key := value];
        } else if existing.Rec? && value.Rec? {
          assert source[key] < Rec(source);
          var merged := MergeMissing(existing.fields, value.fields);
          r := r[key := Rec(merged)];
        }
      }
    }
    assert r.Keys == Merge(target, source).Keys;
  }

  // ----- reading along a path -----

  function Lookup(j: Json, path: Path): Json
    decreases path
  {
    if path == [] then j
    else if j.Rec? && path[0] in j.fields then Lookup(j.fields[path[0]], path[1..])
    else Undefined
  }

  predicate IsLeaf(j: Json) {
    j != Undefined && !j.Rec?
  }

  lemma LookupStep(r: Record, path: Path)
    requires path != []
    ensures Lookup(Rec(r), path) == Lookup(At(r, path[0]), path[1..])
  {
    if path[0] !in r {
      LookupUndefined(path[1..]);
    }
  }

  lemma LookupUndefined(path: Path)
    ensures Lookup(Undefined, path) == Undefined
  {
  }

  lemma MergeAt(target: Record, source: Record, key: string)
    ensures At(Merge(target, source), key) ==
            if Offers(source, key) then Merged(At(target, key), At(source, key)) else At(target, key)
  {
  }

  /** A value the target defines never changes, except that a record may be filled inside. */
  lemma {:induction false} MergeKeepsTarget(existing: Json, value: Json, path: Path)
    requires Lookup(existing, path) != Undefined
    ensures IsLeaf(Lookup(existing, path)) ==> Lookup(Merged(existing, value), path) == Lookup(existing, path)
    ensures Lookup(existing, path).Rec? ==> Lookup(Merged(existing, value), path).Rec?
    decreases path
  {
    if path != [] && existing.Rec? && value.Rec? {
      var key := path[0];
      LookupStep(existing.fields, path);
      LookupStep(Merge(existing.fields, value.fields), path);
      MergeAt(existing.fields, value.fields, key);
      LookupUndefined(path[1..]);
      if Offers(value.fields, key) {
        MergeKeepsTarget(At(existing.fields, key), At(value.fields, key), path[1..]);
      }
    } else if existing == Undefined {
      LookupUndefined(path);
    }
  }

  predicate Unblocked(path: Path) {
    forall i :: 0 <= i < |path| ==> !IsBlockedObjectKey(path[i])
  }

  /** The target has no value, on the way to a path or at it, that would stop a merge from reaching it. */
  ghost predicate Missing(existing: Json, path: Path) {
    Lookup(existing, path) == Undefined
    && forall n :: 0 <= n < |path| ==> !IsLeaf(Lookup(existing, path[..n]))
  }

  /** Every unblocked path that the target lacks gets the source's value. */
  lemma {:induction false} MergeFillsMissing(existing: Json, value: Json, path: Path)
    requires Missing(existing, path) && Unblocked(path)
    requires Lookup(value, path) != Undefined
    ensures Lookup(Merged(existing, value), path) == Lookup(value, path)
    decreases path
  {
    if existing != Undefined {
      assert path != [];
      var key := path[0];
      assert !IsLeaf(Lookup(existing, path[..0]));
      LookupStep(existing.fields, path);
      LookupStep(value.fields, path);
      LookupStep(Merge(existing.fields, value.fields), path);
      MergeAt(existing.fields, value.fields, key);
      if At(value.fields, key) == Undefined { LookupUndefined(path[1..]); }
      forall n | 0 <= n < |path[1..]| ensures !IsLeaf(Lookup(At(existing.fields, key), path[1..][..n])) {
        assert path[..n+1][0] == key && path[..n+1][1..] == path[1..][..n];
        LookupStep(existing.fields, path[..n+1]);
        assert !IsLeaf(Lookup(existing, path[..n+1]));
      }
      assert !IsBlockedObjectKey(path[0]);
      MergeFillsMissing(At(existing.fields, key), At(value.fields, key), path[1..]);
    }
  }

  /** Nothing else appears: every leaf of the result is the target's, or the source's where the target has none. */
  lemma {:induction false} MergeInventsNothing(existing: Json, value: Json, path: Path)
    requires IsLeaf(Lookup(Merged(existing, value), path))
    ensures var leaf := Lookup(Merged(existing, value), path);
      leaf == Lookup(existing, path) || (Lookup(existing, path) == Undefined && leaf == Lookup(value, path))
    decreases path
  {
    if existing == Undefined {
      LookupUndefined(path);
    } else if path != [] && existing.Rec? && value.Rec? {
      var key := path[0];
      LookupStep(existing.fields, path);
      LookupStep(value.fields, path);
      LookupStep(Merge(existing.fields, value.fields), path);
      MergeAt(existing.fields, value.fields, key);
      if Offers(value.fields, key) {
        MergeInventsNothing(At(existing.fields, key), At(value.fields, key), path[1..]);
      }
    }
  }

  // ----- when merging does nothing -----

  /** The target already has everything the source offers, at every level. */
  predicate Covers(target: Record, source: Record)
    decreases Rec(source)
  {
    forall k :: k in source && Offers(source, k) ==>
      && At(target, k) != Undefined
      && (At(target, k).Rec? && source[k].Rec? ==>
            assert source[k] < Rec(source);
            Covers(target[k].fields, source[k].fields))
  }

  /** A merge changes nothing exactly when the target covers the source. */
  lemma {:induction false} MergeNoopIffCovered(target: Record, source: Record)
    ensures Merge(target, source) == target <==> Covers(target, source)
    decreases Rec(source)
  {
    forall k | k in source && Offers(source, k)
      ensures At(target, k).Rec? && source[k].Rec? ==>
        (Merge(target[k].fields, source[k].fields) == target[k].fields <==> Covers(target[k].fields, source[k].fields))
    {
      if At(target, k).Rec? && source[k].Rec? {
        assert source[k] < Rec(source);
        MergeNoopIffCovered(target[k].fields, source[k].fields);
      }
    }
    if Covers(target, source) {
      forall k ensures At(Merge(target, source), k) == At(target, k) { MergeAt(target, source, k); }
      assert Merge(target, source).Keys == target.Keys by {
        assert forall k :: k in source && Offers(source, k) ==> k in target;
      }
      SameRecord(Merge(target, source), target);
    }
    if Merge(target, source) == target {
      forall k | k in source && Offers(source, k) ensures At(target, k) != Undefined {
        MergeAt(target, source, k);
      }
      forall k | k in source && Offers(source, k) && At(target, k).Rec? && source[k].Rec?
        ensures Covers(target[k].fields, source[k].fields)
      {
        MergeAt(target, source, k);
      }
    }
  }

  lemma SameRecord(a: Record, b: Record)
    requires a.Keys == b.Keys && forall k :: At(a, k) == At(b, k)
    ensures a == b
  {
    forall k | k in a ensures a[k] == b[k] { assert At(a, k) == At(b, k); }
  }

  lemma {:induction false} MergedCovers(target: Record, source: Record)
    ensures Covers(Merge(target, source), source)
    decreases Rec(source)
  {
    var r := Merge(target, source);
    forall k | k in source && Offers(source, k)
      ensures At(r, k) != Undefined
      ensures At(r, k).Rec? && source[k].Rec? ==> Covers(r[k].fields, source[k].fields)
    {
      MergeAt(target, source, k);
      assert source[k] < Rec(source);
      if At(r, k).Rec? && source[k].Rec? {
        if At(target, k).Rec? {
          MergedCovers(target[k].fields, source[k].fields);
        } else {
          CoversSelf(source[k].fields);
        }
      }
    }
  }

  lemma {:induction false} CoversSelf(r: Record)
    ensures Covers(r, r)
    decreases Rec(r)
  {
    forall k | k in r && Offers(r, k) && r[k].Rec? ensures Covers(r[k].fields, r[k].fields) {
      assert r[k] < Rec(r);
      CoversSelf(r[k].fields);
    }
  }

  /** Merging twice is merging once. */
  lemma MergeIdempotent(target: Record, source: Record)
    ensures Merge(Merge(target, source), source) == Merge(target, source)
  {
    MergedCovers(target, source);
    MergeNoopIffCovered(Merge(target, source), source);
  }

  // ----- setting and deleting along a path -----

  function RecordAt(r: Record, key: string): Record {
    if At(r, key).Rec? then At(r, key).fields else map[]
  }

  /** A chain of `ensureRecord` calls followed by an assignment. */
  function SetAt(r: Record, path: Path, value: Json): Record
    requires path != []
    decreases path
  {
    r[path[0] := if |path| == 1 then value else Rec(SetAt(RecordAt(r, path[0]), path[1..], value))]
  }

  predicate Overlaps(p: Path, q: Path) {
    p <= q || q <= p
  }

  /** A write is read back, and leaves every unrelated path alone. */
  lemma {:induction false} LookupSetAt(r: Record, path: Path, value: Json, p: Path)
    requires path != []
    ensures Lookup(Rec(SetAt(r, path, value)), path) == value
    ensures !Overlaps(p, path) ==> Lookup(Rec(SetAt(r, path, value)), p) == Lookup(Rec(r), p)
    decreases path
  {
    var after := SetAt(r, path, value);
    LookupStep(after, path);
    if |path| > 1 {
      LookupSetAt(RecordAt(r, path[0]), path[1..], value, if p == [] then [] else p[1..]);
    }
    if p != [] && !Overlaps(p, path) {
      LookupStep(after, p);
      LookupStep(r, p);
      if p[0] == path[0] {
        assert p == [p[0]] + p[1..] && path == [path[0]] + path[1..];
        assert |path| > 1 && p[1..] != [];
        assert !Overlaps(p[1..], path[1..]);
        if !At(r, p[0]).Rec? {
          LookupStep(map[], p[1..]);
          LookupUndefined(p[1..][1..]);
        }
      }
    }
  }

  /** The three keys that would reach a prototype are never filled; every other missing field is. */
  lemma MissingFieldFilled(target: Record, source: Record, key: string)
    requires At(target, key) == Undefined
    ensures At(Merge(target, source), key) ==
            if key in {"__proto__", "prototype", "constructor"} then Undefined else At(source, key)
  {
    MergeAt(target, source, key);
    hide Merge;
  }
}
