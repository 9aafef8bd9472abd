/** Dotted keys and the paths they stand for: `key.split(".")` and its inverse. */
module DottedKeys {
  import opened Text

  type Path = seq<string>

  predicate DotFree(part: string) {
    '.' !in part
  }

  ghost predicate AllDotFree(path: Path) {
    forall i :: 0 <= i < |path| ==> DotFree(path[i])
  }

  function Split(s: string): (parts: Path)
    ensures |parts| >= 1 && AllDotFree(parts)
  {
    if s == "" then [""]
    else
      var rest := Split(s[1..]);
      if s[0] == '.' then [""] + rest
      else [[s[0]] + rest[0]] + rest[1..]
  }

  function Dotted(path: Path): string {
    Join(path, ".")
  }

  lemma {:induction false} DottedSplit(s: string)
    ensures Dotted(Split(s)) == s
  {
    if s != "" {
      var rest := Split(s[1..]);
      DottedSplit(s[1..]);
      if s[0] == '.' {
        assert ([""] + rest)[1..] == rest;
        assert "" + "." + s[1..] == s;
      } else {
        var parts := [[s[0]] + rest[0]] + rest[1..];
        assert parts[1..] == rest[1..];
        assert s == [s[0]] + s[1..];
        if |rest| > 1 {
          assert Dotted(rest) == rest[0] + "." + Dotted(rest[1..]);
          assert Dotted(parts) == ([s[0]] + rest[0]) + "." + Dotted(rest[1..]);
        }
      }
    }
  }

  lemma {:induction false} SplitPrefix(head: string, tail: string)
    requires DotFree(head)
    ensures Split(head + "." + tail) == [head] + Split(tail)
    decreases |head|
  {
    var s := head + "." + tail;
    if head == "" {
      assert s[1..] == tail;
    } else {
      assert s[1..] == head[1..] + "." + tail;
      SplitPrefix(head[1..], tail);
      assert s[0] == head[0] && s[0] != '.';
      assert [s[0]] + head[1..] == head;
      assert ([head[1..]] + Split(tail))[1..] == Split(tail);
    }
  }

  lemma {:induction false} SplitSingle(s: string)
    requires DotFree(s)
    ensures Split(s) == [s]
  {
    if s != "" {
      assert s[0] != '.';
      SplitSingle(s[1..]);
      assert [s[0]] + s[1..] == s;
    }
  }

  lemma {:induction false} SplitDotted(path: Path)
    requires |path| >= 1 && AllDotFree(path)
    ensures Split(Dotted(path)) == path
  {
    if |path| == 1 {
      SplitSingle(path[0]);
    } else {
      SplitDotted(path[1..]);
      assert Dotted(path) == path[0] + "." + Dotted(path[1..]);
      SplitPrefix(path[0], Dotted(path[1..]));
    }
  }

  /** `prefix ? `${prefix}.${key}` : key` */
  function FullKey(prefix: string, key: string): string {
    if prefix != "" then prefix + "." + key else key
  }

  /** The key a path gets when its parts are appended one by one. */
  function FullPath(prefix: string, path: Path): string
    decreases path
  {
    if path == [] then prefix else FullPath(FullKey(prefix, path[0]), path[1..])
  }

  /** Paths whose leading part survives: the empty part disappears when something follows it. */
  predicate Leading(path: Path) {
    |path| == 1 || (|path| > 1 && path[0] != "")
  }

  lemma {:induction false} FullPathPrefix(prefix: string, path: Path)
    requires prefix != "" && path != []
    ensures FullPath(prefix, path) == prefix + "." + Dotted(path)
    decreases |path|
  {
    var p := prefix + "." + path[0];
    if |path| > 1 {
      FullPathPrefix(p, path[1..]);
      assert Dotted(path) == path[0] + "." + Dotted(path[1..]);
      assert p + "." + Dotted(path[1..]) == prefix + "." + Dotted(path);
    }
  }

  lemma FullPathIsDotted(path: Path)
    requires Leading(path)
    ensures FullPath("", path) == Dotted(path)
  {
    if |path| > 1 {
      FullPathPrefix(path[0], path[1..]);
    }
  }
}
