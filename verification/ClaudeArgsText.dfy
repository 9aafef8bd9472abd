/** The normalised argument list, told from the texts of the arguments. */
module ClaudeArgsText {
  import opened Text
  import opened ClaudeArgs
  import opened ClaudeArgsClean

  /** Not blank, and not starting with a dash. */
  ghost predicate ValueText(arg: string) {
    (exists i :: 0 <= i < |arg| && !IsSpace(arg[i])) && arg[0] != '-'
  }

  lemma BlankIff(s: string)
    ensures Trim(s) == "" <==> AllSpaces(s)
  {
    var before, after := TrimExact(s);
    TrimSteps(s);
    hide IsSpace, Trim, TrimStart, TrimEnd;
    if Trim(s) != "" {
      assert s[|before|] == Trim(s)[0];
    }
    if Trim(s) == "" {
      forall i | 0 <= i < |s| ensures IsSpace(s[i]) {
        assert s[i] == if i < |before| then before[i] else after[i - |before|];
      }
    }
  }

  /** Which arguments can be the value of the option before them. */
  lemma ValueIff(arg: string)
    ensures IsValue(arg) <==> ValueText(arg)
  {
    BlankIff(arg);
    hide Trim, IsSpace;
    if arg != "" {
      assert "-"[0] == '-';
      assert StartsWith(arg, "-") <==> arg[0] == '-' by {
        if arg[0] == '-' { assert arg[..1] == "-"; }
      }
    }
  }

  // ----- permission modes -----

  /** `--permission-mode v` stands somewhere. */
  ghost predicate HasPair(args: Args, v: string) {
    exists i: nat :: PairAt(args, i, v)
  }

  ghost predicate PairAt(args: Args, i: nat, v: string) {
    i + 1 < |args| && args[i] == "--permission-mode" && args[i+1] == v
  }

  ghost predicate NoMode(args: Args) {
    && (forall v :: ValueText(v) ==> !HasPair(args, v))
    && forall a :: a in args ==> !("--permission-mode=" <= a)
  }

  lemma PairLater(args: Args, n: nat, v: string)
    requires n <= |args| && HasPair(args[n..], v)
    ensures HasPair(args, v)
  {
    var i: nat :| PairAt(args[n..], i, v);
    assert PairAt(args, n + i, v);
  }

  /** Without a pair at the first n places, a pair is one of the rest. */
  lemma PairInRest(args: Args, n: nat, v: string)
    requires n <= |args| && HasPair(args, v) && forall i: nat :: i < n ==> !PairAt(args, i, v)
    ensures HasPair(args[n..], v)
  {
    var i: nat :| PairAt(args, i, v);
    assert PairAt(args[n..], i - n, v);
  }

  lemma {:induction false} ModePairs(args: Args, v: string)
    requires IsValue(v)
    ensures v in Modes(args) <==> HasPair(args, v)
    decreases |args|
  {
    hide IsValue, KindOf, HasPair, PairAt;
    if args == [] {
      NoPair(v);
    } else {
      FirstPair(args, v);
      if KindOf(args[0]).Mode? && HasValue(args) {
        ModePairs(args[2..], v);
        PairsBehind(args, 2, v);
      } else {
        OptionIsNoMode(args, v);
        ModePairs(args[1..], v);
        PairsBehind(args, 1, v);
      }
    }
  }

  lemma NoPair(v: string)
    ensures !HasPair([], v)
  {
  }

  lemma FirstPair(args: Args, v: string)
    requires args != [] && IsValue(v)
    ensures PairAt(args, 0, v) <==> KindOf(args[0]).Mode? && HasValue(args) && args[1] == v
    ensures KindOf(args[0]).Mode? && HasValue(args) ==> !PairAt(args, 1, v)
  {
    KindConditions(args[0]);
    if HasValue(args) {
      ValueIsOther(args[1]);
      KindConditions(args[1]);
    }
    hide KindOf, IsValue, StartsWith;
  }

  lemma PairsBehind(args: Args, n: nat, v: string)
    requires n <= |args| && forall i: nat :: 0 < i < n ==> !PairAt(args, i, v)
    requires n > 0
    ensures HasPair(args, v) <==> PairAt(args, 0, v) || HasPair(args[n..], v)
  {
    if HasPair(args[n..], v) { PairLater(args, n, v); }
    if HasPair(args, v) && !PairAt(args, 0, v) { PairInRest(args, n, v); }
  }

  /** An argument that opens no pair adds no value to the modes. */
  lemma OptionIsNoMode(args: Args, v: string)
    requires args != [] && IsValue(v) && !(KindOf(args[0]).Mode? && HasValue(args))
    ensures v in Modes(args) <==> v in Modes(args[1..])
  {
    ValueIsOther(v);
    hide KindOf, IsValue;
  }

  lemma ModeEquals(args: Args, a: string)
    requires "--permission-mode=" <= a
    ensures a in Modes(args) <==> a in args
  {
    KindConditions(a);
    WholeModes(args, a);
  }

  lemma {:induction false} WholeModes(args: Args, a: string)
    requires KindOf(a).ModeEquals?
    ensures a in Modes(args) <==> a in args
    decreases |args|
  {
    hide KindOf, IsValue, Modes;
    if args == [] {
      NoModes();
    } else {
      FirstMode(args, a);
      if KindOf(args[0]).Mode? && HasValue(args) {
        WholeModes(args[2..], a);
        assert args == [args[0], args[1]] + args[2..];
      } else {
        WholeModes(args[1..], a);
        assert args == [args[0]] + args[1..];
      }
    }
  }

  lemma NoModes()
    ensures Modes([]) == []
  {
  }

  lemma FirstMode(args: Args, a: string)
    requires args != [] && KindOf(a).ModeEquals?
    ensures KindOf(args[0]).Mode? && HasValue(args) ==>
      args[0] != a && args[1] != a && (a in Modes(args) <==> a in Modes(args[2..]))
    ensures !(KindOf(args[0]).Mode? && HasValue(args)) ==>
      (a in Modes(args) <==> a == args[0] || a in Modes(args[1..]))
  {
    if HasValue(args) { ValueIsOther(args[1]); }
    hide KindOf, IsValue;
  }

  lemma {:induction false} ModeKinds(args: Args, m: string)
    requires m in Modes(args)
    ensures IsValue(m) || KindOf(m).ModeEquals?
    decreases |args|
  {
    hide KindOf, IsValue;
    if KindOf(args[0]).Mode? && HasValue(args) {
      if m != args[1] { ModeKinds(args[2..], m); }
    } else if m in Modes(args[1..]) {
      ModeKinds(args[1..], m);
    }
  }

  lemma NoModeIff(args: Args)
    ensures Modes(args) == [] <==> NoMode(args)
  {
    hide Modes, IsValue, HasPair, KindOf, ValueText;
    forall v ensures IsValue(v) <==> ValueText(v) { ValueIff(v); }
    forall v | ValueText(v) ensures v in Modes(args) <==> HasPair(args, v) { ModePairs(args, v); }
    forall a | a in args && "--permission-mode=" <= a ensures a in Modes(args) { ModeEquals(args, a); }
    if Modes(args) != [] {
      var m := Modes(args)[0];
      ModeKinds(args, m);
      if KindOf(m).ModeEquals? {
        KindConditions(m);
        ModeEquals(args, m);
      }
    }
  }

  /**
   * A mode is given in the result exactly if it was given, or if none was and it is `bypassPermissions`: so
   * `--permission-mode plan` stays, for every value in place of `plan`, and so does every `--permission-mode=...`.
   */
  lemma ModesIff(args: Args, v: string)
    ensures ValueText(v) ==>
      (HasPair(Normalized(args), v) <==> HasPair(args, v) || (NoMode(args) && v == "bypassPermissions"))
    ensures "--permission-mode=" <= v ==> (v in Normalized(args) <==> v in args)
  {
    hide Modes, IsValue, HasPair, NoMode, ValueText, Normalized;
    NormalizedKeeps(args);
    NoModeIff(args);
    ValueIff(v);
    if IsValue(v) {
      ModePairs(args, v);
      ModePairs(Normalized(args), v);
    }
    if "--permission-mode=" <= v {
      ModeEquals(args, v);
      ModeEquals(Normalized(args), v);
      BypassIsNoPrefix(v);
    }
  }

  lemma BypassIsNoPrefix(v: string)
    requires "--permission-mode=" <= v
    ensures v != "bypassPermissions"
  {
    assert v[0] == "--permission-mode="[0] == '-';
  }

  // ----- what the result consists of -----

  /** The legacy flag is gone, a bare mode option has a value, and every setting source is `user`. */
  lemma ResultSpelledOut(args: Args, i: nat)
    requires i < |Normalized(args)|
    ensures var out := Normalized(args);
      && out[i] != "--dangerously-skip-permissions"
      && (out[i] == "--permission-mode" ==> i + 1 < |out| && ValueText(out[i+1]))
      && (out[i] == "--setting-sources" ==> i + 1 < |out| && out[i+1] == "user")
      && ("--setting-sources=" <= out[i] ==> out[i] == "--setting-sources=user")
  {
    NormalizedKeeps(args);
    CleanEverywhere(Normalized(args));
    hide Clean, Normalized, Modes, HasSources, IsValue, ValueText;
    assert AllowedAt(Normalized(args), i);
    if i + 1 < |Normalized(args)| { ValueIff(Normalized(args)[i+1]); }
  }

  /** Some setting source is given, always. */
  lemma SourcesGiven(args: Args)
    ensures exists i :: 0 <= i < |Normalized(args)|
                        && (Normalized(args)[i] == "--setting-sources" || "--setting-sources=" <= Normalized(args)[i])
  {
    NormalizedKeeps(args);
    hide Clean, Normalized, Modes, HasSources;
    SomeSource(Normalized(args));
  }

  lemma {:induction false} SomeSource(args: Args)
    requires HasSources(args)
    ensures exists i :: 0 <= i < |args| && (args[i] == "--setting-sources" || "--setting-sources=" <= args[i])
    decreases |args|
  {
    KindConditions(args[0]);
    hide KindOf, IsValue;
    if !KindOf(args[0]).Sources? && !KindOf(args[0]).SourcesEquals? {
      SomeSource(args[1..]);
      var i :| 0 <= i < |args[1..]| && (args[1..][i] == "--setting-sources" || "--setting-sources=" <= args[1..][i]);
      assert args[i + 1] == args[1..][i];
    }
  }

  // ----- what stays -----

  /** Neither an option of the two passes nor, here, the value of a setting source. */
  ghost predicate Unrelated(args: Args, i: nat)
    requires i < |args|
  {
    && args[i] !in {"--dangerously-skip-permissions", "--permission-mode", "--setting-sources"}
    && !("--setting-sources=" <= args[i])
    && (i > 0 && args[i-1] == "--setting-sources" ==> !ValueText(args[i]))
  }

  lemma {:induction false} SourcesKeep(args: Args, i: nat)
    requires i < |args| && !KindOf(args[i]).Sources? && !KindOf(args[i]).SourcesEquals?
    requires i > 0 && KindOf(args[i-1]).Sources? ==> !IsValue(args[i])
    ensures args[i] in SourceTokens(args)
    decreases |args|
  {
    hide KindOf, IsValue;
    if KindOf(args[0]).Sources? && HasValue(args) {
      assert i >= 2 && args[i] == args[2..][i-2];
      SourcesKeep(args[2..], i - 2);
    } else if i > 0 {
      assert args[i] == args[1..][i-1];
      SourcesKeep(args[1..], i - 1);
    }
  }

  lemma {:induction false} PermissionKeep(args: Args, a: string)
    requires a in args && !KindOf(a).Skip? && !KindOf(a).Mode?
    ensures a in PermissionTokens(args)
    decreases |args|
  {
    hide KindOf, IsValue;
    assert args == [args[0]] + args[1..];
    if KindOf(args[0]).Mode? && HasValue(args) {
      assert args[1..] == [args[1]] + args[2..];
      if a != args[1] { PermissionKeep(args[2..], a); }
    } else if a != args[0] {
      PermissionKeep(args[1..], a);
    }
  }

  /** Every argument that is no option of the two passes stays, unless it is the value of a setting source. */
  lemma UnrelatedKept(args: Args, i: nat)
    requires i < |args| && Unrelated(args, i)
    ensures args[i] in Normalized(args)
  {
    ValueIff(args[i]);
    KindConditions(args[i]);
    if i > 0 { KindConditions(args[i-1]); }
    hide KindOf, IsValue, ValueText, StartsWith, SourceTokens, PermissionTokens, HasSources, Modes;
    SourcesKeep(args, i);
    PermissionKeep(SettingSourcesArgs(args), args[i]);
  }
}
