/** What normalised argument lists look like, and that normalising them again changes nothing. */
module ClaudeArgsClean {
  import opened Text
  import opened ClaudeArgs

  /** Every setting source is `user`. */
  predicate SafeOnly(args: Args) {
    args == [] ||
    match KindOf(args[0])
    case Sources => |args| > 1 && args[1] == SAFE_SOURCES && SafeOnly(args[2..])
    case SourcesEquals => args[0] == SAFE_SOURCES_ARG && SafeOnly(args[1..])
    case _ => SafeOnly(args[1..])
  }

  /** Besides, no legacy flag, and every bare mode option has a value. */
  predicate Clean(args: Args) {
    args == [] ||
    match KindOf(args[0])
    case Skip => false
    case Mode => HasValue(args) && Clean(args[2..])
    case Sources => |args| > 1 && args[1] == SAFE_SOURCES && Clean(args[2..])
    case SourcesEquals => args[0] == SAFE_SOURCES_ARG && Clean(args[1..])
    case _ => Clean(args[1..])
  }

  /** The arguments that belong to neither option, in order. */
  function Rest(args: Args): Args {
    if args == [] then []
    else match KindOf(args[0])
      case Mode => if HasValue(args) then Rest(args[2..]) else Rest(args[1..])
      case Sources => if HasValue(args) then Rest(args[2..]) else Rest(args[1..])
      case Other => [args[0]] + Rest(args[1..])
      case _ => Rest(args[1..])
  }

  // ----- the values of options -----

  /** A value in second place is an ordinary argument to every pass. */
  lemma SkipValue(args: Args)
    requires HasValue(args)
    ensures KindOf(args[1]).Other?
    ensures Modes(args[1..]) == Modes(args[2..]) && HasSources(args[1..]) == HasSources(args[2..])
    ensures SafeOnly(args[1..]) == SafeOnly(args[2..])
    ensures PermissionTokens(args[1..]) == [args[1]] + PermissionTokens(args[2..])
    ensures SourceTokens(args[1..]) == [args[1]] + SourceTokens(args[2..])
  {
    ValueIsOther(args[1]);
    hide KindOf, IsValue;
    var tail := args[1..];
    assert tail[0] == args[1] && tail[1..] == args[2..];
  }

  lemma ModeValue(args: Args)
    requires args != [] && KindOf(args[0]).Mode? && HasValue(args)
    ensures Modes(args) == [args[1]] + Modes(args[2..]) && HasSources(args) == HasSources(args[2..])
    ensures SafeOnly(args) == SafeOnly(args[2..]) && Clean(args) == Clean(args[2..]) && Rest(args) == Rest(args[2..])
    ensures PermissionTokens(args) == [args[0], args[1]] + PermissionTokens(args[2..])
    ensures SourceTokens(args) == [args[0], args[1]] + SourceTokens(args[2..])
  {
    SkipValue(args);
    hide KindOf, IsValue;
    var tokens := SourceTokens(args[2..]);
    assert [args[0]] + ([args[1]] + tokens) == [args[0], args[1]] + tokens;
  }

  lemma SourceValue(args: Args)
    requires args != [] && KindOf(args[0]).Sources? && HasValue(args)
    ensures Modes(args) == Modes(args[2..]) && HasSources(args) && Rest(args) == Rest(args[2..])
    ensures SafeOnly(args) == (args[1] == SAFE_SOURCES && SafeOnly(args[2..]))
    ensures Clean(args) == (args[1] == SAFE_SOURCES && Clean(args[2..]))
    ensures PermissionTokens(args) == [args[0], args[1]] + PermissionTokens(args[2..])
    ensures SourceTokens(args) == [args[0], SAFE_SOURCES] + SourceTokens(args[2..])
  {
    SkipValue(args);
    hide KindOf, IsValue;
    var tokens := PermissionTokens(args[2..]);
    assert [args[0]] + ([args[1]] + tokens) == [args[0], args[1]] + tokens;
  }

  /** The list starts with a two-part option and its value. */
  predicate Paired(args: Args) {
    HasValue(args) && (KindOf(args[0]).Mode? || KindOf(args[0]).Sources?)
  }

  function PairedSource(args: Args): Args
    requires Paired(args)
  {
    if KindOf(args[0]).Mode? then [args[0], args[1]] else [args[0], SAFE_SOURCES]
  }

  lemma PairedHead(args: Args)
    requires Paired(args)
    ensures Modes(args) == (if KindOf(args[0]).Mode? then [args[1]] else []) + Modes(args[2..])
    ensures HasSources(args) <==> KindOf(args[0]).Sources? || HasSources(args[2..])
    ensures Rest(args) == Rest(args[2..])
    ensures SafeOnly(args) <==> (KindOf(args[0]).Sources? ==> args[1] == SAFE_SOURCES) && SafeOnly(args[2..])
    ensures Clean(args) <==> (KindOf(args[0]).Sources? ==> args[1] == SAFE_SOURCES) && Clean(args[2..])
    ensures PermissionTokens(args) == [args[0], args[1]] + PermissionTokens(args[2..])
    ensures SourceTokens(args) == PairedSource(args) + SourceTokens(args[2..])
  {
    hide KindOf, IsValue, Modes, HasSources, Rest, SafeOnly, Clean, PermissionTokens, SourceTokens;
    if KindOf(args[0]).Mode? {
      ModeValue(args);
    } else {
      SourceValue(args);
      assert [] + Modes(args[2..]) == Modes(args[2..]);
    }
  }

  /** A first argument that is no complete two-part option is read on its own. */
  lemma OneArgument(args: Args)
    requires args != [] && !Paired(args)
    ensures Modes(args) == (if KindOf(args[0]).ModeEquals? then [args[0]] else []) + Modes(args[1..])
    ensures HasSources(args) <==> KindOf(args[0]).SourcesEquals? || HasSources(args[1..])
    ensures Rest(args) == (if KindOf(args[0]).Other? then [args[0]] else []) + Rest(args[1..])
  {
    hide KindOf, IsValue;
    assert [] + Modes(args[1..]) == Modes(args[1..]) && [] + Rest(args[1..]) == Rest(args[1..]);
  }

  lemma OneToken(args: Args)
    requires args != [] && !Paired(args)
    ensures PermissionTokens(args) ==
      (if KindOf(args[0]).Skip? || KindOf(args[0]).Mode? then [] else [args[0]]) + PermissionTokens(args[1..])
    ensures SourceTokens(args) == SourceToken(args[0]) + SourceTokens(args[1..])
  {
    hide KindOf, IsValue;
    assert [] + PermissionTokens(args[1..]) == PermissionTokens(args[1..]);
    assert [] + SourceTokens(args[1..]) == SourceTokens(args[1..]);
  }

  function SourceToken(arg: string): Args {
    match KindOf(arg)
    case Sources => []
    case SourcesEquals => [SAFE_SOURCES_ARG]
    case _ => [arg]
  }

  lemma OneSafe(args: Args)
    requires args != [] && !Paired(args)
    ensures SafeOnly(args) <==>
      (!KindOf(args[0]).Sources? && (KindOf(args[0]).SourcesEquals? ==> args[0] == SAFE_SOURCES_ARG) && SafeOnly(args[1..]))
    ensures Clean(args) <==>
      (!KindOf(args[0]).Skip? && !KindOf(args[0]).Mode? && !KindOf(args[0]).Sources?
       && (KindOf(args[0]).SourcesEquals? ==> args[0] == SAFE_SOURCES_ARG) && Clean(args[1..]))
  {
    KindsOfConstants();
    hide KindOf, IsValue;
  }

  lemma Nothing()
    ensures Modes([]) == [] && !HasSources([]) && Rest([]) == [] && SafeOnly([]) && Clean([])
    ensures PermissionTokens([]) == [] && SourceTokens([]) == []
  {
  }

  // ----- lists of complete options -----

  /** The options of a clean list are complete, so what follows is read as if it stood alone. */
  lemma {:induction false} CleanConcat(a: Args, b: Args)
    requires Clean(a)
    ensures Clean(b) ==> Clean(a + b)
    ensures Modes(a + b) == Modes(a) + Modes(b)
    ensures HasSources(a + b) <==> HasSources(a) || HasSources(b)
    ensures Rest(a + b) == Rest(a) + Rest(b)
    decreases |a|
  {
    hide KindOf, IsValue, Modes, HasSources, Rest, SafeOnly, Clean, PermissionTokens, SourceTokens;
    Nothing();
    if a == [] {
      assert a + b == b && [] + Modes(b) == Modes(b) && [] + Rest(b) == Rest(b);
      return;
    }
    var all := a + b;
    if Paired(a) {
      assert all[0] == a[0] && all[1] == a[1] && all[2..] == a[2..] + b;
      PairedHead(a);
      PairedHead(all);
      CleanConcat(a[2..], b);
    } else {
      assert all[0] == a[0] && all[1..] == a[1..] + b;
      OneArgument(a);
      OneSafe(a);
      OneArgument(all);
      OneSafe(all);
      CleanConcat(a[1..], b);
    }
  }

  // ----- the sources pass -----

  /** A list that cannot start with a value for the option before it. */
  predicate StartsImproper(args: Args) {
    args == [] || !IsValue(args[0])
  }

  /** The sources pass never moves a value up behind an option that had none. */
  lemma {:induction false} StaysImproper(args: Args, end: Args)
    requires StartsImproper(args) && StartsImproper(end)
    ensures StartsImproper(SourceTokens(args) + end)
    decreases |args|
  {
    hide KindOf, IsValue, Modes, HasSources, Rest, SafeOnly, Clean, PermissionTokens, SourceTokens;
    Nothing();
    KindsOfConstants();
    OptionIsNoValue(SOURCES_ARG);
    OptionIsNoValue(SAFE_SOURCES_ARG);
    if args == [] {
      assert SourceTokens(args) + end == end;
    } else if Paired(args) {
      PairedHead(args);
    } else {
      OneToken(args);
      if KindOf(args[0]).Sources? {
        OptionIsNoValue(args[0]);
        assert SourceTokens(args) == SourceTokens(args[1..]);
        StaysImproper(args[1..], end);
      }
    }
  }

  /** What is left of a list after the sources pass, with `end` behind it. */
  ghost predicate SourcesKept(args: Args, end: Args) {
    var out := SourceTokens(args) + end;
    && SafeOnly(out)
    && (HasSources(out) <==> HasSources(args) || end != [])
    && Modes(out) == Modes(args)
    && Rest(out) == Rest(args)
  }

  lemma SourcesPassPair(args: Args, end: Args)
    requires Paired(args) && SourcesKept(args[2..], end)
    ensures SourcesKept(args, end)
  {
    hide KindOf, IsValue, Modes, HasSources, Rest, SafeOnly, Clean, PermissionTokens, SourceTokens;
    KindsOfConstants();
    var out := SourceTokens(args) + end;
    PairedHead(args);
    assert out[2..] == SourceTokens(args[2..]) + end;
    PairedHead(out);
  }

  lemma SourcesPassOne(args: Args, end: Args)
    requires args != [] && !Paired(args) && StartsImproper(end) && SourcesKept(args[1..], end)
    ensures SourcesKept(args, end)
  {
    hide KindOf, IsValue, Modes, HasSources, Rest, SafeOnly, Clean, PermissionTokens, SourceTokens;
    var out := SourceTokens(args) + end;
    var tail := SourceTokens(args[1..]) + end;
    OneArgument(args);
    OneToken(args);
    if KindOf(args[0]).Sources? {
      assert out == tail;
    } else {
      UnpairedOutput(args, end);
      KeptKind(args[0]);
      assert out == SourceToken(args[0]) + tail;
      assert out[1..] == tail;
      OneArgument(out);
      OneSafe(out);
    }
  }

  lemma SourcesPassEnd(end: Args)
    requires end == [] || end == [SOURCES_ARG, SAFE_SOURCES]
    ensures SourcesKept([], end) && StartsImproper(end)
  {
    hide KindOf, IsValue, Modes, HasSources, Rest, SafeOnly, Clean, PermissionTokens, SourceTokens;
    Nothing();
    KindsOfConstants();
    OptionIsNoValue(SOURCES_ARG);
    assert SourceTokens([]) + end == end;
    if end != [] {
      PairedHead(end);
      assert end[2..] == [];
    }
  }

  /** The sources pass makes every source `user` and changes neither the modes nor the other arguments. */
  lemma {:induction false} SourcesPass(args: Args, end: Args)
    requires end == [] || end == [SOURCES_ARG, SAFE_SOURCES]
    ensures SourcesKept(args, end)
    decreases |args|
  {
    SourcesPassEnd(end);
    hide SourcesKept, KindOf, IsValue, StartsImproper;
    if args == [] {
    } else if Paired(args) {
      SourcesPass(args[2..], end);
      SourcesPassPair(args, end);
    } else {
      SourcesPass(args[1..], end);
      SourcesPassOne(args, end);
    }
  }

  /** An option without its value gets none. */
  lemma UnpairedOutput(args: Args, end: Args)
    requires args != [] && !Paired(args) && !KindOf(args[0]).Sources?
    requires StartsImproper(end)
    ensures SourceTokens(args) + end != [] && !Paired(SourceTokens(args) + end)
  {
    hide KindOf, IsValue, SourceTokens, SourceToken, Paired, StartsImproper;
    var tail := SourceTokens(args[1..]) + end;
    KeptKind(args[0]);
    OneToken(args);
    assert SourceTokens(args) + end == [SourceToken(args[0])[0]] + tail;
    if KindOf(args[0]).Mode? {
      UnpairedTail(args);
      StaysImproper(args[1..], end);
    }
    UnpairedPrepend(SourceToken(args[0])[0], tail);
  }

  lemma UnpairedTail(args: Args)
    requires args != [] && !Paired(args) && KindOf(args[0]).Mode?
    ensures StartsImproper(args[1..])
  {
    hide KindOf, IsValue;
  }

  lemma UnpairedPrepend(token: string, tail: Args)
    requires !KindOf(token).Sources?
    requires KindOf(token).Mode? ==> StartsImproper(tail)
    ensures !Paired([token] + tail)
  {
    hide KindOf, IsValue;
    assert tail != [] ==> ([token] + tail)[1] == tail[0];
  }

  lemma KeptKind(arg: string)
    requires !KindOf(arg).Sources?
    ensures |SourceToken(arg)| == 1 && KindOf(SourceToken(arg)[0]) == KindOf(arg)
  {
    KindsOfConstants();
    hide KindOf, IsValue;
  }

  // ----- the permission pass on safe lists -----

  lemma {:induction false} PermissionPass(args: Args)
    requires SafeOnly(args)
    ensures Clean(PermissionTokens(args))
    ensures HasSources(PermissionTokens(args)) <==> HasSources(args)
    ensures Modes(PermissionTokens(args)) == Modes(args) && Rest(PermissionTokens(args)) == Rest(args)
    decreases |args|
  {
    hide KindOf, IsValue, Modes, HasSources, Rest, SafeOnly, Clean, PermissionTokens, SourceTokens;
    Nothing();
    if args == [] { return; }
    var out := PermissionTokens(args);
    if Paired(args) {
      PairedHead(args);
      PermissionPass(args[2..]);
      assert out[2..] == PermissionTokens(args[2..]);
      PairedHead(out);
    } else {
      OneArgument(args);
      OneToken(args);
      OneSafe(args);
      PermissionPass(args[1..]);
      if KindOf(args[0]).Skip? || KindOf(args[0]).Mode? {
        assert out == PermissionTokens(args[1..]);
      } else {
        assert out[1..] == PermissionTokens(args[1..]);
        OneArgument(out);
        OneSafe(out);
      }
    }
  }

  // ----- the composition -----

  /** A clean list in which both settings are present. */
  predicate Settled(args: Args) {
    Clean(args) && Modes(args) != [] && HasSources(args)
  }

  lemma ModeEnd()
    ensures Clean([MODE_ARG, BYPASS_MODE]) && Modes([MODE_ARG, BYPASS_MODE]) == [BYPASS_MODE] && Rest([MODE_ARG, BYPASS_MODE]) == []
  {
    KindsOfConstants();
    hide KindOf, IsValue;
    ModeValue([MODE_ARG, BYPASS_MODE]);
    assert [MODE_ARG, BYPASS_MODE][2..] == [];
  }

  /** Normalising keeps the permission modes given, or bypasses when there are none, and keeps every other argument. */
  lemma NormalizedKeeps(args: Args)
    ensures Settled(Normalized(args))
    ensures Modes(Normalized(args)) == if Modes(args) == [] then [BYPASS_MODE] else Modes(args)
    ensures Rest(Normalized(args)) == Rest(args)
  {
    hide Clean, Modes, HasSources, Rest, SafeOnly, PermissionTokens, SourceTokens;
    var end := if HasSources(args) then [] else [SOURCES_ARG, SAFE_SOURCES];
    SourcesPass(args, end);
    var safe := SettingSourcesArgs(args);
    PermissionPass(safe);
    var tokens := PermissionTokens(safe);
    if Modes(safe) == [] {
      ModeEnd();
      CleanConcat(tokens, [MODE_ARG, BYPASS_MODE]);
      assert [] + [BYPASS_MODE] == [BYPASS_MODE] && Rest(args) + [] == Rest(args);
    } else {
      assert tokens + [] == tokens;
    }
  }

  lemma {:induction false} CleanUnchanged(args: Args)
    requires Clean(args)
    ensures PermissionTokens(args) == args && SourceTokens(args) == args
    decreases |args|
  {
    hide KindOf, IsValue, Modes, HasSources, Rest, SafeOnly, Clean, PermissionTokens, SourceTokens;
    Nothing();
    if args == [] { return; }
    if Paired(args) {
      PairedHead(args);
      CleanUnchanged(args[2..]);
      assert [args[0], args[1]] + args[2..] == args;
    } else {
      OneSafe(args);
      OneToken(args);
      CleanUnchanged(args[1..]);
      assert [args[0]] + args[1..] == args;
    }
  }

  /** The fixed points of normalising are exactly the settled lists. */
  lemma UnchangedIffSettled(args: Args)
    ensures Normalized(args) == args <==> Settled(args)
  {
    NormalizedKeeps(args);
    hide Clean, Modes, HasSources, PermissionTokens, SourceTokens;
    if Settled(args) {
      CleanUnchanged(args);
      assert args + [] == args;
    }
  }

  lemma NormalizedIdempotent(args: Args)
    ensures Normalized(Normalized(args)) == Normalized(args)
  {
    hide Settled, Normalized;
    NormalizedKeeps(args);
    UnchangedIffSettled(Normalized(args));
  }

  // ----- clean lists, position by position -----

  predicate AllowedAt(args: Args, i: nat)
    requires i < |args|
  {
    && args[i] != SKIP_ARG
    && (args[i] == MODE_ARG ==> ValueFollows(args, i))
    && (args[i] == SOURCES_ARG ==> i + 1 < |args| && args[i+1] == SAFE_SOURCES)
    && (StartsWith(args[i], SOURCES_PREFIX) ==> args[i] == SAFE_SOURCES_ARG)
  }

  predicate AllowedEverywhere(args: Args) {
    forall i: nat | i < |args| :: AllowedAt(args, i)
  }

  lemma AllowedTail(args: Args, n: nat)
    requires n <= |args|
    requires forall i: nat | i < n :: AllowedAt(args, i)
    ensures AllowedEverywhere(args) <==> AllowedEverywhere(args[n..])
  {
    hide StartsWith, IsValue;
    var tail := args[n..];
    forall i: nat | i < |tail| ensures AllowedAt(tail, i) == AllowedAt(args, n + i) {
      assert tail[i] == args[n + i];
    }
    if AllowedEverywhere(tail) {
      forall i: nat | i < |args| ensures AllowedAt(args, i) {
        if i >= n { assert AllowedAt(tail, i - n); }
      }
    }
  }

  lemma AllowedOther(args: Args, i: nat)
    requires i < |args| && (KindOf(args[i]).Other? || KindOf(args[i]).ModeEquals? || args[i] == SAFE_SOURCES_ARG)
    ensures AllowedAt(args, i)
  {
    KindConditions(args[i]);
    KindConditions(SAFE_SOURCES_ARG);
  }

  lemma AllowedStart(args: Args)
    requires Paired(args)
    ensures |args| > 1 && (AllowedAt(args, 0) <==> (KindOf(args[0]).Sources? ==> args[1] == SAFE_SOURCES))
  {
    KindConditions(args[0]);
    hide KindOf, IsValue, StartsWith;
  }

  lemma PairedHasValue(args: Args)
    requires Paired(args)
    ensures HasValue(args) && |args| > 1
  {
    hide KindOf, IsValue;
  }

  lemma AllowedPair(args: Args)
    requires Paired(args)
    ensures AllowedEverywhere(args) <==> (KindOf(args[0]).Sources? ==> args[1] == SAFE_SOURCES) && AllowedEverywhere(args[2..])
  {
    PairedHasValue(args);
    hide *;
    AllowedStart(args);
    SkipValue(args);
    AllowedOther(args, 1);
    if AllowedAt(args, 0) { AllowedTail(args, 2); } else { NotEverywhere(args); }
  }

  lemma AllowedFirst(args: Args)
    requires args != [] && !Paired(args)
    ensures AllowedAt(args, 0) <==>
      (!KindOf(args[0]).Skip? && !KindOf(args[0]).Mode? && !KindOf(args[0]).Sources?
       && (KindOf(args[0]).SourcesEquals? ==> args[0] == SAFE_SOURCES_ARG))
  {
    KindConditions(args[0]);
    assert IsValue(SAFE_SOURCES) by { KindsOfConstants(); }
    hide KindOf, IsValue, StartsWith;
  }

  lemma AllowedOne(args: Args)
    requires args != [] && !Paired(args)
    ensures AllowedEverywhere(args) <==>
      (!KindOf(args[0]).Skip? && !KindOf(args[0]).Mode? && !KindOf(args[0]).Sources?
       && (KindOf(args[0]).SourcesEquals? ==> args[0] == SAFE_SOURCES_ARG) && AllowedEverywhere(args[1..]))
  {
    AllowedFirst(args);
    hide KindOf, IsValue, StartsWith, AllowedEverywhere, AllowedAt, Paired;
    if AllowedAt(args, 0) { AllowedTail(args, 1); } else { NotEverywhere(args); }
  }

  lemma NotEverywhere(args: Args)
    requires args != [] && !AllowedAt(args, 0)
    ensures !AllowedEverywhere(args)
  {
  }

  /** Clean says: no legacy flag, every bare mode option has a value, every setting source is `user`. */
  lemma {:induction false} CleanEverywhere(args: Args)
    ensures Clean(args) <==> AllowedEverywhere(args)
    decreases |args|
  {
    if args == [] { return; }
    hide KindOf, IsValue, AllowedEverywhere, Clean;
    if Paired(args) {
      PairedHead(args);
      AllowedPair(args);
      CleanEverywhere(args[2..]);
    } else {
      OneSafe(args);
      AllowedOne(args);
      CleanEverywhere(args[1..]);
    }
  }
}
