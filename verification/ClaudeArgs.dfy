/** Argument normalisation of `extensions/anthropic/cli-shared.ts`. */
module ClaudeArgs {
  import opened Results
  import opened Text

  const SKIP_ARG := "--dangerously-skip-permissions"
  const MODE_ARG := "--permission-mode"
  const MODE_PREFIX := "--permission-mode="
  const BYPASS_MODE := "bypassPermissions"
  const SOURCES_ARG := "--setting-sources"
  const SOURCES_PREFIX := "--setting-sources="
  const SAFE_SOURCES := "user"
  const SAFE_SOURCES_ARG := "--setting-sources=user"

  type Args = seq<string>

  /** What an argument is to the two passes. */
  datatype Kind = Skip | Mode | ModeEquals | Sources | SourcesEquals | Other

  function KindOf(arg: string): Kind {
    if arg == SKIP_ARG then Skip
    else if arg == MODE_ARG then Mode
    else if StartsWith(arg, MODE_PREFIX) then ModeEquals
    else if arg == SOURCES_ARG then Sources
    else if StartsWith(arg, SOURCES_PREFIX) then SourcesEquals
    else Other
  }

  /** A separate argument that can be the value of the option before it. */
  predicate IsValue(arg: string) {
    Trim(arg) != "" && !StartsWith(arg, "-")
  }

  predicate HasValue(args: Args) {
    |args| > 1 && IsValue(args[1])
  }

  // ----- the two passes -----

  function PermissionTokens(args: Args): Args {
    if args == [] then []
    else match KindOf(args[0])
      case Skip => PermissionTokens(args[1..])
      case Mode =>
        if HasValue(args) then [args[0], args[1]] + PermissionTokens(args[2..]) else PermissionTokens(args[1..])
      case _ => [args[0]] + PermissionTokens(args[1..])
  }

  /** The permission modes given, in order: a value on its own, or a whole `--permission-mode=...` argument. */
  function Modes(args: Args): seq<string> {
    if args == [] then []
    else match KindOf(args[0])
      case Mode => if HasValue(args) then [args[1]] + Modes(args[2..]) else Modes(args[1..])
      case ModeEquals => [args[0]] + Modes(args[1..])
      case _ => Modes(args[1..])
  }

  function PermissionArgs(args: Args): Args {
    PermissionTokens(args) + (if Modes(args) != [] then [] else [MODE_ARG, BYPASS_MODE])
  }

  function SourceTokens(args: Args): Args {
    if args == [] then []
    else match KindOf(args[0])
      case Sources =>
        if HasValue(args) then [args[0], SAFE_SOURCES] + SourceTokens(args[2..]) else SourceTokens(args[1..])
      case SourcesEquals => [SAFE_SOURCES_ARG] + SourceTokens(args[1..])
      case _ => [args[0]] + SourceTokens(args[1..])
  }

  predicate HasSources(args: Args) {
    args != [] &&
    match KindOf(args[0])
    case Sources => HasValue(args) || HasSources(args[1..])
    case SourcesEquals => true
    case _ => HasSources(args[1..])
  }

  function SettingSourcesArgs(args: Args): Args {
    SourceTokens(args) + (if HasSources(args) then [] else [SOURCES_ARG, SAFE_SOURCES])
  }

  /** `normalizeClaudePermissionArgs(normalizeClaudeSettingSourcesArgs(args))` */
  function Normalized(args: Args): Args {
    PermissionArgs(SettingSourcesArgs(args))
  }

  lemma KindConditions(arg: string)
    ensures arg == SKIP_ARG <==> KindOf(arg).Skip?
    ensures arg == MODE_ARG <==> KindOf(arg).Mode?
    ensures StartsWith(arg, MODE_PREFIX) <==> KindOf(arg).ModeEquals?
    ensures arg == SOURCES_ARG <==> KindOf(arg).Sources?
    ensures StartsWith(arg, SOURCES_PREFIX) <==> KindOf(arg).SourcesEquals?
  {
    assert SKIP_ARG[2] == 'd' && MODE_ARG[2] == 'p' && SOURCES_ARG[2] == 's';
    assert MODE_PREFIX[2] == 'p' && SOURCES_PREFIX[2] == 's';
  }

  lemma KindsOfConstants()
    ensures KindOf(MODE_ARG).Mode? && KindOf(SOURCES_ARG).Sources? && KindOf(SAFE_SOURCES_ARG).SourcesEquals?
    ensures IsValue(SAFE_SOURCES) && IsValue(BYPASS_MODE)
  {
    KindConditions(MODE_ARG);
    KindConditions(SOURCES_ARG);
    KindConditions(SAFE_SOURCES_ARG);
    assert SOURCES_PREFIX <= SAFE_SOURCES_ARG;
    assert Trimmed(SAFE_SOURCES) && Trimmed(BYPASS_MODE);
  }

  lemma ValueIsOther(arg: string)
    requires IsValue(arg)
    ensures KindOf(arg).Other?
  {
    KindConditions(arg);
    NonEmpty(arg);
    assert arg[0] != '-' by { assert "-"[0] == '-'; assert arg[0] == '-' ==> "-" <= arg; }
    assert SKIP_ARG[0] == '-' && MODE_ARG[0] == '-' && SOURCES_ARG[0] == '-' && MODE_PREFIX[0] == '-' && SOURCES_PREFIX[0] == '-';
  }

  lemma NonEmpty(arg: string)
    requires Trim(arg) != ""
    ensures arg != ""
  {
  }

  lemma OptionIsNoValue(arg: string)
    requires !KindOf(arg).Other?
    ensures !IsValue(arg)
  {
    if IsValue(arg) { ValueIsOther(arg); }
  }

  predicate ValueFollows(all: Args, i: nat) {
    i + 1 < |all| && IsValue(all[i+1])
  }

  lemma PermissionStep(all: Args, i: nat)
    requires i < |all|
    ensures PermissionTokens(all[i..]) ==
      match KindOf(all[i])
      case Skip => PermissionTokens(all[i+1..])
      case Mode => if ValueFollows(all, i) then [all[i], all[i+1]] + PermissionTokens(all[i+2..]) else PermissionTokens(all[i+1..])
      case _ => [all[i]] + PermissionTokens(all[i+1..])
    ensures Modes(all[i..]) ==
      match KindOf(all[i])
      case Mode => if ValueFollows(all, i) then [all[i+1]] + Modes(all[i+2..]) else Modes(all[i+1..])
      case ModeEquals => [all[i]] + Modes(all[i+1..])
      case _ => Modes(all[i+1..])
  {
    hide KindOf, IsValue;
    var rest := all[i..];
    assert rest[0] == all[i] && rest[1..] == all[i+1..];
    if ValueFollows(all, i) {
      assert rest[2..] == all[i+2..];
    }
  }

  lemma SourcesStep(all: Args, i: nat)
    requires i < |all|
    ensures SourceTokens(all[i..]) ==
      match KindOf(all[i])
      case Sources => if ValueFollows(all, i) then [all[i], SAFE_SOURCES] + SourceTokens(all[i+2..]) else SourceTokens(all[i+1..])
      case SourcesEquals => [SAFE_SOURCES_ARG] + SourceTokens(all[i+1..])
      case _ => [all[i]] + SourceTokens(all[i+1..])
    ensures HasSources(all[i..]) ==
      match KindOf(all[i])
      case Sources => ValueFollows(all, i) || HasSources(all[i+1..])
      case SourcesEquals => true
      case _ => HasSources(all[i+1..])
  {
    hide KindOf, IsValue;
    var rest := all[i..];
    assert rest[0] == all[i] && rest[1..] == all[i+1..];
    if ValueFollows(all, i) {
      assert rest[2..] == all[i+2..];
    }
  }

  /** What the permission loop has done after the first i arguments. */
  ghost predicate PermissionDone(all: Args, i: nat, normalized: Args, hasPermissionMode: bool) {
    && i <= |all|
    && PermissionTokens(all) == normalized + PermissionTokens(all[i..])
    && (Modes(all) != [] <==> hasPermissionMode || Modes(all[i..]) != [])
  }

  lemma PermissionStarts(all: Args)
    ensures PermissionDone(all, 0, [], false)
  {
    assert all[0..] == all && [] + PermissionTokens(all) == PermissionTokens(all);
  }

  lemma PermissionGoesOn(all: Args, i: nat, normalized: Args, has: bool)
    requires i < |all| && PermissionDone(all, i, normalized, has)
    ensures match KindOf(all[i])
      case Skip => PermissionDone(all, i + 1, normalized, has)
      case Mode =>
        if ValueFollows(all, i) then PermissionDone(all, i + 2, normalized + [all[i]] + [all[i+1]], true)
        else PermissionDone(all, i + 1, normalized, has)
      case ModeEquals => PermissionDone(all, i + 1, normalized + [all[i]], true)
      case _ => PermissionDone(all, i + 1, normalized + [all[i]], has)
  {
    hide KindOf, IsValue, PermissionTokens, Modes;
    PermissionStep(all, i);
    var rest := PermissionTokens(all[i+1..]);
    assert normalized + ([all[i]] + rest) == normalized + [all[i]] + rest;
    if ValueFollows(all, i) {
      var later := PermissionTokens(all[i+2..]);
      assert normalized + ([all[i], all[i+1]] + later) == normalized + [all[i]] + [all[i+1]] + later;
    }
  }

  lemma PermissionEnds(all: Args, normalized: Args, has: bool)
    requires PermissionDone(all, |all|, normalized, has)
    ensures PermissionArgs(all) == if has then normalized else normalized + [MODE_ARG, BYPASS_MODE]
  {
    assert all[|all|..] == [];
    assert normalized + [] == normalized;
  }

  method NormalizeClaudePermissionArgs(args: Option<Args>) returns (r: Option<Args>)
    ensures r == if args.None? then None else Some(PermissionArgs(args.value))
  {
    hide KindOf, IsValue, StartsWith, PermissionDone, PermissionArgs;
    if args.None? { return None; }
    var all := args.value;
    var normalized: Args := [];
    var hasPermissionMode := false;
    var i := 0;
    PermissionStarts(all);
    while i < |all|
      invariant 0 <= i <= |all|
      invariant PermissionDone(all, i, normalized, hasPermissionMode)
    {
      var arg := all[i];
      PermissionGoesOn(all, i, normalized, hasPermissionMode);
      KindConditions(arg);
      if arg == SKIP_ARG {
      } else if arg == MODE_ARG {
        if i + 1 < |all| && IsValue(all[i+1]) {
          hasPermissionMode := true;
          normalized := normalized + [arg];
          normalized := normalized + [all[i+1]];
          i := i + 1;
        }
      } else {
        if StartsWith(arg, MODE_PREFIX) { hasPermissionMode := true; }
        normalized := normalized + [arg];
      }
      i := i + 1;
    }
    PermissionEnds(all, normalized, hasPermissionMode);
    if !hasPermissionMode { normalized := normalized + [MODE_ARG, BYPASS_MODE]; }
    return Some(normalized);
  }

  /** What the sources loop has done after the first i arguments. */
  ghost predicate SourcesDone(all: Args, i: nat, normalized: Args, hasSettingSources: bool) {
    && i <= |all|
    && SourceTokens(all) == normalized + SourceTokens(all[i..])
    && (HasSources(all) <==> hasSettingSources || HasSources(all[i..]))
  }

  lemma SourcesStart(all: Args)
    ensures SourcesDone(all, 0, [], false)
  {
    assert all[0..] == all && [] + SourceTokens(all) == SourceTokens(all);
  }

  lemma SourcesGoOn(all: Args, i: nat, normalized: Args, has: bool)
    requires i < |all| && SourcesDone(all, i, normalized, has)
    ensures match KindOf(all[i])
      case Sources =>
        if ValueFollows(all, i) then SourcesDone(all, i + 2, normalized + [all[i], SAFE_SOURCES], true)
        else SourcesDone(all, i + 1, normalized, has)
      case SourcesEquals => SourcesDone(all, i + 1, normalized + [SAFE_SOURCES_ARG], true)
      case _ => SourcesDone(all, i + 1, normalized + [all[i]], has)
  {
    hide KindOf, IsValue, SourceTokens, HasSources;
    SourcesStep(all, i);
    var rest := SourceTokens(all[i+1..]);
    assert normalized + ([all[i]] + rest) == normalized + [all[i]] + rest;
    assert normalized + ([SAFE_SOURCES_ARG] + rest) == normalized + [SAFE_SOURCES_ARG] + rest;
    if ValueFollows(all, i) {
      var later := SourceTokens(all[i+2..]);
      assert normalized + ([all[i], SAFE_SOURCES] + later) == normalized + [all[i], SAFE_SOURCES] + later;
    }
  }

  lemma SourcesEnd(all: Args, normalized: Args, has: bool)
    requires SourcesDone(all, |all|, normalized, has)
    ensures SettingSourcesArgs(all) == if has then normalized else normalized + [SOURCES_ARG, SAFE_SOURCES]
  {
    assert all[|all|..] == [];
    assert normalized + [] == normalized;
  }

  method NormalizeClaudeSettingSourcesArgs(args: Option<Args>) returns (r: Option<Args>)
    ensures r == if args.None? then None else Some(SettingSourcesArgs(args.value))
  {
    hide KindOf, IsValue, StartsWith, SourcesDone, SettingSourcesArgs;
    if args.None? { return None; }
    var all := args.value;
    var normalized: Args := [];
    var hasSettingSources := false;
    var i := 0;
    SourcesStart(all);
    while i < |all|
      invariant 0 <= i <= |all|
      invariant SourcesDone(all, i, normalized, hasSettingSources)
    {
      var arg := all[i];
      SourcesGoOn(all, i, normalized, hasSettingSources);
      KindConditions(arg);
      if arg == SOURCES_ARG {
        if i + 1 < |all| && IsValue(all[i+1]) {
          hasSettingSources := true;
          normalized := normalized + [arg, SAFE_SOURCES];
          i := i + 1;
        }
      } else if StartsWith(arg, SOURCES_PREFIX) {
        hasSettingSources := true;
        normalized := normalized + [SAFE_SOURCES_ARG];
      } else {
        normalized := normalized + [arg];
      }
      i := i + 1;
    }
    SourcesEnd(all, normalized, hasSettingSources);
    if !hasSettingSources { normalized := normalized + [SOURCES_ARG, SAFE_SOURCES]; }
    return Some(normalized);
  }

  datatype BackendConfig = BackendConfig(args: Option<Args>, resumeArgs: Option<Args>)

  method NormalizeClaudeBackendConfig(config: BackendConfig) returns (r: BackendConfig)
    ensures r.args == if config.args.None? then None else Some(Normalized(config.args.value))
    ensures r.resumeArgs == if config.resumeArgs.None? then None else Some(Normalized(config.resumeArgs.value))
  {
    var sources := NormalizeClaudeSettingSourcesArgs(config.args);
    var args := NormalizeClaudePermissionArgs(sources);
    sources := NormalizeClaudeSettingSourcesArgs(config.resumeArgs);
    var resumeArgs := NormalizeClaudePermissionArgs(sources);
    return BackendConfig(args, resumeArgs);
  }
}
