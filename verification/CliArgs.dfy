/** The arguments of the command-line tool. */
module CliArgs {
  import opened Wrappers

  datatype Action = Run(task: string) | ListTasks | TasksJson | Tree(task: string) | Watch(task: string)

  datatype Args = Args(configPath: Option<string>, action: Action, logLevel: nat)

  datatype Error = MissingValue(flag: string) | MissingTask(flag: string) | MultipleActions | UnknownFlag(flag: string)

  predicate IsConfigPathFlag(arg: string) {
    arg == "--config" || arg == "--mulpfile" || arg == "--file" || arg == "--gulpfile"
  }

  predicate IsListFlag(arg: string) { arg == "--tasks" || arg == "--tasks-simple" || arg == "-T" }

  // ----- The grammar: groups of tokens -----

  datatype Group =
    | Config(flag: string, path: string)
    | Level(level: nat)
    | Do(action: Action, spelling: string)

  function Spell(g: Group): seq<string> {
    match g
    case Config(flag, path) => [flag, path]
    case Level(level) => [if level == 0 then "--silent" else "--quiet"]
    case Do(Run(task), _) => [task]
    case Do(ListTasks, spelling) => [spelling]
    case Do(TasksJson, _) => ["--tasks-json"]
    case Do(Tree(task), _) => ["--tree", task]
    case Do(Watch(task), _) => ["--watch", task]
  }

  predicate IsTaskName(arg: string) { !("--" <= arg) && !IsListFlag(arg) }

  predicate WellFormed(g: Group) {
    match g
    case Config(flag, _) => IsConfigPathFlag(flag)
    case Level(level) => level < 2
    case Do(Run(task), spelling) => IsTaskName(task) && spelling == task
    case Do(ListTasks, spelling) => IsListFlag(spelling)
    case Do(_, spelling) => spelling == ""
  }

  function SpellAll(gs: seq<Group>): seq<string> {
    if gs == [] then [] else Spell(gs[0]) + SpellAll(gs[1..])
  }

  function Actions(gs: seq<Group>): nat {
    if gs == [] then 0 else (if gs[0].Do? then 1 else 0) + Actions(gs[1..])
  }

  // ----- What a list of groups means -----

  function LastConfig(gs: seq<Group>, otherwise: Option<string>): Option<string> {
    if gs == [] then otherwise
    else if gs[|gs| - 1].Config? then Some(gs[|gs| - 1].path) else LastConfig(gs[..|gs| - 1], otherwise)
  }

  function LastLevel(gs: seq<Group>, otherwise: nat): nat {
    if gs == [] then otherwise
    else if gs[|gs| - 1].Level? then gs[|gs| - 1].level else LastLevel(gs[..|gs| - 1], otherwise)
  }

  function LastAction(gs: seq<Group>, otherwise: Action): Action {
    if gs == [] then otherwise
    else if gs[|gs| - 1].Do? then gs[|gs| - 1].action else LastAction(gs[..|gs| - 1], otherwise)
  }

  function Meaning(gs: seq<Group>, defaultTask: string): Args {
    Args(LastConfig(gs, None), LastAction(gs, Run(defaultTask)), LastLevel(gs, 2))
  }

  // ----- The parser -----

  /** The rest of the loop, from the variables it updates. */
  function ParseFrom(args: seq<string>, now: Args, sawAction: bool): Result<Args, Error>
    decreases |args|
  {
    if args == [] then Success(now)
    else
      var arg := args[0];
      if IsConfigPathFlag(arg) then
        if |args| < 2 then Failure(MissingValue(arg))
        else ParseFrom(args[2..], now.(configPath := Some(args[1])), sawAction)
      else if arg == "--silent" then ParseFrom(args[1..], now.(logLevel := 0), sawAction)
      else if arg == "--quiet" then ParseFrom(args[1..], now.(logLevel := 1), sawAction)
      else if !IsListFlag(arg) && arg != "--tasks-json" && arg != "--tree" && arg != "--watch" && "--" <= arg then
        Failure(UnknownFlag(arg))
      else if sawAction then Failure(MultipleActions)
      else if IsListFlag(arg) then ParseFrom(args[1..], now.(action := ListTasks), true)
      else if arg == "--tasks-json" then ParseFrom(args[1..], now.(action := TasksJson), true)
      else if arg == "--tree" || arg == "--watch" then
        if |args| < 2 then Failure(MissingTask(arg))
        else ParseFrom(args[2..], now.(action := if arg == "--tree" then Tree(args[1]) else Watch(args[1])), true)
      else ParseFrom(args[1..], now.(action := Run(arg)), true)
  }

  function Parse(args: seq<string>, defaultTask: string): Result<Args, Error> {
    ParseFrom(args, Args(None, Run(defaultTask), 2), false)
  }

  method ParseArgs(args: seq<string>, defaultTask: string) returns (r: Result<Args, Error>)
    ensures r == Parse(args, defaultTask)
  {
    var configPath: Option<string>, action, logLevel, sawAction := None, Run(defaultTask), 2, false;
    var index := 0;
    assert args[0..] == args;
    while index < |args|
      invariant 0 <= index <= |args|
      invariant Parse(args, defaultTask) == ParseFrom(args[index..], Args(configPath, action, logLevel), sawAction)
    {
      var arg := args[index];
      Rest(args, index);
      if IsConfigPathFlag(arg) {
        if index + 1 >= |args| {
          return Failure(MissingValue(arg));
        }
        configPath := Some(args[index + 1]);
        index := index + 2;
      } else if arg == "--tasks" || arg == "--tasks-simple" || arg == "-T" {
        if sawAction {
          return Failure(MultipleActions);
        }
        action, sawAction := ListTasks, true;
        index := index + 1;
      } else if arg == "--tasks-json" {
        if sawAction {
          return Failure(MultipleActions);
        }
        action, sawAction := TasksJson, true;
        index := index + 1;
      } else if arg == "--tree" {
        if sawAction {
          return Failure(MultipleActions);
        }
        if index + 1 >= |args| {
          return Failure(MissingTask(arg));
        }
        action, sawAction := Tree(args[index + 1]), true;
        index := index + 2;
      } else if arg == "--watch" {
        if sawAction {
          return Failure(MultipleActions);
        }
        if index + 1 >= |args| {
          return Failure(MissingTask(arg));
        }
        action, sawAction := Watch(args[index + 1]), true;
        index := index + 2;
      } else if arg == "--silent" {
        logLevel := 0;
        index := index + 1;
      } else if arg == "--quiet" {
        logLevel := 1;
        index := index + 1;
      } else if "--" <= arg {
        return Failure(UnknownFlag(arg));
      } else {
        if sawAction {
          return Failure(MultipleActions);
        }
        action, sawAction := Run(arg), true;
        index := index + 1;
      }
    }
    r := Success(Args(configPath, action, logLevel));
  }

  lemma Rest(args: seq<string>, i: nat)
    requires i < |args|
    ensures args[i..][0] == args[i] && args[i..][1..] == args[i + 1..]
    ensures i + 1 < |args| ==> args[i..][1] == args[i + 1] && args[i..][2..] == args[i + 2..]
  {
  }

  // ----- Every flag, and every refusal -----

  /** A list can start an action at its front. */
  predicate StartsAction(rest: seq<string>) {
    rest != [] && (!("--" <= rest[0])
                   || rest[0] in {"--tasks", "--tasks-simple", "-T", "--tasks-json", "--tree", "--watch"})
  }

  predicate KnownFlag(arg: string) {
    arg in {"--config", "--mulpfile", "--file", "--gulpfile", "--silent", "--quiet",
            "--tasks", "--tasks-simple", "-T", "--tasks-json", "--tree", "--watch"}
  }

  /** Why the rest of a list is refused, when its front is fine. */
  predicate Offends(rest: seq<string>, sawAction: bool, e: Error) {
    match e
    case MissingValue(flag) => rest == [flag] && flag in {"--config", "--mulpfile", "--file", "--gulpfile"}
    case UnknownFlag(flag) => rest != [] && rest[0] == flag && "--" <= flag && !KnownFlag(flag)
    case MultipleActions => sawAction && StartsAction(rest)
    case MissingTask(flag) => !sawAction && rest == [flag] && flag in {"--tree", "--watch"}
  }

  lemma OffenceRefuses(rest: seq<string>, now: Args, sawAction: bool, e: Error)
    requires Offends(rest, sawAction, e)
    ensures ParseFrom(rest, now, sawAction) == Failure(e)
  {
  }

  // ----- Accepted exactly when it is a list of groups with at most one action -----

  function Applied(g: Group, now: Args): Args {
    match g
    case Config(_, path) => now.(configPath := Some(path))
    case Level(level) => now.(logLevel := level)
    case Do(action, _) => now.(action := action)
  }

  lemma ParsesGroup(g: Group, rest: seq<string>, now: Args, sawAction: bool)
    requires WellFormed(g) && !(sawAction && g.Do?)
    ensures ParseFrom(Spell(g) + rest, now, sawAction) == ParseFrom(rest, Applied(g, now), sawAction || g.Do?)
  {
    var args := Spell(g) + rest;
    assert args[|Spell(g)|..] == rest;
    assert args[0] == Spell(g)[0];
  }

  /** What each flag does on its own. */
  lemma FlagTable(value: string, d: string)
    ensures Parse([], d) == Success(Args(None, Run(d), 2))
    ensures Parse(["--config", value], d) == Success(Args(Some(value), Run(d), 2))
    ensures Parse(["--mulpfile", value], d) == Success(Args(Some(value), Run(d), 2))
    ensures Parse(["--file", value], d) == Success(Args(Some(value), Run(d), 2))
    ensures Parse(["--gulpfile", value], d) == Success(Args(Some(value), Run(d), 2))
    ensures Parse(["--silent"], d) == Success(Args(None, Run(d), 0))
    ensures Parse(["--quiet"], d) == Success(Args(None, Run(d), 1))
    ensures Parse(["--tasks"], d) == Success(Args(None, ListTasks, 2))
    ensures Parse(["--tasks-simple"], d) == Success(Args(None, ListTasks, 2))
    ensures Parse(["-T"], d) == Success(Args(None, ListTasks, 2))
    ensures Parse(["--tasks-json"], d) == Success(Args(None, TasksJson, 2))
    ensures Parse(["--tree", value], d) == Success(Args(None, Tree(value), 2))
    ensures Parse(["--watch", value], d) == Success(Args(None, Watch(value), 2))
  {
    OneGroup(Config("--config", value), d);
    OneGroup(Config("--mulpfile", value), d);
    OneGroup(Config("--file", value), d);
    OneGroup(Config("--gulpfile", value), d);
    OneGroup(Level(0), d);
    OneGroup(Level(1), d);
    OneGroup(Do(ListTasks, "--tasks"), d);
    OneGroup(Do(ListTasks, "--tasks-simple"), d);
    OneGroup(Do(ListTasks, "-T"), d);
    OneGroup(Do(TasksJson, ""), d);
    OneGroup(Do(Tree(value), ""), d);
    OneGroup(Do(Watch(value), ""), d);
  }

  lemma OneGroup(g: Group, d: string)
    requires WellFormed(g)
    ensures Parse(Spell(g), d) == Success(Applied(g, Args(None, Run(d), 2)))
  {
    ParsesGroup(g, [], Args(None, Run(d), 2), false);
    assert Spell(g) + [] == Spell(g);
  }

  lemma {:induction false} ParsesGroups(gs: seq<Group>, now: Args, sawAction: bool)
    requires (forall g | g in gs :: WellFormed(g)) && Actions(gs) + (if sawAction then 1 else 0) <= 1
    ensures ParseFrom(SpellAll(gs), now, sawAction) ==
            Success(Args(LastConfig(gs, now.configPath), LastAction(gs, now.action), LastLevel(gs, now.logLevel)))
  {
    if gs != [] {
      var next := Applied(gs[0], now);
      ParsesGroup(gs[0], SpellAll(gs[1..]), now, sawAction);
      ParsesGroups(gs[1..], next, sawAction || gs[0].Do?);
      FirstGroup(gs, now);
    }
  }

  lemma {:induction false} FirstGroup(gs: seq<Group>, now: Args)
    requires gs != []
    ensures LastConfig(gs, now.configPath) == LastConfig(gs[1..], Applied(gs[0], now).configPath)
    ensures LastAction(gs, now.action) == LastAction(gs[1..], Applied(gs[0], now).action)
    ensures LastLevel(gs, now.logLevel) == LastLevel(gs[1..], Applied(gs[0], now).logLevel)
  {
    if |gs| > 1 {
      FirstGroup(gs[..|gs| - 1], now);
      assert gs[..|gs| - 1][1..] == gs[1..][..|gs| - 2];
    } else {
      assert gs[1..] == [] && gs[..0] == [];
    }
  }

  lemma {:induction false} ReadsGroups(args: seq<string>, now: Args, sawAction: bool) returns (gs: seq<Group>)
    requires ParseFrom(args, now, sawAction).Success?
    ensures (forall g | g in gs :: WellFormed(g)) && SpellAll(gs) == args
    ensures Actions(gs) + (if sawAction then 1 else 0) <= 1
    decreases |args|
  {
    gs := [];
    if args != [] {
      var g := FirstOf(args);
      var n := |Spell(g)|;
      assert args == Spell(g) + args[n..];
      ParsesGroup(g, args[n..], now, sawAction);
      var more := ReadsGroups(args[n..], Applied(g, now), sawAction || g.Do?);
      gs := [g] + more;
      assert gs[1..] == more;
    }
  }

  /** The group an accepted list starts with. */
  function FirstOf(args: seq<string>): Group
    requires args != []
  {
    if IsConfigPathFlag(args[0]) then Config(args[0], if |args| > 1 then args[1] else "")
    else if args[0] == "--silent" then Level(0)
    else if args[0] == "--quiet" then Level(1)
    else if IsListFlag(args[0]) then Do(ListTasks, args[0])
    else if args[0] == "--tasks-json" then Do(TasksJson, "")
    else if args[0] == "--tree" then Do(Tree(if |args| > 1 then args[1] else ""), "")
    else if args[0] == "--watch" then Do(Watch(if |args| > 1 then args[1] else ""), "")
    else Do(Run(args[0]), args[0])
  }

  /** Groups in front of a list do not change what is wrong with it. */
  lemma {:induction false} SkipsGroups(gs: seq<Group>, rest: seq<string>, now: Args, sawAction: bool)
      returns (next: Args)
    requires (forall g | g in gs :: WellFormed(g)) && Actions(gs) + (if sawAction then 1 else 0) <= 1
    ensures ParseFrom(SpellAll(gs) + rest, now, sawAction) == ParseFrom(rest, next, sawAction || Actions(gs) == 1)
  {
    if gs == [] {
      next := now;
      assert SpellAll(gs) + rest == rest;
    } else {
      assert SpellAll(gs) + rest == Spell(gs[0]) + (SpellAll(gs[1..]) + rest);
      ParsesGroup(gs[0], SpellAll(gs[1..]) + rest, now, sawAction);
      next := SkipsGroups(gs[1..], rest, Applied(gs[0], now), sawAction || gs[0].Do?);
    }
  }

  /** A list is refused for the first thing in it that is wrong. */
  lemma {:induction false} Refused(args: seq<string>, now: Args, sawAction: bool)
      returns (gs: seq<Group>, rest: seq<string>)
    requires ParseFrom(args, now, sawAction).Failure?
    ensures (forall g | g in gs :: WellFormed(g)) && Actions(gs) + (if sawAction then 1 else 0) <= 1
    ensures args == SpellAll(gs) + rest
    ensures Offends(rest, sawAction || Actions(gs) == 1, ParseFrom(args, now, sawAction).error)
    decreases |args|
  {
    var g := FirstOf(args);
    if Offends(args, sawAction, ParseFrom(args, now, sawAction).error) {
      gs, rest := [], args;
      assert SpellAll(gs) + rest == rest;
    } else {
      var n := |Spell(g)|;
      assert args == Spell(g) + args[n..];
      ParsesGroup(g, args[n..], now, sawAction);
      var more;
      more, rest := Refused(args[n..], Applied(g, now), sawAction || g.Do?);
      gs := [g] + more;
      GroupInFront(g, more, rest);
    }
  }

  lemma GroupInFront(g: Group, more: seq<Group>, rest: seq<string>)
    ensures SpellAll([g] + more) + rest == Spell(g) + (SpellAll(more) + rest)
    ensures Actions([g] + more) == (if g.Do? then 1 else 0) + Actions(more)
  {
    assert ([g] + more)[1..] == more;
  }

  /**
    * A list gets an error exactly when it starts with groups that are fine, and what follows them is a config flag,
    * `--tree` or `--watch` without its value, a second action, or an unknown flag; the error says which.
    */
  lemma RefusedIff(args: seq<string>, d: string, e: Error)
    ensures Parse(args, d) == Failure(e) <==> exists gs, rest ::
      (forall g | g in gs :: WellFormed(g)) && Actions(gs) <= 1 && args == SpellAll(gs) + rest
      && Offends(rest, Actions(gs) == 1, e)
  {
    var start := Args(None, Run(d), 2);
    if Parse(args, d) == Failure(e) {
      var gs, rest := Refused(args, start, false);
    }
    forall gs, rest | (forall g | g in gs :: WellFormed(g)) && Actions(gs) <= 1 && args == SpellAll(gs) + rest
                      && Offends(rest, Actions(gs) == 1, e)
      ensures Parse(args, d) == Failure(e)
    {
      var next := SkipsGroups(gs, rest, start, false);
      OffenceRefuses(rest, next, Actions(gs) == 1, e);
    }
  }

  /** Each error with its shortest list. */
  lemma ErrorTable(d: string, other: string)
    requires !("--" <= other) && other != "-T"
    ensures Parse(["--config"], d) == Failure(MissingValue("--config"))
    ensures Parse(["--tree"], d) == Failure(MissingTask("--tree"))
    ensures Parse(["--watch"], d) == Failure(MissingTask("--watch"))
    ensures Parse(["--none"], d) == Failure(UnknownFlag("--none"))
    ensures Parse([other, other], d) == Failure(MultipleActions)
    ensures Parse([other, "--tree"], d) == Failure(MultipleActions)
  {
    var start := Args(None, Run(d), 2);
    OffenceRefuses(["--config"], start, false, MissingValue("--config"));
    OffenceRefuses(["--tree"], start, false, MissingTask("--tree"));
    OffenceRefuses(["--watch"], start, false, MissingTask("--watch"));
    assert "--none"[2] == 'n' && "--file"[2] == 'f' && "--tree"[2] == 't';
    OffenceRefuses(["--none"], start, false, UnknownFlag("--none"));
    SecondAction(other, other, d);
    SecondAction(other, "--tree", d);
  }

  lemma SecondAction(task: string, second: string, d: string)
    requires !("--" <= task) && task != "-T" && StartsAction([second])
    ensures Parse([task, second], d) == Failure(MultipleActions)
  {
    var start := Args(None, Run(d), 2);
    assert "--" <= "--tasks" && "--" <= "--tasks-simple";
    ParsesGroup(Do(Run(task), task), [second], start, false);
    assert [task] + [second] == [task, second];
    OffenceRefuses([second], start.(action := Run(task)), true, MultipleActions);
  }

  ghost predicate IsGroupList(args: seq<string>, gs: seq<Group>) {
    (forall g | g in gs :: WellFormed(g)) && SpellAll(gs) == args && Actions(gs) <= 1
  }

  /** Accepted exactly when the tokens split into option groups with at most one action; the result is their meaning. */
  lemma AcceptedIffGroups(args: seq<string>, defaultTask: string)
    ensures Parse(args, defaultTask).Success? <==> exists gs :: IsGroupList(args, gs)
    ensures forall gs | IsGroupList(args, gs) :: Parse(args, defaultTask) == Success(Meaning(gs, defaultTask))
  {
    var start := Args(None, Run(defaultTask), 2);
    if Parse(args, defaultTask).Success? {
      var gs := ReadsGroups(args, start, false);
      assert IsGroupList(args, gs);
    }
    forall gs | IsGroupList(args, gs) ensures Parse(args, defaultTask) == Success(Meaning(gs, defaultTask)) {
      ParsesGroups(gs, start, false);
    }
  }

  // ----- Order does not matter across kinds -----

  lemma LastOne(a: seq<Group>, g: Group, now: Args)
    ensures LastConfig(a + [g], now.configPath)
         == Applied(g, now.(configPath := LastConfig(a, now.configPath))).configPath
    ensures LastAction(a + [g], now.action) == Applied(g, now.(action := LastAction(a, now.action))).action
    ensures LastLevel(a + [g], now.logLevel) == Applied(g, now.(logLevel := LastLevel(a, now.logLevel))).logLevel
  {
    assert (a + [g])[..|a|] == a;
  }

  // The groups of one kind, in their order.
  function Configs(gs: seq<Group>): seq<Group> {
    if gs == [] then []
    else if gs[|gs| - 1].Config? then Configs(gs[..|gs| - 1]) + [gs[|gs| - 1]] else Configs(gs[..|gs| - 1])
  }

  function Levels(gs: seq<Group>): seq<Group> {
    if gs == [] then []
    else if gs[|gs| - 1].Level? then Levels(gs[..|gs| - 1]) + [gs[|gs| - 1]] else Levels(gs[..|gs| - 1])
  }

  function Does(gs: seq<Group>): seq<Group> {
    if gs == [] then []
    else if gs[|gs| - 1].Do? then Does(gs[..|gs| - 1]) + [gs[|gs| - 1]] else Does(gs[..|gs| - 1])
  }

  lemma {:induction false} ConfigsDecide(gs: seq<Group>, otherwise: Option<string>)
    ensures LastConfig(gs, otherwise) == LastConfig(Configs(gs), otherwise)
  {
    if gs != [] { ConfigsDecide(gs[..|gs| - 1], otherwise); }
  }

  lemma {:induction false} LevelsDecide(gs: seq<Group>, otherwise: nat)
    ensures LastLevel(gs, otherwise) == LastLevel(Levels(gs), otherwise)
  {
    if gs != [] { LevelsDecide(gs[..|gs| - 1], otherwise); }
  }

  lemma {:induction false} DoesDecide(gs: seq<Group>, otherwise: Action)
    ensures LastAction(gs, otherwise) == LastAction(Does(gs), otherwise)
  {
    if gs != [] { DoesDecide(gs[..|gs| - 1], otherwise); }
  }

  lemma {:induction false} ActionsAreDoes(gs: seq<Group>)
    ensures Actions(gs) == |Does(gs)|
  {
    if gs != [] {
      var front, g := gs[..|gs| - 1], gs[|gs| - 1];
      ActionsAreDoes(front);
      ActionsAppend(front, [g]);
      assert gs == front + [g];
    }
  }

  /** What a list means depends on the groups of each kind only. */
  lemma KindsDecide(s: seq<Group>, t: seq<Group>, defaultTask: string)
    requires Configs(s) == Configs(t) && Levels(s) == Levels(t) && Does(s) == Does(t)
    ensures Meaning(s, defaultTask) == Meaning(t, defaultTask) && Actions(s) == Actions(t)
  {
    ConfigsDecide(s, None);
    ConfigsDecide(t, None);
    LevelsDecide(s, 2);
    LevelsDecide(t, 2);
    DoesDecide(s, Run(defaultTask));
    DoesDecide(t, Run(defaultTask));
    ActionsAreDoes(s);
    ActionsAreDoes(t);
  }

  lemma {:induction false} ActionsAppend(a: seq<Group>, b: seq<Group>)
    ensures Actions(a + b) == Actions(a) + Actions(b)
  {
    if a == [] {
      assert a + b == b;
    } else {
      ActionsAppend(a[1..], b);
      assert (a + b)[1..] == a[1..] + b;
    }
  }

  /** Only the order within each kind matters: config, verbosity and action groups may be mixed in any way. */
  lemma OptionsMayMove(s: seq<Group>, t: seq<Group>, defaultTask: string)
    requires IsGroupList(SpellAll(s), s) && forall g | g in t :: WellFormed(g)
    requires Configs(s) == Configs(t) && Levels(s) == Levels(t) && Does(s) == Does(t)
    ensures Parse(SpellAll(s), defaultTask).Success?
    ensures Parse(SpellAll(s), defaultTask) == Parse(SpellAll(t), defaultTask)
  {
    KindsDecide(s, t, defaultTask);
    AcceptedIffGroups(SpellAll(s), defaultTask);
    AcceptedIffGroups(SpellAll(t), defaultTask);
    assert IsGroupList(SpellAll(t), t);
  }

  // ----- Printing -----

  function PrintedConfig(c: Args): seq<Group> {
    if c.configPath.Some? then [Config("--config", c.configPath.value)] else []
  }

  function PrintedOptions(c: Args): seq<Group> {
    if c.logLevel < 2 then PrintedConfig(c) + [Level(c.logLevel)] else PrintedConfig(c)
  }

  function PrintedAction(c: Args): Group {
    Do(c.action, if c.action.ListTasks? then "--tasks" else if c.action.Run? then c.action.task else "")
  }

  function Printed(c: Args): seq<Group> { PrintedOptions(c) + [PrintedAction(c)] }

  lemma PrintedMeans(c: Args, defaultTask: string)
    requires c.logLevel <= 2
    ensures Meaning(Printed(c), defaultTask) == c
  {
    var start := Args(None, Run(defaultTask), 2);
    if c.configPath.Some? { LastOne([], PrintedConfig(c)[0], start); }
    if c.logLevel < 2 { LastOne(PrintedConfig(c), Level(c.logLevel), start); }
    LastOne(PrintedOptions(c), PrintedAction(c), start);
  }

  lemma PrintedIsGroupList(c: Args)
    requires c.logLevel <= 2 && (c.action.Run? ==> IsTaskName(c.action.task))
    ensures IsGroupList(SpellAll(Printed(c)), Printed(c))
  {
    ActionsAppend(PrintedOptions(c), [PrintedAction(c)]);
    if c.logLevel < 2 { ActionsAppend(PrintedConfig(c), [Level(c.logLevel)]); }
  }

  /** Parsing undoes printing, for every task name that is not a flag itself. */
  lemma PrintRoundTrip(c: Args, defaultTask: string)
    requires c.logLevel <= 2 && (c.action.Run? ==> IsTaskName(c.action.task))
    ensures Parse(SpellAll(Printed(c)), defaultTask) == Success(c)
  {
    PrintedMeans(c, defaultTask);
    PrintedIsGroupList(c);
    AcceptedIffGroups(SpellAll(Printed(c)), defaultTask);
  }
}
