/**
 * The phases of a Docker restore: plan, prepare, validate, clean up, project native assets, start, apply edge
 * assets, wait for health. Every command that runs is logged.
 */
module Restore {

  type Command = seq<string>

  /** How a command ended: well, or with an error text that may say that there was no such container. */
  datatype Ending = Fine | Error(noContainer: bool)

  datatype Cleanup = Cleanup(
    requested: bool, allowed: bool, linked: bool, backup: seq<Command>, commands: seq<Command>, action: string)

  datatype Report = Report(
    ok: bool, action: string, composeFile: bool, cleanup: Cleanup, commands: seq<Command>, generated: seq<bool>,
    applied: seq<bool>, health: seq<bool>)

  /**
   * What the environment records: compose files and their arguments, a start command, the services whose images are
   * pulled (those to skip are left out already), those that are built, those to start, the containers with fixed names
   * in order, and whether the environment is linked to its Compose file.
   */
  datatype Compose = Compose(
    hasComposeFile: bool, resolvesComposeFile: bool, startCommand: string, baseArgs: seq<string>,
    images: seq<string>, builds: seq<string>, skipPull: bool, skipBuild: bool, services: seq<string>,
    fixedNames: seq<string>, linked: bool)

  datatype Options = Options(requested: bool, allowed: bool, includeImages: bool)

  /** How the steps that run no logged command go. */
  datatype World = World(
    insideWorkspace: seq<bool>, written: seq<bool>, workspaceMade: bool, envWritten: bool, composeFilesPresent: bool,
    nativeAssets: bool, edgeAssets: seq<bool>, health: seq<bool>)

  function NoCleanup(): Cleanup {
    Cleanup(false, false, false, [], [], "")
  }

  /** environmentRestoreDockerCleanupPlan: what is there is recorded before anything is removed. */
  function CleanupPlan(c: Compose, o: Options): Cleanup {
    if !o.requested then NoCleanup()
    else
      var base := ["docker", "compose"] + c.baseArgs;
      var down := base + ["down", "--remove-orphans"] + if o.includeImages then ["--rmi", "all"] else [];
      Cleanup(true, o.allowed, c.linked, [base + ["ps"], base + ["images"], base + ["config"]],
              [down] + if c.fixedNames == [] then [] else [["docker", "rm", "-f"] + c.fixedNames], "plan-cleanup")
  }

  /** environmentRestoreComposeUpArgs. */
  function UpArgs(c: Compose): seq<string> {
    ["up"] + (if c.skipPull then ["--pull", "never"] else []) + ["-d"] + c.services
  }

  function ComposeCommands(c: Compose): seq<Command> {
    var base := ["docker", "compose"] + c.baseArgs;
    (if !c.skipPull && c.images != [] then [base + ["pull"] + c.images] else []) +
    (if !c.skipBuild && c.builds != [] then [base + ["build"] + c.builds] else []) + [base + UpArgs(c)]
  }

  /** environmentRestoreDockerPlan. */
  function Plan(c: Compose, o: Options): Report {
    if c.hasComposeFile then
      Report(true, "plan-docker-compose", c.resolvesComposeFile, CleanupPlan(c, o), ComposeCommands(c), [], [], [])
    else if c.startCommand != "" then
      Report(!o.requested, "plan-start-command", false,
             if o.requested then Cleanup(true, o.allowed, false, [], [], "unsupported-cleanup") else NoCleanup(),
             [["/bin/sh", "-c", c.startCommand]], [], [], [])
    else Report(false, "missing-docker-plan", false, NoCleanup(), [], [], [], [])
  }

  // ----- What the options ask for -----

  function Base(c: Compose): Command {
    ["docker", "compose"] + c.baseArgs
  }

  function When(condition: bool, command: Command): seq<Command> {
    if condition then [command] else []
  }

  /** Cleanup was requested and allowed, and the environment is linked to a Compose file that resolves. */
  predicate Cleans(c: Compose, o: Options) {
    c.hasComposeFile && c.resolvesComposeFile && o.requested && o.allowed && c.linked
  }

  /** Records first, then removal, each command under its own condition. */
  function ListedCleanup(c: Compose, o: Options): seq<Command> {
    When(Cleans(c, o), Base(c) + ["ps"]) + When(Cleans(c, o), Base(c) + ["images"]) + When(Cleans(c, o), Base(c) + ["config"])
    + When(Cleans(c, o), Base(c) + ["down", "--remove-orphans"] + if o.includeImages then ["--rmi", "all"] else [])
    + When(Cleans(c, o) && c.fixedNames != [], ["docker", "rm", "-f"] + c.fixedNames)
  }

  function ListedStartup(c: Compose): seq<Command> {
    if c.hasComposeFile then
      When(!c.skipPull && c.images != [], Base(c) + ["pull"] + c.images)
      + When(!c.skipBuild && c.builds != [], Base(c) + ["build"] + c.builds)
      + [Base(c) + (["up"] + (if c.skipPull then ["--pull", "never"] else []) + ["-d"] + c.services)]
    else When(c.startCommand != "", ["/bin/sh", "-c", c.startCommand])
  }

  function Listed(c: Compose, o: Options): seq<Command> {
    ListedCleanup(c, o) + ListedStartup(c)
  }

  /** A command that removes containers: down for the project, or docker rm. */
  predicate Removes(c: Compose, command: Command) {
    Base(c) + ["down"] <= command || ["docker", "rm"] <= command
  }

  /** There is something to start; without a Compose file, no cleanup can be asked for. */
  predicate Plannable(c: Compose, o: Options) {
    c.hasComposeFile || (c.startCommand != "" && !o.requested)
  }

  /** A command ends well, except that the containers to remove by force may not have been there. */
  predicate EndsWell(c: Compose, command: Command, ending: Ending) {
    ending == Fine || (c.fixedNames != [] && command == ["docker", "rm", "-f"] + c.fixedNames && ending == Error(true))
  }

  ghost predicate ListedEndWell(c: Compose, o: Options, endings: nat -> Ending, start: nat) {
    var listed := Listed(c, o);
    forall i | 0 <= i < |listed| :: EndsWell(c, listed[i], endings(start + i))
  }

  lemma CleanupIsListed(c: Compose, o: Options)
    ensures CleanupRuns(Plan(c, o)) <==> Cleans(c, o)
    ensures CleanupCommands(Plan(c, o)) == ListedCleanup(c, o)
    ensures |ListedCleanup(c, o)| == if !Cleans(c, o) then 0 else if c.fixedNames == [] then 4 else 5
  {
    if Cleans(c, o) {
      var down := Base(c) + ["down", "--remove-orphans"] + if o.includeImages then ["--rmi", "all"] else [];
      assert Plan(c, o).cleanup.backup == [Base(c) + ["ps"], Base(c) + ["images"], Base(c) + ["config"]];
      assert Plan(c, o).cleanup.commands == [down] + When(c.fixedNames != [], ["docker", "rm", "-f"] + c.fixedNames);
    }
  }

  /** The plan requires exactly the listed commands, cleanup first. */
  lemma PlanListsExactly(c: Compose, o: Options)
    requires Plannable(c, o)
    ensures var plan := Plan(c, o);
      && plan.ok && plan.composeFile == (c.hasComposeFile && c.resolvesComposeFile)
      && Required(plan) == Listed(c, o) && CleanupCommands(plan) == ListedCleanup(c, o)
  {
    CleanupIsListed(c, o);
    assert Plan(c, o).commands == ListedStartup(c);
  }

  lemma NotPlannable(c: Compose, o: Options)
    requires !Plannable(c, o)
    ensures !Plan(c, o).ok && !CleanupRuns(Plan(c, o))
  {
  }

  /** Nothing that starts the services removes a container. */
  lemma StartupKeeps(c: Compose, i: nat)
    requires i < |ListedStartup(c)|
    ensures var command := ListedStartup(c)[i]; |command| > 1 && command[1] != "rm" && !Removes(c, command)
  {
    var command := ListedStartup(c)[i];
    if c.hasComposeFile {
      assert |command| > |Base(c)| && command[|Base(c)|] in {"pull", "build", "up"} && command[1] == Base(c)[1] == "compose";
      assert (Base(c) + ["down"])[|Base(c)|] == "down";
    } else {
      assert command[0] == "/bin/sh" && Base(c)[0] == "docker";
    }
    assert ["docker", "rm"][1] == "rm";
  }

  /** So without cleanup nothing that is listed does. */
  lemma OnlyCleanupRemoves(c: Compose, o: Options)
    requires !Cleans(c, o)
    ensures forall i | 0 <= i < |Listed(c, o)| :: !Removes(c, Listed(c, o)[i])
  {
    assert Listed(c, o) == ListedStartup(c);
    forall i | 0 <= i < |ListedStartup(c)| ensures !Removes(c, ListedStartup(c)[i]) {
      StartupKeeps(c, i);
    }
  }

  /** All required commands pass exactly if all listed ones end well. */
  lemma ListedPassExactly(c: Compose, o: Options, endings: nat -> Ending, start: nat)
    requires Plannable(c, o)
    ensures var plan := Plan(c, o);
      AllPass(Required(plan), endings, start, |CleanupCommands(plan)|) <==> ListedEndWell(c, o, endings, start)
  {
    PlanListsExactly(c, o);
    var plan, listed := Plan(c, o), Listed(c, o);
    forall i | 0 <= i < |listed|
      ensures Passes(listed[i], endings(start + i), i < |CleanupCommands(plan)|) <==> EndsWell(c, listed[i], endings(start + i))
    {
      if i < |ListedCleanup(c, o)| {
        CleanupPasses(c, o, i, endings(start + i));
      } else {
        StartupKeeps(c, i - |ListedCleanup(c, o)|);
      }
    }
  }

  /** Of the cleanup commands only the removal by force is ignored, and only when there is no such container. */
  lemma CleanupPasses(c: Compose, o: Options, i: nat, ending: Ending)
    requires i < |ListedCleanup(c, o)|
    ensures Passes(ListedCleanup(c, o)[i], ending, true) <==> EndsWell(c, ListedCleanup(c, o)[i], ending)
  {
    CleanupIsListed(c, o);
    var command := ListedCleanup(c, o)[i];
    if i == 4 {
      assert command == ["docker", "rm", "-f"] + c.fixedNames;
      assert command[2..][0] == "-f";
    } else {
      assert command[1] == "compose";
      assert (["docker", "rm", "-f"] + c.fixedNames)[1] == "rm";
    }
  }

  // ----- Running it -----

  predicate All(flags: seq<bool>) {
    forall i | 0 <= i < |flags| :: flags[i]
  }

  /** Both hold for each generated file: its path stays inside, and in execute mode it was written. */
  function Generated(w: World, execute: bool): seq<bool>
    requires |w.written| == |w.insideWorkspace|
  {
    seq(|w.insideWorkspace|, i requires 0 <= i < |w.insideWorkspace| => w.insideWorkspace[i] && (execute ==> w.written[i]))
  }

  /** environmentRestoreCleanupIgnoreMissingContainer. */
  predicate Ignorable(command: Command, ending: Ending) {
    && |command| >= 4 && command[0] == "docker" && command[1] == "rm"
    && ("-f" in command[2..] || "--force" in command[2..])
    && ending.Error? && ending.noContainer
  }

  /** Cleanup commands run only if they were asked for, allowed, and the environment is linked to its Compose file. */
  predicate CleanupRuns(r: Report) {
    r.composeFile && r.cleanup.requested && r.cleanup.allowed && r.cleanup.linked
  }

  function CleanupCommands(r: Report): seq<Command> {
    if CleanupRuns(r) then r.cleanup.backup + r.cleanup.commands else []
  }

  /** All commands a restore with this plan has to run, in order. */
  function Required(r: Report): seq<Command> {
    CleanupCommands(r) + r.commands
  }

  /** The commands that run: a prefix of the required ones, all of which but the last ended well. */
  ghost predicate RanPrefix(ran: seq<Command>, required: seq<Command>, endings: nat -> Ending, start: nat, cleanups: nat) {
    ran <= required && forall i | 0 <= i < |ran| - 1 :: Passes(ran[i], endings(start + i), i < cleanups)
  }

  /** A command passes if it ends well; a cleanup command also if the container to remove was not there. */
  predicate Passes(command: Command, ending: Ending, cleanup: bool) {
    ending == Fine || (cleanup && Ignorable(command, ending))
  }

  ghost predicate AllPass(commands: seq<Command>, endings: nat -> Ending, start: nat, cleanups: nat) {
    forall i | 0 <= i < |commands| :: Passes(commands[i], endings(start + i), i < cleanups)
  }

  predicate SamePlan(report: Report, plan: Report) {
    report.composeFile == plan.composeFile && report.cleanup == plan.cleanup && report.commands == plan.commands
  }

  /** Everything is in place before the first command. */
  predicate Prepared(plan: Report, w: World)
    requires |w.written| == |w.insideWorkspace|
  {
    plan.ok && w.workspaceMade && All(Generated(w, true)) && w.envWritten && (plan.composeFile ==> w.composeFilesPresent)
  }

  /** A cleanup that was asked for is allowed and linked. */
  predicate CleanupPermitted(plan: Report) {
    plan.composeFile && plan.cleanup.requested ==> plan.cleanup.allowed && plan.cleanup.linked
  }

  /** Everything a good report in execute mode stands for. */
  ghost predicate Succeeds(plan: Report, w: World, endings: nat -> Ending, start: nat)
    requires |w.written| == |w.insideWorkspace|
  {
    && Prepared(plan, w) && CleanupPermitted(plan)
    && AllPass(Required(plan), endings, start, |CleanupCommands(plan)|)
    && w.nativeAssets && All(w.edgeAssets) && All(w.health)
  }

  /** The first n commands were run: all and they passed, or up to and including the first that did not. */
  ghost predicate RanFirst(commands: seq<Command>, n: nat, endings: nat -> Ending, start: nat, cleanup: bool, ok: bool) {
    && n <= |commands|
    && (forall j | 0 <= j < n - 1 :: Passes(commands[j], endings(start + j), cleanup))
    && (if ok then n == |commands| && (n > 0 ==> Passes(commands[n - 1], endings(start + n - 1), cleanup))
        else n > 0 && !Passes(commands[n - 1], endings(start + n - 1), cleanup))
  }

  lemma InsideIsNeeded(w: World)
    requires |w.written| == |w.insideWorkspace|
    ensures All(Generated(w, true)) ==> All(Generated(w, false))
  {
    var planned, done := Generated(w, false), Generated(w, true);
    assert forall i | 0 <= i < |planned| :: done[i] ==> planned[i];
  }

  lemma GeneratedAre(w: World)
    requires |w.written| == |w.insideWorkspace|
    ensures All(Generated(w, false)) <==> All(w.insideWorkspace)
    ensures All(Generated(w, true)) <==> All(w.insideWorkspace) && All(w.written)
  {
    var planned, done := Generated(w, false), Generated(w, true);
    assert forall i | 0 <= i < |planned| :: planned[i] == w.insideWorkspace[i];
    assert forall i | 0 <= i < |done| :: done[i] == (w.insideWorkspace[i] && w.written[i]);
  }

  /** Everything a successful restore stands for, told by what is recorded, the options and the world. */
  ghost predicate GoesWell(c: Compose, o: Options, w: World, endings: nat -> Ending, start: nat) {
    && (c.hasComposeFile || (c.startCommand != "" && !o.requested))
    && w.workspaceMade && All(w.insideWorkspace) && All(w.written) && w.envWritten
    && (c.hasComposeFile && c.resolvesComposeFile ==> w.composeFilesPresent && (o.requested ==> o.allowed && c.linked))
    && ListedEndWell(c, o, endings, start) && w.nativeAssets && All(w.edgeAssets) && All(w.health)
  }

  lemma GoesWellExactly(c: Compose, o: Options, w: World, endings: nat -> Ending, start: nat)
    requires |w.written| == |w.insideWorkspace|
    ensures Succeeds(Plan(c, o), w, endings, start) <==> GoesWell(c, o, w, endings, start)
    ensures Plan(c, o).ok && All(Generated(w, false)) <==> Plannable(c, o) && All(w.insideWorkspace)
    ensures Plannable(c, o) ==> Required(Plan(c, o)) == Listed(c, o)
    ensures c.hasComposeFile && c.resolvesComposeFile && o.requested && !(o.allowed && c.linked) ==> !CleanupPermitted(Plan(c, o))
  {
    GeneratedAre(w);
    if Plannable(c, o) {
      PlanListsExactly(c, o);
      ListedPassExactly(c, o, endings, start);
    } else {
      NotPlannable(c, o);
    }
  }

  /** What is run of the required commands removes nothing unless cleanup is on. */
  lemma RunsOnlyListed(c: Compose, o: Options, ran: seq<Command>)
    requires if Plannable(c, o) then ran <= Listed(c, o) else ran == []
    ensures ran <= Listed(c, o)
    ensures !Cleans(c, o) ==> forall i | 0 <= i < |ran| :: !Removes(c, ran[i])
  {
    if !Cleans(c, o) {
      OnlyCleanupRemoves(c, o);
      assert forall i | 0 <= i < |ran| :: ran[i] == Listed(c, o)[i];
    }
  }

  /** A cleanup that stops leaves a prefix of the required commands, and they did not all pass. */
  lemma CleanupStopped(plan: Report, n: nat, endings: nat -> Ending, start: nat)
    requires RanFirst(CleanupCommands(plan), n, endings, start, true, false)
    ensures RanPrefix(CleanupCommands(plan)[..n], Required(plan), endings, start, |CleanupCommands(plan)|)
    ensures !AllPass(Required(plan), endings, start, |CleanupCommands(plan)|)
  {
    var cleanups, required := CleanupCommands(plan), Required(plan);
    assert forall i | 0 <= i < |cleanups| :: required[i] == cleanups[i];
    assert cleanups[..n] <= required;
  }

  /** After the whole cleanup, the startup commands that ran extend it to a prefix of the required commands. */
  lemma CleanedAndStarted(plan: Report, n: nat, endings: nat -> Ending, start: nat, started: bool)
    requires var cleanups := CleanupCommands(plan); RanFirst(cleanups, |cleanups|, endings, start, true, true)
    requires RanFirst(plan.commands, n, endings, start + |CleanupCommands(plan)|, false, started)
    ensures RanPrefix(CleanupCommands(plan) + plan.commands[..n], Required(plan), endings, start, |CleanupCommands(plan)|)
    ensures AllPass(Required(plan), endings, start, |CleanupCommands(plan)|) <==> started
  {
    var cleanups, required := CleanupCommands(plan), Required(plan);
    var k := |cleanups|;
    forall i | 0 <= i < |required| && (i < k || i - k < n - 1) ensures Passes(required[i], endings(start + i), i < k) {
      if i >= k {
        assert required[i] == plan.commands[i - k];
      }
    }
    if n > 0 {
      assert required[k + n - 1] == plan.commands[n - 1];
    }
    assert cleanups + plan.commands[..n] <= required;
  }

  /** The Docker host: the log of what ran, and how each command ends. */
  class Docker {
    var log: seq<Command>
    const endings: nat -> Ending

    constructor (endings: nat -> Ending)
      ensures log == [] && this.endings == endings
    {
      log := [];
      this.endings := endings;
    }

    method Run(command: Command) returns (ending: Ending)
      modifies this
      ensures log == old(log) + [command] && ending == endings(|old(log)|)
    {
      ending := endings(|log|);
      log := log + [command];
    }

    /** The command loops of cleanup and startup, which stop at the first command that does not pass. */
    method RunAll(commands: seq<Command>, cleanup: bool) returns (ok: bool, ghost n: nat)
      modifies this
      ensures RanFirst(commands, n, endings, |old(log)|, cleanup, ok) && log == old(log) + commands[..n]
    {
      ghost var before := log;
      for i := 0 to |commands|
        invariant log == before + commands[..i]
        invariant forall j | 0 <= j < i :: Passes(commands[j], endings(|before| + j), cleanup)
      {
        var ending := Run(commands[i]);
        assert commands[..i + 1] == commands[..i] + [commands[i]];
        if ending != Fine && !(cleanup && Ignorable(commands[i], ending)) {
          return false, i + 1;
        }
      }
      return true, |commands|;
    }

    /** environmentRestoreRunCleanup. */
    method RunCleanup(r: Report) returns (ok: bool, action: string, ghost n: nat)
      modifies this
      ensures n <= |CleanupCommands(r)| && log == old(log) + CleanupCommands(r)[..n]
      ensures ok || CleanupRuns(r) ==> RanFirst(CleanupCommands(r), n, endings, |old(log)|, true, ok)
      ensures !CleanupRuns(r) ==> n == 0 && (ok <==> !(r.composeFile && r.cleanup.requested))
    {
      n := 0;
      if !r.composeFile || !r.cleanup.requested {
        return true, r.cleanup.action, 0;
      }
      if !r.cleanup.allowed {
        return false, "cleanup-blocked", 0;
      }
      if !r.cleanup.linked {
        return false, "cleanup-linkage-blocked", 0;
      }
      ok, n := RunAll(r.cleanup.backup + r.cleanup.commands, true);
      return ok, "run-cleanup", n;
    }

    /** Everything before the first command: the check of the plan, and in execute mode the preparation. */
    method PreparePhase(plan: Report, w: World, execute: bool) returns (report: Report, go: bool)
      requires |w.written| == |w.insideWorkspace|
      ensures go <==> execute && Prepared(plan, w)
      ensures go ==> report.ok
      ensures !go ==> (report.ok <==> !execute && plan.ok && All(Generated(w, false)))
      ensures SamePlan(report, plan)
    {
      report := plan;
      if !report.ok {
        return report, false;
      }
      report := report.(generated := Generated(w, false));
      if !All(report.generated) {
        report := report.(ok := false, action := "prepare-generated-files");
      }
      if !execute {
        return report, false;
      }
      InsideIsNeeded(w);
      if !w.workspaceMade {
        return report.(ok := false, action := "prepare-workspace"), false;
      }
      report := report.(generated := Generated(w, true));
      if !All(report.generated) {
        return report.(ok := false, action := "prepare-generated-files"), false;
      }
      if !w.envWritten {
        return report.(ok := false, action := "prepare-compose-env"), false;
      }
      if report.composeFile && !w.composeFilesPresent {
        return report.(ok := false), false;
      }
      return report, true;
    }

    /** Cleanup, native assets and startup. */
    method CommandPhase(plan: Report, nativeAssets: bool) returns (ok: bool, ghost ran: seq<Command>)
      modifies this
      ensures log == old(log) + ran
      ensures RanPrefix(ran, Required(plan), endings, |old(log)|, |CleanupCommands(plan)|)
      ensures ok <==> nativeAssets && CleanupPermitted(plan) && AllPass(Required(plan), endings, |old(log)|, |CleanupCommands(plan)|)
      ensures ok ==> ran == Required(plan)
      ensures !CleanupPermitted(plan) ==> ran == []
    {
      ghost var cleanups, start := CleanupCommands(plan), |log|;
      var cleaned, _, n := RunCleanup(plan);
      ran := cleanups[..n];
      if !cleaned {
        if CleanupRuns(plan) {
          CleanupStopped(plan, n, endings, start);
        }
        return false, ran;
      }
      assert ran == cleanups;
      if !nativeAssets {
        return false, ran;
      }
      var started, m := RunAll(plan.commands, false);
      CleanedAndStarted(plan, m, endings, start, started);
      assert plan.commands[..|plan.commands|] == plan.commands;
      return started, ran + plan.commands[..m];
    }

    /**
     * environmentRestoreDocker after planning. What runs is always a prefix of backup, cleanup and startup commands,
     * nothing runs without execute, and in execute mode the report is good exactly if every step went well.
     */
    method Execute(plan: Report, w: World, execute: bool) returns (report: Report, ghost ran: seq<Command>)
      requires |w.written| == |w.insideWorkspace|
      modifies this
      ensures log == old(log) + ran
      ensures RanPrefix(ran, Required(plan), endings, |old(log)|, |CleanupCommands(plan)|)
      ensures !execute ==> ran == [] && (report.ok <==> plan.ok && All(Generated(w, false)))
      ensures execute ==> (report.ok <==> Succeeds(plan, w, endings, |old(log)|))
      ensures !(execute && Prepared(plan, w) && CleanupPermitted(plan)) ==> ran == []
      ensures execute && report.ok ==> ran == Required(plan) && report.applied == w.edgeAssets && report.health == w.health
    {
      var go;
      report, go := PreparePhase(plan, w, execute);
      if !go {
        return report, [];
      }
      assert CleanupCommands(report) == CleanupCommands(plan) && Required(report) == Required(plan);
      var ok;
      ok, ran := CommandPhase(report, w.nativeAssets);
      if !ok {
        return report.(ok := false), ran;
      }
      report := report.(action := if report.action == "plan-docker-compose" then "run-docker-compose" else "run-start-command");
      report := report.(applied := w.edgeAssets);
      if !All(w.edgeAssets) {
        return report.(ok := false), ran;
      }
      report := report.(health := w.health);
      if !All(w.health) {
        return report.(ok := false), ran;
      }
    }

    /** environmentRestoreDocker. */
    method Restore(c: Compose, o: Options, w: World, execute: bool) returns (report: Report, ghost ran: seq<Command>)
      requires |w.written| == |w.insideWorkspace|
      modifies this
      ensures log == old(log) + ran
      ensures var plan := Plan(c, o); RanPrefix(ran, Required(plan), endings, |old(log)|, |CleanupCommands(plan)|)
      ensures !execute ==> ran == []
      ensures execute ==> (report.ok <==> Succeeds(Plan(c, o), w, endings, |old(log)|))
      ensures ran <= Listed(c, o)
      ensures !Cleans(c, o) ==> forall i | 0 <= i < |ran| :: !Removes(c, ran[i])
      ensures c.hasComposeFile && c.resolvesComposeFile && o.requested && !(o.allowed && c.linked) && execute ==>
        log == old(log) && !report.ok
      ensures !execute ==> (report.ok <==> Plannable(c, o) && All(w.insideWorkspace))
      ensures execute ==> (report.ok <==> GoesWell(c, o, w, endings, |old(log)|))
      ensures execute && report.ok ==> ran == Listed(c, o)
    {
      GoesWellExactly(c, o, w, endings, |log|);
      report, ran := Execute(Plan(c, o), w, execute);
      RunsOnlyListed(c, o, ran);
    }
  }
}
