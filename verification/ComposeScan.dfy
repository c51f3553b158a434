/**
 * The two indentation-driven scanners of Compose files. They look at one significant line at a time; a Row is
 * what they can tell about it.
 */
module ComposeScan {
  import opened Options

  const COMPLETED := "service_completed_successfully"

  /**
   * One line that is neither blank nor a comment: its indent, whether it is the services header, starts with a
   * dash, ends with a colon (then the key, unquoted and as written), reads as the depends_on key or as a build
   * key, and the dependency and condition of a one-line mapping, or the value of a condition line.
   */
  datatype Row = Row(
    indent: nat, services: bool, dash: bool, key: Option<string>, rawKey: string,
    dependsOn: bool, build: bool, flow: Option<(string, string)>, condition: Option<string>)

  // ----- The scanner for completed dependencies -----

  datatype State = State(
    inServices: bool, servicesIndent: nat, serviceIndent: int, currentService: string,
    inDependsOn: bool, dependsIndent: nat, currentDependency: string, dependencyIndent: int)

  function Start(): State {
    State(false, 0, 0, "", false, 0, "", 0)
  }

  /** reset, which keeps the two indents it does not mention. */
  function Reset(s: State): State {
    State(false, s.servicesIndent, -1, "", false, s.dependsIndent, "", -1)
  }

  predicate EntersService(s: State, row: Row) {
    !row.dash && row.key.Some? && !(s.serviceIndent >= 0 && row.indent != s.serviceIndent)
  }

  function Entered(s: State, row: Row): State
    requires row.key.Some?
  {
    s.(serviceIndent := row.indent, currentService := row.key.value, inDependsOn := false,
       currentDependency := "", dependencyIndent := -1)
  }

  /** completedDependency: the next state, and the dependency the line shows to be awaited to completion, or "". */
  function Next(s: State, row: Row): (State, string) {
    if !s.inServices then
      (if row.services then s.(inServices := true, servicesIndent := row.indent, serviceIndent := -1) else s, "")
    else if row.indent <= s.servicesIndent then (Reset(s), "")
    else if EntersService(s, row) then (Entered(s, row), "")
    else if s.currentService == "" || row.indent <= s.serviceIndent then (s.(inDependsOn := false), "")
    else if row.dependsOn then
      (s.(inDependsOn := true, dependsIndent := row.indent, currentDependency := "", dependencyIndent := -1), "")
    else if s.inDependsOn && row.indent <= s.dependsIndent then (s.(inDependsOn := false), "")
    else if !s.inDependsOn then (s, "")
    else InDependsOn(s, row)
  }

  /** completedDependencyInDependsOn. */
  function InDependsOn(s: State, row: Row): (State, string) {
    if row.dash then (s.(currentDependency := ""), "")
    else if row.flow.Some? then
      (s.(currentDependency := ""), if row.flow.value.1 == COMPLETED then row.flow.value.0 else "")
    else if row.key.Some? && (s.dependencyIndent < 0 || row.indent == s.dependencyIndent) then
      (s.(currentDependency := row.key.value, dependencyIndent := row.indent), "")
    else if s.currentDependency == "" || row.indent <= s.dependencyIndent || row.condition.None? then (s, "")
    else (s, if row.condition.value == COMPLETED then s.currentDependency else "")
  }

  function Single(name: string): set<string> {
    if name == "" then {} else {name}
  }

  /** The state after the rows, for any way of stepping. */
  function RunBy<S>(next: (S, Row) -> (S, string), s: S, rows: seq<Row>): S
    decreases |rows|
  {
    if rows == [] then s else next(RunBy(next, s, rows[..|rows| - 1]), rows[|rows| - 1]).0
  }

  /** The names the rows show, for any way of stepping. */
  function FoundBy<S>(next: (S, Row) -> (S, string), s: S, rows: seq<Row>): set<string>
    decreases |rows|
  {
    if rows == [] then {}
    else
      var init, last := rows[..|rows| - 1], rows[|rows| - 1];
      FoundBy(next, s, init) + Single(next(RunBy(next, s, init), last).1)
  }

  function Run(s: State, rows: seq<Row>): State {
    RunBy(Next, s, rows)
  }

  function Found(s: State, rows: seq<Row>): set<string> {
    FoundBy(Next, s, rows)
  }

  lemma {:induction false} RunByAppend<S>(next: (S, Row) -> (S, string), s: S, a: seq<Row>, b: seq<Row>)
    ensures RunBy(next, s, a + b) == RunBy(next, RunBy(next, s, a), b)
    ensures FoundBy(next, s, a + b) == FoundBy(next, s, a) + FoundBy(next, RunBy(next, s, a), b)
    decreases |b|
  {
    if b == [] {
      assert a + b == a;
    } else {
      var n := |b| - 1;
      assert (a + b)[..|a| + n] == a + b[..n];
      RunByAppend(next, s, a, b[..n]);
    }
  }

  lemma RunAppend(s: State, a: seq<Row>, b: seq<Row>)
    ensures Run(s, a + b) == Run(Run(s, a), b)
    ensures Found(s, a + b) == Found(s, a) + Found(Run(s, a), b)
  {
    RunByAppend(Next, s, a, b);
  }

  lemma RunOne(s: State, row: Row)
    ensures Run(s, [row]) == Next(s, row).0 && Found(s, [row]) == Single(Next(s, row).1)
  {
    assert [row][..0] == [];
    assert RunBy(Next, s, []) == s;
    assert FoundBy(Next, s, []) == {};
  }

  /** The state the program keeps while it scans. */
  class Scanner {
    var inServices: bool
    var servicesIndent: nat
    var serviceIndent: int
    var currentService: string
    var inDependsOn: bool
    var dependsIndent: nat
    var currentDependency: string
    var dependencyIndent: int

    function Now(): State
      reads this
    {
      State(inServices, servicesIndent, serviceIndent, currentService, inDependsOn, dependsIndent, currentDependency, dependencyIndent)
    }

    constructor ()
      ensures Now() == Start()
    {
      inServices, servicesIndent, serviceIndent, currentService := false, 0, 0, "";
      inDependsOn, dependsIndent, currentDependency, dependencyIndent := false, 0, "", 0;
    }

    method CompletedDependency(row: Row) returns (service: string)
      modifies this
      ensures (Now(), service) == Next(old(Now()), row)
    {
      if !inServices {
        if row.services {
          inServices, servicesIndent, serviceIndent := true, row.indent, -1;
        }
        return "";
      }
      if row.indent <= servicesIndent {
        ResetAll();
        return "";
      }
      var entered := EnterService(row);
      if entered {
        return "";
      }
      if currentService == "" || row.indent <= serviceIndent {
        inDependsOn := false;
        return "";
      }
      if row.dependsOn {
        inDependsOn, dependsIndent, currentDependency, dependencyIndent := true, row.indent, "", -1;
        return "";
      }
      if inDependsOn && row.indent <= dependsIndent {
        inDependsOn := false;
        return "";
      }
      if !inDependsOn {
        return "";
      }
      service := CompletedDependencyInDependsOn(row);
    }

    method ResetAll()
      modifies this
      ensures Now() == Reset(old(Now()))
    {
      inServices, currentService, inDependsOn, currentDependency := false, "", false, "";
      serviceIndent, dependencyIndent := -1, -1;
    }

    method EnterService(row: Row) returns (entered: bool)
      modifies this
      ensures entered == EntersService(old(Now()), row)
      ensures !entered ==> Now() == old(Now())
      ensures entered ==> Now() == Entered(old(Now()), row)
    {
      if row.dash || row.key.None? {
        return false;
      }
      if serviceIndent >= 0 && row.indent != serviceIndent {
        return false;
      }
      serviceIndent, currentService := row.indent, row.key.value;
      inDependsOn, currentDependency, dependencyIndent := false, "", -1;
      return true;
    }

    method CompletedDependencyInDependsOn(row: Row) returns (service: string)
      modifies this
      ensures (Now(), service) == InDependsOn(old(Now()), row)
    {
      if row.dash {
        currentDependency := "";
        return "";
      }
      if row.flow.Some? {
        currentDependency := "";
        return if row.flow.value.1 == COMPLETED then row.flow.value.0 else "";
      }
      if row.key.Some? && (dependencyIndent < 0 || row.indent == dependencyIndent) {
        currentDependency, dependencyIndent := row.key.value, row.indent;
        return "";
      }
      if currentDependency == "" || row.indent <= dependencyIndent || row.condition.None? {
        return "";
      }
      return if row.condition.value == COMPLETED then currentDependency else "";
    }
  }

  /** parseComposeCompletedDependencyServices, over the significant lines. */
  method CompletedServices(rows: seq<Row>) returns (out: set<string>)
    ensures out == Found(Start(), rows)
  {
    out := {};
    var scanner := new Scanner();
    for i := 0 to |rows|
      invariant scanner.Now() == Run(Start(), rows[..i]) && out == Found(Start(), rows[..i])
    {
      assert rows[..i + 1][..i] == rows[..i];
      var service := scanner.CompletedDependency(rows[i]);
      if service != "" {
        out := out + {service};
      }
    }
    assert rows[..|rows|] == rows;
  }

  // ----- The scanner for services that are built -----

  datatype Builds = Builds(
    inServices: bool, stopped: bool, servicesIndent: int, serviceIndent: int, current: string,
    known: set<string>, builds: set<string>)

  function BuildStart(): Builds {
    Builds(false, false, -1, -1, "", {}, {})
  }

  function BuildNext(s: Builds, row: Row): Builds {
    if s.stopped then s
    else if !s.inServices then
      if row.services then s.(inServices := true, servicesIndent := row.indent) else s
    else if row.indent <= s.servicesIndent then s.(stopped := true)
    else if row.dash then s
    else if row.key.Some? && (s.serviceIndent < 0 || row.indent == s.serviceIndent) then
      s.(serviceIndent := row.indent, current := row.rawKey, known := s.known + Single(row.rawKey))
    else if s.current != "" && row.indent > s.serviceIndent && row.build then s.(builds := s.builds + {s.current})
    else s
  }

  function BuildRun(s: Builds, rows: seq<Row>): Builds
    decreases |rows|
  {
    if rows == [] then s else BuildNext(BuildRun(s, rows[..|rows| - 1]), rows[|rows| - 1])
  }

  lemma {:induction false} BuildRunAppend(s: Builds, a: seq<Row>, b: seq<Row>)
    ensures BuildRun(s, a + b) == BuildRun(BuildRun(s, a), b)
    decreases |b|
  {
    if b == [] {
      assert a + b == a;
    } else {
      var n := |b| - 1;
      assert (a + b)[..|a| + n] == a + b[..n];
      BuildRunAppend(s, a, b[..n]);
    }
  }

  lemma BuildRunOne(s: Builds, row: Row)
    ensures BuildRun(s, [row]) == BuildNext(s, row)
  {
    assert [row][..0] == [];
    assert BuildRun(s, []) == s;
  }

  lemma {:induction false} StoppedStays(s: Builds, rows: seq<Row>)
    requires s.stopped
    ensures BuildRun(s, rows) == s
    decreases |rows|
  {
    if rows != [] {
      StoppedStays(s, rows[..|rows| - 1]);
    }
  }

  /** environmentRestoreComposeBuildServicesFromText, over the significant lines. */
  method BuildServices(rows: seq<Row>) returns (known: set<string>, builds: set<string>)
    ensures var end := BuildRun(BuildStart(), rows); known == end.known && builds == end.builds
  {
    known, builds := {}, {};
    var inServices := false;
    var servicesIndent: int, serviceIndent: int := -1, -1;
    var current := "";
    assert rows[..0] == [];
    for i := 0 to |rows|
      invariant BuildRun(BuildStart(), rows[..i]) ==
        Builds(inServices, false, servicesIndent, serviceIndent, current, known, builds)
    {
      var row := rows[i];
      assert rows[..i + 1][..i] == rows[..i];
      if !inServices {
        if row.services {
          inServices, servicesIndent := true, row.indent;
        }
        continue;
      }
      if row.indent <= servicesIndent {
        assert rows == rows[..i + 1] + rows[i + 1..];
        BuildRunAppend(BuildStart(), rows[..i + 1], rows[i + 1..]);
        StoppedStays(BuildRun(BuildStart(), rows[..i + 1]), rows[i + 1..]);
        return;
      }
      if row.dash {
        continue;
      }
      if row.key.Some? && (serviceIndent < 0 || row.indent == serviceIndent) {
        serviceIndent, current := row.indent, row.rawKey;
        if current != "" {
          known := known + {current};
        }
        continue;
      }
      if current != "" && row.indent > serviceIndent && row.build {
        builds := builds + {current};
      }
    }
    assert rows[..|rows|] == rows;
  }
}
