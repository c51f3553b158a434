/**
 The revisioned profile catalog: any number of clients load a snapshot, edit it and commit with a
 compare-and-swap against the revision they loaded; a rollback commits the content of an older revision.
 The model follows one profile.  T is everything in a catalog except its IndexedAt time.
 */
module Catalog {
  import opened Options

  datatype Entry<T> = Entry(content: T, indexedAt: int)

  datatype Head = Head(revision: nat, digest: string)

  /** `author` is a history variable: the client whose commit created the revision. */
  datatype Version<T> = Version(revision: nat, digest: string, entry: Entry<T>, author: nat)

  datatype Store<T> = Store(head: Option<Head>, current: Option<Entry<T>>, versions: seq<Version<T>>)

  datatype Error = Conflict(expected: int, actual: int) | Invalid | NotFound | AlreadyEqual | StoreFailure

  datatype CommitResult = Committed(revision: nat) | Refused(error: Error)

  /** CompareAndSwapProfileCatalog: one transaction.  `fault` stands for any failure of the database in it. */
  function CompareAndSwap<T>(s: Store<T>, expected: int, entry: Entry<T>, author: nat, digest: T -> string, fault: bool)
    : (r: (Store<T>, CommitResult))
    ensures r.1.Refused? ==> r.0 == s
    ensures r.1.Committed? ==> s.versions <= r.0.versions && r.0.current == Some(entry)
  {
    var d := digest(entry.content);
    if expected < 0 then (s, Refused(Invalid))
    else if fault then (s, Refused(StoreFailure))
    else if expected == 0 then
      if s.head.Some? then (s, Refused(Conflict(expected, s.head.value.revision)))
      else (Store(Some(Head(1, d)), Some(entry), s.versions + [Version(1, d, entry, author)]), Committed(1))
    else if s.head.None? || s.head.value.revision != expected then
      (s, Refused(Conflict(expected, if s.head.None? then 0 else s.head.value.revision)))
    else if s.head.value.digest == d then
      (s.(current := Some(entry)), Committed(expected))
    else
      (Store(Some(Head(expected + 1, d)), Some(entry), s.versions + [Version(expected + 1, d, entry, author)]),
       Committed(expected + 1))
  }

  /* ---------- clients ---------- */

  /** What a client wants; an edit may be rejected by validation.  `expected` is the --expected-revision flag. */
  datatype Command<!T> =
    | Edit(edit: T -> Option<T>, expected: Option<int>)
    | Rollback(source: nat, expected: Option<int>)

  datatype Phase<T> =
    | Start
    | Loaded(revision: nat, content: T, digest: Option<string>)
    | Ready(revision: nat, content: T)
    | Finished(revision: nat, committed: nat)
    | Unheard(revision: nat, committed: nat)
    | Stopped(error: Error)

  /** What can go wrong in a step: the database fails before anything is committed, or only its reply is lost. */
  datatype Fault = NoFault | NothingDone | ReplyLost

  /** requireExpectedProfileCatalogRevision. */
  function RequireExpected(actual: nat, expected: Option<int>): (error: Option<Error>)
    ensures error.None? <==> expected.None? || expected.value == actual
  {
    if expected.None? || expected.value == actual then None else Some(Conflict(expected.value, actual))
  }

  /**
   One step of a client: load, compute the new content, commit.  A client whose commit took effect although it
   never heard so reports a failure; its phase is Unheard.
   */
  function ClientStep<T>(command: Command<T>, phase: Phase<T>, s: Store<T>, empty: T, digest: T -> string,
                         author: nat, now: int, fault: Fault): (r: (Phase<T>, Store<T>))
    ensures r.0.Stopped? ==> r.1 == s
  {
    match phase
    case Start =>
      if fault != NoFault then (Stopped(StoreFailure), s)
      else
        var loaded := if s.head.None? || s.current.None? then Loaded(0, empty, None)
                      else Loaded(s.head.value.revision, s.current.value.content, Some(s.head.value.digest));
        var error := RequireExpected(loaded.revision, command.expected);
        (if error.Some? then Stopped(error.value) else loaded, s)
    case Loaded(revision, content, sha) =>
      (match command
       case Edit(edit, _) =>
         (match edit(content)
          case None => Stopped(Invalid)
          case Some(content') => Ready(revision, content'))
       case Rollback(source, _) =>
         if fault != NoFault then Stopped(StoreFailure)
         else if !(1 <= source <= |s.versions|) then Stopped(NotFound)
         else
           var target := s.versions[source - 1];
           if sha == Some(target.digest) then Stopped(AlreadyEqual)
           else Ready(revision, target.entry.content),
       s)
    case Ready(revision, content) =>
      var (s', result) := CompareAndSwap(s, revision, Entry(content, now), author, digest, fault == NothingDone);
      (match result
       case Committed(committed) => if fault == ReplyLost then Unheard(revision, committed) else Finished(revision, committed)
       case Refused(error) => Stopped(error),
       s')
    case _ => (phase, s)
  }

  datatype System<T> = System(store: Store<T>, phases: seq<Phase<T>>)

  datatype Event = Event(client: nat, now: int, fault: Fault)

  function Next<T>(commands: seq<Command<T>>, s: System<T>, e: Event, empty: T, digest: T -> string): (s': System<T>)
    requires |commands| == |s.phases|
    ensures |s'.phases| == |s.phases|
  {
    if e.client >= |s.phases| then s
    else
      var (phase, store) := ClientStep(commands[e.client], s.phases[e.client], s.store, empty, digest, e.client, e.now, e.fault);
      System(store, s.phases[e.client := phase])
  }

  function Execute<T>(commands: seq<Command<T>>, s: System<T>, schedule: seq<Event>, empty: T, digest: T -> string): (s': System<T>)
    requires |commands| == |s.phases|
    ensures |s'.phases| == |s.phases|
  {
    if schedule == [] then s
    else Next(commands, Execute(commands, s, schedule[..|schedule| - 1], empty, digest), schedule[|schedule| - 1], empty, digest)
  }

  /* ---------- what the history means ---------- */

  /** The content of a revision; revision 0 is the empty catalog. */
  function ContentAt<T>(versions: seq<Version<T>>, revision: nat, empty: T): T
    requires revision <= |versions|
  {
    if revision == 0 then empty else versions[revision - 1].entry.content
  }

  /** What a command makes of a history when it runs alone. */
  function Result<T>(command: Command<T>, history: seq<T>, empty: T): Option<T> {
    match command
    case Edit(edit, _) => edit(if history == [] then empty else history[|history| - 1])
    case Rollback(source, _) => if 1 <= source <= |history| then Some(history[source - 1]) else None
  }

  /** The contents of the revisions, oldest first. */
  function Contents<T>(versions: seq<Version<T>>): (r: seq<T>)
    ensures |r| == |versions|
    ensures forall i | 0 <= i < |r| :: r[i] == versions[i].entry.content
  {
    seq(|versions|, i requires 0 <= i < |versions| => versions[i].entry.content)
  }

  /** Each revision is its author's command applied to exactly the history before it. */
  ghost predicate Lineage<T(!new)>(commands: seq<Command<T>>, versions: seq<Version<T>>, empty: T) {
    forall n | 0 <= n < |versions| ::
      && versions[n].author < |commands|
      && Result(commands[versions[n].author], Contents(versions)[..n], empty) == Some(versions[n].entry.content)
  }

  ghost predicate StoreSound<T(!new)>(s: Store<T>, digest: T -> string) {
    && (forall n | 0 <= n < |s.versions| ::
          s.versions[n].revision == n + 1 && s.versions[n].digest == digest(s.versions[n].entry.content))
    && (s.head.None? <==> s.versions == [])
    && (s.head.Some? ==>
          var last := s.versions[|s.versions| - 1];
          && s.head.value == Head(|s.versions|, last.digest)
          && s.current.Some? && s.current.value.content == last.entry.content)
  }

  /** The revision the caller insisted on, if any, is the one that was loaded. */
  predicate Expected<T>(command: Command<T>, revision: nat) {
    command.expected.None? || command.expected.value == revision
  }

  ghost predicate ClientSound<T(!new)>(i: nat, command: Command<T>, phase: Phase<T>, versions: seq<Version<T>>, empty: T, digest: T -> string) {
    match phase
    case Loaded(revision, content, sha) =>
      && revision <= |versions| && content == ContentAt(versions, revision, empty)
      && (sha.Some? ==> revision > 0) && Expected(command, revision)
    case Ready(revision, content) =>
      revision <= |versions| && Makes(command, versions, revision, content, empty) && Expected(command, revision)
    case Finished(revision, committed) => CommitSound(i, command, revision, committed, versions, empty)
    case Unheard(revision, committed) => CommitSound(i, command, revision, committed, versions, empty)
    case _ => true
  }

  /** A commit that took effect: the command made its content of the revision that was loaded. */
  predicate CommitSound<T(==)>(i: nat, command: Command<T>, revision: nat, committed: nat, versions: seq<Version<T>>, empty: T) {
    && revision <= committed <= revision + 1 && 1 <= committed <= |versions|
    && Makes(command, versions, revision, ContentAt(versions, committed, empty), empty)
    && (committed == revision + 1 ==> versions[revision].author == i)
    && Expected(command, revision)
  }

  /** The command turns the given revision into this content; a rollback may look at any recorded revision. */
  predicate Makes<T(==)>(command: Command<T>, versions: seq<Version<T>>, revision: nat, content: T, empty: T)
    requires revision <= |versions|
  {
    match command
    case Edit(edit, _) => edit(ContentAt(versions, revision, empty)) == Some(content)
    case Rollback(source, _) => 1 <= source <= |versions| && versions[source - 1].entry.content == content
  }

  ghost predicate Injective<T(!new)>(digest: T -> string) {
    forall a, b :: digest(a) == digest(b) ==> a == b
  }

  ghost predicate Invariant<T(!new)>(commands: seq<Command<T>>, s: System<T>, empty: T, digest: T -> string) {
    && |commands| == |s.phases|
    && StoreSound(s.store, digest)
    && Lineage(commands, s.store.versions, empty)
    && ClientsSound(commands, s.phases, s.store.versions, empty, digest)
    && AuthorsFinished(s.phases, s.store.versions)
  }

  /** No revision yet and every client before its first step. */
  ghost predicate Initial<T(!new)>(commands: seq<Command<T>>, s: System<T>) {
    && s.store == Store(None, None, [])
    && |commands| == |s.phases|
    && forall i | 0 <= i < |s.phases| :: s.phases[i] == Start
  }

  lemma MakesIsStable<T>(command: Command<T>, versions: seq<Version<T>>, versions': seq<Version<T>>, revision: nat, content: T, empty: T)
    requires versions <= versions' && revision <= |versions| && Makes(command, versions, revision, content, empty)
    ensures Makes(command, versions', revision, content, empty)
  {
  }

  lemma ClientSoundIsStable<T(!new)>(i: nat, command: Command<T>, phase: Phase<T>, versions: seq<Version<T>>, versions': seq<Version<T>>,
                                     empty: T, digest: T -> string)
    requires versions <= versions' && ClientSound(i, command, phase, versions, empty, digest)
    ensures ClientSound(i, command, phase, versions', empty, digest)
  {
    match phase {
      case Ready(revision, content) => MakesIsStable(command, versions, versions', revision, content, empty);
      case Finished(revision, committed) =>
        MakesIsStable(command, versions, versions', revision, ContentAt(versions, committed, empty), empty);
      case Unheard(revision, committed) =>
        MakesIsStable(command, versions, versions', revision, ContentAt(versions, committed, empty), empty);
      case _ =>
    }
  }

  /** A commit against the head appends exactly what the command makes of the history. */
  lemma ResultAtHead<T(!new)>(command: Command<T>, versions: seq<Version<T>>, content: T, empty: T)
    requires Makes(command, versions, |versions|, content, empty)
    ensures Result(command, Contents(versions), empty) == Some(content)
  {
  }

  lemma {:induction false} CommitAppends<T(!new)>(commands: seq<Command<T>>, versions: seq<Version<T>>, v: Version<T>, empty: T)
    requires Lineage(commands, versions, empty)
    requires v.author < |commands| && Result(commands[v.author], Contents(versions), empty) == Some(v.entry.content)
    ensures Lineage(commands, versions + [v], empty)
  {
    var versions' := versions + [v];
    forall n | 0 <= n < |versions'|
      ensures Result(commands[versions'[n].author], Contents(versions')[..n], empty) == Some(versions'[n].entry.content)
    {
      if n < |versions| {
        assert Contents(versions')[..n] == Contents(versions)[..n];
      } else {
        assert Contents(versions')[..n] == Contents(versions);
      }
    }
  }

  /** What a successful compare-and-swap does to a sound store. */
  lemma {:induction false} SwapIsSound<T(!new)>(s: Store<T>, revision: nat, entry: Entry<T>, author: nat, digest: T -> string, fault: bool)
    requires StoreSound(s, digest) && Injective(digest)
    ensures var (s', result) := CompareAndSwap(s, revision, entry, author, digest, fault);
            && StoreSound(s', digest)
            && (result.Committed? ==>
                  || (s'.versions == s.versions && result.revision == revision == |s.versions| > 0
                      && s.versions[revision - 1].entry.content == entry.content)
                  || (s'.versions == s.versions + [Version(revision + 1, digest(entry.content), entry, author)]
                      && result.revision == revision + 1 && revision == |s.versions|))
  {
  }

  /** The client's commit created the revision after n, whether or not it heard so. */
  predicate CommittedAt<T>(phase: Phase<T>, n: nat) {
    (phase.Finished? || phase.Unheard?) && phase.revision == n && phase.committed == n + 1
  }

  /** A step of a client: it stays sound, and the versions change only by its own commit at the head. */
  ghost predicate SoundStep<T(!new)>(i: nat, commands: seq<Command<T>>, phase: Phase<T>, s: Store<T>, next: Phase<T>, after: Store<T>,
                                     empty: T, digest: T -> string)
    requires i < |commands|
  {
    && StoreSound(after, digest)
    && ClientSound(i, commands[i], next, after.versions, empty, digest)
    && (after.versions == s.versions ||
        (|after.versions| == |s.versions| + 1 && s.versions <= after.versions && phase.Ready?
         && CommittedAt(next, |s.versions|)
         && after.versions[|s.versions|].author == i
         && Result(commands[i], Contents(s.versions), empty) == Some(after.versions[|s.versions|].entry.content)))
    && (phase.Finished? || phase.Unheard? ==> next == phase)
  }

  /** The commit of a client. */
  lemma CommitIsSound<T(!new)>(i: nat, commands: seq<Command<T>>, phase: Phase<T>, s: Store<T>, empty: T, digest: T -> string,
                               now: int, fault: Fault)
    requires i < |commands| && StoreSound(s, digest) && Injective(digest) && phase.Ready?
    requires ClientSound(i, commands[i], phase, s.versions, empty, digest)
    ensures var (phase', s') := ClientStep(commands[i], phase, s, empty, digest, i, now, fault);
            SoundStep(i, commands, phase, s, phase', s', empty, digest)
  {
    var entry := Entry(phase.content, now);
    SwapIsSound(s, phase.revision, entry, i, digest, fault == NothingDone);
    var s' := CompareAndSwap(s, phase.revision, entry, i, digest, fault == NothingDone).0;
    if s'.versions != s.versions {
      ResultAtHead(commands[i], s.versions, phase.content, empty);
      MakesIsStable(commands[i], s.versions, s'.versions, phase.revision, phase.content, empty);
    }
  }

  lemma {:induction false} StepIsSound<T(!new)>(i: nat, commands: seq<Command<T>>, phase: Phase<T>, s: Store<T>, empty: T, digest: T -> string,
                                                now: int, fault: Fault)
    requires i < |commands| && StoreSound(s, digest) && Injective(digest)
    requires ClientSound(i, commands[i], phase, s.versions, empty, digest)
    ensures var (phase', s') := ClientStep(commands[i], phase, s, empty, digest, i, now, fault);
            && SoundStep(i, commands, phase, s, phase', s', empty, digest)
            && (phase'.Unheard? ==> phase.Unheard? || fault == ReplyLost)
  {
    if phase.Ready? {
      CommitIsSound(i, commands, phase, s, empty, digest, now, fault);
    }
  }

  ghost predicate ClientsSound<T(!new)>(commands: seq<Command<T>>, phases: seq<Phase<T>>, versions: seq<Version<T>>, empty: T, digest: T -> string)
    requires |commands| == |phases|
  {
    forall i | 0 <= i < |phases| :: ClientSound(i, commands[i], phases[i], versions, empty, digest)
  }

  ghost predicate AuthorsFinished<T(!new)>(phases: seq<Phase<T>>, versions: seq<Version<T>>) {
    forall n | 0 <= n < |versions| ::
      versions[n].author < |phases| && CommittedAt(phases[versions[n].author], n)
  }

  lemma ClientsStaySound<T(!new)>(commands: seq<Command<T>>, phases: seq<Phase<T>>, i: nat, phase: Phase<T>,
                                  versions: seq<Version<T>>, versions': seq<Version<T>>, empty: T, digest: T -> string)
    requires |commands| == |phases| && i < |phases| && versions <= versions'
    requires ClientsSound(commands, phases, versions, empty, digest)
    requires ClientSound(i, commands[i], phase, versions', empty, digest)
    ensures ClientsSound(commands, phases[i := phase], versions', empty, digest)
  {
    forall j | 0 <= j < |phases| && j != i ensures ClientSound(j, commands[j], phases[j], versions', empty, digest) {
      ClientSoundIsStable(j, commands[j], phases[j], versions, versions', empty, digest);
    }
  }

  lemma AuthorsStayFinished<T(!new)>(phases: seq<Phase<T>>, i: nat, phase: Phase<T>, versions: seq<Version<T>>, versions': seq<Version<T>>)
    requires i < |phases| && versions <= versions'
    requires AuthorsFinished(phases, versions)
    requires phases[i].Finished? || phases[i].Unheard? ==> phase == phases[i]
    requires versions' == versions || (|versions'| == |versions| + 1 && versions'[|versions|].author == i && CommittedAt(phase, |versions|))
    ensures AuthorsFinished(phases[i := phase], versions')
  {
  }

  lemma {:induction false} NextKeepsInvariant<T(!new)>(commands: seq<Command<T>>, s: System<T>, e: Event, empty: T, digest: T -> string)
    requires Invariant(commands, s, empty, digest) && Injective(digest)
    ensures var s' := Next(commands, s, e, empty, digest);
            Invariant(commands, s', empty, digest) && s.store.versions <= s'.store.versions
  {
    if e.client < |s.phases| {
      var i := e.client;
      var (phase', store') := ClientStep(commands[i], s.phases[i], s.store, empty, digest, i, e.now, e.fault);
      var versions, versions' := s.store.versions, store'.versions;
      StepIsSound(i, commands, s.phases[i], s.store, empty, digest, e.now, e.fault);
      if versions' != versions {
        assert versions' == versions + [versions'[|versions|]];
        CommitAppends(commands, versions, versions'[|versions|], empty);
      }
      ClientsStaySound(commands, s.phases, i, phase', versions, versions', empty, digest);
      AuthorsStayFinished(s.phases, i, phase', versions, versions');
    }
  }

  lemma {:induction false} InvariantAlways<T(!new)>(commands: seq<Command<T>>, s: System<T>, schedule: seq<Event>, empty: T, digest: T -> string)
    requires Invariant(commands, s, empty, digest) && Injective(digest)
    ensures var s' := Execute(commands, s, schedule, empty, digest);
            Invariant(commands, s', empty, digest) && s.store.versions <= s'.store.versions
  {
    if schedule != [] {
      var shorter := schedule[..|schedule| - 1];
      InvariantAlways(commands, s, shorter, empty, digest);
      NextKeepsInvariant(commands, Execute(commands, s, shorter, empty, digest), schedule[|schedule| - 1], empty, digest);
    }
  }

  /* ---------- main results ---------- */

  /** The history the same commands leave when they run one after the other, none disturbing another. */
  function Serial<T>(commands: seq<Command<T>>, order: seq<nat>, empty: T): Option<seq<T>>
    requires forall k | 0 <= k < |order| :: order[k] < |commands|
  {
    if order == [] then Some([])
    else
      var before := Serial(commands, order[..|order| - 1], empty);
      if before.None? then None
      else
        var next := Result(commands[order[|order| - 1]], before.value, empty);
        if next.None? then None else Some(before.value + [next.value])
  }

  function Authors<T>(versions: seq<Version<T>>): (r: seq<nat>)
    ensures |r| == |versions|
    ensures forall i | 0 <= i < |r| :: r[i] == versions[i].author
  {
    seq(|versions|, i requires 0 <= i < |versions| => versions[i].author)
  }

  lemma SerialStep<T>(commands: seq<Command<T>>, order: seq<nat>, last: nat, history: seq<T>, next: T, empty: T)
    requires forall k | 0 <= k < |order| :: order[k] < |commands|
    requires last < |commands| && Serial(commands, order, empty) == Some(history)
    requires Result(commands[last], history, empty) == Some(next)
    ensures Serial(commands, order + [last], empty) == Some(history + [next])
  {
    assert (order + [last])[..|order|] == order;
  }

  lemma LineageAt<T(!new)>(commands: seq<Command<T>>, versions: seq<Version<T>>, n: nat, empty: T)
    requires Lineage(commands, versions, empty) && n < |versions|
    ensures Authors(versions)[n] < |commands|
    ensures Result(commands[Authors(versions)[n]], Contents(versions)[..n], empty) == Some(Contents(versions)[n])
  {
  }

  lemma AuthorsAreClients<T(!new)>(commands: seq<Command<T>>, versions: seq<Version<T>>, empty: T)
    requires Lineage(commands, versions, empty)
    ensures forall k | 0 <= k < |versions| :: Authors(versions)[k] < |commands|
  {
    forall k | 0 <= k < |versions| ensures Authors(versions)[k] < |commands| {
      LineageAt(commands, versions, k, empty);
    }
  }

  lemma {:induction false} LineageIsSerial<T(!new)>(commands: seq<Command<T>>, versions: seq<Version<T>>, n: nat, empty: T)
    requires Lineage(commands, versions, empty) && n <= |versions|
    requires forall k | 0 <= k < |versions| :: Authors(versions)[k] < |commands|
    ensures Serial(commands, Authors(versions)[..n], empty) == Some(Contents(versions)[..n])
    decreases n
  {
    if n > 0 {
      var authors, contents := Authors(versions), Contents(versions);
      LineageIsSerial(commands, versions, n - 1, empty);
      LineageAt(commands, versions, n - 1, empty);
      OneMoreTaken(authors, n - 1);
      OneMoreTaken(contents, n - 1);
      SerialStep(commands, authors[..n - 1], authors[n - 1], contents[..n - 1], contents[n - 1], empty);
    }
  }

  lemma OneMoreTaken<T>(s: seq<T>, n: nat)
    requires n < |s|
    ensures s[..n] + [s[n]] == s[..n + 1]
  {
  }

  /**
   The recorded revisions are numbered 1, 2, 3, ... and hold exactly what the committing commands
   leave when they run alone, one after the other, in commit order; the current catalog is the last.
   */
  ghost predicate SerialHistory<T(!new)>(commands: seq<Command<T>>, s: Store<T>, empty: T) {
    && (forall n | 0 <= n < |s.versions| :: s.versions[n].revision == n + 1)
    && (forall k | 0 <= k < |s.versions| :: Authors(s.versions)[k] < |commands|)
    && Serial(commands, Authors(s.versions), empty) == Some(Contents(s.versions))
    && (s.versions != [] ==> s.current.Some? && s.current.value.content == s.versions[|s.versions| - 1].entry.content)
  }

  lemma InvariantIsSerial<T(!new)>(commands: seq<Command<T>>, s: System<T>, empty: T, digest: T -> string)
    requires Invariant(commands, s, empty, digest)
    ensures SerialHistory(commands, s.store, empty)
  {
    var versions := s.store.versions;
    AuthorsAreClients(commands, versions, empty);
    LineageIsSerial(commands, versions, |versions|, empty);
    assert Authors(versions)[..|versions|] == Authors(versions) && Contents(versions)[..|versions|] == Contents(versions);
  }

  /** Every interleaving is serial, and nothing recorded earlier is changed later. */
  lemma EveryInterleavingIsSerial<T(!new)>(commands: seq<Command<T>>, s: System<T>, before: seq<Event>, after: seq<Event>,
                                           empty: T, digest: T -> string)
    requires Initial(commands, s) && Injective(digest)
    ensures var s1 := Execute(commands, s, before, empty, digest);
            var s2 := Execute(commands, s1, after, empty, digest);
            s1.store.versions <= s2.store.versions && SerialHistory(commands, s2.store, empty)
  {
    InvariantAlways(commands, s, before, empty, digest);
    var s1 := Execute(commands, s, before, empty, digest);
    InvariantAlways(commands, s1, after, empty, digest);
    InvariantIsSerial(commands, Execute(commands, s1, after, empty, digest), empty, digest);
  }

  /**
   No lost update: a client that reports a commit either created a revision from exactly the content
   it had loaded, or its command leaves that content as it is and the revision stayed.  If the caller
   expected a revision, that is the one it had loaded.
   */
  lemma ReportedCommitsAreReal<T(!new)>(commands: seq<Command<T>>, s: System<T>, schedule: seq<Event>, empty: T, digest: T -> string, i: nat)
    requires Initial(commands, s) && Injective(digest) && i < |commands|
    requires Execute(commands, s, schedule, empty, digest).phases[i].Finished?
    ensures var s' := Execute(commands, s, schedule, empty, digest);
            var versions, Finished(loaded, committed) := s'.store.versions, s'.phases[i];
            && 1 <= committed <= |versions| && loaded <= committed <= loaded + 1
            && Makes(commands[i], versions, loaded, versions[committed - 1].entry.content, empty)
            && (committed == loaded + 1 ==> versions[committed - 1].author == i)
            && (committed == loaded ==> Makes(commands[i], versions, loaded, ContentAt(versions, loaded, empty), empty))
            && (commands[i].expected.Some? ==> commands[i].expected.value == loaded)
            && (forall n | 0 <= n < |versions| && versions[n].author == i :: n == loaded && n + 1 == committed)
  {
    InvariantAlways(commands, s, schedule, empty, digest);
    var s' := Execute(commands, s, schedule, empty, digest);
    assert ClientSound(i, commands[i], s'.phases[i], s'.store.versions, empty, digest);
  }

  /** A rejected client has left no revision behind, and no client leaves two. */
  lemma StoppedClientsLeaveNothing<T(!new)>(commands: seq<Command<T>>, s: System<T>, schedule: seq<Event>, empty: T, digest: T -> string, i: nat)
    requires Initial(commands, s) && Injective(digest) && i < |commands|
    ensures var s' := Execute(commands, s, schedule, empty, digest);
            forall n | 0 <= n < |s'.store.versions| ::
              s'.store.versions[n].author == i <==> CommittedAt(s'.phases[i], n)
  {
    InvariantAlways(commands, s, schedule, empty, digest);
    var s' := Execute(commands, s, schedule, empty, digest);
    assert ClientSound(i, commands[i], s'.phases[i], s'.store.versions, empty, digest);
  }

  predicate NoLostReply(schedule: seq<Event>) {
    forall e | e in schedule :: e.fault != ReplyLost
  }

  lemma {:induction false} HeardUnlessLost<T(!new)>(commands: seq<Command<T>>, s: System<T>, schedule: seq<Event>, empty: T, digest: T -> string, i: nat)
    requires Initial(commands, s) && i < |commands| && NoLostReply(schedule)
    ensures !Execute(commands, s, schedule, empty, digest).phases[i].Unheard?
  {
    if schedule != [] {
      var n := |schedule| - 1;
      assert schedule[n] in schedule;
      assert forall e | e in schedule[..n] :: e in schedule;
      HeardUnlessLost(commands, s, schedule[..n], empty, digest, i);
    }
  }

  /**
   As long as no reply of the database is lost, a client that reports a failure has left nothing: what is
   recorded was reported as committed.
   */
  lemma FailureMeansNothingCommitted<T(!new)>(commands: seq<Command<T>>, s: System<T>, schedule: seq<Event>, empty: T, digest: T -> string)
    requires Initial(commands, s) && Injective(digest) && NoLostReply(schedule)
    ensures var s' := Execute(commands, s, schedule, empty, digest);
            forall n | 0 <= n < |s'.store.versions| ::
              s'.store.versions[n].author < |commands| && s'.phases[s'.store.versions[n].author] == Finished(n, n + 1)
  {
    InvariantAlways(commands, s, schedule, empty, digest);
    var s' := Execute(commands, s, schedule, empty, digest);
    forall n | 0 <= n < |s'.store.versions|
      ensures s'.store.versions[n].author < |commands| && s'.phases[s'.store.versions[n].author] == Finished(n, n + 1)
    {
      HeardUnlessLost(commands, s, schedule, empty, digest, s'.store.versions[n].author);
    }
  }

  /** A lost reply is enough: the client reports a failure and its revision is there. */
  lemma LostReplyLeavesARevision<T>(content: T, empty: T, digest: T -> string)
    ensures var edit := Edit((c: T) => Some(content), None);
            var (phase, s) := ClientStep(edit, Ready(0, content), Store(None, None, []), empty, digest, 0, 0, ReplyLost);
            !phase.Finished? && |s.versions| == 1 && s.versions[0].author == 0
  {
  }

  /** A commit is refused as a conflict only if another one got in between: the head is no longer where it was loaded. */
  lemma ConflictsAreGenuine<T(!new)>(commands: seq<Command<T>>, s: System<T>, e: Event, empty: T, digest: T -> string)
    requires Invariant(commands, s, empty, digest) && e.client < |s.phases| && e.fault == NoFault
    requires s.phases[e.client].Ready?
    ensures Next(commands, s, e, empty, digest).phases[e.client].Stopped? <==>
              s.phases[e.client].revision < |s.store.versions|
  {
    assert ClientSound(e.client, commands[e.client], s.phases[e.client], s.store.versions, empty, digest);
  }

  /**
   A commit leaves a revision without being reported exactly if its reply is lost, nobody else committed since it
   loaded, and its content has another digest than the one at the head.
   */
  lemma UnreportedExactly<T(!new)>(commands: seq<Command<T>>, s: System<T>, e: Event, empty: T, digest: T -> string)
    requires Invariant(commands, s, empty, digest) && e.client < |s.phases| && s.phases[e.client].Ready?
    ensures var s', phase, versions := Next(commands, s, e, empty, digest), s.phases[e.client], s.store.versions;
            (!s'.phases[e.client].Finished? && s'.store.versions != versions) <==>
            && e.fault == ReplyLost && phase.revision == |versions|
            && (versions != [] ==> versions[|versions| - 1].digest != digest(phase.content))
  {
    assert ClientSound(e.client, commands[e.client], s.phases[e.client], s.store.versions, empty, digest);
    var s' := Next(commands, s, e, empty, digest);
    assert |s'.store.versions| == |s.store.versions| ==> s'.store.versions == s.store.versions;
  }

  /* ---------- one client alone ---------- */

  /** The three steps of a client that nothing disturbs. */
  function Alone<T>(command: Command<T>, s: Store<T>, empty: T, digest: T -> string, author: nat, now: int): (Phase<T>, Store<T>) {
    var (loaded, s1) := ClientStep(command, Start, s, empty, digest, author, now, NoFault);
    var (ready, s2) := ClientStep(command, loaded, s1, empty, digest, author, now, NoFault);
    ClientStep(command, ready, s2, empty, digest, author, now, NoFault)
  }

  /** A revision was appended with this content, under the next number, and it is the current one. */
  ghost predicate Appends<T(!new)>(s: Store<T>, after: Store<T>, content: T, author: nat, now: int) {
    && |after.versions| == |s.versions| + 1 && after.versions[..|s.versions|] == s.versions
    && after.versions[|s.versions|].revision == |s.versions| + 1
    && after.versions[|s.versions|].entry == Entry(content, now) && after.versions[|s.versions|].author == author
    && after.current == Some(Entry(content, now))
  }

  /** No revision was expected, or the newest. */
  predicate Fits<T>(expected: Option<int>, versions: seq<Version<T>>) {
    expected.None? || expected.value == |versions|
  }

  /**
   A rollback on its own appends the content of the revision it names and reports that, if and only if that revision
   is recorded and differs in content from the newest.  It is refused as not found exactly if it is not recorded, as
   equal exactly if it does not differ, and then nothing changes.
   */
  lemma LoneRollbackExactly<T(!new)>(s: Store<T>, source: nat, expected: Option<int>, empty: T, digest: T -> string, author: nat, now: int)
    requires StoreSound(s, digest) && Injective(digest) && Fits(expected, s.versions)
    ensures var (phase, after), n := Alone(Rollback(source, expected), s, empty, digest, author, now), |s.versions|;
            var recorded := 1 <= source <= n;
            && (phase == Finished(n, n + 1) <==>
                  recorded && s.versions[source - 1].entry.content != s.versions[n - 1].entry.content)
            && (phase == Finished(n, n + 1) ==> Appends(s, after, s.versions[source - 1].entry.content, author, now))
            && (phase == Stopped(NotFound) <==> !recorded)
            && (phase == Stopped(AlreadyEqual) <==>
                  recorded && s.versions[source - 1].entry.content == s.versions[n - 1].entry.content)
            && (!phase.Finished? ==> after == s)
  {
    if 1 <= source <= |s.versions| {
      var newest := s.versions[|s.versions| - 1];
      assert s.versions[source - 1].digest == newest.digest <==> s.versions[source - 1].entry.content == newest.entry.content;
    }
  }

  /**
   An edit on its own that the validation refuses changes nothing.  One that it accepts is reported, and appends its
   content exactly if that differs from the newest revision's or there is none.
   */
  lemma LoneEditExactly<T(!new)>(s: Store<T>, edit: T -> Option<T>, expected: Option<int>, empty: T, digest: T -> string, author: nat, now: int)
    requires StoreSound(s, digest) && Injective(digest) && Fits(expected, s.versions)
    ensures var (phase, after), n := Alone(Edit(edit, expected), s, empty, digest, author, now), |s.versions|;
            var edited := edit(if n == 0 then empty else s.versions[n - 1].entry.content);
            && (edited.None? ==> phase == Stopped(Invalid) && after == s)
            && (edited.Some? && n > 0 && edited.value == s.versions[n - 1].entry.content ==>
                  phase == Finished(n, n) && after.versions == s.versions)
            && (edited.Some? && (n == 0 || edited.value != s.versions[n - 1].entry.content) ==>
                  phase == Finished(n, n + 1) && Appends(s, after, edited.value, author, now))
  {
    var n := |s.versions|;
    var edited := edit(if n == 0 then empty else s.versions[n - 1].entry.content);
    if n > 0 && edited.Some? {
      assert digest(edited.value) == s.versions[n - 1].digest <==> edited.value == s.versions[n - 1].entry.content;
    }
  }

  /** Neither does anything if its caller expected another revision than the newest. */
  lemma UnexpectedIsRefused<T(!new)>(command: Command<T>, s: Store<T>, empty: T, digest: T -> string, author: nat, now: int)
    requires StoreSound(s, digest) && !Fits(command.expected, s.versions)
    ensures Alone(command, s, empty, digest, author, now) == (Stopped(Conflict(command.expected.value, |s.versions|)), s)
  {
  }

  /* ---------- the digests decide ---------- */

  /** The history is serial after every schedule of any clients. */
  ghost predicate AlwaysSerial<T(!new)>(empty: T, digest: T -> string) {
    forall commands: seq<Command<T>>, s: System<T>, schedule: seq<Event> | Initial(commands, s) ::
      SerialHistory(commands, Execute(commands, s, schedule, empty, digest).store, empty)
  }

  lemma ExecuteOne<T>(commands: seq<Command<T>>, s: System<T>, schedule: seq<Event>, e: Event, empty: T, digest: T -> string)
    requires |commands| == |s.phases|
    ensures Execute(commands, s, schedule + [e], empty, digest) ==
            Next(commands, Execute(commands, s, schedule, empty, digest), e, empty, digest)
  {
    assert (schedule + [e])[..|schedule|] == schedule;
  }

  /** The three steps of one client of two, after whatever happened before. */
  lemma OneClientRuns<T>(commands: seq<Command<T>>, s: System<T>, schedule: seq<Event>, i: nat, empty: T, digest: T -> string)
    requires |commands| == |s.phases| && i < |commands|
    ensures var e := Event(i, 0, NoFault);
            Execute(commands, s, schedule + [e] + [e] + [e], empty, digest) ==
            Next(commands, Next(commands, Next(commands, Execute(commands, s, schedule, empty, digest), e, empty, digest),
                                e, empty, digest), e, empty, digest)
  {
    var e := Event(i, 0, NoFault);
    ExecuteOne(commands, s, schedule, e, empty, digest);
    ExecuteOne(commands, s, schedule + [e], e, empty, digest);
    ExecuteOne(commands, s, schedule + [e] + [e], e, empty, digest);
  }

  /** The edit that replaces whatever is there. */
  function Always<T>(content: T): T -> Option<T> {
    c => Some(content)
  }

  /** Such an edit, run alone: load, compute, commit at the head. */
  lemma ConstantEditCommits<T>(commands: seq<Command<T>>, s: System<T>, i: nat, content: T, empty: T, digest: T -> string)
    requires |commands| == |s.phases| && i < |commands| && s.phases[i] == Start
    requires commands[i] == Edit(Always(content), None)
    requires s.store.head.Some? ==> s.store.current.Some? && s.store.head.value.revision > 0
    ensures var e, revision := Event(i, 0, NoFault), if s.store.head.None? then 0 else s.store.head.value.revision;
            Next(commands, Next(commands, Next(commands, s, e, empty, digest), e, empty, digest), e, empty, digest).store ==
            CompareAndSwap(s.store, revision, Entry(content, 0), i, digest, false).0
  {
    var e := Event(i, 0, NoFault);
    var s1 := Next(commands, s, e, empty, digest);
    var s2 := Next(commands, s1, e, empty, digest);
    assert s1.phases[i].Loaded? && s1.store == s.store;
    assert s2.phases[i] == Ready(s1.phases[i].revision, content) && s2.store == s.store;
  }

  lemma OthersStand<T>(commands: seq<Command<T>>, s: System<T>, e: Event, empty: T, digest: T -> string, j: nat)
    requires |commands| == |s.phases| && j < |commands| && j != e.client
    ensures Next(commands, s, e, empty, digest).phases[j] == s.phases[j]
  {
  }

  /** After the first edit, the second one's commit is reported but swallowed. */
  lemma SecondIsSwallowed<T(!new)>(commands: seq<Command<T>>, s: Store<T>, a: T, b: T, empty: T, digest: T -> string)
    requires a != b && digest(a) == digest(b)
    requires s == CompareAndSwap(Store(None, None, []), 0, Entry(a, 0), 0, digest, false).0
    ensures !SerialHistory(commands, CompareAndSwap(s, 1, Entry(b, 0), 1, digest, false).0, empty)
  {
    var swallowed := CompareAndSwap(s, 1, Entry(b, 0), 1, digest, false).0;
    assert swallowed.current == Some(Entry(b, 0)) && swallowed.versions == [Version(1, digest(a), Entry(a, 0), 0)];
  }

  /** Six events of two clients, one after the other. */
  lemma TwoClientsRun<T(!new)>(commands: seq<Command<T>>, s: System<T>, a: T, b: T, empty: T, digest: T -> string)
    returns (schedule: seq<Event>)
    requires |commands| == 2 && commands[0] == Edit(Always(a), None) && commands[1] == Edit(Always(b), None)
    requires Initial(commands, s)
    ensures Execute(commands, s, schedule, empty, digest).store ==
            CompareAndSwap(CompareAndSwap(s.store, 0, Entry(a, 0), 0, digest, false).0, 1, Entry(b, 0), 1, digest, false).0
  {
    var first, second := Event(0, 0, NoFault), Event(1, 0, NoFault);
    var half := [] + [first] + [first] + [first];
    schedule := half + [second] + [second] + [second];
    var s1 := Next(commands, s, first, empty, digest);
    var s2 := Next(commands, s1, first, empty, digest);
    var s3 := Next(commands, s2, first, empty, digest);
    OneClientRuns(commands, s, [], 0, empty, digest);
    OneClientRuns(commands, s, half, 1, empty, digest);
    ConstantEditCommits(commands, s, 0, a, empty, digest);
    OthersStand(commands, s, first, empty, digest, 1);
    OthersStand(commands, s1, first, empty, digest, 1);
    OthersStand(commands, s2, first, empty, digest, 1);
    assert Execute(commands, s, half, empty, digest) == s3;
    ConstantEditCommits(commands, s3, 1, b, empty, digest);
  }

  /** Two edits to contents with the same digest are enough to break it. */
  lemma CollisionSwallowsAnEdit<T(!new)>(a: T, b: T, empty: T, digest: T -> string)
    requires a != b && digest(a) == digest(b)
    ensures !AlwaysSerial(empty, digest)
  {
    var commands: seq<Command<T>> := [Edit(Always(a), None), Edit(Always(b), None)];
    var s: System<T> := System(Store(None, None, []), [Start, Start]);
    assert Initial(commands, s);
    var schedule := TwoClientsRun(commands, s, a, b, empty, digest);
    SecondIsSwallowed(commands, CompareAndSwap(s.store, 0, Entry(a, 0), 0, digest, false).0, a, b, empty, digest);
  }

  /** Every interleaving of any clients is serial if and only if no two contents have the same digest. */
  lemma SerialExactlyWhenDigestsDiffer<T(!new)>(empty: T, digest: T -> string)
    ensures AlwaysSerial(empty, digest) <==> Injective(digest)
  {
    if Injective(digest) {
      forall commands: seq<Command<T>>, s: System<T>, schedule: seq<Event> | Initial(commands, s)
        ensures SerialHistory(commands, Execute(commands, s, schedule, empty, digest).store, empty)
      {
        InvariantAlways(commands, s, schedule, empty, digest);
        InvariantIsSerial(commands, Execute(commands, s, schedule, empty, digest), empty, digest);
      }
    } else {
      var a, b :| digest(a) == digest(b) && a != b;
      CollisionSwallowsAnEdit(a, b, empty, digest);
    }
  }
}
