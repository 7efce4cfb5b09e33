/**
 What the registry holds, told by the mutations that reached it: which servers there
 are after any run, and which mutation each of their fields comes from.
 */
module RegistryLog {
  import opened Prelude
  import opened Registry

  // ---------------------------------------------------------------- what a list of mutations says

  function GivenEnvironment(op: Mutation): Option<map<string, string>> {
    match op
    case Create(_, server) => Some(server.environment)
    case Update(_, environment, _, _, _) => environment
    case Delete(_) => None
  }

  function GivenSecrets(op: Mutation): Option<map<string, string>> {
    match op
    case Create(_, server) => Some(server.secretEnvironment)
    case Update(_, _, secretEnvironment, _, _) => secretEnvironment
    case Delete(_) => None
  }

  function GivenEnabled(op: Mutation): Option<bool> {
    match op
    case Create(_, server) => Some(server.enabled)
    case Update(_, _, _, enabled, _) => enabled
    case Delete(_) => None
  }

  function GivenTime(op: Mutation): Option<nat> {
    match op
    case Create(_, server) => Some(server.updatedAt)
    case Update(_, _, _, _, now) => Some(now)
    case Delete(_) => None
  }

  /** Package path, digest and creator. */
  datatype Origin = Origin(packagePath: string, packageDigest: string, createdBy: string)

  function GivenOrigin(op: Mutation): Option<Origin> {
    if op.Create? then Some(Origin(op.server.packagePath, op.server.packageDigest, op.server.createdBy)) else None
  }

  function OriginOf(s: Server): Origin {
    Origin(s.packagePath, s.packageDigest, s.createdBy)
  }

  /** The last mutation of `id` is not a delete; without any, the start held it. */
  ghost predicate Holds(start: Document, log: seq<Mutation>, id: Id) {
    if forall n :: 0 <= n < |log| ==> log[n].id != id then id in start.servers
    else exists j :: IsLatest(log, id, j) && !log[j].Delete?
  }

  ghost predicate IsLatest(log: seq<Mutation>, id: Id, j: int) {
    0 <= j < |log| && log[j].id == id && forall n :: j < n < |log| ==> log[n].id != id
  }

  /** Mutation `j` gives the value, and none of `id` after it does. */
  ghost predicate GivesLast<T(!new)>(log: seq<Mutation>, id: Id, given: Mutation -> Option<T>, j: int) {
    && 0 <= j < |log| && log[j].id == id && given(log[j]).Some?
    && forall n :: j < n < |log| && log[n].id == id ==> given(log[n]).None?
  }

  /** The value comes from the last mutation of `id` that gave one; without any, from the start. */
  ghost predicate ComesFrom<T(!new)>(start: Option<T>, log: seq<Mutation>, id: Id, given: Mutation -> Option<T>, v: T) {
    || (exists j :: GivesLast(log, id, given, j) && given(log[j]) == Some(v))
    || ((forall n :: 0 <= n < |log| && log[n].id == id ==> given(log[n]).None?) && start == Some(v))
  }

  ghost predicate ServerComesFrom(start: Document, log: seq<Mutation>, id: Id, s: Server) {
    var was := if id in start.servers then Some(start.servers[id]) else None;
    && ComesFrom(if was.Some? then Some(was.value.environment) else None, log, id, GivenEnvironment, s.environment)
    && ComesFrom(if was.Some? then Some(was.value.secretEnvironment) else None, log, id, GivenSecrets, s.secretEnvironment)
    && ComesFrom(if was.Some? then Some(was.value.enabled) else None, log, id, GivenEnabled, s.enabled)
    && ComesFrom(if was.Some? then Some(was.value.updatedAt) else None, log, id, GivenTime, s.updatedAt)
    && ComesFrom(if was.Some? then Some(OriginOf(was.value)) else None, log, id, GivenOrigin, OriginOf(s))
  }

  /** `doc` holds exactly the servers that `log` leaves of `start`, each field from where
      it was last given, and one revision for every mutation. */
  ghost predicate Describes(start: Document, log: seq<Mutation>, doc: Document) {
    && doc.revision == start.revision + |log|
    && (forall id :: id in doc.servers <==> Holds(start, log, id))
    && (forall id :: id in doc.servers ==> ServerComesFrom(start, log, id, doc.servers[id]))
  }

  // ---------------------------------------------------------------- one more mutation

  lemma {:induction false} HoldsStep(start: Document, log: seq<Mutation>, op: Mutation, id: Id)
    ensures Holds(start, log + [op], id) <==> if op.id == id then !op.Delete? else Holds(start, log, id)
  {
    var all := log + [op];
    assert all[|log|] == op && forall n :: 0 <= n < |log| ==> all[n] == log[n];
    if op.id == id {
      assert IsLatest(all, id, |log|);
      assert forall j :: IsLatest(all, id, j) ==> j == |log|;
    } else {
      assert forall j :: IsLatest(all, id, j) <==> IsLatest(log, id, j);
    }
  }

  lemma {:induction false} ComesFromStep<T(!new)>(start: Option<T>, log: seq<Mutation>, id: Id, given: Mutation -> Option<T>, v: T, op: Mutation)
    ensures ComesFrom(start, log + [op], id, given, v) <==>
      if op.id == id && given(op).Some? then given(op) == Some(v) else ComesFrom(start, log, id, given, v)
  {
    var all := log + [op];
    assert all[|log|] == op && forall n :: 0 <= n < |log| ==> all[n] == log[n];
    if op.id == id && given(op).Some? {
      assert GivesLast(all, id, given, |log|);
      assert forall j :: GivesLast(all, id, given, j) ==> j == |log|;
    } else {
      assert forall j :: GivesLast(all, id, given, j) <==> GivesLast(log, id, given, j);
      assert (forall n :: 0 <= n < |all| && all[n].id == id ==> given(all[n]).None?) <==>
             (forall n :: 0 <= n < |log| && log[n].id == id ==> given(log[n]).None?);
    }
  }

  lemma {:induction false} ServerStep(start: Document, log: seq<Mutation>, op: Mutation, id: Id, s: Server, s': Server)
    requires op.id != id || !op.Create? ==> ServerComesFrom(start, log, id, s)
    requires op.id != id ==> s' == s
    requires op.id == id && op.Create? ==> s' == op.server
    requires op.id == id && op.Update? ==>
      && s'.environment == Pick(op.environment, s.environment) && s'.secretEnvironment == Pick(op.secretEnvironment, s.secretEnvironment)
      && s'.enabled == Pick(op.enabled, s.enabled) && s'.updatedAt == op.now && OriginOf(s') == OriginOf(s)
    requires op.id == id ==> !op.Delete?
    ensures ServerComesFrom(start, log + [op], id, s')
  {
    var was := if id in start.servers then Some(start.servers[id]) else None;
    ComesFromStep(if was.Some? then Some(was.value.environment) else None, log, id, GivenEnvironment, s'.environment, op);
    ComesFromStep(if was.Some? then Some(was.value.secretEnvironment) else None, log, id, GivenSecrets, s'.secretEnvironment, op);
    ComesFromStep(if was.Some? then Some(was.value.enabled) else None, log, id, GivenEnabled, s'.enabled, op);
    ComesFromStep(if was.Some? then Some(was.value.updatedAt) else None, log, id, GivenTime, s'.updatedAt, op);
    ComesFromStep(if was.Some? then Some(OriginOf(was.value)) else None, log, id, GivenOrigin, OriginOf(s'), op);
  }

  lemma {:induction false} MutatedServer(start: Document, log: seq<Mutation>, doc: Document, op: Mutation, id: Id)
    requires Describes(start, log, doc) && Accepted(doc, op) && id in Mutated(doc, op).servers
    ensures ServerComesFrom(start, log + [op], id, Mutated(doc, op).servers[id])
  {
    var s' := Mutated(doc, op).servers[id];
    ServerStep(start, log, op, id, if id in doc.servers then doc.servers[id] else s', s');
  }

  lemma {:induction false} DescribesStep(start: Document, log: seq<Mutation>, doc: Document, op: Mutation)
    requires Describes(start, log, doc) && Accepted(doc, op)
    ensures Describes(start, log + [op], Mutated(doc, op))
  {
    var doc' := Mutated(doc, op);
    forall id ensures id in doc'.servers <==> Holds(start, log + [op], id) {
      HoldsStep(start, log, op, id);
    }
    forall id | id in doc'.servers ensures ServerComesFrom(start, log + [op], id, doc'.servers[id]) {
      MutatedServer(start, log, doc, op, id);
    }
  }

  lemma {:induction false} DescribesStart(start: Document)
    ensures Describes(start, [], start)
  {
  }

  // ---------------------------------------------------------------- runs

  /** The mutations behind the document on disk, behind the one that is cached, and behind
      each file that an unsynced replacement put aside. */
  datatype Logs = Logs(disk: seq<Mutation>, cache: seq<Mutation>, undone: seq<seq<Mutation>>)

  /** A mutation that got through the first `steps` steps of its write. A failed one on a
      cached document stays in the cache, and reaches the disk with the next replacement. */
  function WrittenLogs(n: Node, l: Logs, op: Mutation, steps: nat, keepsCache: bool): Logs {
    if !Writes(n, op) then l
    else
      var working := (if n.document.Some? then l.cache else l.disk) + [op];
      var reached := steps > ReplaceStep;
      var disk := if reached then working else l.disk;
      Logs(disk,
           if keepsCache then working else disk,
           if !reached then l.undone else if steps >= WriteSteps then [] else l.undone + [l.disk])
  }

  /** The log behind the file that comes back after a power loss. */
  function LogOf(undo: seq<Option<File>>, undone: seq<seq<Mutation>>, f: Option<File>, otherwise: seq<Mutation>): seq<Mutation>
    decreases |undo|
  {
    if undo == [] || undone == [] then otherwise
    else if undo[0] == f then undone[0]
    else LogOf(undo[1..], undone[1..], f, otherwise)
  }

  function NextLogs(n: Node, e: Event, l: Logs): Logs {
    match e
    case Mutate(op, failAt) => WrittenLogs(n, l, op, failAt, n.document.Some? || failAt >= WriteSteps)
    case Reload => l.(cache := l.disk)
    case Read => if n.document.None? then l.(cache := l.disk) else l
    case Kill(op, atStep) => var w := WrittenLogs(n, l, op, atStep, false); w.(cache := w.disk)
    case LosePower(d) =>
      var disk := if d.primary == n.dir.primary then l.disk else LogOf(n.dir.undo, l.undone, d.primary, l.disk);
      Logs(disk, disk, [])
  }

  ghost function LogsAt(events: seq<Event>, nodes: seq<Node>, k: nat): Logs
    requires k <= |events| && |events| < |nodes|
    decreases k
  {
    if k == 0 then Logs([], [], []) else NextLogs(nodes[k - 1], events[k - 1], LogsAt(events, nodes, k - 1))
  }

  /** Every document that the process holds, or that may come back, is described by its log. */
  ghost predicate Logged(start: Document, n: Node, l: Logs) {
    && Sound(n.dir)
    && Describes(start, l.disk, DocOf(n.dir.primary))
    && (n.document.Some? ==> Describes(start, l.cache, n.document.value))
    && |l.undone| == |n.dir.undo|
    && forall i :: 0 <= i < |n.dir.undo| ==> Describes(start, l.undone[i], DocOf(n.dir.undo[i]))
  }

  lemma {:induction false} LogOfDescribes(start: Document, undo: seq<Option<File>>, undone: seq<seq<Mutation>>, f: Option<File>, otherwise: seq<Mutation>)
    requires |undone| == |undo| && f in undo && (forall x :: x in undo ==> Whole(x))
    requires forall i :: 0 <= i < |undo| ==> Describes(start, undone[i], DocOf(undo[i]))
    ensures Describes(start, LogOf(undo, undone, f, otherwise), DocOf(f))
    decreases |undo|
  {
    if undo[0] != f {
      assert f in undo[1..];
      forall i | 0 <= i < |undo[1..]| ensures Describes(start, undone[1..][i], DocOf(undo[1..][i])) {
        assert undone[1..][i] == undone[i + 1] && undo[1..][i] == undo[i + 1];
      }
      LogOfDescribes(start, undo[1..], undone[1..], f, otherwise);
    }
  }

  /** What a write that stops after some of its steps does to the files that count. */
  lemma {:induction false} WrittenFiles(d: Dir, doc: Document, steps: nat)
    requires Sound(d) && steps <= WriteSteps
    ensures
      var e := After(d, doc, steps);
      && Sound(e)
      && (steps <= ReplaceStep ==> e.primary == d.primary && e.undo == d.undo)
      && (steps > ReplaceStep ==> e.primary == Some(File(Text(doc), true)))
      && (steps > ReplaceStep ==> e.undo == if steps >= WriteSteps then [] else d.undo + [d.primary])
  {
    CrashLeavesOldOrNew(d, doc, steps);
    WritePrefix(d, doc, steps);
  }

  lemma {:induction false} PushedAside(start: Document, undone: seq<seq<Mutation>>, undo: seq<Option<File>>, log: seq<Mutation>, f: Option<File>)
    requires |undone| == |undo| && (forall x :: x in undo ==> Whole(x)) && Whole(f) && Describes(start, log, DocOf(f))
    requires forall i :: 0 <= i < |undo| ==> Describes(start, undone[i], DocOf(undo[i]))
    ensures forall i :: 0 <= i < |undo + [f]| ==> Whole((undo + [f])[i]) && Describes(start, (undone + [log])[i], DocOf((undo + [f])[i]))
  {
  }

  /** A write that stops after some of its steps. */
  lemma {:induction false} WriteKeepsLogged(start: Document, n: Node, l: Logs, op: Mutation, steps: nat, n': Node, keepsCache: bool)
    requires Logged(start, n, l) && Writes(n, op) && steps <= WriteSteps
    requires n'.dir == Unlinked(After(n.dir, Mutated(Current(n).doc, op), steps)) || n'.dir == After(n.dir, Mutated(Current(n).doc, op), steps)
    requires n'.document == if keepsCache then Some(Mutated(Current(n).doc, op)) else None
    ensures Logged(start, n', WrittenLogs(n, l, op, steps, keepsCache))
  {
    var doc := Mutated(Current(n).doc, op);
    var working := if n.document.Some? then l.cache else l.disk;
    WrittenFiles(n.dir, doc, steps);
    DescribesStep(start, working, Current(n).doc, op);
    PushedAside(start, l.undone, n.dir.undo, l.disk, n.dir.primary);
    var e := After(n.dir, doc, steps);
    assert Sound(n'.dir) && n'.dir.primary == e.primary && n'.dir.undo == e.undo;
  }

  lemma {:induction false} StepKeepsLogged(start: Document, n: Node, e: Event, n': Node, l: Logs)
    requires Logged(start, n, l) && Step(n, e, n')
    ensures Logged(start, n', NextLogs(n, e, l))
  {
    match e
    case Mutate(op, failAt) => MutateKeepsLogged(start, n, op, failAt, n', l);
    case Reload =>
    case Read =>
    case Kill(op, atStep) => KillKeepsLogged(start, n, op, atStep, n', l);
    case LosePower(d) => PowerKeepsLogged(start, n, d, n', l);
  }

  lemma {:induction false} MutateKeepsLogged(start: Document, n: Node, op: Mutation, failAt: nat, n': Node, l: Logs)
    requires Logged(start, n, l) && Step(n, Mutate(op, failAt), n')
    ensures Logged(start, n', NextLogs(n, Mutate(op, failAt), l))
  {
    if Writes(n, op) {
      var steps := if failAt < WriteSteps then failAt else WriteSteps;
      WriteKeepsLogged(start, n, l, op, steps, n', n.document.Some? || failAt >= WriteSteps);
    }
  }

  lemma {:induction false} KillKeepsLogged(start: Document, n: Node, op: Mutation, atStep: nat, n': Node, l: Logs)
    requires Logged(start, n, l) && Step(n, Kill(op, atStep), n')
    ensures Logged(start, n', NextLogs(n, Kill(op, atStep), l))
  {
    if Writes(n, op) {
      WriteKeepsLogged(start, n, l, op, atStep, n', false);
    }
  }

  lemma {:induction false} PowerKeepsLogged(start: Document, n: Node, d: Dir, n': Node, l: Logs)
    requires Logged(start, n, l) && Step(n, LosePower(d), n')
    ensures Logged(start, n', NextLogs(n, LosePower(d), l))
  {
    if d.primary != n.dir.primary {
      LogOfDescribes(start, n.dir.undo, l.undone, d.primary, l.disk);
    }
  }

  /** In every state of every run of a process that starts on a synced directory without a
      cache: a fresh load and the cache hold exactly the servers that the mutations behind
      them leave, every field from the last mutation that gave it. */
  lemma {:induction false} RegistryHoldsLog(start: Node, events: seq<Event>, nodes: seq<Node>, k: nat)
    requires IsRun(start, events, nodes) && start.document.None? && start.dir.undo == [] && k < |nodes|
    ensures
      var l, doc := LogsAt(events, nodes, k), DocOf(start.dir.primary);
      && Logged(doc, nodes[k], l)
      && Load(nodes[k].dir).Loaded? && Describes(doc, l.disk, Load(nodes[k].dir).doc)
      && (nodes[k].document.Some? ==> Describes(doc, l.cache, nodes[k].document.value))
    decreases k
  {
    if k == 0 {
      DescribesStart(DocOf(start.dir.primary));
    } else {
      RegistryHoldsLog(start, events, nodes, k - 1);
      StepKeepsLogged(DocOf(start.dir.primary), nodes[k - 1], events[k - 1], nodes[k], LogsAt(events, nodes, k - 1));
    }
  }

  // ---------------------------------------------------------------- one operation

  /** What an operation that returns leaves on disk and in the cache. */
  lemma {:induction false} OperationLeaves(n: Node, op: Mutation, failAt: nat)
    requires Sound(n.dir) && Writes(n, op) && failAt >= WriteSteps
    ensures
      var before, n' := Current(n).doc, Applied(n, op, failAt);
      var after := Load(n'.dir);
      && after.Loaded? && n'.document == Some(after.doc) && after.doc.revision == before.revision + 1
      && (forall id :: id != op.id ==> (id in after.doc.servers <==> id in before.servers))
      && (forall id :: id != op.id && id in before.servers ==> after.doc.servers[id] == before.servers[id])
      && match op
         case Create(id, server) => id in after.doc.servers && after.doc.servers[id] == server
         case Delete(id) => id !in after.doc.servers
         case Update(id, environment, secrets, enabled, now) =>
           && id in after.doc.servers
           && var was, is_ := before.servers[id], after.doc.servers[id];
           && OriginOf(is_) == OriginOf(was) && is_.updatedAt == now
           && (environment.Some? ==> is_.environment == environment.value) && (environment.None? ==> is_.environment == was.environment)
           && (secrets.Some? ==> is_.secretEnvironment == secrets.value) && (secrets.None? ==> is_.secretEnvironment == was.secretEnvironment)
           && (enabled.Some? ==> is_.enabled == enabled.value) && (enabled.None? ==> is_.enabled == was.enabled)
  {
    CacheIsDiskAfterSuccess(n, op, failAt);
  }

  /** Which operations are refused: creating a server that is there, updating or deleting
      one that is not. A refused operation changes nothing. */
  lemma {:induction false} RefusedIff(n: Node, op: Mutation, failAt: nat)
    requires Sound(n.dir)
    ensures Writes(n, op) <==> Current(n).Loaded? && (op.Create? <==> op.id !in Current(n).doc.servers)
    ensures !Writes(n, op) ==> Applied(n, op, failAt) == n
  {
  }
}
