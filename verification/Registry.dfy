/**
 The JSON registry of managed servers: an in-memory document, a primary file, a
 backup file, and a write that goes through a temporary file.
 */
module Registry {
  import opened Prelude

  datatype Server = Server(packagePath: string, packageDigest: string, environment: map<string, string>,
                           secretEnvironment: map<string, string>, enabled: bool, createdBy: string, updatedAt: nat)

  datatype Document = Document(revision: nat, servers: map<Id, Server>)

  const EmptyDocument := Document(0, map[])

  // ---------------------------------------------------------------- files

  /** A complete serialisation of a document, or anything that does not parse. */
  datatype Content = Text(doc: Document) | Garbled

  /** `synced`: the content has reached the disk. */
  datatype File = File(content: Content, synced: bool)

  /** The registry directory. `undo` lists what `primary` was before each replacement
      that the directory has not been synced for. */
  datatype Dir = Dir(primary: Option<File>, backup: Option<File>, temp: Option<File>, undo: seq<Option<File>>)

  datatype LoadResult = Loaded(doc: Document) | RegistryError

  /** `_load_from_disk` */
  function Load(d: Dir): LoadResult {
    match d.primary
    case None => Loaded(EmptyDocument)
    case Some(File(Text(doc), _)) => Loaded(doc)
    case Some(File(Garbled, _)) =>
      if d.backup.Some? && d.backup.value.content.Text? then Loaded(d.backup.value.content.doc) else RegistryError
  }

  /** The steps of `_write`: make the temporary file, fill it, sync it, open the
      backup for writing, copy the primary into it, replace, sync the directory. */
  const WriteSteps := 7
  const ReplaceStep := 5

  function WriteStep(d: Dir, doc: Document, k: nat): Dir {
    match k
    case 0 => d.(temp := Some(File(Garbled, false)))
    case 1 => d.(temp := Some(File(Text(doc), false)))
    case 2 => d.(temp := Some(File(Text(doc), true)))
    case 3 => if d.primary.Some? then d.(backup := Some(File(Garbled, false))) else d
    case 4 => if d.primary.Some? then d.(backup := Some(File(d.primary.value.content, false))) else d
    case 5 => d.(primary := d.temp, temp := None, undo := d.undo + [d.primary])
    case _ => d.(undo := [])
  }

  /** The directory after the first `n` steps. */
  function After(d: Dir, doc: Document, n: nat): Dir {
    if n == 0 then d else WriteStep(After(d, doc, n - 1), doc, n - 1)
  }

  /** `temporary.unlink(missing_ok=True)` */
  function Unlinked(d: Dir): Dir {
    d.(temp := None)
  }

  // ---------------------------------------------------------------- losing power

  /** An unsynced file may come back as anything, or not at all. */
  ghost predicate FileSurvives(f: Option<File>, f': Option<File>) {
    f.Some? && f.value.synced ==> f' == f
  }

  /** Losing power: any replacement not synced may be undone, unsynced content may
      be lost, and what comes back is on disk. */
  ghost predicate PowerLoss(d: Dir, d': Dir) {
    && (d'.primary == d.primary || d'.primary in d.undo || (d.primary.Some? && !d.primary.value.synced))
    && FileSurvives(d.backup, d'.backup)
    && d'.undo == []
  }

  /** Where the registry is sound: the primary, and whatever it may fall back to, is
      absent or a complete document that has reached the disk. */
  predicate Whole(f: Option<File>) {
    f.None? || (f.value.content.Text? && f.value.synced)
  }

  ghost predicate Sound(d: Dir) {
    Whole(d.primary) && forall f :: f in d.undo ==> Whole(f)
  }

  function DocOf(f: Option<File>): Document
    requires Whole(f)
  {
    if f.None? then EmptyDocument else f.value.content.doc
  }

  // ---------------------------------------------------------------- crash safety

  /** Every prefix of a write, in closed form. */
  lemma {:induction false} WritePrefix(d: Dir, doc: Document, n: nat)
    requires n <= WriteSteps
    ensures
      var e := After(d, doc, n);
      && (n <= ReplaceStep ==> e.primary == d.primary && e.undo == d.undo)
      && (n > ReplaceStep ==> e.primary == Some(File(Text(doc), true)))
      && (n == ReplaceStep + 1 ==> e.undo == d.undo + [d.primary])
      && (n == WriteSteps ==> e.undo == [])
      && (2 < n <= ReplaceStep ==> e.temp == Some(File(Text(doc), true)))
      && (n <= 3 || d.primary.None? ==> e.backup == d.backup)
      && (n == 4 && d.primary.Some? ==> e.backup == Some(File(Garbled, false)))
      && (n > 4 && d.primary.Some? ==> e.backup == Some(File(d.primary.value.content, false)))
    decreases n
  {
    if n > 0 {
      WritePrefix(d, doc, n - 1);
    }
  }

  /** The process may die after any step of a write: a fresh load then never fails
      and returns exactly the old document before the replacement, exactly the new
      one after it. */
  lemma {:induction false} CrashLeavesOldOrNew(d: Dir, doc: Document, n: nat)
    requires Sound(d) && n <= WriteSteps
    ensures Sound(After(d, doc, n))
    ensures Load(After(d, doc, n)) == if n <= ReplaceStep then Load(d) else Loaded(doc)
  {
    WritePrefix(d, doc, n);
  }

  /** Power may fail after any step of a write that began with a synced directory:
      again a fresh load returns exactly the old or the new document, and the new one
      once the write has completed. */
  lemma {:induction false} PowerLossLeavesOldOrNew(d: Dir, doc: Document, n: nat, d': Dir)
    requires Sound(d) && d.undo == [] && n <= WriteSteps && PowerLoss(After(d, doc, n), d')
    ensures Sound(d')
    ensures Load(d') == Load(d) || Load(d') == Loaded(doc)
    ensures n <= ReplaceStep ==> Load(d') == Load(d)
    ensures n == WriteSteps ==> Load(d') == Loaded(doc)
  {
    WritePrefix(d, doc, n);
  }

  /** Exactly what power loss can bring back in a sound directory: the current
      document, or one that an unsynced replacement put aside. */
  lemma {:induction false} PowerLossOutcomes(d: Dir, doc: Document)
    requires Sound(d)
    ensures (exists d' :: PowerLoss(d, d') && Load(d') == Loaded(doc)) <==>
      (doc == DocOf(d.primary) || exists f :: f in d.undo && doc == DocOf(f))
  {
    if doc == DocOf(d.primary) {
      var d' := Dir(d.primary, d.backup, None, []);
      assert PowerLoss(d, d') && Load(d') == Loaded(doc);
    } else if f :| f in d.undo && doc == DocOf(f) {
      var d' := Dir(f, d.backup, None, []);
      assert PowerLoss(d, d') && Load(d') == Loaded(doc);
    }
  }

  /** After a completed write over an existing file the backup holds the document
      before it, and that is what a load returns if the primary is later corrupted. */
  lemma {:induction false} BackupHoldsPrevious(d: Dir, doc: Document)
    requires Sound(d) && d.primary.Some?
    ensures
      var e := After(d, doc, WriteSteps);
      && e.backup.Some? && Loaded(DocOf(d.primary)) == Load(d)
      && e.backup.value.content == Text(DocOf(d.primary))
      && forall synced :: Load(e.(primary := Some(File(Garbled, synced)))) == Load(d)
  {
    WritePrefix(d, doc, WriteSteps);
  }

  /** The first write makes no backup: a primary corrupted after it cannot be loaded,
      unless an older backup was lying there. */
  lemma {:induction false} FirstWriteHasNoBackup(d: Dir, doc: Document, synced: bool)
    requires d.primary.None?
    ensures
      var corrupted := After(d, doc, WriteSteps).(primary := Some(File(Garbled, synced)));
      Load(corrupted).RegistryError? <==> d.backup.None? || d.backup.value.content.Garbled?
  {
    WritePrefix(d, doc, WriteSteps);
  }

  // ---------------------------------------------------------------- operations

  datatype Mutation =
    | Create(id: Id, server: Server)
    | Update(id: Id, environment: Option<map<string, string>>, secretEnvironment: Option<map<string, string>>,
             enabled: Option<bool>, now: nat)
    | Delete(id: Id)

  predicate Accepted(doc: Document, op: Mutation) {
    match op
    case Create(id, _) => id !in doc.servers
    case Update(id, _, _, _, _) => id in doc.servers
    case Delete(id) => id in doc.servers
  }

  function Pick<T>(a: Option<T>, b: T): T {
    if a.Some? then a.value else b
  }

  function Mutated(doc: Document, op: Mutation): Document
    requires Accepted(doc, op)
  {
    match op
    case Create(id, server) => Document(doc.revision + 1, doc.servers[id := server])
    case Update(id, env, secret, enabled, now) =>
      var s := doc.servers[id];
      var s' := s.(environment := Pick(env, s.environment), secretEnvironment := Pick(secret, s.secretEnvironment),
                   enabled := Pick(enabled, s.enabled), updatedAt := now);
      Document(doc.revision + 1, doc.servers[id := s'])
    case Delete(id) => Document(doc.revision + 1, doc.servers - {id})
  }

  /** The registry process as a value: its cache and the directory. */
  datatype Node = Node(document: Option<Document>, dir: Dir)

  function Current(n: Node): LoadResult {
    if n.document.Some? then Loaded(n.document.value) else Load(n.dir)
  }

  /** What the process works with is not what a fresh load would return. */
  predicate Diverged(n: Node) {
    Current(n) != Load(n.dir)
  }

  function Applied(n: Node, op: Mutation, failAt: nat): Node {
    var current := Current(n);
    if current.RegistryError? || !Accepted(current.doc, op) then n
    else
      var doc := Mutated(current.doc, op);
      var ok := failAt >= WriteSteps;
      Node(if ok || n.document.Some? then Some(doc) else None,
           Unlinked(After(n.dir, doc, if ok then WriteSteps else failAt)))
  }

  class JSONRegistry {
    var document: Option<Document>
    var dir: Dir

    constructor (d: Dir)
      ensures dir == d && document == None
    {
      dir, document := d, None;
    }

    /** `_write`; the operating system makes step `failAt` fail, if there is one. */
    method Write(doc: Document, failAt: nat) returns (ok: bool)
      modifies this`dir
      ensures ok <==> failAt >= WriteSteps
      ensures ok ==> dir == Unlinked(After(old(dir), doc, WriteSteps))
      ensures !ok ==> dir == Unlinked(After(old(dir), doc, failAt))
    {
      for k := 0 to WriteSteps
        invariant k <= failAt
        invariant dir == After(old(dir), doc, k)
      {
        if k == failAt {
          dir := Unlinked(dir);
          return false;
        }
        dir := WriteStep(dir, doc, k);
      }
      dir := Unlinked(dir);
      ok := true;
    }

    /** `load` */
    method LoadDocument() returns (r: LoadResult)
      modifies this`document
      ensures r == Load(dir)
      ensures document == if r.Loaded? then Some(r.doc) else old(document)
      ensures Sound(dir) ==> r == Loaded(DocOf(dir.primary)) && !Diverged(View())
    {
      r := Load(dir);
      if r.Loaded? {
        document := Some(r.doc);
      }
    }

    /** `snapshot` */
    method Snapshot() returns (r: LoadResult)
      modifies this`document
      ensures r == if old(document).Some? then Loaded(old(document).value) else Load(dir)
      ensures document == if r.Loaded? then Some(r.doc) else None
      ensures Sound(dir) ==> r.Loaded? && document == Some(r.doc) && (Diverged(View()) <==> Diverged(old(View())))
    {
      if document.None? {
        r := LoadDocument();
      } else {
        r := Loaded(document.value);
      }
    }

    ghost function View(): Node
      reads this
    {
      Node(document, dir)
    }

    /** `create`, `update` and `delete`: the cached document is changed in place
        before it is written. */
    method Apply(op: Mutation, failAt: nat) returns (ok: bool)
      modifies this
      ensures View() == Applied(old(View()), op, failAt)
      ensures ok <==> Current(old(View())).Loaded? && Accepted(Current(old(View())).doc, op) && failAt >= WriteSteps
    {
      var current := if document.Some? then Loaded(document.value) else Load(dir);
      if current.RegistryError? || !Accepted(current.doc, op) {
        return false;
      }
      var doc := Mutated(current.doc, op);
      if document.Some? {
        document := Some(doc);
      }
      ok := Write(doc, failAt);
      if ok {
        document := Some(doc);
      }
    }
  }

  // ---------------------------------------------------------------- runs

  datatype Event =
    | Mutate(op: Mutation, failAt: nat)
    | Reload
    | Read
    | Kill(op: Mutation, atStep: nat)
    | LosePower(dir: Dir)

  /** A mutation (which may fail at a step), a load, a snapshot, a kill in the middle
      of a mutation's write, or a power loss; the last two drop the cache. */
  ghost predicate Step(n: Node, e: Event, n': Node) {
    match e
    case Mutate(op, failAt) => n' == Applied(n, op, failAt)
    case Reload => n' == if Load(n.dir).Loaded? then n.(document := Some(Load(n.dir).doc)) else n
    case Read => n' == if n.document.None? && Load(n.dir).Loaded? then n.(document := Some(Load(n.dir).doc)) else n
    case Kill(op, atStep) =>
      var current := Current(n);
      && atStep <= WriteSteps
      && n' == Node(None, if current.Loaded? && Accepted(current.doc, op) then After(n.dir, Mutated(current.doc, op), atStep) else n.dir)
    case LosePower(d) => PowerLoss(n.dir, d) && n' == Node(None, d)
  }

  ghost predicate IsRun(start: Node, events: seq<Event>, nodes: seq<Node>) {
    && Sound(start.dir)
    && |nodes| == |events| + 1 && nodes[0] == start
    && forall k :: 0 <= k < |events| ==> Step(nodes[k], events[k], nodes[k + 1])
  }

  lemma {:induction false} StepKeepsSound(n: Node, e: Event, n': Node)
    requires Sound(n.dir) && Step(n, e, n')
    ensures Sound(n'.dir)
  {
    var current := Current(n);
    match e
    case Mutate(op, failAt) =>
      if current.Loaded? && Accepted(current.doc, op) {
        CrashLeavesOldOrNew(n.dir, Mutated(current.doc, op), if failAt < WriteSteps then failAt else WriteSteps);
      }
    case Reload =>
    case Read =>
    case Kill(op, atStep) =>
      if current.Loaded? && Accepted(current.doc, op) {
        CrashLeavesOldOrNew(n.dir, Mutated(current.doc, op), atStep);
      }
    case LosePower(d) =>
  }

  /** From an absent or valid registry no run of mutations, failures, kills and power
      losses leads to a registry that cannot be loaded. */
  lemma {:induction false} LoadNeverFails(start: Node, events: seq<Event>, nodes: seq<Node>, k: nat)
    requires IsRun(start, events, nodes) && k < |nodes|
    ensures Sound(nodes[k].dir) && Load(nodes[k].dir).Loaded?
    decreases k
  {
    if k > 0 {
      LoadNeverFails(start, events, nodes, k - 1);
      StepKeepsSound(nodes[k - 1], events[k - 1], nodes[k]);
    }
  }

  /** A mutation that returns leaves the cache equal to what a fresh load returns. */
  lemma {:induction false} CacheIsDiskAfterSuccess(n: Node, op: Mutation, failAt: nat)
    requires Sound(n.dir) && failAt >= WriteSteps && Current(n).Loaded? && Accepted(Current(n).doc, op)
    ensures
      var n' := Applied(n, op, failAt);
      && n'.document == Some(Mutated(Current(n).doc, op))
      && Load(n'.dir) == Loaded(n'.document.value)
  {
    WritePrefix(n.dir, Mutated(Current(n).doc, op), WriteSteps);
  }

  /** The cached document is the stored one, or has a higher revision. */
  ghost predicate Ahead(n: Node) {
    n.document.Some? && Load(n.dir).Loaded? ==>
      n.document.value == Load(n.dir).doc || n.document.value.revision > Load(n.dir).doc.revision
  }

  /** The mutation is accepted and its write begins. */
  predicate Writes(n: Node, op: Mutation) {
    Current(n).Loaded? && Accepted(Current(n).doc, op)
  }

  /** When a step leaves the cache different from the disk: a write that fails before
      the replacement, on a cached document. A completed or replaced file, a load, a
      kill and a power loss bring the two together; a snapshot and a rejected mutation change nothing. */
  predicate LeavesDiverged(n: Node, e: Event) {
    match e
    case Mutate(op, failAt) => if Writes(n, op) then n.document.Some? && failAt <= ReplaceStep else Diverged(n)
    case Reload => false
    case Read => Diverged(n)
    case Kill(_, _) => false
    case LosePower(_) => false
  }

  lemma {:induction false} StepDivergesIff(n: Node, e: Event, n': Node)
    requires Sound(n.dir) && Ahead(n) && Step(n, e, n')
    ensures Diverged(n') <==> LeavesDiverged(n, e)
    ensures Ahead(n')
  {
    match e
    case Mutate(op, failAt) =>
      if Writes(n, op) {
        WritePrefix(n.dir, Mutated(Current(n).doc, op), if failAt < WriteSteps then failAt else WriteSteps);
      }
    case Reload =>
    case Read =>
    case Kill(op, atStep) =>
    case LosePower(d) =>
  }

  lemma {:induction false} RunsStayAhead(start: Node, events: seq<Event>, nodes: seq<Node>, k: nat)
    requires IsRun(start, events, nodes) && Ahead(start) && k < |nodes|
    ensures Ahead(nodes[k])
    decreases k
  {
    if k > 0 {
      RunsStayAhead(start, events, nodes, k - 1);
      LoadNeverFails(start, events, nodes, k - 1);
      StepDivergesIff(nodes[k - 1], events[k - 1], nodes[k]);
    }
  }

  /** In every run of a process that starts without a cache, also after earlier
      failures: a mutation whose write fails leaves the cache different from the disk
      exactly when the document was cached and the failure came before the replacement. */
  lemma {:induction false} CacheAfterFailure(start: Node, events: seq<Event>, nodes: seq<Node>, k: nat)
    requires IsRun(start, events, nodes) && start.document.None? && k < |events|
    requires events[k].Mutate? && events[k].failAt < WriteSteps && Writes(nodes[k], events[k].op)
    ensures Diverged(nodes[k + 1]) <==> nodes[k].document.Some? && events[k].failAt <= ReplaceStep
  {
    RunsStayAhead(start, events, nodes, k);
    LoadNeverFails(start, events, nodes, k);
    StepDivergesIff(nodes[k], events[k], nodes[k + 1]);
  }

  /** A step that failed on a cached document before the replacement. */
  ghost predicate FailedWrite(nodes: seq<Node>, events: seq<Event>, j: nat)
    requires j < |events| && |events| < |nodes|
  {
    events[j].Mutate? && Writes(nodes[j], events[j].op) && nodes[j].document.Some? && events[j].failAt <= ReplaceStep
  }

  /** A rejected mutation, or a snapshot. */
  ghost predicate Idle(nodes: seq<Node>, events: seq<Event>, j: nat)
    requires j < |events| && |events| < |nodes|
  {
    events[j].Read? || (events[j].Mutate? && !Writes(nodes[j], events[j].op))
  }

  /** Such a failure has happened before `k`, and only idle steps since. */
  ghost predicate FailedLast(nodes: seq<Node>, events: seq<Event>, k: nat)
    requires k <= |events| && |events| < |nodes|
  {
    exists j :: 0 <= j < k && FailedWrite(nodes, events, j) && forall i :: j < i < k ==> Idle(nodes, events, i)
  }

  lemma {:induction false} FailedLastStep(nodes: seq<Node>, events: seq<Event>, k: nat)
    requires k < |events| && |events| < |nodes|
    ensures FailedLast(nodes, events, k + 1) <==>
      FailedWrite(nodes, events, k) || (FailedLast(nodes, events, k) && Idle(nodes, events, k))
  {
    if FailedLast(nodes, events, k) && Idle(nodes, events, k) {
      var j :| 0 <= j < k && FailedWrite(nodes, events, j) && forall i :: j < i < k ==> Idle(nodes, events, i);
      assert forall i :: j < i < k + 1 ==> Idle(nodes, events, i);
    }
  }

  /** The cache differs from the disk exactly when such a failure has happened, with
      only snapshots and rejected mutations since. */
  lemma {:induction false} DivergedIff(start: Node, events: seq<Event>, nodes: seq<Node>, k: nat)
    requires IsRun(start, events, nodes) && start.document.None? && k < |nodes|
    ensures Diverged(nodes[k]) <==> FailedLast(nodes, events, k)
    decreases k
  {
    if k > 0 {
      DivergedIff(start, events, nodes, k - 1);
      RunsStayAhead(start, events, nodes, k - 1);
      LoadNeverFails(start, events, nodes, k - 1);
      StepDivergesIff(nodes[k - 1], events[k - 1], nodes[k]);
      FailedLastStep(nodes, events, k - 1);
    }
  }

  /** What was reported as failed becomes durable with the next mutation that is
      accepted and reaches the replacement: both changes are then on disk. */
  lemma {:induction false} RejectedChangeBecomesDurable(n: Node, op: Mutation, failAt: nat, op': Mutation, failAt': nat)
    requires Sound(n.dir) && n.document.Some? && Writes(n, op) && failAt < WriteSteps
    requires Writes(Applied(n, op, failAt), op') && failAt' > ReplaceStep
    ensures Load(Applied(Applied(n, op, failAt), op', failAt').dir) == Loaded(Mutated(Mutated(Current(n).doc, op), op'))
  {
    var doc := Mutated(Current(n).doc, op);
    var once := Applied(n, op, failAt);
    WritePrefix(n.dir, doc, failAt);
    WritePrefix(once.dir, Mutated(doc, op'), if failAt' < WriteSteps then failAt' else WriteSteps);
  }
}
