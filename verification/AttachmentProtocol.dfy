/**
 The two stores an attachment lives in, as a transition system: rows in the database, blobs
 on disk, and nothing transactional across them. Uploads, attachment deletes, task deletes
 and collector passes of any number of clients and replicas interleave one step at a time,
 and each of them can crash between any two steps.
 */
module AttachmentProtocol {
  import opened Collections

  // Identifiers are only ever compared, so numbers stand in for UUIDs.
  type Key = nat
  type UserId = nat
  type TaskId = nat
  // One clock serves the database, the blob store and every replica.
  type Time = nat
  // Identifies a call in flight, never anything stored.
  type Call = nat

  const MAX_ATTACHMENTS_PER_TASK := 50

  /**
   grace bounds how long after its blob first appears an upload still runs Create, and
   lostReply says whether Create can insert its row and still report an error.
   */
  datatype Config = Config(
    minAge: nat, grace: nat, lostReply: bool, maxBytes: nat, maxBytesPerUser: nat)

  datatype Row = Row(task: TaskId, size: nat)

  /** How far an upload has got; CreateRow is the step that ends Written. */
  datatype Progress =
    | Started
    | QuotaRead
    | CountRead
    | Writing(key: Key, appeared: Time, written: nat)
    | Written(key: Key, appeared: Time, written: nat)
    | Refused(key: Key)
  {
    predicate HasBlob() { Writing? || Written? }

    predicate HasKey() { HasBlob() || Refused? }

    /** Past the quota check and not yet refused: what the quota argument counts. */
    predicate Admitted() { !Started? && !Refused? }

    predicate PastCount() { Admitted() && !QuotaRead? }
  }

  datatype Upload = Upload(user: UserId, task: TaskId, at: Progress)

  datatype Collector =
    | Listing(refs: map<Key, Time>)
    | Aged(candidates: set<Key>)
    | Deleting(orphans: set<Key>)

  datatype State = State(
    now: Time,
    tasks: Tasks,
    rows: Rows,
    blobs: map<Key, Time>,  // storage key to modification time
    uploads: map<Call, Upload>,
    deletes: map<Call, Key>,  // row gone, blob delete still to come
    collectors: map<Call, Collector>,
    issued: map<Key, Call>,  // every storage key ever generated, and by which call
    created: set<Key>)  // every storage key that ever had a row

  const INIT := State(0, map[], map[], map[], map[], map[], map[], map[], {})

  datatype UploadOp =
    | Begin(user: UserId, task: TaskId)
    | ReadQuota
    | ReadCount
    | CreateBlob(name: Key)
    | CopyBytes(n: nat)
    | FinishPut
    | AbortPut
    | CreateRow
    | CreateFails
    | CreateLosesReply
    | CleanUp

  datatype CollectorOp =
    | Start
    | ListEntry(seen: Key)
    | Age
    | CheckRows
    | Collect(victim: Key)

  datatype Action =
    | Tick
    | CreateTask(task: TaskId, owner: UserId)
    | DeleteTask(task: TaskId)
    | Uploading(call: Call, up: UploadOp)
    | DeleteRow(call: Call, user: UserId, key: Key)
    | DeleteBlob(call: Call)
    | Collecting(call: Call, col: CollectorOp)
    | Crash(call: Call)

  // ---------- What the repository queries answer ----------

  type Tasks = map<TaskId, UserId>
  type Rows = map<Key, Row>

  predicate Owns(tasks: Tasks, user: UserId, task: TaskId) {
    task in tasks && tasks[task] == user
  }

  function BytesOf(tasks: Tasks, rows: Rows, user: UserId): map<Key, nat> {
    map k | k in rows && Owns(tasks, user, rows[k].task) :: rows[k].size
  }

  ghost function TotalBytesForUser(tasks: Tasks, rows: Rows, user: UserId): nat {
    Total(BytesOf(tasks, rows, user))
  }

  lemma RowAddsBytes(tasks: Tasks, rows: Rows, key: Key, row: Row, user: UserId)
    requires key !in rows
    ensures TotalBytesForUser(tasks, rows[key := row], user)
            == TotalBytesForUser(tasks, rows, user)
               + if Owns(tasks, user, row.task) then row.size else 0
  {
    var before, after := BytesOf(tasks, rows, user), BytesOf(tasks, rows[key := row], user);
    if Owns(tasks, user, row.task) {
      assert after == before[key := row.size];
      TotalAdd(before, key, row.size);
    } else {
      assert after == before;
    }
  }

  function RowsOfTask(tasks: Tasks, rows: Rows, user: UserId, task: TaskId): set<Key> {
    set k | k in rows && rows[k].task == task && Owns(tasks, user, task)
  }

  // ---------- One step ----------

  predicate Fresh(s: State, call: Call) {
    call !in s.uploads && call !in s.deletes && call !in s.collectors
  }

  function Moved(s: State, c: Call, p: Progress): State
    requires c in s.uploads
  {
    s.(uploads := s.uploads[c := s.uploads[c].(at := p)])
  }

  function EndUpload(s: State, c: Call, key: Key): State {
    s.(uploads := s.uploads - {c}, blobs := s.blobs - {key})
  }

  function Inserted(s: State, u: Upload, key: Key, size: nat): State {
    s.(rows := s.rows[key := Row(u.task, size)], created := s.created + {key})
  }

  /** One step of the upload u that call c runs. */
  ghost function UploadStep(cfg: Config, s: State, c: Call, op: UploadOp): Option<State>
    requires c in s.uploads
  {
    var u := s.uploads[c];
    match (op, u.at)
    case (ReadQuota, Started) =>
      if TotalBytesForUser(s.tasks, s.rows, u.user) < cfg.maxBytesPerUser then Some(Moved(s, c, QuotaRead))
      else None
    case (ReadCount, QuotaRead) =>
      if |RowsOfTask(s.tasks, s.rows, u.user, u.task)| < MAX_ATTACHMENTS_PER_TASK then Some(Moved(s, c, CountRead))
      else None
    case (CreateBlob(key), CountRead) =>
      if key in s.issued then None
      else Some(Moved(s, c, Writing(key, s.now, 0)).(blobs := s.blobs[key := s.now],
                                                     issued := s.issued[key := c]))
    case (CopyBytes(n), Writing(key, appeared, written)) =>
      // The copy reads at most one byte past the limit, and a file already removed under the
      // writer stays removed.
      if written + n > cfg.maxBytes + 1 then None
      else Some(Moved(s, c, Writing(key, appeared, written + n))
                .(blobs := if key in s.blobs then s.blobs[key := s.now] else s.blobs))
    case (FinishPut, Writing(key, appeared, written)) =>
      if written > cfg.maxBytes then None else Some(Moved(s, c, Written(key, appeared, written)))
    case (AbortPut, Writing(key, _, _)) => Some(EndUpload(s, c, key))
    case (CreateRow, Written(key, appeared, written)) =>
      if s.now <= appeared + cfg.grace && Owns(s.tasks, u.user, u.task)
      then Some(Inserted(s, u, key, written).(uploads := s.uploads - {c}))
      else None
    case (CreateFails, Written(key, _, _)) => Some(Moved(s, c, Refused(key)))
    case (CreateLosesReply, Written(key, appeared, written)) =>
      if cfg.lostReply && s.now <= appeared + cfg.grace && Owns(s.tasks, u.user, u.task)
      then Some(Moved(Inserted(s, u, key, written), c, Refused(key)))
      else None
    case (CleanUp, Refused(key)) => Some(EndUpload(s, c, key))
    case _ => None
  }

  function OlderThan(refs: map<Key, Time>, cutoff: int): set<Key> {
    set k | k in refs && refs[k] < cutoff
  }

  function CollectorStep(cfg: Config, s: State, col: Collector, op: CollectorOp): Option<Collector> {
    match (op, col)
    case (ListEntry(key), Listing(refs)) =>
      if key in s.blobs then Some(Listing(refs[key := s.blobs[key]])) else None
    case (Age, Listing(refs)) => Some(Aged(OlderThan(refs, s.now - cfg.minAge)))
    case (CheckRows, Aged(candidates)) => Some(Deleting(candidates - s.rows.Keys))
    case (Collect(key), Deleting(orphans)) =>
      if key in orphans then Some(Deleting(orphans - {key})) else None
    case _ => None
  }

  /** The state after a, or None where a cannot happen in s. */
  ghost function Step(cfg: Config, s: State, a: Action): Option<State> {
    match a
    case Tick => Some(s.(now := s.now + 1))
    case CreateTask(t, owner) =>
      if t in s.tasks then None else Some(s.(tasks := s.tasks[t := owner]))
    case DeleteTask(t) =>
      // ON DELETE CASCADE takes the rows; nothing takes the blobs.
      Some(s.(tasks := s.tasks - {t},
              rows := map k | k in s.rows && s.rows[k].task != t :: s.rows[k]))
    case Uploading(c, op) =>
      if c in s.uploads then UploadStep(cfg, s, c, op)
      else if op.Begin? && Fresh(s, c)
      then Some(s.(uploads := s.uploads[c := Upload(op.user, op.task, Started)]))
      else None
    case DeleteRow(c, user, key) =>
      if Fresh(s, c) && key in s.rows && Owns(s.tasks, user, s.rows[key].task)
      then Some(s.(rows := s.rows - {key}, deletes := s.deletes[c := key]))
      else None
    case DeleteBlob(c) =>
      if c in s.deletes
      then Some(s.(blobs := s.blobs - {s.deletes[c]}, deletes := s.deletes - {c}))
      else None
    case Collecting(c, op) =>
      if c in s.collectors then
        match CollectorStep(cfg, s, s.collectors[c], op)
        case None => None
        case Some(col) =>
          Some(s.(collectors := s.collectors[c := col],
                  blobs := if op.Collect? then s.blobs - {op.victim} else s.blobs))
      else if op.Start? && Fresh(s, c)
      then Some(s.(collectors := s.collectors[c := Listing(map[])]))
      else None
    case Crash(c) =>
      // Also how a call ends whose last step failed.
      Some(s.(uploads := s.uploads - {c}, deletes := s.deletes - {c},
              collectors := s.collectors - {c}))
  }

  // ---------- Runs ----------

  ghost function Run(cfg: Config, s: State, actions: seq<Action>): Option<State>
    decreases |actions|
  {
    if actions == [] then Some(s)
    else
      match Step(cfg, s, actions[0])
      case None => None
      case Some(s') => Run(cfg, s', actions[1..])
  }

  /** No row points at a missing blob. */
  ghost predicate Safe(s: State) {
    forall k :: k in s.rows ==> k in s.blobs
  }

  ghost predicate Reachable(cfg: Config, s: State) {
    exists actions :: Run(cfg, INIT, actions) == Some(s)
  }

  // ---------- The inductive invariant ----------

  ghost predicate UploadInv(cfg: Config, s: State, c: Call, p: Progress) {
    && (p.HasKey() ==> p.key in s.issued && s.issued[p.key] == c && p.key !in s.created)
    && (p.Written? ==> p.written <= cfg.maxBytes)
    && (p.HasBlob() ==> p.appeared <= s.now)
    && (p.HasBlob() && p.key in s.blobs ==> p.appeared <= s.blobs[p.key])
    && (p.HasBlob() && s.now <= p.appeared + cfg.grace ==> p.key in s.blobs)
  }

  ghost predicate UploadsInv(cfg: Config, s: State) {
    forall c :: c in s.uploads ==> UploadInv(cfg, s, c, s.uploads[c].at)
  }

  /** No upload holding one of keys can still reach CreateRow. */
  ghost predicate PastGrace(cfg: Config, s: State, keys: set<Key>) {
    forall c :: c in s.uploads && s.uploads[c].at.HasBlob() && s.uploads[c].at.key in keys
                ==> s.uploads[c].at.appeared + cfg.grace < s.now
  }

  ghost predicate CollectorInv(cfg: Config, s: State, col: Collector) {
    match col
    case Listing(refs) =>
      && refs.Keys <= s.issued.Keys
      && (forall c :: c in s.uploads && s.uploads[c].at.HasBlob() && s.uploads[c].at.key in refs
            ==> s.uploads[c].at.appeared <= refs[s.uploads[c].at.key])
    case Aged(candidates) => candidates <= s.issued.Keys && PastGrace(cfg, s, candidates)
    case Deleting(orphans) =>
      orphans <= s.issued.Keys && orphans !! s.rows.Keys && PastGrace(cfg, s, orphans)
  }

  ghost predicate CollectorsInv(cfg: Config, s: State) {
    forall c :: c in s.collectors ==> CollectorInv(cfg, s, s.collectors[c])
  }

  ghost predicate StoresInv(s: State) {
    && s.rows.Keys <= s.created <= s.issued.Keys
    && s.rows.Keys <= s.blobs.Keys <= s.issued.Keys
    && (forall c :: c in s.deletes ==> s.deletes[c] in s.created && s.deletes[c] !in s.rows)
    && (forall k :: k in s.rows ==> s.rows[k].task in s.tasks)
  }

  ghost predicate Inv(cfg: Config, s: State) {
    StoresInv(s) && UploadsInv(cfg, s) && CollectorsInv(cfg, s)
  }

  lemma UploadStepKeepsStores(cfg: Config, s: State, c: Call, op: UploadOp)
    requires !cfg.lostReply
    requires StoresInv(s) && UploadsInv(cfg, s) && c in s.uploads && UploadStep(cfg, s, c, op).Some?
    ensures StoresInv(UploadStep(cfg, s, c, op).value)
  {
  }

  lemma UploadStepKeepsUploads(cfg: Config, s: State, c: Call, op: UploadOp)
    requires !cfg.lostReply
    requires StoresInv(s) && UploadsInv(cfg, s) && c in s.uploads && UploadStep(cfg, s, c, op).Some?
    ensures UploadsInv(cfg, UploadStep(cfg, s, c, op).value)
  {
  }

  /** Blobs of uploads in s' are known from s or carry a new key, and so do new rows. */
  ghost predicate Evolves(cfg: Config, s: State, s': State) {
    && s'.now == s.now && s.issued.Keys <= s'.issued.Keys
    && (forall c :: c in s'.uploads && s'.uploads[c].at.HasBlob() ==>
          var p := s'.uploads[c].at;
          || p.key !in s.issued
          || (c in s.uploads && s.uploads[c].at.HasBlob() && s.uploads[c].at.key == p.key
              && s.uploads[c].at.appeared == p.appeared))
    && (forall k :: k in s'.rows && k !in s.rows ==>
          exists c :: c in s.uploads && s.uploads[c].at.HasBlob() && s.uploads[c].at.key == k
                      && s.now <= s.uploads[c].at.appeared + cfg.grace)
  }

  lemma UploadStepEvolves(cfg: Config, s: State, c: Call, op: UploadOp)
    requires c in s.uploads && UploadStep(cfg, s, c, op).Some?
    ensures Evolves(cfg, s, UploadStep(cfg, s, c, op).value)
    ensures UploadStep(cfg, s, c, op).value.collectors == s.collectors
  {
  }

  lemma EvolvingKeepsCollectors(cfg: Config, s: State, s': State)
    requires CollectorsInv(cfg, s) && Evolves(cfg, s, s') && s'.collectors == s.collectors
    ensures CollectorsInv(cfg, s')
  {
  }

  /** What a pass knows about its own keys after each of its steps. */
  lemma PassKeepsKnowledge(cfg: Config, s: State, col: Collector, op: CollectorOp)
    requires cfg.grace <= cfg.minAge
    requires Inv(cfg, s) && CollectorInv(cfg, s, col) && CollectorStep(cfg, s, col, op).Some?
    ensures CollectorInv(cfg, s, CollectorStep(cfg, s, col, op).value)
  {
  }

  /** Removing the blob of a key no upload can still use harms nobody. */
  lemma CollectKeepsBlobs(cfg: Config, s: State, key: Key)
    requires StoresInv(s) && UploadsInv(cfg, s)
    requires key !in s.rows && PastGrace(cfg, s, {key})
    ensures StoresInv(s.(blobs := s.blobs - {key})) && UploadsInv(cfg, s.(blobs := s.blobs - {key}))
  {
  }

  /** A pass knows nothing about blobs or other passes. */
  lemma KnowledgeIgnores(cfg: Config, s: State, s': State, col: Collector)
    requires s' == s.(blobs := s'.blobs, collectors := s'.collectors)
    ensures CollectorInv(cfg, s', col) == CollectorInv(cfg, s, col)
  {
  }

  lemma CollectorStepKeepsInv(cfg: Config, s: State, c: Call, op: CollectorOp)
    requires cfg.grace <= cfg.minAge
    requires Inv(cfg, s) && c in s.collectors && Step(cfg, s, Collecting(c, op)).Some?
    ensures Inv(cfg, Step(cfg, s, Collecting(c, op)).value)
  {
    PassKeepsKnowledge(cfg, s, s.collectors[c], op);
    if op.Collect? { CollectKeepsBlobs(cfg, s, op.victim); }
    var s' := Step(cfg, s, Collecting(c, op)).value;
    forall d | d in s'.collectors ensures CollectorInv(cfg, s', s'.collectors[d]) {
      KnowledgeIgnores(cfg, s, s', s'.collectors[d]);
    }
  }

  /** Ticks, tasks, attachment deletes, crashes and the first step of an upload or a pass. */
  ghost predicate OtherStep(s: State, a: Action) {
    && (a.Uploading? ==> a.call !in s.uploads)
    && (a.Collecting? ==> a.call !in s.collectors)
  }

  lemma OtherStepKeepsStores(cfg: Config, s: State, a: Action)
    requires StoresInv(s) && OtherStep(s, a) && Step(cfg, s, a).Some?
    ensures StoresInv(Step(cfg, s, a).value)
  {
  }

  lemma OtherStepKeepsUploads(cfg: Config, s: State, a: Action)
    requires StoresInv(s) && UploadsInv(cfg, s) && OtherStep(s, a) && Step(cfg, s, a).Some?
    ensures UploadsInv(cfg, Step(cfg, s, a).value)
  {
  }

  /** No upload is new to what a pass knows, and the clock does not run back. */
  ghost predicate Forgets(s: State, s': State) {
    && s.now <= s'.now && s.issued.Keys <= s'.issued.Keys
    && (forall k :: k in s'.rows ==> k in s.rows)
    && (forall c :: c in s'.uploads && s'.uploads[c].at.HasBlob() ==>
          c in s.uploads && s'.uploads[c] == s.uploads[c])
  }

  lemma ForgettingKeepsKnowledge(cfg: Config, s: State, s': State, col: Collector)
    requires CollectorInv(cfg, s, col) && Forgets(s, s')
    ensures CollectorInv(cfg, s', col)
  {
  }

  lemma OtherStepForgets(cfg: Config, s: State, a: Action)
    requires OtherStep(s, a) && Step(cfg, s, a).Some?
    ensures Forgets(s, Step(cfg, s, a).value)
    ensures forall c :: c in Step(cfg, s, a).value.collectors ==>
              || Step(cfg, s, a).value.collectors[c] == Listing(map[])
              || (c in s.collectors && Step(cfg, s, a).value.collectors[c] == s.collectors[c])
  {
  }

  lemma OtherStepKeepsCollectors(cfg: Config, s: State, a: Action)
    requires CollectorsInv(cfg, s) && OtherStep(s, a) && Step(cfg, s, a).Some?
    ensures CollectorsInv(cfg, Step(cfg, s, a).value)
  {
    var s' := Step(cfg, s, a).value;
    OtherStepForgets(cfg, s, a);
    forall c | c in s'.collectors ensures CollectorInv(cfg, s', s'.collectors[c]) {
      if c in s.collectors && s'.collectors[c] == s.collectors[c] {
        ForgettingKeepsKnowledge(cfg, s, s', s.collectors[c]);
      }
    }
  }

  lemma {:induction false} StepKeepsInv(cfg: Config, s: State, a: Action)
    requires cfg.grace <= cfg.minAge && !cfg.lostReply
    requires Inv(cfg, s) && Step(cfg, s, a).Some?
    ensures Inv(cfg, Step(cfg, s, a).value)
  {
    if a.Uploading? && a.call in s.uploads {
      UploadStepKeepsStores(cfg, s, a.call, a.up);
      UploadStepKeepsUploads(cfg, s, a.call, a.up);
      UploadStepEvolves(cfg, s, a.call, a.up);
      EvolvingKeepsCollectors(cfg, s, UploadStep(cfg, s, a.call, a.up).value);
    } else if a.Collecting? && a.call in s.collectors {
      CollectorStepKeepsInv(cfg, s, a.call, a.col);
    } else {
      OtherStepKeepsStores(cfg, s, a);
      OtherStepKeepsUploads(cfg, s, a);
      OtherStepKeepsCollectors(cfg, s, a);
    }
  }

  lemma {:induction false} RunKeepsInv(cfg: Config, s: State, actions: seq<Action>)
    requires cfg.grace <= cfg.minAge && !cfg.lostReply
    requires Inv(cfg, s) && Run(cfg, s, actions).Some?
    ensures Inv(cfg, Run(cfg, s, actions).value)
    decreases |actions|
  {
    if actions == [] {
    } else {
      StepKeepsInv(cfg, s, actions[0]);
      RunKeepsInv(cfg, Step(cfg, s, actions[0]).value, actions[1..]);
    }
  }

  // ---------- The exact condition ----------

  lemma {:induction false} RunAppend(cfg: Config, s: State, actions: seq<Action>, a: Action)
    requires Run(cfg, s, actions).Some?
    ensures Run(cfg, s, actions + [a]) == Step(cfg, Run(cfg, s, actions).value, a)
    decreases |actions|
  {
    if actions == [] {
      assert (actions + [a])[1..] == [];
    } else {
      assert (actions + [a])[1..] == actions[1..] + [a];
      RunAppend(cfg, Step(cfg, s, actions[0]).value, actions[1..], a);
    }
  }

  lemma Reach(cfg: Config, s: State, a: Action)
    requires Reachable(cfg, s) && Step(cfg, s, a).Some?
    ensures Reachable(cfg, Step(cfg, s, a).value)
  {
    var actions :| Run(cfg, INIT, actions) == Some(s);
    RunAppend(cfg, INIT, actions, a);
  }

  lemma {:induction false} ReachLater(cfg: Config, s: State, n: nat)
    requires Reachable(cfg, s)
    ensures Reachable(cfg, s.(now := s.now + n))
    decreases n
  {
    if n == 0 {
      assert s.(now := s.now + n) == s;
    } else {
      ReachLater(cfg, s, n - 1);
      Reach(cfg, s.(now := s.now + (n - 1)), Tick);
    }
  }

  /** A state in which one upload, at p, is all there is besides its task. */
  function OneUpload(p: Progress): State {
    INIT.(tasks := map[7 := 8],
          uploads := map[0 := Upload(8, 7, p)],
          blobs := if p.HasBlob() then map[p.key := 0] else map[],
          issued := if p.HasKey() then map[p.key := 0] else map[])
  }

  const BLOB_WRITTEN := OneUpload(Written(9, 0, 0))

  lemma OneUploadMoves(cfg: Config, p: Progress, op: UploadOp, q: Progress)
    requires Reachable(cfg, OneUpload(p))
    requires UploadStep(cfg, OneUpload(p), 0, op).Some?
    requires UploadStep(cfg, OneUpload(p), 0, op).value.(uploads := map[]) == OneUpload(q).(uploads := map[])
    requires UploadStep(cfg, OneUpload(p), 0, op).value.uploads[0 := Upload(8, 7, q)]
             == UploadStep(cfg, OneUpload(p), 0, op).value.uploads
    ensures Reachable(cfg, OneUpload(q))
  {
    Reach(cfg, OneUpload(p), Uploading(0, op));
    assert UploadStep(cfg, OneUpload(p), 0, op).value.uploads == OneUpload(q).uploads;
  }

  lemma ReachStarted(cfg: Config)
    ensures Reachable(cfg, OneUpload(Started))
  {
    assert Run(cfg, INIT, []) == Some(INIT);
    Reach(cfg, INIT, CreateTask(7, 8));
    Reach(cfg, INIT.(tasks := map[7 := 8]), Uploading(0, Begin(8, 7)));
  }

  lemma ReachAdmitted(cfg: Config)
    requires cfg.maxBytesPerUser > 0
    ensures Reachable(cfg, OneUpload(CountRead))
  {
    ReachStarted(cfg);
    assert BytesOf(map[7 := 8], map[], 8) == map[];
    OneUploadMoves(cfg, Started, ReadQuota, QuotaRead);
    assert RowsOfTask(map[7 := 8], map[], 8, 7) == {};
    OneUploadMoves(cfg, QuotaRead, ReadCount, CountRead);
  }

  /** One empty upload, stopped between its two stores. */
  lemma ReachBlobWritten(cfg: Config)
    requires cfg.maxBytesPerUser > 0
    ensures Reachable(cfg, BLOB_WRITTEN)
  {
    ReachAdmitted(cfg);
    OneUploadMoves(cfg, CountRead, CreateBlob(9), Writing(9, 0, 0));
    OneUploadMoves(cfg, Writing(9, 0, 0), FinishPut, Written(9, 0, 0));
  }

  /** The same upload minAge + 1 later, with a pass running beside it. */
  function Beside(cfg: Config, col: Collector): State {
    BLOB_WRITTEN.(now := cfg.minAge + 1, collectors := map[1 := col])
  }

  lemma PassMoves(cfg: Config, col: Collector, op: CollectorOp, next: Collector)
    requires Reachable(cfg, Beside(cfg, col)) && !op.Collect?
    requires CollectorStep(cfg, Beside(cfg, col), col, op) == Some(next)
    ensures Reachable(cfg, Beside(cfg, next))
  {
    Reach(cfg, Beside(cfg, col), Collecting(1, op));
    assert Beside(cfg, col).collectors[1 := next] == Beside(cfg, next).collectors;
  }

  lemma ReachCheckedPass(cfg: Config)
    requires cfg.maxBytesPerUser > 0
    ensures Reachable(cfg, Beside(cfg, Deleting({9})))
  {
    ReachBlobWritten(cfg);
    ReachLater(cfg, BLOB_WRITTEN, cfg.minAge + 1);
    Reach(cfg, BLOB_WRITTEN.(now := cfg.minAge + 1), Collecting(1, Start));
    PassMoves(cfg, Listing(map[]), ListEntry(9), Listing(map[9 := 0]));
    var refs: map<Key, Time> := map[9 := 0];
    assert OlderThan(refs, 1) == {9};
    PassMoves(cfg, Listing(refs), Age, Aged({9}));
    var stale := {9};
    assert stale - Beside(cfg, Aged(stale)).rows.Keys == stale;
    PassMoves(cfg, Aged(stale), CheckRows, Deleting(stale));
  }

  /** A pass whose row check comes before CreateRow and whose delete comes after it. */
  lemma SlowCreateLosesItsBlob(cfg: Config)
    requires cfg.maxBytesPerUser > 0 && cfg.minAge < cfg.grace
    ensures exists s :: Reachable(cfg, s) && !Safe(s)
  {
    ReachCheckedPass(cfg);
    var s := Beside(cfg, Deleting({9}));
    Reach(cfg, s, Uploading(0, CreateRow));
    var s' := Step(cfg, s, Uploading(0, CreateRow)).value;
    Reach(cfg, s', Collecting(1, Collect(9)));
    assert !Safe(Step(cfg, s', Collecting(1, Collect(9))).value);
  }

  /** Upload's own clean-up removes the blob of a row it was told does not exist. */
  lemma LostReplyLosesTheBlob(cfg: Config)
    requires cfg.maxBytesPerUser > 0 && cfg.lostReply
    ensures exists s :: Reachable(cfg, s) && !Safe(s)
  {
    ReachBlobWritten(cfg);
    var s0 := BLOB_WRITTEN;
    Reach(cfg, s0, Uploading(0, CreateLosesReply));
    var s1 := Step(cfg, s0, Uploading(0, CreateLosesReply)).value;
    Reach(cfg, s1, Uploading(0, CleanUp));
    var s2 := Step(cfg, s1, Uploading(0, CleanUp)).value;
    assert 9 in s2.rows && 9 !in s2.blobs;
  }

  /**
   Over every interleaving of any number of uploads, deletes, cascades and collector passes,
   crashing anywhere: every row's blob exists exactly when Create never comes later than
   minAge after its blob and never inserts a row it then reports as failed.
   */
  lemma EveryRowHasItsBlob(cfg: Config)
    requires cfg.maxBytesPerUser > 0
    ensures (forall s :: Reachable(cfg, s) ==> Safe(s))
            <==> cfg.grace <= cfg.minAge && !cfg.lostReply
  {
    if cfg.grace <= cfg.minAge && !cfg.lostReply {
      forall s | Reachable(cfg, s) ensures Safe(s) {
        var actions :| Run(cfg, INIT, actions) == Some(s);
        RunKeepsInv(cfg, INIT, actions);
      }
    } else if cfg.lostReply {
      LostReplyLosesTheBlob(cfg);
    } else {
      SlowCreateLosesItsBlob(cfg);
    }
  }
}
