/**
 How far concurrent uploads can carry a user past the byte quota and a task past its count.
 Both checks read a total before the upload's own bytes are known, so the bound depends on
 how many of the user's uploads sit between their check and their Create at once.
 */
module AttachmentQuota {
  import opened Collections
  import opened AttachmentProtocol

  function InFlight(s: State, user: UserId): set<Call> {
    set c | c in s.uploads && s.uploads[c].user == user && s.uploads[c].at.Admitted()
  }

  function Counted(s: State, user: UserId, task: TaskId): set<Call> {
    set c | c in s.uploads && s.uploads[c].user == user && s.uploads[c].task == task
            && s.uploads[c].at.PastCount()
  }

  /** What the accounting needs of the two stores, whatever minAge, grace and lostReply are. */
  ghost predicate LedgerInv(cfg: Config, s: State) {
    && s.rows.Keys <= s.issued.Keys
    && (forall k :: k in s.rows ==> s.rows[k].task in s.tasks)
    && (forall c :: c in s.uploads && s.uploads[c].at.HasBlob() ==>
          var p := s.uploads[c].at;
          p.key in s.issued && s.issued[p.key] == c && p.key !in s.rows)
    && (forall c :: c in s.uploads && s.uploads[c].at.Written? ==>
          s.uploads[c].at.written <= cfg.maxBytes)
  }

  /** Every admitted upload already holds its worst case against the byte bound. */
  ghost predicate WithinBytes(cfg: Config, s: State, user: UserId, k: nat) {
    TotalBytesForUser(s.tasks, s.rows, user) + |InFlight(s, user)| * cfg.maxBytes
    <= cfg.maxBytesPerUser - 1 + k * cfg.maxBytes
  }

  predicate WithinCount(s: State, user: UserId, task: TaskId, k: nat) {
    |RowsOfTask(s.tasks, s.rows, user, task)| + |Counted(s, user, task)| <= MAX_ATTACHMENTS_PER_TASK - 1 + k
  }

  lemma UploadStepKeepsLedger(cfg: Config, s: State, c: Call, op: UploadOp)
    requires LedgerInv(cfg, s) && c in s.uploads && UploadStep(cfg, s, c, op).Some?
    ensures LedgerInv(cfg, UploadStep(cfg, s, c, op).value)
  {
  }

  lemma {:induction false} StepKeepsLedger(cfg: Config, s: State, a: Action)
    requires LedgerInv(cfg, s) && Step(cfg, s, a).Some?
    ensures LedgerInv(cfg, Step(cfg, s, a).value)
  {
    if a.Uploading? && a.call in s.uploads { UploadStepKeepsLedger(cfg, s, a.call, a.up); }
  }

  // ---------- What one step can change ----------

  predicate Moves(s: State, a: Action, op: UploadOp) {
    a.Uploading? && a.call in s.uploads && a.up == op
  }

  predicate Creates(s: State, a: Action) {
    Moves(s, a, CreateRow) || Moves(s, a, CreateLosesReply)
  }

  /** No row of s' is new, and no task that already had rows changed hands. */
  predicate ShedsRows(s: State, s': State) {
    && (forall k :: k in s'.rows ==> k in s.rows && s'.rows[k] == s.rows[k])
    && (forall t :: t in s.tasks && t in s'.tasks ==> s'.tasks[t] == s.tasks[t])
  }

  /** Whoever is admitted in s' was already admitted in s. */
  predicate AdmitsNobody(s: State, s': State) {
    forall c :: c in s'.uploads && s'.uploads[c].at.Admitted() ==>
      c in s.uploads && s.uploads[c].at.Admitted() && s'.uploads[c].user == s.uploads[c].user
  }

  predicate CountsNobody(s: State, s': State) {
    forall c :: c in s'.uploads && s'.uploads[c].at.PastCount() ==>
      && c in s.uploads && s.uploads[c].at.PastCount()
      && s'.uploads[c].user == s.uploads[c].user && s'.uploads[c].task == s.uploads[c].task
  }

  /** The call that created its row is no longer admitted, and nothing else moved. */
  ghost predicate TradesForRow(s: State, s': State, c: Call)
    requires c in s.uploads && s.uploads[c].at.Written?
  {
    var u := s.uploads[c];
    && s'.rows == Inserted(s, u, u.at.key, u.at.written).rows
    && s'.tasks == s.tasks
    && (forall d :: d != c ==> (d in s'.uploads <==> d in s.uploads))
    && (forall d :: d in s'.uploads && d != c ==> s'.uploads[d] == s.uploads[d])
    && (c in s'.uploads ==> s'.uploads[c].at.Refused?)
  }

  lemma UploadStepShedsRows(cfg: Config, s: State, c: Call, op: UploadOp)
    requires c in s.uploads && UploadStep(cfg, s, c, op).Some?
    requires !op.CreateRow? && !op.CreateLosesReply?
    ensures ShedsRows(s, UploadStep(cfg, s, c, op).value)
  {
  }

  lemma UploadStepAdmitsNobody(cfg: Config, s: State, c: Call, op: UploadOp)
    requires c in s.uploads && UploadStep(cfg, s, c, op).Some? && !op.ReadQuota?
    ensures AdmitsNobody(s, UploadStep(cfg, s, c, op).value)
  {
  }

  lemma UploadStepCountsNobody(cfg: Config, s: State, c: Call, op: UploadOp)
    requires c in s.uploads && UploadStep(cfg, s, c, op).Some? && !op.ReadCount?
    ensures CountsNobody(s, UploadStep(cfg, s, c, op).value)
  {
  }

  lemma {:induction false} StepEffects(cfg: Config, s: State, a: Action)
    requires LedgerInv(cfg, s) && Step(cfg, s, a).Some? && !Creates(s, a)
    ensures ShedsRows(s, Step(cfg, s, a).value)
    ensures !Moves(s, a, ReadQuota) ==> AdmitsNobody(s, Step(cfg, s, a).value)
    ensures !Moves(s, a, ReadCount) ==> CountsNobody(s, Step(cfg, s, a).value)
  {
    if a.Uploading? && a.call in s.uploads {
      UploadStepShedsRows(cfg, s, a.call, a.up);
      if !a.up.ReadQuota? { UploadStepAdmitsNobody(cfg, s, a.call, a.up); }
      if !a.up.ReadCount? { UploadStepCountsNobody(cfg, s, a.call, a.up); }
    }
  }

  lemma TraderLeaves(s: State, s': State, c: Call, user: UserId, task: TaskId)
    requires c in s.uploads && s.uploads[c].at.Written? && TradesForRow(s, s', c)
    ensures InFlight(s', user) == InFlight(s, user) - {c}
    ensures Counted(s', user, task) == Counted(s, user, task) - {c}
  {
  }

  // ---------- Bytes ----------

  /** Creating the row trades a worst case for the bytes that were really written. */
  lemma CreateKeepsBytes(cfg: Config, s: State, s': State, c: Call, user: UserId, k: nat)
    requires LedgerInv(cfg, s) && WithinBytes(cfg, s, user, k)
    requires c in s.uploads && s.uploads[c].at.Written?
    requires Owns(s.tasks, s.uploads[c].user, s.uploads[c].task) && TradesForRow(s, s', c)
    ensures WithinBytes(cfg, s', user, k)
  {
    var u := s.uploads[c];
    RowAddsBytes(s.tasks, s.rows, u.at.key, Row(u.task, u.at.written), user);
    TraderLeaves(s, s', c, user, u.task);
    if u.user == user {
      assert c in InFlight(s, user);
      assert |InFlight(s, user)| * cfg.maxBytes
             == (|InFlight(s, user)| - 1) * cfg.maxBytes + cfg.maxBytes;
    } else {
      assert InFlight(s', user) == InFlight(s, user);
    }
  }

  lemma ReadQuotaKeepsBytes(cfg: Config, s: State, c: Call, user: UserId, k: nat)
    requires WithinBytes(cfg, s, user, k)
    requires c in s.uploads && UploadStep(cfg, s, c, ReadQuota).Some?
    requires |InFlight(UploadStep(cfg, s, c, ReadQuota).value, user)| <= k
    ensures WithinBytes(cfg, UploadStep(cfg, s, c, ReadQuota).value, user, k)
  {
    var s' := UploadStep(cfg, s, c, ReadQuota).value;
    assert BytesOf(s'.tasks, s'.rows, user) == BytesOf(s.tasks, s.rows, user);
    assert |InFlight(s', user)| * cfg.maxBytes <= k * cfg.maxBytes;
    if s.uploads[c].user != user { assert InFlight(s', user) == InFlight(s, user); }
  }

  lemma FewerKeepBytes(cfg: Config, s: State, s': State, user: UserId, k: nat)
    requires LedgerInv(cfg, s) && WithinBytes(cfg, s, user, k)
    requires ShedsRows(s, s') && LedgerInv(cfg, s') && AdmitsNobody(s, s')
    ensures WithinBytes(cfg, s', user, k)
  {
    TotalShrinks(BytesOf(s'.tasks, s'.rows, user), BytesOf(s.tasks, s.rows, user));
    SubsetSize(InFlight(s', user), InFlight(s, user));
    TimesGrows(|InFlight(s', user)|, |InFlight(s, user)|, cfg.maxBytes);
  }

  lemma TimesGrows(a: nat, b: nat, n: nat)
    requires a <= b
    ensures a * n <= b * n
  {
  }

  lemma StepKeepsBytes(cfg: Config, s: State, a: Action, user: UserId, k: nat)
    requires LedgerInv(cfg, s) && WithinBytes(cfg, s, user, k)
    requires Step(cfg, s, a).Some? && |InFlight(Step(cfg, s, a).value, user)| <= k
    ensures WithinBytes(cfg, Step(cfg, s, a).value, user, k)
  {
    if Creates(s, a) {
      CreateKeepsBytes(cfg, s, Step(cfg, s, a).value, a.call, user, k);
    } else if Moves(s, a, ReadQuota) {
      ReadQuotaKeepsBytes(cfg, s, a.call, user, k);
    } else {
      StepEffects(cfg, s, a);
      StepKeepsLedger(cfg, s, a);
      FewerKeepBytes(cfg, s, Step(cfg, s, a).value, user, k);
    }
  }

  // ---------- Rows of one task ----------

  lemma InsertAddsRow(tasks: Tasks, rows: Rows, key: Key, row: Row, user: UserId, task: TaskId)
    requires key !in rows
    ensures RowsOfTask(tasks, rows[key := row], user, task) == RowsOfTask(tasks, rows, user, task)
            + if Owns(tasks, user, task) && row.task == task then {key} else {}
  {
  }

  lemma CreateKeepsCount(cfg: Config, s: State, s': State, c: Call,
                         user: UserId, task: TaskId, k: nat)
    requires LedgerInv(cfg, s) && WithinCount(s, user, task, k)
    requires c in s.uploads && s.uploads[c].at.Written?
    requires Owns(s.tasks, s.uploads[c].user, s.uploads[c].task) && TradesForRow(s, s', c)
    ensures WithinCount(s', user, task, k)
  {
    var u := s.uploads[c];
    var mine := Owns(s.tasks, user, task) && u.task == task;
    InsertAddsRow(s.tasks, s.rows, u.at.key, Row(u.task, u.at.written), user, task);
    TraderLeaves(s, s', c, user, task);
    if mine { assert c in Counted(s, user, task); }
  }

  lemma ReadCountKeepsCount(cfg: Config, s: State, c: Call, user: UserId, task: TaskId, k: nat)
    requires WithinCount(s, user, task, k)
    requires c in s.uploads && UploadStep(cfg, s, c, ReadCount).Some?
    requires |InFlight(UploadStep(cfg, s, c, ReadCount).value, user)| <= k
    ensures WithinCount(UploadStep(cfg, s, c, ReadCount).value, user, task, k)
  {
    var s' := UploadStep(cfg, s, c, ReadCount).value;
    assert RowsOfTask(s'.tasks, s'.rows, user, task) == RowsOfTask(s.tasks, s.rows, user, task);
    SubsetSize(Counted(s', user, task), InFlight(s', user));
    if s.uploads[c].user != user || s.uploads[c].task != task {
      assert Counted(s', user, task) == Counted(s, user, task);
    }
  }

  lemma FewerKeepCount(cfg: Config, s: State, s': State, user: UserId, task: TaskId, k: nat)
    requires LedgerInv(cfg, s) && WithinCount(s, user, task, k)
    requires ShedsRows(s, s') && CountsNobody(s, s')
    ensures WithinCount(s', user, task, k)
  {
    SubsetSize(RowsOfTask(s'.tasks, s'.rows, user, task), RowsOfTask(s.tasks, s.rows, user, task));
    SubsetSize(Counted(s', user, task), Counted(s, user, task));
  }

  lemma StepKeepsCount(cfg: Config, s: State, a: Action, user: UserId, task: TaskId, k: nat)
    requires LedgerInv(cfg, s) && WithinCount(s, user, task, k)
    requires Step(cfg, s, a).Some? && |InFlight(Step(cfg, s, a).value, user)| <= k
    ensures WithinCount(Step(cfg, s, a).value, user, task, k)
  {
    if Creates(s, a) {
      CreateKeepsCount(cfg, s, Step(cfg, s, a).value, a.call, user, task, k);
    } else if Moves(s, a, ReadCount) {
      ReadCountKeepsCount(cfg, s, a.call, user, task, k);
    } else {
      StepEffects(cfg, s, a);
      FewerKeepCount(cfg, s, Step(cfg, s, a).value, user, task, k);
    }
  }

  // ---------- Whole runs ----------

  /** At most k of the user's uploads are between their check and their Create, all along. */
  ghost predicate AtMostInFlight(cfg: Config, s: State, actions: seq<Action>, user: UserId, k: nat)
    decreases |actions|
  {
    && |InFlight(s, user)| <= k
    && (actions != [] && Step(cfg, s, actions[0]).Some? ==>
          AtMostInFlight(cfg, Step(cfg, s, actions[0]).value, actions[1..], user, k))
  }

  lemma {:induction false} RunStaysWithin(cfg: Config, s: State, actions: seq<Action>,
                                          user: UserId, task: TaskId, k: nat)
    requires LedgerInv(cfg, s) && WithinBytes(cfg, s, user, k) && WithinCount(s, user, task, k)
    requires Run(cfg, s, actions).Some? && AtMostInFlight(cfg, s, actions, user, k)
    ensures WithinBytes(cfg, Run(cfg, s, actions).value, user, k)
    ensures WithinCount(Run(cfg, s, actions).value, user, task, k)
    decreases |actions|
  {
    if actions == [] {
    } else {
      StepKeepsLedger(cfg, s, actions[0]);
      StepKeepsBytes(cfg, s, actions[0], user, k);
      StepKeepsCount(cfg, s, actions[0], user, task, k);
      RunStaysWithin(cfg, Step(cfg, s, actions[0]).value, actions[1..], user, task, k);
    }
  }

  /** The overshoot both quota checks accept, over every interleaving with deletes and crashes. */
  lemma QuotaOvershoot(cfg: Config, actions: seq<Action>, user: UserId, task: TaskId, k: nat)
    requires cfg.maxBytesPerUser > 0
    requires Run(cfg, INIT, actions).Some? && AtMostInFlight(cfg, INIT, actions, user, k)
    ensures TotalBytesForUser(Run(cfg, INIT, actions).value.tasks, Run(cfg, INIT, actions).value.rows, user)
            <= cfg.maxBytesPerUser - 1 + k * cfg.maxBytes
    ensures |RowsOfTask(Run(cfg, INIT, actions).value.tasks, Run(cfg, INIT, actions).value.rows, user, task)|
            <= MAX_ATTACHMENTS_PER_TASK - 1 + k
  {
    assert BytesOf(map[], map[], user) == map[];
    assert InFlight(INIT, user) == {} && Counted(INIT, user, task) == {};
    RunStaysWithin(cfg, INIT, actions, user, task, k);
    assert |InFlight(Run(cfg, INIT, actions).value, user)| * cfg.maxBytes >= 0;
  }
}
