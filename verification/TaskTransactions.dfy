/**
 Update as PostgreSQL runs it: SELECT version FOR UPDATE, compare, UPDATE, COMMIT, statement by
 statement under READ COMMITTED against other updates and deletes. It refines the one-step
 compare-and-swap of TaskHistory, and without the row lock it loses updates.
 */
module TaskTransactions {
  import opened Collections
  import opened TaskModel
  import opened TaskHistory

  type Base = TaskHistory.State

  datatype Config = Config(rowLock: bool)

  /** affected is what UPDATE wrote, None where its WHERE clause matched no row. */
  datatype Stage = Begun | Selected | Updated(affected: Option<Task>)

  datatype Txn = Txn(task: Task, at: Time, stage: Stage)

  datatype State = Database(base: Base, txns: map<Call, Txn>, locks: map<TaskId, Call>)

  const INIT := Database(TaskHistory.INIT, map[], map[])

  datatype Action =
    | Client(step: TaskHistory.Action)  // the single statements Create, FindByID and Delete
    | Begin(call: Call, at: Time)
    | SelectVersion(call: Call)
    | ExecUpdate(call: Call)
    | Commit(call: Call)
    | Rollback(call: Call)  // also a crash at any point

  /** The SET list of the UPDATE; id, owner and creation time are not in it. */
  function UpdatedRow(row: Task, task: Task): Task {
    row.(title := task.title, description := task.description, status := task.status,
         priority := task.priority, updatedAt := task.updatedAt, version := row.version + 1)
  }

  predicate Free(s: State, c: Call, id: TaskId) {
    id !in s.locks || s.locks[id] == c
  }

  predicate Holds(s: State, c: Call, id: TaskId) {
    id in s.locks && s.locks[id] == c
  }

  function Staged(s: State, c: Call, stage: Stage): State
    requires c in s.txns
  {
    s.(txns := s.txns[c := s.txns[c].(stage := stage)])
  }

  /** Ends the transaction, whatever it left in base, and releases its row lock. */
  function Ended(s: State, c: Call, base: Base): State {
    Database(base, s.txns - {c},
             if c in s.txns && Holds(s, c, s.txns[c].task.id) then s.locks - {s.txns[c].task.id}
             else s.locks)
  }

  function SelectStep(cfg: Config, s: State, c: Call): Option<State>
    requires c in s.txns
  {
    var task := s.txns[c].task;
    if s.txns[c].stage != Begun then None
    else if !Owned(s.base.store, task.id, task.user) then Some(Ended(s, c, Dropped(s.base, c)))
    else if cfg.rowLock && !Free(s, c, task.id) then None
    else if s.base.store[task.id].version != task.version
    then Some(Ended(s, c, Dropped(s.base, c)))
    else
      var next := Staged(s, c, Selected);
      Some(if cfg.rowLock then next.(locks := next.locks[task.id := c]) else next)
  }

  function ExecStep(s: State, c: Call): Option<State>
    requires c in s.txns
  {
    var task := s.txns[c].task;
    if s.txns[c].stage != Selected then None
    else if !Owned(s.base.store, task.id, task.user) then Some(Staged(s, c, Updated(None)))
    else if !Free(s, c, task.id) then None
    else
      var row := UpdatedRow(s.base.store[task.id], task);
      Some(Staged(s, c, Updated(Some(row))).(locks := s.locks[task.id := c]))
  }

  function CommitStep(s: State, c: Call): Option<State>
    requires c in s.txns
  {
    var t := s.txns[c];
    if !t.stage.Updated? || c !in s.base.calls then None
    else
      var op := s.base.calls[c].op;
      match t.stage.affected
      case Some(row) =>
        if row.id !in s.base.history then None
        else Some(Ended(s, c, Dropped(Committed(s.base, row, op, t.at), c)))
      case None =>
        Some(Ended(s, c, Dropped(s.base.(log := s.base.log + [Ack(t.task.id, op, t.at)]), c)))
  }

  function Step(cfg: Config, s: State, a: Action): Option<State> {
    match a
    case Client(step) =>
      if step.Update? || step.Drop? || (step.Delete? && step.id in s.locks) then None
      else InBase(s, TaskHistory.Step(s.base, step))
    case Begin(c, at) =>
      if c !in s.base.calls || c in s.txns then None
      else
        var next := Compute(s.base.calls[c].op, s.base.calls[c].read, at);
        if next.Write? then Some(s.(txns := s.txns[c := Txn(next.task, at, Begun)]))
        else Some(s.(base := Dropped(s.base, c)))
    case SelectVersion(c) => if c in s.txns then SelectStep(cfg, s, c) else None
    case ExecUpdate(c) => if c in s.txns then ExecStep(s, c) else None
    case Commit(c) => if c in s.txns then CommitStep(s, c) else None
    case Rollback(c) => Some(Ended(s, c, Dropped(s.base, c)))
  }

  function InBase(s: State, base: Option<Base>): Option<State> {
    match base
    case None => None
    case Some(b) => Some(s.(base := b))
  }

  function Run(cfg: Config, s: State, actions: seq<Action>): Option<State>
    decreases |actions|
  {
    if actions == [] then Some(s)
    else
      match Run(cfg, s, actions[..|actions| - 1])
      case None => None
      case Some(s') => Step(cfg, s', actions[|actions| - 1])
  }

  ghost predicate Reachable(cfg: Config, s: State) {
    exists actions :: Run(cfg, INIT, actions) == Some(s)
  }

  // ---------- With the row lock: a refinement ----------

  /** What a transaction's stage says about the committed row it works on. */
  ghost predicate TxnInv(s: State, c: Call, t: Txn) {
    && c in s.base.calls
    && Compute(s.base.calls[c].op, s.base.calls[c].read, t.at) == Write(t.task)
    && (t.stage != Begun ==>
          && Holds(s, c, t.task.id)
          && Refusal(s.base.store, t.task).None?
          && t.task.id == s.base.store[t.task.id].id)
    && (t.stage.Updated? ==>
          t.stage.affected == Some(Replacement(s.base.store[t.task.id], t.task)))
  }

  ghost predicate Inv(s: State) {
    && TaskHistory.Inv(s.base) && LogKnown(s.base)
    && (forall c :: c in s.txns ==> TxnInv(s, c, s.txns[c]))
  }

  ghost predicate LatestRows(base: Base) {
    forall id :: id in base.store ==> id in base.history
  }

  /** The step of the compare-and-swap a statement amounts to, or None where it changes nothing yet. */
  function Abstract(s: State, a: Action): Option<TaskHistory.Action> {
    match a
    case Client(step) => Some(step)
    case Begin(c, at) =>
      if c in s.base.calls && !Compute(s.base.calls[c].op, s.base.calls[c].read, at).Write?
      then Some(Update(c, at)) else None
    case SelectVersion(c) =>
      if c in s.txns && Refusal(s.base.store, s.txns[c].task).Some?
      then Some(Update(c, s.txns[c].at)) else None
    case ExecUpdate(_) => None
    case Commit(c) => if c in s.txns then Some(Update(c, s.txns[c].at)) else None
    case Rollback(c) => Some(Drop(c))
  }

  ghost predicate Refines(s: State, a: Action, s': State) {
    match Abstract(s, a)
    case None => s'.base == s.base
    case Some(step) => TaskHistory.Step(s.base, step) == Some(s'.base)
  }

  lemma SelectRefines(cfg: Config, s: State, c: Call)
    requires Inv(s) && Step(cfg, s, SelectVersion(c)).Some?
    ensures Refines(s, SelectVersion(c), Step(cfg, s, SelectVersion(c)).value)
  {
    assert TxnInv(s, c, s.txns[c]);
  }

  /** Each statement is one step of the compare-and-swap on the committed tables, or none. */
  lemma StatementRefines(cfg: Config, s: State, a: Action)
    requires cfg.rowLock && Inv(s) && Step(cfg, s, a).Some?
    ensures Refines(s, a, Step(cfg, s, a).value)
  {
    if a.Commit? {
      CommitRefines(cfg, s, a.call);
    } else if a.SelectVersion? {
      SelectRefines(cfg, s, a.call);
    }
  }

  lemma CommitRefines(cfg: Config, s: State, c: Call)
    requires Inv(s) && Step(cfg, s, Commit(c)).Some?
    ensures Refines(s, Commit(c), Step(cfg, s, Commit(c)).value)
  {
  }

  lemma ClientKeepsTxn(cfg: Config, s: State, a: Action, d: Call, t: Txn)
    requires a.Client? && TxnInv(s, d, t) && LatestRows(s.base) && Step(cfg, s, a).Some?
    ensures TxnInv(Step(cfg, s, a).value, d, t)
  {
  }

  lemma StageKeepsTxn(cfg: Config, s: State, a: Action, d: Call, t: Txn)
    requires a.Begin? || a.SelectVersion? || a.ExecUpdate?
    requires cfg.rowLock && TxnInv(s, d, t) && d != a.call && Step(cfg, s, a).Some?
    ensures TxnInv(Step(cfg, s, a).value, d, t)
  {
  }

  /** The lock keeps d's row out of the hands of the transaction that ends. */
  lemma EndKeepsTxn(cfg: Config, s: State, a: Action, d: Call, t: Txn)
    requires a.Commit? || a.Rollback?
    requires TxnInv(s, d, t) && d != a.call && Step(cfg, s, a).Some?
    requires a.Commit? ==> a.call in s.txns && TxnInv(s, a.call, s.txns[a.call])
    ensures TxnInv(Step(cfg, s, a).value, d, t)
  {
  }

  lemma BeginKeepsTxn(cfg: Config, s: State, c: Call, at: Time)
    requires Step(cfg, s, Begin(c, at)).Some? && c in Step(cfg, s, Begin(c, at)).value.txns
    ensures var s' := Step(cfg, s, Begin(c, at)).value; TxnInv(s', c, s'.txns[c])
  {
  }

  lemma SelectKeepsTxn(cfg: Config, s: State, c: Call)
    requires cfg.rowLock && Inv(s) && Step(cfg, s, SelectVersion(c)).Some?
    requires c in Step(cfg, s, SelectVersion(c)).value.txns
    ensures var s' := Step(cfg, s, SelectVersion(c)).value; TxnInv(s', c, s'.txns[c])
  {
    assert TxnInv(s, c, s.txns[c]);
    var id := s.txns[c].task.id;
    assert Latest(s.base.history[id], s.base.store[id]);
    assert Chain(id, s.base.history[id], AcksOf(s.base.log, id));
  }

  lemma ExecKeepsTxn(cfg: Config, s: State, c: Call)
    requires cfg.rowLock && Inv(s) && Step(cfg, s, ExecUpdate(c)).Some?
    ensures var s' := Step(cfg, s, ExecUpdate(c)).value; c in s'.txns && TxnInv(s', c, s'.txns[c])
  {
    assert TxnInv(s, c, s.txns[c]);
  }

  lemma StageKeepsInv(cfg: Config, s: State, a: Action)
    requires cfg.rowLock && Inv(s) && Step(cfg, s, a).Some?
    requires a.Begin? || a.SelectVersion? || a.ExecUpdate?
    requires a.call in Step(cfg, s, a).value.txns
    ensures TxnInv(Step(cfg, s, a).value, a.call, Step(cfg, s, a).value.txns[a.call])
  {
    match a {
      case Begin(c, at) => BeginKeepsTxn(cfg, s, c, at);
      case SelectVersion(c) => SelectKeepsTxn(cfg, s, c);
      case ExecUpdate(c) => ExecKeepsTxn(cfg, s, c);
    }
  }

  lemma OtherTxnsKept(cfg: Config, s: State, a: Action, d: Call)
    requires Step(cfg, s, a).Some? && d in Step(cfg, s, a).value.txns
    requires a.Client? || d != a.call
    ensures d in s.txns && Step(cfg, s, a).value.txns[d] == s.txns[d]
  {
  }

  lemma BaseExtended(s: Base, step: TaskHistory.Action, s': Base)
    requires TaskHistory.Reachable(s) && TaskHistory.Step(s, step) == Some(s')
    ensures TaskHistory.Reachable(s')
  {
    var steps :| TaskHistory.Run(TaskHistory.INIT, steps) == Some(s);
    assert (steps + [step])[..|steps|] == steps;
    assert TaskHistory.Run(TaskHistory.INIT, steps + [step]) == Some(s');
  }

  lemma {:induction false} RunRefines(cfg: Config, actions: seq<Action>)
    requires cfg.rowLock && Run(cfg, INIT, actions).Some?
    ensures Inv(Run(cfg, INIT, actions).value)
    ensures TaskHistory.Reachable(Run(cfg, INIT, actions).value.base)
    decreases |actions|
  {
    if actions == [] {
      assert TaskHistory.Run(TaskHistory.INIT, []) == Some(TaskHistory.INIT);
    } else {
      var earlier, a := actions[..|actions| - 1], actions[|actions| - 1];
      RunRefines(cfg, earlier);
      var s := Run(cfg, INIT, earlier).value;
      var s' := Step(cfg, s, a).value;
      StatementRefines(cfg, s, a);
      if Abstract(s, a).Some? {
        TaskHistory.StepKeepsInv(s.base, Abstract(s, a).value);
        BaseExtended(s.base, Abstract(s, a).value, s'.base);
      }
      forall d | d in s'.txns ensures TxnInv(s', d, s'.txns[d]) {
        if a.Client? {
          OtherTxnsKept(cfg, s, a, d);
          ClientKeepsTxn(cfg, s, a, d, s.txns[d]);
        } else if a.call == d {
          assert !a.Commit? && !a.Rollback?;
          StageKeepsInv(cfg, s, a);
        } else {
          OtherTxnsKept(cfg, s, a, d);
          if a.Commit? || a.Rollback? {
            EndKeepsTxn(cfg, s, a, d, s.txns[d]);
          } else {
            StageKeepsTxn(cfg, s, a, d, s.txns[d]);
          }
        }
      }
    }
  }

  /** Whatever the transactions commit, the one-step compare-and-swap could have committed. */
  lemma TransactionsRefineCas(cfg: Config, s: State)
    requires cfg.rowLock && Reachable(cfg, s)
    ensures TaskHistory.Reachable(s.base)
  {
    var actions :| Run(cfg, INIT, actions) == Some(s);
    RunRefines(cfg, actions);
  }

  // ---------- Without it: a lost update ----------

  lemma Reach(cfg: Config, s: State, a: Action, s': State)
    requires Reachable(cfg, s) && Step(cfg, s, a) == Some(s')
    ensures Reachable(cfg, s')
  {
    var actions :| Run(cfg, INIT, actions) == Some(s);
    assert (actions + [a])[..|actions|] == actions;
    assert Run(cfg, INIT, actions + [a]) == Some(s');
  }

  const OPEN := Task(0, 0, 0, 0, Pending, Low, 0, 0, 1)
  const RETITLED := OPEN.(title := 1)
  const FINISHED := OPEN.(status := Done)
  const RETITLE := Edit(1, 0, None)
  const FINISH := Move(Done)

  lemma BothLoad(cfg: Config) returns (s: State)
    ensures Reachable(cfg, s) && s.txns == map[] && s.locks == map[]
    ensures s.base.store == map[0 := OPEN] && s.base.history == map[0 := [OPEN]]
    ensures s.base.calls == map[0 := Loaded(FINISH, OPEN), 1 := Loaded(RETITLE, OPEN)]
    ensures s.base.log == []
  {
    assert Run(cfg, INIT, []) == Some(INIT);
    s := Step(cfg, INIT, Client(Create(OPEN))).value;
    Reach(cfg, INIT, Client(Create(OPEN)), s);
    var loaded := Step(cfg, s, Client(Load(0, 0, 0, FINISH))).value;
    Reach(cfg, s, Client(Load(0, 0, 0, FINISH)), loaded);
    s := Step(cfg, loaded, Client(Load(1, 0, 0, RETITLE))).value;
    Reach(cfg, loaded, Client(Load(1, 0, 0, RETITLE)), s);
  }

  /** Both transactions see version 1 before either writes. */
  lemma BothSelect(cfg: Config) returns (s: State)
    requires !cfg.rowLock
    ensures Reachable(cfg, s) && s.locks == map[]
    ensures s.txns == map[0 := Txn(FINISHED, 0, Selected), 1 := Txn(RETITLED, 0, Selected)]
    ensures s.base.store == map[0 := OPEN] && s.base.history == map[0 := [OPEN]]
    ensures s.base.calls == map[0 := Loaded(FINISH, OPEN), 1 := Loaded(RETITLE, OPEN)]
    ensures s.base.log == []
  {
    s := BothLoad(cfg);
    var t := Step(cfg, s, Begin(0, 0)).value;
    Reach(cfg, s, Begin(0, 0), t);
    s := Step(cfg, t, SelectVersion(0)).value;
    Reach(cfg, t, SelectVersion(0), s);
    assert s.txns == map[0 := Txn(FINISHED, 0, Selected)];
    t := Step(cfg, s, Begin(1, 0)).value;
    Reach(cfg, s, Begin(1, 0), t);
    s := Step(cfg, t, SelectVersion(1)).value;
    Reach(cfg, t, SelectVersion(1), s);
  }

  lemma SecondOverwritesFirst(cfg: Config) returns (s: State)
    requires !cfg.rowLock
    ensures Reachable(cfg, s)
    ensures 0 in s.base.history
    ensures s.base.history[0] == [OPEN, FINISHED.(version := 2), RETITLED.(version := 3)]
    ensures s.base.log == [Ack(0, FINISH, 0), Ack(0, RETITLE, 0)]
  {
    s := BothSelect(cfg);
    var t := Step(cfg, s, ExecUpdate(0)).value;
    Reach(cfg, s, ExecUpdate(0), t);
    s := Step(cfg, t, Commit(0)).value;
    Reach(cfg, t, Commit(0), s);
    assert s.locks == map[] && s.txns == map[1 := Txn(RETITLED, 0, Selected)];
    t := Step(cfg, s, ExecUpdate(1)).value;
    Reach(cfg, s, ExecUpdate(1), t);
    assert t.txns[1].stage == Updated(Some(RETITLED.(version := 3)));
    s := Step(cfg, t, Commit(1)).value;
    Reach(cfg, t, Commit(1), s);
  }

  lemma AcksOfTwo(a: Ack, b: Ack)
    requires a.id == b.id
    ensures AcksOf([a, b], a.id) == [a, b]
  {
    assert [a, b][..1] == [a] && [a][..0] == [];
    assert AcksOf([a], a.id) == [a];
  }

  /**
   Every reachable history is a chain, each version made from the one before it, exactly when
   the SELECT locks the row it reads.
   */
  lemma ChainsNeedTheRowLock(cfg: Config)
    ensures (forall s :: Reachable(cfg, s) ==> Chained(s.base)) <==> cfg.rowLock
  {
    if cfg.rowLock {
      forall s | Reachable(cfg, s) ensures Chained(s.base) {
        TransactionsRefineCas(cfg, s);
        ReachableInv(s.base);
      }
    } else {
      var s := SecondOverwritesFirst(cfg);
      var versions, acks := s.base.history[0], AcksOf(s.base.log, 0);
      AcksOfTwo(Ack(0, FINISH, 0), Ack(0, RETITLE, 0));
      assert !Follows(versions[1], versions[1 + 1], acks[1].op, acks[1].at);
      assert !Chain(0, versions, acks);
    }
  }
}
