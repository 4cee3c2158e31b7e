/**
 Any number of clients reading a task, computing a change and writing it back if the version
 still matches, interleaved with creations and deletes.
 */
module TaskHistory {
  import opened Collections
  import opened TaskModel

  type Call = nat

  /** A call between its FindByID and its Update. */
  datatype Loaded = Loaded(op: Op, read: Task)

  /** A write that was acknowledged. */
  datatype Ack = Ack(id: TaskId, op: Op, at: Time)

  type History = map<TaskId, seq<Task>>

  datatype State = State(
    store: Tasks,
    history: History,  // every version of every task ever committed, deleted tasks included
    calls: map<Call, Loaded>,
    log: seq<Ack>)

  const INIT := State(map[], map[], map[], [])

  datatype Action =
    | Create(task: Task)
    | Load(call: Call, user: UserId, id: TaskId, op: Op)
    | Update(call: Call, at: Time)
    | Delete(user: UserId, id: TaskId)
    | Drop(call: Call)

  /** task becomes the latest version of its row. */
  function Committed(s: State, task: Task, op: Op, at: Time): State
    requires task.id in s.history
  {
    s.(store := s.store[task.id := task],
       history := s.history[task.id := s.history[task.id] + [task]],
       log := s.log + [Ack(task.id, op, at)])
  }

  function Dropped(s: State, c: Call): State {
    s.(calls := s.calls - {c})
  }

  /** A refused write, a change with nothing to do and an illegal transition all leave the store. */
  function UpdateStep(s: State, c: Call, at: Time): State
    requires c in s.calls
  {
    var call := s.calls[c];
    match Compute(call.op, call.read, at)
    case NothingToDo => Dropped(s, c)
    case Illegal => Dropped(s, c)
    case Write(task) =>
      if Refusal(s.store, task).None? && task.id in s.history
      then Dropped(Committed(s, Replacement(s.store[task.id], task), call.op, at), c)
      else Dropped(s, c)
  }

  function Step(s: State, a: Action): Option<State> {
    match a
    case Create(task) =>
      // Task IDs are random and never reused.
      if task.id in s.history then None
      else Some(s.(store := s.store[task.id := task.(version := 1)],
                   history := s.history[task.id := [task.(version := 1)]]))
    case Load(c, user, id, op) =>
      if c !in s.calls && Owned(s.store, id, user)
      then Some(s.(calls := s.calls[c := Loaded(op, s.store[id])]))
      else None
    case Update(c, at) => if c in s.calls then Some(UpdateStep(s, c, at)) else None
    case Delete(user, id) =>
      if Owned(s.store, id, user) then Some(s.(store := s.store - {id})) else None
    case Drop(c) => Some(Dropped(s, c))
  }

  function Run(s: State, actions: seq<Action>): Option<State>
    decreases |actions|
  {
    if actions == [] then Some(s)
    else
      match Run(s, actions[..|actions| - 1])
      case None => None
      case Some(s') => Step(s', actions[|actions| - 1])
  }

  ghost predicate Reachable(s: State) {
    exists actions :: Run(INIT, actions) == Some(s)
  }

  // ---------- What the history must look like ----------

  /** next is what op, applied at some instant to the version right before it, makes of that version. */
  predicate Follows(earlier: Task, next: Task, op: Op, at: Time) {
    && Compute(op, earlier, at).Write?
    && next == Compute(op, earlier, at).task.(version := earlier.version + 1)
  }

  function AcksOf(log: seq<Ack>, id: TaskId): seq<Ack> {
    if log == [] then []
    else
      var last := log[|log| - 1];
      AcksOf(log[..|log| - 1], id) + if last.id == id then [last] else []
  }

  /** The versions are a chain: one per acknowledged write, each made from the one before it. */
  ghost predicate Chain(id: TaskId, versions: seq<Task>, acks: seq<Ack>) {
    && |versions| == |acks| + 1
    && (forall i :: 0 <= i < |versions| ==> versions[i].id == id && versions[i].version == i + 1)
    && (forall i :: 0 <= i < |acks| ==>
          Follows(versions[i], versions[i + 1], acks[i].op, acks[i].at))
  }

  ghost predicate Chained(s: State) {
    forall id :: id in s.history ==> Chain(id, s.history[id], AcksOf(s.log, id))
  }

  predicate Latest(versions: seq<Task>, task: Task) {
    |versions| > 0 && task == versions[|versions| - 1]
  }

  predicate Known(history: History, task: Task) {
    task.id in history && 1 <= task.version <= |history[task.id]|
    && history[task.id][task.version - 1] == task
  }

  /** Histories only grow at the end. */
  ghost predicate Extends(earlier: History, later: History) {
    forall id :: id in earlier ==>
      id in later && |earlier[id]| <= |later[id]| && later[id][..|earlier[id]|] == earlier[id]
  }

  ghost predicate Inv(s: State) {
    && Chained(s)
    && (forall id :: id in s.store ==> id in s.history && Latest(s.history[id], s.store[id]))
    && (forall c :: c in s.calls ==> Known(s.history, s.calls[c].read))
  }

  lemma {:induction false} AcksOfNone(s: State, id: TaskId, n: nat)
    requires n <= |s.log| && forall i :: 0 <= i < n ==> s.log[i].id != id
    ensures AcksOf(s.log[..n], id) == []
  {
    if n > 0 {
      assert s.log[..n][..n - 1] == s.log[..n - 1];
      AcksOfNone(s, id, n - 1);
    }
  }

  /** An accepted write was computed from the latest version. */
  lemma AcceptedReadLatest(s: State, c: Call, at: Time)
    requires Inv(s) && c in s.calls && Compute(s.calls[c].op, s.calls[c].read, at).Write?
    requires Refusal(s.store, Compute(s.calls[c].op, s.calls[c].read, at).task).None?
    ensures s.calls[c].read == s.store[s.calls[c].read.id]
  {
  }

  lemma ChainGrows(id: TaskId, versions: seq<Task>, acks: seq<Ack>, task: Task, ack: Ack)
    requires Chain(id, versions, acks) && task.id == id
    requires Follows(versions[|acks|], task, ack.op, ack.at)
    ensures Chain(id, versions + [task], acks + [ack])
  {
  }

  lemma KnownGrows(calls: map<Call, Loaded>, earlier: History, later: History)
    requires forall c :: c in calls ==> Known(earlier, calls[c].read)
    requires Extends(earlier, later)
    ensures forall c :: c in calls ==> Known(later, calls[c].read)
  {
  }

  lemma {:induction false} CommitKeepsChain(s: State, task: Task, op: Op, at: Time, id: TaskId)
    requires Inv(s) && task.id in s.store && Follows(s.store[task.id], task, op, at)
    requires id in s.history
    ensures var s' := Committed(s, task, op, at);
            id in s'.history && Chain(id, s'.history[id], AcksOf(s'.log, id))
  {
    var s' := Committed(s, task, op, at);
    assert s'.log[..|s'.log| - 1] == s.log;
    assert Chain(id, s.history[id], AcksOf(s.log, id));
    if id == task.id {
      assert Latest(s.history[id], s.store[id]);
      ChainGrows(id, s.history[id], AcksOf(s.log, id), task, Ack(id, op, at));
    }
  }

  lemma CommitKeepsLatest(s: State, task: Task, op: Op, at: Time)
    requires Inv(s) && task.id in s.store
    ensures var s' := Committed(s, task, op, at);
            && Extends(s.history, s'.history)
            && forall id :: id in s'.store ==> id in s'.history && Latest(s'.history[id], s'.store[id])
  {
  }

  lemma CommitExtendsChain(s: State, task: Task, op: Op, at: Time)
    requires Inv(s) && task.id in s.store && Follows(s.store[task.id], task, op, at)
    ensures Inv(Committed(s, task, op, at))
  {
    var s' := Committed(s, task, op, at);
    forall id | id in s'.history ensures Chain(id, s'.history[id], AcksOf(s'.log, id)) {
      CommitKeepsChain(s, task, op, at, id);
    }
    CommitKeepsLatest(s, task, op, at);
    KnownGrows(s.calls, s.history, s'.history);
  }

  lemma {:induction false} UpdateKeepsInv(s: State, c: Call, at: Time)
    requires Inv(s) && c in s.calls
    ensures Inv(UpdateStep(s, c, at))
  {
    var call := s.calls[c];
    var next := Compute(call.op, call.read, at);
    if next.Write? && Refusal(s.store, next.task).None? {
      AcceptedReadLatest(s, c, at);
      CommitExtendsChain(s, Replacement(s.store[next.task.id], next.task), call.op, at);
    }
  }

  ghost predicate LogKnown(s: State) {
    forall i :: 0 <= i < |s.log| ==> s.log[i].id in s.history
  }

  lemma CreateStartsChain(s: State, task: Task)
    requires LogKnown(s) && task.id !in s.history
    ensures Chain(task.id, [task.(version := 1)], AcksOf(s.log, task.id))
  {
    AcksOfNone(s, task.id, |s.log|);
    assert s.log[..|s.log|] == s.log;
  }

  lemma {:induction false} CreateKeepsInv(s: State, task: Task)
    requires Inv(s) && LogKnown(s) && task.id !in s.history
    ensures Inv(Step(s, Create(task)).value)
  {
    var s' := Step(s, Create(task)).value;
    forall id | id in s'.history ensures Chain(id, s'.history[id], AcksOf(s'.log, id)) {
      if id in s.history {
        assert Chain(id, s.history[id], AcksOf(s.log, id));
      } else {
        CreateStartsChain(s, task);
      }
    }
    KnownGrows(s.calls, s.history, s'.history);
  }

  lemma LoadKeepsInv(s: State, a: Action)
    requires Inv(s) && a.Load? && Step(s, a).Some?
    ensures Inv(Step(s, a).value)
  {
  }

  lemma {:induction false} StepKeepsInv(s: State, a: Action)
    requires Inv(s) && LogKnown(s) && Step(s, a).Some?
    ensures Inv(Step(s, a).value) && LogKnown(Step(s, a).value)
  {
    if a.Update? {
      UpdateKeepsInv(s, a.call, a.at);
    } else if a.Create? {
      CreateKeepsInv(s, a.task);
    } else if a.Load? {
      LoadKeepsInv(s, a);
    }
  }

  lemma {:induction false} RunKeepsInv(s: State, actions: seq<Action>)
    requires Inv(s) && LogKnown(s) && Run(s, actions).Some?
    ensures Inv(Run(s, actions).value) && LogKnown(Run(s, actions).value)
    decreases |actions|
  {
    if actions != [] {
      RunKeepsInv(s, actions[..|actions| - 1]);
      StepKeepsInv(Run(s, actions[..|actions| - 1]).value, actions[|actions| - 1]);
    }
  }

  lemma ReachableInv(s: State)
    requires Reachable(s)
    ensures Inv(s) && LogKnown(s)
  {
    var actions :| Run(INIT, actions) == Some(s);
    RunKeepsInv(INIT, actions);
  }

  // ---------- The results ----------

  /** The state a list of acknowledged changes leaves a task in. */
  function Replay(first: Task, acks: seq<Ack>): Task {
    if acks == [] then first
    else
      var before := Replay(first, acks[..|acks| - 1]);
      var last := acks[|acks| - 1];
      var next := Compute(last.op, before, last.at);
      if next.Write? then next.task.(version := before.version + 1) else before
  }

  lemma {:induction false} ChainIsReplay(id: TaskId, versions: seq<Task>, acks: seq<Ack>)
    requires Chain(id, versions, acks)
    ensures versions[|acks|] == Replay(versions[0], acks)
    decreases |acks|
  {
    if acks != [] {
      var n := |acks| - 1;
      assert Chain(id, versions[..|acks|], acks[..n]);
      ChainIsReplay(id, versions[..|acks|], acks[..n]);
      assert Follows(versions[n], versions[n + 1], acks[n].op, acks[n].at);
    }
  }

  /**
   No update is lost: in every reachable state a stored task is the task as created with every
   acknowledged change applied in order, and its version counts them.
   */
  lemma {:induction false} NoUpdateIsLost(s: State, id: TaskId)
    requires Reachable(s) && id in s.store
    ensures id in s.history && |s.history[id]| > 0
    ensures s.store[id] == Replay(s.history[id][0], AcksOf(s.log, id))
    ensures s.store[id].version == 1 + |AcksOf(s.log, id)|
  {
    ReachableInv(s);
    assert Latest(s.history[id], s.store[id]);
    ChainIsReplay(id, s.history[id], AcksOf(s.log, id));
  }

  /** Each version is what the acknowledged write behind it makes of the version before. */
  lemma VersionsShowTheirWrites(s: State, id: TaskId, i: nat)
    requires Reachable(s) && id in s.history && i < |AcksOf(s.log, id)|
    ensures |s.history[id]| == |AcksOf(s.log, id)| + 1
    ensures var ack, a, b := AcksOf(s.log, id)[i], s.history[id][i], s.history[id][i + 1];
            match ack.op
            case Edit(title, description, priority) =>
              b == Task(a.id, a.user, title, description, a.status,
                        if priority.Some? then priority.value else a.priority,
                        a.createdAt, ack.at, a.version + 1)
            case Move(target) =>
              && target != a.status
              && b == Task(a.id, a.user, a.title, a.description, target, a.priority,
                           a.createdAt, ack.at, a.version + 1)
  {
    ReachableInv(s);
    var acks := AcksOf(s.log, id);
    assert Follows(s.history[id][i], s.history[id][i + 1], acks[i].op, acks[i].at);
  }

  /** Transitions leave a task's texts and priority alone, however many there are. */
  lemma {:induction false} MovesKeepTexts(s: State, id: TaskId, i: nat, j: nat)
    requires Reachable(s) && id in s.history && i <= j <= |AcksOf(s.log, id)|
    requires forall m :: i <= m < j ==> AcksOf(s.log, id)[m].op.Move?
    ensures |s.history[id]| == |AcksOf(s.log, id)| + 1
    ensures var a, b := s.history[id][i], s.history[id][j];
            b.title == a.title && b.description == a.description && b.priority == a.priority
    decreases j
  {
    ReachableInv(s);
    if i < j {
      MovesKeepTexts(s, id, i, j - 1);
      VersionsShowTheirWrites(s, id, j - 1);
    }
  }

  /** A stored task shows the title and description of the last acknowledged edit. */
  lemma LastEditShows(s: State, id: TaskId, k: nat)
    requires Reachable(s) && id in s.store && id in s.history && k < |AcksOf(s.log, id)|
    requires var acks := AcksOf(s.log, id);
             acks[k].op.Edit? && forall m :: k < m < |acks| ==> acks[m].op.Move?
    ensures s.store[id].title == AcksOf(s.log, id)[k].op.title
    ensures s.store[id].description == AcksOf(s.log, id)[k].op.description
    ensures AcksOf(s.log, id)[k].op.priority.Some? ==>
              s.store[id].priority == AcksOf(s.log, id)[k].op.priority.value
  {
    ReachableInv(s);
    VersionsShowTheirWrites(s, id, k);
    MovesKeepTexts(s, id, k + 1, |AcksOf(s.log, id)|);
    assert Latest(s.history[id], s.store[id]);
  }

  /**
   Along every task's history, what is done is never cancelled next, and what is cancelled stays so
   or becomes pending; identity, owner and creation time stay, and versions count up by one.
   */
  lemma HistoryIsLegal(s: State, id: TaskId, i: nat)
    requires Reachable(s) && id in s.history && i + 1 < |s.history[id]|
    ensures var a, b := s.history[id][i], s.history[id][i + 1];
            && (a.status == Done ==> b.status != Cancelled)
            && (a.status == Cancelled ==> b.status == Cancelled || b.status == Pending)
            && a.id == b.id && a.user == b.user && a.createdAt == b.createdAt
            && b.version == a.version + 1
  {
    ReachableInv(s);
    var acks := AcksOf(s.log, id);
    assert Follows(s.history[id][i], s.history[id][i + 1], acks[i].op, acks[i].at);
  }

  /** A cancelled task is worked on or done again only after it has been pending in between. */
  lemma {:induction false} ReopensThroughPending(s: State, id: TaskId, i: nat, j: nat)
    requires Reachable(s) && id in s.history && i < j < |s.history[id]|
    requires s.history[id][i].status == Cancelled
    requires s.history[id][j].status == InProgress || s.history[id][j].status == Done
    ensures exists k :: i < k < j && s.history[id][k].status == Pending
    decreases j - i
  {
    HistoryIsLegal(s, id, i);
    assert i + 1 < j;
    if s.history[id][i + 1].status != Pending { ReopensThroughPending(s, id, i + 1, j); }
  }

  /** A done task is cancelled only after it has been reopened in between. */
  lemma {:induction false} CancelledOnlyWhenOpen(s: State, id: TaskId, i: nat, j: nat)
    requires Reachable(s) && id in s.history && i < j < |s.history[id]|
    requires s.history[id][i].status == Done && s.history[id][j].status == Cancelled
    ensures exists k :: i < k < j
              && (s.history[id][k].status == Pending || s.history[id][k].status == InProgress)
    decreases j - i
  {
    HistoryIsLegal(s, id, i);
    assert i + 1 < j;
    if s.history[id][i + 1].status == Done { CancelledOnlyWhenOpen(s, id, i + 1, j); }
  }

  /** Owner and creation time are those of the first version, all along the history. */
  lemma {:induction false} OwnerNeverChanges(s: State, id: TaskId, i: nat)
    requires Reachable(s) && id in s.history && i < |s.history[id]|
    ensures s.history[id][i].user == s.history[id][0].user
    ensures s.history[id][i].createdAt == s.history[id][0].createdAt
  {
    if i > 0 {
      OwnerNeverChanges(s, id, i - 1);
      HistoryIsLegal(s, id, i - 1);
    }
  }

  // ---------- A version fixes a task's content ----------

  lemma StepExtends(s: State, a: Action)
    requires Inv(s) && Step(s, a).Some?
    ensures Extends(s.history, Step(s, a).value.history)
  {
  }

  lemma ExtendsTransitive(a: History, b: History, c: History)
    requires Extends(a, b) && Extends(b, c)
    ensures Extends(a, c)
  {
  }

  lemma {:induction false} RunExtends(s: State, actions: seq<Action>)
    requires Inv(s) && LogKnown(s) && Run(s, actions).Some?
    ensures Extends(s.history, Run(s, actions).value.history)
    decreases |actions|
  {
    if actions != [] {
      var earlier := Run(s, actions[..|actions| - 1]).value;
      RunExtends(s, actions[..|actions| - 1]);
      RunKeepsInv(s, actions[..|actions| - 1]);
      StepExtends(earlier, actions[|actions| - 1]);
      ExtendsTransitive(s.history, earlier.history, Run(s, actions).value.history);
    }
  }

  lemma StoredIsKnown(s: State, id: TaskId)
    requires Inv(s) && id in s.store
    ensures s.store[id].id == id && Known(s.history, s.store[id])
  {
    assert Chain(id, s.history[id], AcksOf(s.log, id));
  }

  lemma KnownSurvives(earlier: History, later: History, task: Task)
    requires Known(earlier, task) && Extends(earlier, later)
    ensures Known(later, task)
  {
    assert later[task.id][..|earlier[task.id]|][task.version - 1] == task;
  }

  lemma StaysKnown(s: State, actions: seq<Action>, id: TaskId)
    requires Reachable(s) && Run(s, actions).Some? && id in s.store
    ensures s.store[id].id == id && Known(Run(s, actions).value.history, s.store[id])
  {
    ReachableInv(s);
    RunExtends(s, actions);
    StoredIsKnown(s, id);
    KnownSurvives(s.history, Run(s, actions).value.history, s.store[id]);
  }

  /** Whenever two reads of one run see the same task at the same version, they see the same task. */
  lemma {:induction false} VersionFixesContent(s: State, actions: seq<Action>, a: Task, b: Task)
    requires Reachable(s) && Run(s, actions).Some?
    requires a.id in s.store && s.store[a.id] == a
    requires b.id in Run(s, actions).value.store && Run(s, actions).value.store[b.id] == b
    requires a.id == b.id && a.version == b.version
    ensures a == b
  {
    StaysKnown(s, actions, a.id);
    ReachableInv(s);
    RunKeepsInv(s, actions);
    StoredIsKnown(Run(s, actions).value, b.id);
  }
}
