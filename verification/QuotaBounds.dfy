/** Runs that carry a user as far past both quota checks as they allow, so the bounds are exact. */
module QuotaBounds {
  import opened Collections
  import opened AttachmentProtocol
  import opened AttachmentQuota

  // ---------- Runs with at most k uploads in flight ----------

  /** Some run reaches s without user ever having more than k uploads in flight. */
  ghost predicate ReachedWithin(cfg: Config, user: UserId, k: nat, s: State) {
    exists actions :: Run(cfg, INIT, actions) == Some(s) && AtMostInFlight(cfg, INIT, actions, user, k)
  }

  lemma {:induction false} InFlightAppend(
    cfg: Config, s: State, actions: seq<Action>, a: Action, user: UserId, k: nat)
    requires Run(cfg, s, actions).Some? && AtMostInFlight(cfg, s, actions, user, k)
    requires var next := Step(cfg, Run(cfg, s, actions).value, a);
             next.Some? && |InFlight(next.value, user)| <= k
    ensures AtMostInFlight(cfg, s, actions + [a], user, k)
    decreases |actions|
  {
    if actions == [] {
      assert (actions + [a])[1..] == [];
    } else {
      assert (actions + [a])[1..] == actions[1..] + [a];
      InFlightAppend(cfg, Step(cfg, s, actions[0]).value, actions[1..], a, user, k);
    }
  }

  lemma Extend(cfg: Config, user: UserId, k: nat, s: State, a: Action, s': State)
    requires ReachedWithin(cfg, user, k, s) && Step(cfg, s, a) == Some(s')
    requires |InFlight(s', user)| <= k
    ensures ReachedWithin(cfg, user, k, s')
  {
    var actions :| Run(cfg, INIT, actions) == Some(s) && AtMostInFlight(cfg, INIT, actions, user, k);
    RunAppend(cfg, INIT, actions, a);
    InFlightAppend(cfg, INIT, actions, a, user, k);
  }

  // ---------- No upload in flight ----------

  ghost predicate Empty(s: State, user: UserId) {
    forall key :: key in s.rows ==> !Owns(s.tasks, user, s.rows[key].task)
  }

  lemma StepLetsNothingIn(cfg: Config, s: State, a: Action, user: UserId)
    requires LedgerInv(cfg, s) && Empty(s, user) && Step(cfg, s, a).Some? && InFlight(s, user) == {}
    ensures Empty(Step(cfg, s, a).value, user)
  {
    if Creates(s, a) {
      assert a.call !in InFlight(s, user);
    } else {
      StepEffects(cfg, s, a);
    }
  }

  lemma {:induction false} NothingGetsIn(cfg: Config, s: State, actions: seq<Action>, user: UserId)
    requires LedgerInv(cfg, s) && Empty(s, user)
    requires Run(cfg, s, actions).Some? && AtMostInFlight(cfg, s, actions, user, 0)
    ensures Empty(Run(cfg, s, actions).value, user)
    decreases |actions|
  {
    if actions != [] {
      StepKeepsLedger(cfg, s, actions[0]);
      StepLetsNothingIn(cfg, s, actions[0], user);
      NothingGetsIn(cfg, Step(cfg, s, actions[0]).value, actions[1..], user);
    }
  }

  // ---------- A family of states ----------

  /**
   One user's uploads in order: early ones of filler bytes, then ones of big bytes, all to task
   first if shared, else each to a task of its own from first on.
   */
  datatype Plan = Plan(
    user: UserId, first: TaskId, shared: bool, early: nat, filler: nat, big: nat)
  {
    function Task(i: nat): TaskId { if shared then first else first + i }

    function Size(i: nat): nat { if i < early then filler else big }
  }

  function TasksTo(plan: Plan, h: nat): Tasks {
    if h == 0 then map[] else TasksTo(plan, h - 1)[plan.first + h - 1 := plan.user]
  }

  function RowsTo(plan: Plan, r: nat): Rows {
    if r == 0 then map[] else RowsTo(plan, r - 1)[r - 1 := Row(plan.Task(r - 1), plan.Size(r - 1))]
  }

  function Zeros(r: nat): map<Key, Time> {
    if r == 0 then map[] else Zeros(r - 1)[r - 1 := 0]
  }

  function Issued(r: nat): map<Key, Call> {
    if r == 0 then map[] else Issued(r - 1)[r - 1 := r - 1]
  }

  function Below(r: nat): set<Key> {
    if r == 0 then {} else Below(r - 1) + {r - 1}
  }

  function AdmittedTo(plan: Plan, r: nat, h: nat): map<Call, Upload>
    decreases h
  {
    if h <= r then map[]
    else AdmittedTo(plan, r, h - 1)[h - 1 := Upload(plan.user, plan.Task(h - 1), CountRead)]
  }

  /** r uploads have their rows, and those from r up to h are past both checks. */
  function Filled(plan: Plan, r: nat, h: nat): State {
    State(0, TasksTo(plan, h), RowsTo(plan, r), Zeros(r), AdmittedTo(plan, r, h), map[], map[], Issued(r),
          Below(r))
  }

  lemma {:induction false} TasksAre(plan: Plan, h: nat)
    ensures forall t: TaskId :: t in TasksTo(plan, h) <==> plan.first <= t < plan.first + h
    ensures forall t: TaskId :: t in TasksTo(plan, h) ==> TasksTo(plan, h)[t] == plan.user
  {
    if h > 0 { TasksAre(plan, h - 1); }
  }

  lemma {:induction false} RowsAre(plan: Plan, r: nat)
    ensures forall key: Key :: key in RowsTo(plan, r) <==> key < r
    ensures forall key: Key :: key in RowsTo(plan, r) ==>
              RowsTo(plan, r)[key] == Row(plan.Task(key), plan.Size(key))
  {
    if r > 0 { RowsAre(plan, r - 1); }
  }

  lemma {:induction false} KeysAre(r: nat)
    ensures forall key: Key :: key in Issued(r) <==> key < r
    ensures forall key: Key :: key in Zeros(r) <==> key < r
    ensures forall key: Key :: key in Below(r) <==> key < r
    ensures |Below(r)| == r
  {
    if r > 0 { KeysAre(r - 1); }
  }

  lemma {:induction false} AdmittedAre(plan: Plan, r: nat, h: nat)
    ensures forall c: Call :: c in AdmittedTo(plan, r, h) <==> r <= c < h
    ensures forall c: Call :: c in AdmittedTo(plan, r, h) ==>
              AdmittedTo(plan, r, h)[c] == Upload(plan.user, plan.Task(c), CountRead)
    decreases h
  {
    if r < h { AdmittedAre(plan, r, h - 1); }
  }

  function Range(r: nat, h: nat): set<Call>
    decreases h
  {
    if h <= r then {} else Range(r, h - 1) + {h - 1}
  }

  lemma {:induction false} RangeIs(r: nat, h: nat)
    ensures forall c: Call :: c in Range(r, h) <==> r <= c < h
    ensures |Range(r, h)| == if h <= r then 0 else h - r
    decreases h
  {
    if r < h { RangeIs(r, h - 1); }
  }

  /** Calls r up to h are all the calls of uploads there is room for. */
  lemma FitsIn(s: State, user: UserId, r: nat, h: nat, k: nat)
    requires forall c :: c in s.uploads ==> r <= c < h
    requires r <= h <= r + k
    ensures |InFlight(s, user)| <= k
  {
    RangeIs(r, h);
    SubsetSize(InFlight(s, user), Range(r, h));
  }

  // ---------- Admitting one more ----------

  /** Upload h, about to be admitted, has got to p. */
  function Entering(plan: Plan, r: nat, h: nat, p: Progress): State {
    Filled(plan, r, h).(tasks := TasksTo(plan, h + 1),
                        uploads := AdmittedTo(plan, r, h)[h := Upload(plan.user, plan.Task(h), p)])
  }

  lemma EnteringFits(plan: Plan, r: nat, h: nat, p: Progress, k: nat)
    requires r <= h < r + k
    ensures |InFlight(Entering(plan, r, h, p), plan.user)| <= k
  {
    AdmittedAre(plan, r, h);
    FitsIn(Entering(plan, r, h, p), plan.user, r, h + 1, k);
  }

  lemma EnteringMoves(plan: Plan, r: nat, h: nat, p: Progress, q: Progress)
    ensures Moved(Entering(plan, r, h, p), h, q) == Entering(plan, r, h, q)
  {
    var uploads: map<Call, Upload> := AdmittedTo(plan, r, h);
    assert Entering(plan, r, h, p).uploads[h := Upload(plan.user, plan.Task(h), q)]
           == uploads[h := Upload(plan.user, plan.Task(h), q)];
  }

  ghost predicate HasRoom(cfg: Config, plan: Plan, r: nat, h: nat) {
    && TotalBytesForUser(TasksTo(plan, h + 1), RowsTo(plan, r), plan.user) < cfg.maxBytesPerUser
    && |RowsOfTask(TasksTo(plan, h + 1), RowsTo(plan, r), plan.user, plan.Task(h))| < MAX_ATTACHMENTS_PER_TASK
  }

  lemma Enters(cfg: Config, plan: Plan, r: nat, h: nat, k: nat)
    requires r <= h < r + k && ReachedWithin(cfg, plan.user, k, Filled(plan, r, h))
    ensures ReachedWithin(cfg, plan.user, k, Entering(plan, r, h, Started))
  {
    var s := Filled(plan, r, h);
    var t := s.(tasks := TasksTo(plan, h + 1));
    TasksAre(plan, h);
    AdmittedAre(plan, r, h);
    FitsIn(t, plan.user, r, h, k);
    Extend(cfg, plan.user, k, s, CreateTask(plan.first + h, plan.user), t);
    EnteringFits(plan, r, h, Started, k);
    Extend(cfg, plan.user, k, t, Uploading(h, Begin(plan.user, plan.Task(h))), Entering(plan, r, h, Started));
  }

  lemma AdmitsOne(cfg: Config, plan: Plan, r: nat, h: nat, k: nat)
    requires r <= h < r + k && ReachedWithin(cfg, plan.user, k, Filled(plan, r, h))
    requires HasRoom(cfg, plan, r, h)
    ensures ReachedWithin(cfg, plan.user, k, Filled(plan, r, h + 1))
  {
    Enters(cfg, plan, r, h, k);
    EnteringMoves(plan, r, h, Started, QuotaRead);
    EnteringFits(plan, r, h, QuotaRead, k);
    Extend(cfg, plan.user, k, Entering(plan, r, h, Started), Uploading(h, ReadQuota),
           Entering(plan, r, h, QuotaRead));
    EnteringMoves(plan, r, h, QuotaRead, CountRead);
    EnteringFits(plan, r, h, CountRead, k);
    Extend(cfg, plan.user, k, Entering(plan, r, h, QuotaRead), Uploading(h, ReadCount),
           Entering(plan, r, h, CountRead));
    assert Entering(plan, r, h, CountRead) == Filled(plan, r, h + 1);
  }

  // ---------- Finishing the oldest ----------

  /** Upload r has a blob and has got to p. */
  function Storing(plan: Plan, r: nat, h: nat, p: Progress): State {
    Filled(plan, r, h).(blobs := Zeros(r + 1), issued := Issued(r + 1),
                        uploads := AdmittedTo(plan, r, h)[r := Upload(plan.user, plan.Task(r), p)])
  }

  lemma StoringFits(plan: Plan, r: nat, h: nat, p: Progress, k: nat)
    requires r < h <= r + k
    ensures |InFlight(Storing(plan, r, h, p), plan.user)| <= k
  {
    AdmittedAre(plan, r, h);
    FitsIn(Storing(plan, r, h, p), plan.user, r, h, k);
  }

  lemma StoringMoves(plan: Plan, r: nat, h: nat, p: Progress, q: Progress)
    ensures Moved(Storing(plan, r, h, p), r, q) == Storing(plan, r, h, q)
  {
    var uploads: map<Call, Upload> := AdmittedTo(plan, r, h);
    assert Storing(plan, r, h, p).uploads[r := Upload(plan.user, plan.Task(r), q)]
           == uploads[r := Upload(plan.user, plan.Task(r), q)];
  }

  lemma BlobAppears(cfg: Config, plan: Plan, r: nat, h: nat)
    requires r < h
    ensures Step(cfg, Filled(plan, r, h), Uploading(r, CreateBlob(r)))
            == Some(Storing(plan, r, h, Writing(r, 0, 0)))
  {
    AdmittedAre(plan, r, h);
    KeysAre(r);
  }

  lemma BytesArrive(cfg: Config, plan: Plan, r: nat, h: nat, n: nat)
    requires n <= cfg.maxBytes
    ensures Step(cfg, Storing(plan, r, h, Writing(r, 0, 0)), Uploading(r, CopyBytes(n)))
            == Some(Storing(plan, r, h, Writing(r, 0, n)))
    ensures Step(cfg, Storing(plan, r, h, Writing(r, 0, n)), Uploading(r, FinishPut))
            == Some(Storing(plan, r, h, Written(r, 0, n)))
  {
    StoringMoves(plan, r, h, Writing(r, 0, 0), Writing(r, 0, n));
    assert Zeros(r + 1)[r := 0] == Zeros(r + 1);
    StoringMoves(plan, r, h, Writing(r, 0, n), Written(r, 0, n));
  }

  lemma Stores(cfg: Config, plan: Plan, r: nat, h: nat, k: nat)
    requires r < h <= r + k && ReachedWithin(cfg, plan.user, k, Filled(plan, r, h))
    requires plan.Size(r) <= cfg.maxBytes
    ensures ReachedWithin(cfg, plan.user, k, Storing(plan, r, h, Written(r, 0, plan.Size(r))))
  {
    var n := plan.Size(r);
    BlobAppears(cfg, plan, r, h);
    StoringFits(plan, r, h, Writing(r, 0, 0), k);
    Extend(cfg, plan.user, k, Filled(plan, r, h), Uploading(r, CreateBlob(r)),
           Storing(plan, r, h, Writing(r, 0, 0)));
    BytesArrive(cfg, plan, r, h, n);
    StoringFits(plan, r, h, Writing(r, 0, n), k);
    Extend(cfg, plan.user, k, Storing(plan, r, h, Writing(r, 0, 0)), Uploading(r, CopyBytes(n)),
           Storing(plan, r, h, Writing(r, 0, n)));
    StoringFits(plan, r, h, Written(r, 0, n), k);
    Extend(cfg, plan.user, k, Storing(plan, r, h, Writing(r, 0, n)), Uploading(r, FinishPut),
           Storing(plan, r, h, Written(r, 0, n)));
  }

  lemma RestAdmitted(plan: Plan, r: nat, h: nat, u: Upload)
    requires r < h
    ensures AdmittedTo(plan, r, h)[r := u] - {r} == AdmittedTo(plan, r + 1, h)
  {
    AdmittedAre(plan, r, h);
    AdmittedAre(plan, r + 1, h);
  }

  lemma RowArrives(cfg: Config, plan: Plan, r: nat, h: nat)
    requires r < h
    ensures Step(cfg, Storing(plan, r, h, Written(r, 0, plan.Size(r))), Uploading(r, CreateRow))
            == Some(Filled(plan, r + 1, h))
  {
    TasksAre(plan, h);
    RestAdmitted(plan, r, h, Upload(plan.user, plan.Task(r), Written(r, 0, plan.Size(r))));
  }

  lemma FinishesOne(cfg: Config, plan: Plan, r: nat, h: nat, k: nat)
    requires r < h <= r + k && ReachedWithin(cfg, plan.user, k, Filled(plan, r, h))
    requires plan.Size(r) <= cfg.maxBytes
    ensures ReachedWithin(cfg, plan.user, k, Filled(plan, r + 1, h))
  {
    Stores(cfg, plan, r, h, k);
    RowArrives(cfg, plan, r, h);
    AdmittedAre(plan, r + 1, h);
    FitsIn(Filled(plan, r + 1, h), plan.user, r + 1, h, k);
    Extend(cfg, plan.user, k, Storing(plan, r, h, Written(r, 0, plan.Size(r))), Uploading(r, CreateRow),
           Filled(plan, r + 1, h));
  }

  // ---------- The whole plan ----------

  /** Admissible all along: one by one while filling up, then with early rows stored. */
  ghost predicate Works(cfg: Config, plan: Plan) {
    && plan.filler <= cfg.maxBytes && plan.big <= cfg.maxBytes
    && (forall r: nat, h: nat :: r <= plan.early && r <= h && (r == h || r == plan.early) ==>
          HasRoom(cfg, plan, r, h))
  }

  lemma {:induction false} FillsUp(cfg: Config, plan: Plan, r: nat, k: nat)
    requires Works(cfg, plan) && k > 0 && r <= plan.early
    ensures ReachedWithin(cfg, plan.user, k, Filled(plan, r, r))
    decreases r
  {
    if r == 0 {
      assert Filled(plan, 0, 0) == INIT && InFlight(INIT, plan.user) == {};
      assert Run(cfg, INIT, []) == Some(INIT) && AtMostInFlight(cfg, INIT, [], plan.user, k);
    } else {
      FillsUp(cfg, plan, r - 1, k);
      AdmitsOne(cfg, plan, r - 1, r - 1, k);
      FinishesOne(cfg, plan, r - 1, r, k);
    }
  }

  lemma RoomAt(cfg: Config, plan: Plan, h: nat)
    requires Works(cfg, plan) && plan.early <= h
    ensures HasRoom(cfg, plan, plan.early, h)
  {
  }

  lemma AdmitsOneMore(cfg: Config, plan: Plan, h: nat, k: nat)
    requires Works(cfg, plan) && plan.early <= h < plan.early + k
    requires ReachedWithin(cfg, plan.user, k, Filled(plan, plan.early, h))
    ensures ReachedWithin(cfg, plan.user, k, Filled(plan, plan.early, h + 1))
  {
    RoomAt(cfg, plan, h);
    AdmitsOne(cfg, plan, plan.early, h, k);
  }

  lemma {:induction false} AdmitsAll(cfg: Config, plan: Plan, h: nat, k: nat)
    requires Works(cfg, plan) && k > 0 && plan.early <= h <= plan.early + k
    ensures ReachedWithin(cfg, plan.user, k, Filled(plan, plan.early, h))
    decreases h
  {
    if h == plan.early {
      FillsUp(cfg, plan, plan.early, k);
    } else {
      var g: nat := h - 1;
      AdmitsAll(cfg, plan, g, k);
      AdmitsOneMore(cfg, plan, g, k);
    }
  }

  lemma {:induction false} FinishesAll(cfg: Config, plan: Plan, r: nat, h: nat, k: nat)
    requires Works(cfg, plan) && k > 0 && h == plan.early + k && plan.early <= r <= h
    ensures ReachedWithin(cfg, plan.user, k, Filled(plan, r, h))
    decreases r
  {
    if r == plan.early {
      AdmitsAll(cfg, plan, h, k);
    } else {
      FinishesAll(cfg, plan, r - 1, h, k);
      FinishesOne(cfg, plan, r - 1, h, k);
    }
  }

  // ---------- Bytes ----------

  function SumTo(plan: Plan, r: nat): nat {
    if r == 0 then 0 else SumTo(plan, r - 1) + plan.Size(r - 1)
  }

  lemma OneMoreRow(plan: Plan, r: nat, h: nat)
    requires if plan.shared then h > 0 else r < h
    ensures TotalBytesForUser(TasksTo(plan, h), RowsTo(plan, r + 1), plan.user)
            == TotalBytesForUser(TasksTo(plan, h), RowsTo(plan, r), plan.user) + plan.Size(r)
  {
    RowsAre(plan, r);
    TasksAre(plan, h);
    RowAddsBytes(TasksTo(plan, h), RowsTo(plan, r), r, Row(plan.Task(r), plan.Size(r)), plan.user);
  }

  lemma {:induction false} FilledBytes(plan: Plan, r: nat, h: nat)
    requires if plan.shared then h > 0 else r <= h
    ensures TotalBytesForUser(TasksTo(plan, h), RowsTo(plan, r), plan.user) == SumTo(plan, r)
    decreases r
  {
    if r == 0 {
      assert BytesOf(TasksTo(plan, h), map[], plan.user) == map[];
    } else {
      FilledBytes(plan, r - 1, h);
      OneMoreRow(plan, r - 1, h);
    }
  }

  lemma {:induction false} SumOfEarly(plan: Plan, r: nat)
    requires r <= plan.early && plan.filler <= 1
    ensures SumTo(plan, r) == if plan.filler == 0 then 0 else r
  {
    if r > 0 { SumOfEarly(plan, r - 1); }
  }

  lemma {:induction false} SumOfLate(plan: Plan, j: nat)
    ensures SumTo(plan, plan.early + j) == SumTo(plan, plan.early) + j * plan.big
  {
    if j > 0 {
      SumOfLate(plan, j - 1);
      assert j * plan.big == (j - 1) * plan.big + plan.big;
    }
  }

  function BytesPlan(cfg: Config, user: UserId): Plan
    requires cfg.maxBytesPerUser > 0
  {
    Plan(user, 0, false, cfg.maxBytesPerUser - 1, 1, cfg.maxBytes)
  }

  lemma BytesPlanWorks(cfg: Config, user: UserId)
    requires cfg.maxBytesPerUser > 0 && cfg.maxBytes > 0
    ensures Works(cfg, BytesPlan(cfg, user))
  {
    var plan := BytesPlan(cfg, user);
    forall r: nat, h: nat | r <= plan.early && r <= h ensures HasRoom(cfg, plan, r, h) {
      FilledBytes(plan, r, h + 1);
      SumOfEarly(plan, r);
      RowsAre(plan, r);
      assert RowsOfTask(TasksTo(plan, h + 1), RowsTo(plan, r), plan.user, plan.Task(h)) == {};
    }
  }

  lemma PlanHolds(cfg: Config, user: UserId, k: nat)
    requires cfg.maxBytesPerUser > 0
    ensures var plan := BytesPlan(cfg, user);
            var s := Filled(plan, plan.early + k, plan.early + k);
            TotalBytesForUser(s.tasks, s.rows, user) == cfg.maxBytesPerUser - 1 + k * cfg.maxBytes
  {
    var plan := BytesPlan(cfg, user);
    FilledBytes(plan, plan.early + k, plan.early + k);
    SumOfEarly(plan, plan.early);
    SumOfLate(plan, k);
  }

  /** k uploads admitted one byte below the quota carry the user to the very bound. */
  lemma BytesBoundIsReached(cfg: Config, user: UserId, k: nat)
    requires cfg.maxBytesPerUser > 0 && cfg.maxBytes > 0 && k > 0
    ensures exists s :: ReachedWithin(cfg, user, k, s)
              && TotalBytesForUser(s.tasks, s.rows, user) == cfg.maxBytesPerUser - 1 + k * cfg.maxBytes
  {
    var plan := BytesPlan(cfg, user);
    BytesPlanWorks(cfg, user);
    FinishesAll(cfg, plan, plan.early + k, plan.early + k, k);
    PlanHolds(cfg, user, k);
    var s := Filled(plan, plan.early + k, plan.early + k);
    assert TotalBytesForUser(s.tasks, s.rows, user) == cfg.maxBytesPerUser - 1 + k * cfg.maxBytes;
  }

  /** How far k uploads in flight at most can carry a user; without any, nobody gets anywhere. */
  function MostBytes(cfg: Config, k: nat): int {
    if k == 0 then 0 else cfg.maxBytesPerUser - 1 + k * cfg.maxBytes
  }

  /**
   With at most k uploads of a user in flight all along, a bound on the user's bytes holds over all
   runs if and only if it is at least MostBytes.
   */
  lemma {:induction false} BytesBoundIsExact(cfg: Config, user: UserId, k: nat, bound: nat)
    requires cfg.maxBytesPerUser > 0 && cfg.maxBytes > 0
    ensures (forall s :: ReachedWithin(cfg, user, k, s) ==>
               TotalBytesForUser(s.tasks, s.rows, user) <= bound)
            <==> bound >= MostBytes(cfg, k)
  {
    if k > 0 { BytesBoundIsReached(cfg, user, k); }
    forall s | ReachedWithin(cfg, user, k, s)
      ensures TotalBytesForUser(s.tasks, s.rows, user) <= MostBytes(cfg, k)
    {
      var actions :| Run(cfg, INIT, actions) == Some(s) && AtMostInFlight(cfg, INIT, actions, user, k);
      if k > 0 {
        AttachmentQuota.QuotaOvershoot(cfg, actions, user, 0, k);
      } else {
        NothingGetsIn(cfg, INIT, actions, user);
        assert BytesOf(s.tasks, s.rows, user) == map[];
      }
    }
  }

  // ---------- Count ----------

  lemma SharedCount(plan: Plan, r: nat, h: nat)
    requires plan.shared && h > 0
    ensures |RowsOfTask(TasksTo(plan, h), RowsTo(plan, r), plan.user, plan.first)| == r
  {
    TasksAre(plan, h);
    RowsAre(plan, r);
    KeysAre(r);
    assert RowsOfTask(TasksTo(plan, h), RowsTo(plan, r), plan.user, plan.first) == Below(r);
  }

  /** k empty uploads admitted with 49 attachments in place carry a task to 49 + k. */
  lemma CountBoundIsReached(cfg: Config, user: UserId, task: TaskId, k: nat)
    requires cfg.maxBytesPerUser > 0 && k > 0
    ensures exists s :: ReachedWithin(cfg, user, k, s)
              && |RowsOfTask(s.tasks, s.rows, user, task)| == MAX_ATTACHMENTS_PER_TASK - 1 + k
  {
    var plan := Plan(user, task, true, MAX_ATTACHMENTS_PER_TASK - 1, 0, 0);
    forall r: nat, h: nat | r <= plan.early && r <= h ensures HasRoom(cfg, plan, r, h) {
      FilledBytes(plan, r, h + 1);
      SumOfEarly(plan, r);
      SharedCount(plan, r, h + 1);
    }
    FinishesAll(cfg, plan, plan.early + k, plan.early + k, k);
    var s := Filled(plan, plan.early + k, plan.early + k);
    SharedCount(plan, plan.early + k, plan.early + k);
    assert |RowsOfTask(s.tasks, s.rows, user, task)| == MAX_ATTACHMENTS_PER_TASK - 1 + k;
  }

  function MostRows(k: nat): nat {
    if k == 0 then 0 else 49 + k
  }

  /** The same for any one task's attachments and MostRows. */
  lemma CountBoundIsExact(cfg: Config, user: UserId, task: TaskId, k: nat, bound: nat)
    requires cfg.maxBytesPerUser > 0
    ensures (forall s :: ReachedWithin(cfg, user, k, s) ==>
               |RowsOfTask(s.tasks, s.rows, user, task)| <= bound)
            <==> bound >= MostRows(k)
  {
    if k > 0 { CountBoundIsReached(cfg, user, task, k); }
    forall s | ReachedWithin(cfg, user, k, s)
      ensures |RowsOfTask(s.tasks, s.rows, user, task)| <= MostRows(k)
    {
      var actions :| Run(cfg, INIT, actions) == Some(s) && AtMostInFlight(cfg, INIT, actions, user, k);
      if k > 0 {
        AttachmentQuota.QuotaOvershoot(cfg, actions, user, task, k);
      } else {
        NothingGetsIn(cfg, INIT, actions, user);
        assert RowsOfTask(s.tasks, s.rows, user, task) == {};
      }
    }
  }
}
