/**
 The per-user session cap under READ COMMITTED: CreateSession's transaction taken statement by
 statement, with any number of them and of session deletes running at once. A statement sees
 what was committed before it ran, plus what its own transaction did.
 */
module SessionCap {
  import opened Collections
  import opened UserModel

  type Tx = nat
  type LockKey = nat

  /** locking is off for the transaction as it was before the advisory lock. */
  datatype Config = Config(cap: nat, locking: bool, digests: map<UserId, LockKey>)

  /** The advisory lock's key: any finite run meets only the users that digests lists. */
  function Hashtext(cfg: Config, user: UserId): LockKey {
    if user in cfg.digests then cfg.digests[user] else user
  }

  datatype Progress =
    | Begun
    | Locked
    | Inserted
    | Evicted(victims: set<Hash>)

  datatype Txn = Txn(hash: Hash, session: Session, at: Progress)

  datatype State = State(
    sessions: Sessions,  // what is committed
    txns: map<Tx, Txn>,
    locks: map<LockKey, Tx>,
    issued: Sessions)  // every session ever begun

  const INIT := State(map[], map[], map[], map[])

  datatype Action =
    | Begin(tx: Tx, hash: Hash, session: Session)
    | Lock(tx: Tx)
    | Insert(tx: Tx)
    | Evict(tx: Tx, keep: set<Hash>)
    | Commit(tx: Tx)
    | Abort(tx: Tx)
    | Delete(gone: set<Hash>)  // any of the DELETE statements on sessions

  function Moved(s: State, tx: Tx, p: Progress): State
    requires tx in s.txns
  {
    s.(txns := s.txns[tx := s.txns[tx].(at := p)])
  }

  /** Ending a transaction releases its lock. */
  function Ended(s: State, tx: Tx): State {
    s.(txns := s.txns - {tx}, locks := map k | k in s.locks && s.locks[k] != tx :: s.locks[k])
  }

  function Visible(s: State, t: Txn): Sessions {
    s.sessions[t.hash := t.session]
  }

  /** What is committed once t, which evicted victims, commits in s. */
  function Survivors(s: State, t: Txn, victims: set<Hash>): Sessions {
    s.sessions[t.hash := t.session] - victims
  }

  ghost function Step(cfg: Config, s: State, a: Action): Option<State> {
    match a
    case Begin(tx, hash, session) =>
      if tx in s.txns || hash in s.issued then None
      else Some(s.(txns := s.txns[tx := Txn(hash, session, Begun)],
                   issued := s.issued[hash := session]))
    case Lock(tx) =>
      if tx in s.txns && s.txns[tx].at == Begun && cfg.locking
         && Hashtext(cfg, s.txns[tx].session.user) !in s.locks
      then Some(Moved(s, tx, Locked)
                .(locks := s.locks[Hashtext(cfg, s.txns[tx].session.user) := tx]))
      else None
    case Insert(tx) =>
      if tx in s.txns && s.txns[tx].at == (if cfg.locking then Locked else Begun)
      then Some(Moved(s, tx, Inserted)) else None
    case Evict(tx, keep) =>
      if tx in s.txns && s.txns[tx].at == Inserted
         && KeepsNewest(Visible(s, s.txns[tx]), s.txns[tx].session.user, keep, cfg.cap)
      then Some(Moved(s, tx,
                Evicted(MineIn(Visible(s, s.txns[tx]), s.txns[tx].session.user) - keep)))
      else None
    case Commit(tx) =>
      if tx in s.txns && s.txns[tx].at.Evicted?
      then Some(Ended(s, tx).(sessions := Survivors(s, s.txns[tx], s.txns[tx].at.victims)))
      else None
    case Abort(tx) => Some(Ended(s, tx))
    case Delete(gone) => Some(s.(sessions := s.sessions - gone))
  }

  ghost function Run(cfg: Config, s: State, actions: seq<Action>): Option<State>
    decreases |actions|
  {
    if actions == [] then Some(s)
    else
      match Run(cfg, s, actions[..|actions| - 1])
      case None => None
      case Some(s') => Step(cfg, s', actions[|actions| - 1])
  }

  ghost predicate Reachable(cfg: Config, s: State) {
    exists actions :: Run(cfg, INIT, actions) == Some(s)
  }

  ghost predicate Capped(cfg: Config, s: State) {
    forall user :: |MineIn(s.sessions, user)| <= cfg.cap
  }

  // ---------- The invariant, with the lock ----------

  predicate Holds(cfg: Config, s: State, tx: Tx, t: Txn) {
    var key := Hashtext(cfg, t.session.user);
    key in s.locks && s.locks[key] == tx
  }

  /** What tx knows: it holds the lock, and it has already made room for its own session. */
  ghost predicate TxnInv(cfg: Config, s: State, tx: Tx, t: Txn) {
    && t.hash in s.issued && s.issued[t.hash] == t.session
    && (t.at != Begun ==> Holds(cfg, s, tx, t))
    && (t.at.Evicted? ==>
          var left := MineIn(Survivors(s, t, t.at.victims), t.session.user);
          && |left| <= cfg.cap
          && (forall v :: v in t.at.victims ==>
                v in s.issued && s.issued[v].user == t.session.user)
          && (forall k, v :: k in left && v in t.at.victims ==>
                k in s.issued && s.issued[k].createdAt >= s.issued[v].createdAt))
  }

  ghost predicate TableInv(s: State) {
    forall h :: h in s.sessions ==> h in s.issued && s.issued[h] == s.sessions[h]
  }

  ghost predicate Inv(cfg: Config, s: State) {
    && TableInv(s)
    && Capped(cfg, s)
    && (forall tx :: tx in s.txns ==> TxnInv(cfg, s, tx, s.txns[tx]))
  }

  /** A transaction's knowledge rests on the table, the locks and the issued sessions alone. */
  lemma TxnUntouched(cfg: Config, s: State, s': State, tx: Tx)
    requires tx in s.txns && tx in s'.txns && s'.txns[tx] == s.txns[tx]
    requires TxnInv(cfg, s, tx, s.txns[tx])
    requires s'.sessions == s.sessions
    requires forall h :: h in s.issued ==> h in s'.issued && s'.issued[h] == s.issued[h]
    requires Holds(cfg, s, tx, s.txns[tx]) ==> Holds(cfg, s', tx, s.txns[tx])
    ensures TxnInv(cfg, s', tx, s'.txns[tx])
  {
  }

  lemma EvictMakesRoom(cfg: Config, s: State, tx: Tx, keep: set<Hash>)
    requires cfg.locking && Inv(cfg, s) && Step(cfg, s, Evict(tx, keep)).Some?
    ensures Inv(cfg, Step(cfg, s, Evict(tx, keep)).value)
  {
    var s' := Step(cfg, s, Evict(tx, keep)).value;
    var t := s'.txns[tx];
    assert MineIn(Survivors(s', t, t.at.victims), t.session.user) == keep;
    forall d | d in s'.txns ensures TxnInv(cfg, s', d, s'.txns[d]) {
      if d != tx { TxnUntouched(cfg, s, s', d); }
    }
  }

  /** The lock keeps every other transaction of the same user out of its critical section. */
  lemma OtherUserSurvives(cfg: Config, s: State, tx: Tx, other: Tx)
    requires cfg.locking && Inv(cfg, s)
    requires tx in s.txns && other in s.txns && tx != other
    requires s.txns[tx].at.Evicted? && s.txns[other].at.Evicted?
    ensures s.txns[tx].session.user != s.txns[other].session.user
  {
  }

  /** Committing t touches no session of a user other than its own. */
  lemma CommitIsOwn(s: State, t: Txn, victims: set<Hash>, user: UserId)
    requires TableInv(s) && t.hash in s.issued && s.issued[t.hash] == t.session
    requires forall v :: v in victims ==> v in s.issued && s.issued[v].user == t.session.user
    requires user != t.session.user
    ensures MineIn(Survivors(s, t, victims), user) == MineIn(s.sessions, user)
  {
  }

  lemma CommitKeepsTxn(cfg: Config, s: State, tx: Tx, d: Tx)
    requires cfg.locking && Inv(cfg, s) && Step(cfg, s, Commit(tx)).Some?
    requires d in s.txns && d != tx
    ensures TxnInv(cfg, Step(cfg, s, Commit(tx)).value, d, s.txns[d])
  {
    var s' := Step(cfg, s, Commit(tx)).value;
    var t, o := s.txns[tx], s.txns[d];
    if o.at.Evicted? {
      OtherUserSurvives(cfg, s, tx, d);
      CommitIsOwn(s, t, t.at.victims, o.session.user);
      assert MineIn(Survivors(s', o, o.at.victims), o.session.user)
             == MineIn(Survivors(s, o, o.at.victims), o.session.user) by {
        SurvivorsByUser(s, o, o.at.victims);
        SurvivorsByUser(s', o, o.at.victims);
      }
    }
  }

  lemma SurvivorsByUser(s: State, t: Txn, victims: set<Hash>)
    ensures MineIn(Survivors(s, t, victims), t.session.user)
            == MineIn(s.sessions, t.session.user) + {t.hash} - victims
  {
  }

  lemma {:induction false} CommitKeepsInv(cfg: Config, s: State, tx: Tx)
    requires cfg.locking && Inv(cfg, s) && Step(cfg, s, Commit(tx)).Some?
    ensures Inv(cfg, Step(cfg, s, Commit(tx)).value)
  {
    var s' := Step(cfg, s, Commit(tx)).value;
    var t := s.txns[tx];
    forall user ensures |MineIn(s'.sessions, user)| <= cfg.cap {
      if user != t.session.user { CommitIsOwn(s, t, t.at.victims, user); }
    }
    forall d | d in s'.txns ensures TxnInv(cfg, s', d, s'.txns[d]) {
      CommitKeepsTxn(cfg, s, tx, d);
    }
  }

  lemma {:induction false} DeleteKeepsInv(cfg: Config, s: State, gone: set<Hash>)
    requires Inv(cfg, s)
    ensures Inv(cfg, s.(sessions := s.sessions - gone))
  {
    var s' := s.(sessions := s.sessions - gone);
    forall user ensures |MineIn(s'.sessions, user)| <= cfg.cap {
      SubsetSize(MineIn(s'.sessions, user), MineIn(s.sessions, user));
    }
    forall tx | tx in s'.txns ensures TxnInv(cfg, s', tx, s'.txns[tx]) {
      var t := s.txns[tx];
      if t.at.Evicted? {
        SubsetSize(MineIn(Survivors(s', t, t.at.victims), t.session.user),
                   MineIn(Survivors(s, t, t.at.victims), t.session.user));
      }
    }
  }

  lemma OtherStepKeepsInv(cfg: Config, s: State, a: Action)
    requires cfg.locking && Inv(cfg, s) && Step(cfg, s, a).Some?
    requires a.Begin? || a.Lock? || a.Insert? || a.Abort?
    ensures Inv(cfg, Step(cfg, s, a).value)
  {
    var s' := Step(cfg, s, a).value;
    forall d | d in s'.txns ensures TxnInv(cfg, s', d, s'.txns[d]) {
      if d != a.tx { TxnUntouched(cfg, s, s', d); }
    }
  }

  lemma {:induction false} RunKeepsInv(cfg: Config, s: State, actions: seq<Action>)
    requires cfg.locking && Inv(cfg, s) && Run(cfg, s, actions).Some?
    ensures Inv(cfg, Run(cfg, s, actions).value)
    decreases |actions|
  {
    if actions != [] {
      var earlier, a := actions[..|actions| - 1], actions[|actions| - 1];
      RunKeepsInv(cfg, s, earlier);
      var t := Run(cfg, s, earlier).value;
      match a {
        case Evict(tx, keep) => EvictMakesRoom(cfg, t, tx, keep);
        case Commit(tx) => CommitKeepsInv(cfg, t, tx);
        case Delete(gone) => DeleteKeepsInv(cfg, t, gone);
        case _ => OtherStepKeepsInv(cfg, t, a);
      }
    }
  }

  lemma ReachableInv(cfg: Config, s: State)
    requires cfg.locking && Reachable(cfg, s)
    ensures Inv(cfg, s)
  {
    var actions :| Run(cfg, INIT, actions) == Some(s);
    assert forall user :: MineIn(INIT.sessions, user) == {};
    RunKeepsInv(cfg, INIT, actions);
  }

  /**
   What a commit leaves of its user is the newest, not necessarily the session it created:
   CreatedAt was stamped before the lock was taken.
   */
  lemma NewestSurvive(cfg: Config, s: State, tx: Tx)
    requires cfg.locking && Reachable(cfg, s) && Step(cfg, s, Commit(tx)).Some?
    ensures var user := s.txns[tx].session.user;
            var after := Step(cfg, s, Commit(tx)).value.sessions;
            forall kept, gone :: kept in MineIn(after, user)
              && gone in MineIn(Visible(s, s.txns[tx]), user) - MineIn(after, user)
              ==> Visible(s, s.txns[tx])[kept].createdAt >= Visible(s, s.txns[tx])[gone].createdAt
    ensures forall other :: other != s.txns[tx].session.user ==>
              MineIn(Step(cfg, s, Commit(tx)).value.sessions, other) == MineIn(s.sessions, other)
  {
    ReachableInv(cfg, s);
    var t := s.txns[tx];
    assert TxnInv(cfg, s, tx, t);
    forall other | other != t.session.user
      ensures MineIn(Survivors(s, t, t.at.victims), other) == MineIn(s.sessions, other)
    {
      CommitIsOwn(s, t, t.at.victims, other);
    }
  }

  // ---------- Without the lock ----------

  lemma Reach(cfg: Config, s: State, a: Action, s': State)
    requires Reachable(cfg, s) && Step(cfg, s, a) == Some(s')
    ensures Reachable(cfg, s')
  {
    var actions :| Run(cfg, INIT, actions) == Some(s);
    assert (actions + [a])[..|actions|] == actions;
    assert Run(cfg, INIT, actions + [a]) == Some(s');
  }

  const LOGIN := Session(0, 0, 0)

  function Logins(n: nat): Sessions {
    if n == 0 then map[] else Logins(n - 1)[n - 1 := LOGIN]
  }

  function Pending(done: nat, n: nat): map<Tx, Txn>
    decreases n
  {
    if n <= done then map[]
    else Pending(done, n - 1)[n - 1 := Txn(n - 1, LOGIN, Evicted({}))]
  }

  /** n logins of one user, all past their eviction, the first done of them committed. */
  function Overlapping(n: nat, done: nat): State {
    State(Logins(done), Pending(done, n), map[], Logins(n))
  }

  lemma {:induction false} LoginsAre(n: nat)
    ensures forall h: Hash :: h in Logins(n) <==> h < n
    ensures forall h :: h in Logins(n) ==> Logins(n)[h] == LOGIN
    ensures |MineIn(Logins(n), 0)| == n
  {
    if n == 0 {
      assert MineIn(Logins(0), 0) == {};
    } else {
      LoginsAre(n - 1);
      assert MineIn(Logins(n), 0) == MineIn(Logins(n - 1), 0) + {n - 1};
    }
  }

  lemma {:induction false} PendingAre(done: nat, n: nat)
    ensures forall tx :: tx in Pending(done, n) <==> done <= tx < n
    ensures forall tx :: tx in Pending(done, n) ==>
              Pending(done, n)[tx] == Txn(tx, LOGIN, Evicted({}))
    decreases n
  {
    if done < n { PendingAre(done, n - 1); }
  }

  /** A login that sees only its own session finds nothing to evict. */
  lemma OneMoreLogin(cfg: Config, n: nat)
    requires !cfg.locking && cfg.cap > 0 && Reachable(cfg, Overlapping(n, 0))
    ensures Reachable(cfg, Overlapping(n + 1, 0))
  {
    LoginsAre(n);
    PendingAre(0, n);
    var s0 := Overlapping(n, 0);
    var s1 := s0.(txns := s0.txns[n := Txn(n, LOGIN, Begun)], issued := s0.issued[n := LOGIN]);
    Reach(cfg, s0, Begin(n, n, LOGIN), s1);
    var s2 := Moved(s1, n, Inserted);
    Reach(cfg, s1, Insert(n), s2);
    var mine := MineIn(Visible(s2, s2.txns[n]), 0);
    assert mine == {n} && mine - {n} == {};
    var s3 := Moved(s2, n, Evicted({}));
    Reach(cfg, s2, Evict(n, {n}), s3);
    assert s3.txns == s0.txns[n := Txn(n, LOGIN, Evicted({}))];
  }

  lemma RestPending(done: nat, n: nat)
    requires done < n
    ensures done in Pending(done, n) && Pending(done, n)[done] == Txn(done, LOGIN, Evicted({}))
    ensures Pending(done, n) - {done} == Pending(done + 1, n)
  {
    PendingAre(done, n);
    PendingAre(done + 1, n);
  }

  lemma OneCommits(cfg: Config, n: nat, done: nat)
    requires done < n
    ensures Step(cfg, Overlapping(n, done), Commit(done)) == Some(Overlapping(n, done + 1))
  {
    RestPending(done, n);
    assert Step(cfg, Overlapping(n, done), Commit(done)).value.sessions == Logins(done + 1);
  }

  lemma OneMoreCommit(cfg: Config, n: nat, done: nat)
    requires done < n && Reachable(cfg, Overlapping(n, done))
    ensures Reachable(cfg, Overlapping(n, done + 1))
  {
    OneCommits(cfg, n, done);
    Reach(cfg, Overlapping(n, done), Commit(done), Overlapping(n, done + 1));
  }

  lemma {:induction false} AllLogIn(cfg: Config, n: nat)
    requires !cfg.locking && cfg.cap > 0
    ensures Reachable(cfg, Overlapping(n, 0))
  {
    if n == 0 {
      assert Run(cfg, INIT, []) == Some(INIT);
      assert Overlapping(0, 0) == INIT;
    } else {
      AllLogIn(cfg, n - 1);
      OneMoreLogin(cfg, n - 1);
    }
  }

  lemma {:induction false} AllCommit(cfg: Config, n: nat, done: nat)
    requires !cfg.locking && cfg.cap > 0 && done <= n
    ensures Reachable(cfg, Overlapping(n, done))
    decreases done
  {
    if done == 0 {
      AllLogIn(cfg, n);
    } else {
      AllCommit(cfg, n, done - 1);
      OneMoreCommit(cfg, n, done - 1);
    }
  }

  /** Without the advisory lock, any number of sessions of one user can end up committed. */
  lemma UnlockedHasNoCap(cfg: Config, n: nat)
    requires !cfg.locking && cfg.cap > 0
    ensures exists s :: Reachable(cfg, s) && |MineIn(s.sessions, 0)| == n
  {
    AllCommit(cfg, n, n);
    LoginsAre(n);
    assert |MineIn(Overlapping(n, n).sessions, 0)| == n;
  }

  /** The cap holds in every committed state of every interleaving exactly when the lock is taken. */
  lemma CapNeedsTheLock(cfg: Config)
    requires cfg.cap > 0
    ensures (forall s :: Reachable(cfg, s) ==> Capped(cfg, s)) <==> cfg.locking
  {
    if cfg.locking {
      forall s | Reachable(cfg, s) ensures Capped(cfg, s) { ReachableInv(cfg, s); }
    } else {
      UnlockedHasNoCap(cfg, cfg.cap + 1);
    }
  }

  // ---------- The session just created ----------

  /** The user's other visible sessions that t's own is no newer than. */
  function NoOlder(s: State, t: Txn): set<Hash> {
    set h | h in MineIn(Visible(s, t), t.session.user) && h != t.hash
            && Visible(s, t)[h].createdAt >= t.session.createdAt
  }

  lemma {:induction false} Oldest(sessions: Sessions, pool: set<Hash>) returns (o: Hash)
    requires pool != {} && pool <= sessions.Keys
    ensures o in pool && forall h :: h in pool ==> sessions[o].createdAt <= sessions[h].createdAt
    decreases pool
  {
    o :| o in pool;
    if pool != {o} {
      var rest := Oldest(sessions, pool - {o});
      if sessions[rest].createdAt <= sessions[o].createdAt { o := rest; }
    }
  }

  /** Any number of sessions can be kept so that no other is newer. */
  lemma {:induction false} NewestOf(sessions: Sessions, pool: set<Hash>, n: nat) returns (keep: set<Hash>)
    requires pool <= sessions.Keys && n <= |pool|
    ensures keep <= pool && |keep| == n
    ensures forall k, v :: k in keep && v in pool - keep ==>
              sessions[k].createdAt >= sessions[v].createdAt
    decreases |pool|
  {
    if |pool| == n {
      keep := pool;
    } else {
      var o := Oldest(sessions, pool);
      keep := NewestOf(sessions, pool - {o}, n);
    }
  }

  lemma DroppedHasNewer(cfg: Config, s: State, tx: Tx, keep: set<Hash>)
    requires Step(cfg, s, Evict(tx, keep)).Some? && s.txns[tx].hash !in keep
    ensures |NoOlder(s, s.txns[tx])| >= cfg.cap
  {
    var t := s.txns[tx];
    var mine := MineIn(Visible(s, t), t.session.user);
    assert t.hash in mine - keep;
    assert keep <= NoOlder(s, t);
    SubsetSize(keep, NoOlder(s, t));
    SubsetSize(keep, mine);
  }

  /** If every session of newer can be kept, nothing older than floor is among the newest. */
  lemma NewestAreNewer(
    sessions: Sessions, pool: set<Hash>, newer: set<Hash>, keep: set<Hash>, floor: Time)
    requires keep <= pool <= sessions.Keys && newer <= pool && |newer| >= |keep|
    requires forall h :: h in newer ==> sessions[h].createdAt >= floor
    requires forall k, v :: k in keep && v in pool - keep ==>
               sessions[k].createdAt >= sessions[v].createdAt
    ensures forall k :: k in keep ==> sessions[k].createdAt >= floor
  {
    forall k | k in keep ensures sessions[k].createdAt >= floor {
      if sessions[k].createdAt < floor {
        assert newer <= keep - {k};
        SubsetSize(newer, keep - {k});
      }
    }
  }

  lemma RoomWithout(s: State, t: Txn, n: nat)
    requires |NoOlder(s, t)| >= n
    ensures var others := MineIn(Visible(s, t), t.session.user) - {t.hash};
            NoOlder(s, t) <= others && n <= |others|
  {
    SubsetSize(NoOlder(s, t), MineIn(Visible(s, t), t.session.user) - {t.hash});
  }

  lemma NewestAreKept(sessions: Sessions, user: UserId, own: Hash, keep: set<Hash>, cap: nat)
    requires keep <= MineIn(sessions, user) - {own} && |keep| == cap && own in MineIn(sessions, user)
    requires forall k, v :: k in keep && v in MineIn(sessions, user) - {own} - keep ==>
               sessions[k].createdAt >= sessions[v].createdAt
    requires forall k :: k in keep ==> sessions[k].createdAt >= sessions[own].createdAt
    ensures KeepsNewest(sessions, user, keep, cap)
  {
    SubsetSize(keep, MineIn(sessions, user));
  }

  lemma NewerCanDrop(cfg: Config, s: State, tx: Tx) returns (keep: set<Hash>)
    requires tx in s.txns && s.txns[tx].at == Inserted
    requires |NoOlder(s, s.txns[tx])| >= cfg.cap
    ensures Step(cfg, s, Evict(tx, keep)).Some? && s.txns[tx].hash !in keep
  {
    var t := s.txns[tx];
    var visible := Visible(s, t);
    var mine := MineIn(visible, t.session.user);
    RoomWithout(s, t, cfg.cap);
    keep := NewestOf(visible, mine - {t.hash}, cfg.cap);
    NewestAreNewer(visible, mine - {t.hash}, NoOlder(s, t), keep, t.session.createdAt);
    NewestAreKept(visible, t.session.user, t.hash, keep, cfg.cap);
  }

  /**
   Whether a login can lose the session it has just inserted is settled before the eviction runs:
   it can if and only if at least cap other sessions of its user are no older.
   */
  lemma NewSessionCanBeEvicted(cfg: Config, s: State, tx: Tx)
    requires tx in s.txns && s.txns[tx].at == Inserted
    ensures (exists keep :: Step(cfg, s, Evict(tx, keep)).Some? && s.txns[tx].hash !in keep)
            <==> |NoOlder(s, s.txns[tx])| >= cfg.cap
  {
    if keep :| Step(cfg, s, Evict(tx, keep)).Some? && s.txns[tx].hash !in keep {
      DroppedHasNewer(cfg, s, tx, keep);
    }
    if |NoOlder(s, s.txns[tx])| >= cfg.cap {
      var keep := NewerCanDrop(cfg, s, tx);
    }
  }

  const STAMPED_EARLY := Session(0, 0, 0)
  const STAMPED_LATE := Session(0, 0, 1)

  function LateLogins(n: nat): Sessions {
    if n == 0 then map[] else LateLogins(n - 1)[n := STAMPED_LATE]
  }

  /** A login stamped early still waits for the lock, and n stamped later are committed. */
  function Waiting(n: nat): State {
    State(LateLogins(n), map[0 := Txn(0, STAMPED_EARLY, Begun)], map[],
          LateLogins(n)[0 := STAMPED_EARLY])
  }

  lemma {:induction false} LateLoginsAre(n: nat)
    ensures forall h: Hash :: h in LateLogins(n) <==> 1 <= h <= n
    ensures forall h: Hash :: h in LateLogins(n) ==> LateLogins(n)[h] == STAMPED_LATE
  {
    if n > 0 { LateLoginsAre(n - 1); }
  }

  lemma {:induction false} LateLoginsCount(n: nat)
    ensures MineIn(LateLogins(n), 0) == LateLogins(n).Keys && |LateLogins(n).Keys| == n
  {
    LateLoginsAre(n);
    if n > 0 {
      LateLoginsCount(n - 1);
      LateLoginsAre(n - 1);
      assert LateLogins(n).Keys == LateLogins(n - 1).Keys + {n};
    }
  }

  /** The same with login number i holding the lock, its own session inserted. */
  function Inside(cfg: Config, n: nat, i: Tx): State {
    var t := Txn(i, if i == 0 then STAMPED_EARLY else STAMPED_LATE, Inserted);
    State(LateLogins(n), Waiting(n).txns[i := t], map[Hashtext(cfg, 0) := i],
          Waiting(n).issued[i := t.session])
  }

  lemma LateLoginGetsInside(cfg: Config, n: nat)
    requires cfg.locking && Reachable(cfg, Waiting(n))
    ensures Reachable(cfg, Inside(cfg, n, n + 1))
  {
    LateLoginsAre(n);
    var i, key := n + 1, Hashtext(cfg, 0);
    var s0 := Waiting(n);
    var s1 := s0.(txns := s0.txns[i := Txn(i, STAMPED_LATE, Begun)], issued := s0.issued[i := STAMPED_LATE]);
    Reach(cfg, s0, Begin(i, i, STAMPED_LATE), s1);
    EntersLock(cfg, s1, i, key);
    assert s1.txns[i := Txn(i, STAMPED_LATE, Locked)][i := Txn(i, STAMPED_LATE, Inserted)]
           == Inside(cfg, n, i).txns;
  }

  lemma EntersLock(cfg: Config, s: State, i: Tx, key: LockKey)
    requires cfg.locking && Reachable(cfg, s) && s.locks == map[] && i in s.txns
    requires s.txns[i].at == Begun && key == Hashtext(cfg, s.txns[i].session.user)
    ensures var locked := Moved(s, i, Locked).(locks := map[key := i]);
            Reachable(cfg, Moved(locked, i, Inserted))
  {
    var locked := Moved(s, i, Locked).(locks := map[key := i]);
    assert s.locks[key := i] == map[key := i];
    Reach(cfg, s, Lock(i), locked);
    Reach(cfg, locked, Insert(i), Moved(locked, i, Inserted));
  }

  lemma LateLoginEvictsNothing(cfg: Config, n: nat)
    requires n < cfg.cap
    ensures Step(cfg, Inside(cfg, n, n + 1), Evict(n + 1, LateLogins(n + 1).Keys))
            == Some(Moved(Inside(cfg, n, n + 1), n + 1, Evicted({})))
  {
    LateLoginsCount(n + 1);
    var s := Inside(cfg, n, n + 1);
    assert Visible(s, s.txns[n + 1]) == LateLogins(n + 1);
    var mine := LateLogins(n + 1).Keys;
    assert mine - mine == {};
  }

  lemma LateLoginCommits(cfg: Config, n: nat)
    ensures Step(cfg, Moved(Inside(cfg, n, n + 1), n + 1, Evicted({})), Commit(n + 1))
            == Some(Waiting(n + 1))
  {
    var i := n + 1;
    var s := Moved(Inside(cfg, n, i), i, Evicted({}));
    assert s.txns - {i} == Waiting(n).txns;
    assert Survivors(s, s.txns[i], {}) == LateLogins(i);
    assert Ended(s, i).locks == map[];
    assert s.issued == Waiting(i).issued by {
      assert LateLogins(n)[0 := STAMPED_EARLY][i := STAMPED_LATE]
             == LateLogins(n)[i := STAMPED_LATE][0 := STAMPED_EARLY];
    }
  }

  /** One login after the other takes the lock, inserts, evicts nothing and commits. */
  lemma OneMoreLateLogin(cfg: Config, n: nat)
    requires cfg.locking && n < cfg.cap && Reachable(cfg, Waiting(n))
    ensures Reachable(cfg, Waiting(n + 1))
  {
    LateLoginGetsInside(cfg, n);
    LateLoginEvictsNothing(cfg, n);
    LateLoginCommits(cfg, n);
    var s := Moved(Inside(cfg, n, n + 1), n + 1, Evicted({}));
    Reach(cfg, Inside(cfg, n, n + 1), Evict(n + 1, LateLogins(n + 1).Keys), s);
    Reach(cfg, s, Commit(n + 1), Waiting(n + 1));
  }

  lemma {:induction false} ReachWaiting(cfg: Config, n: nat)
    requires cfg.locking && n <= cfg.cap
    ensures Reachable(cfg, Waiting(n))
  {
    if n == 0 {
      assert Run(cfg, INIT, []) == Some(INIT);
      Reach(cfg, INIT, Begin(0, 0, STAMPED_EARLY), Waiting(0));
    } else {
      ReachWaiting(cfg, n - 1);
      OneMoreLateLogin(cfg, n - 1);
    }
  }

  /** The login stamped early takes the lock last, and its commit drops its own session. */
  lemma CommitCanDropItsOwn(cfg: Config)
    requires cfg.locking && cfg.cap > 0
    ensures exists s, tx :: Reachable(cfg, s) && Step(cfg, s, Commit(tx)).Some?
              && s.txns[tx].hash !in Step(cfg, s, Commit(tx)).value.sessions
  {
    var n := cfg.cap;
    ReachWaiting(cfg, n);
    EntersLock(cfg, Waiting(n), 0, Hashtext(cfg, 0));
    EarlyLoginIsInside(cfg, n);
    EarlyLoginIsDropped(cfg, n);
    var s := Moved(Inside(cfg, n, 0), 0, Evicted({0}));
    Reach(cfg, Inside(cfg, n, 0), Evict(0, LateLogins(n).Keys), s);
    VictimsAreGone(cfg, s, 0);
  }

  lemma VictimsAreGone(cfg: Config, s: State, tx: Tx)
    requires tx in s.txns && s.txns[tx].at.Evicted?
    ensures Step(cfg, s, Commit(tx)).Some?
    ensures s.txns[tx].at.victims !! Step(cfg, s, Commit(tx)).value.sessions.Keys
  {
  }

  lemma EarlyLoginIsInside(cfg: Config, n: nat)
    ensures var locked := Moved(Waiting(n), 0, Locked).(locks := map[Hashtext(cfg, 0) := 0]);
            Moved(locked, 0, Inserted) == Inside(cfg, n, 0)
  {
    var t := Txn(0, STAMPED_EARLY, Begun);
    assert Waiting(n).txns[0 := t.(at := Locked)][0 := t.(at := Inserted)]
           == Waiting(n).txns[0 := t.(at := Inserted)];
    assert Waiting(n).issued[0 := STAMPED_EARLY] == Waiting(n).issued;
  }

  lemma EarlyLoginIsDropped(cfg: Config, n: nat)
    requires n == cfg.cap
    ensures Step(cfg, Inside(cfg, n, 0), Evict(0, LateLogins(n).Keys))
            == Some(Moved(Inside(cfg, n, 0), 0, Evicted({0})))
  {
    LateLoginsAre(n);
    LateLoginsCount(n);
    var s := Inside(cfg, n, 0);
    var visible, keep := Visible(s, s.txns[0]), LateLogins(n).Keys;
    assert MineIn(visible, 0) == keep + {0} && keep + {0} - keep == {0};
  }
}
