/**
 Token validation against a session store that other processes also write, with the cache of
 one process in front. ValidateToken is split into its cache read, store read, expiry check
 and cache write; revocations into their store delete and cache delete. All of them interleave
 with logins, evictions, pruning and revocations made elsewhere.
 */
module Validation {
  import opened Collections
  import opened UserModel
  import opened TokenCache

  type Call = nat

  /** gap bounds the time from reading a session to caching it. */
  datatype Config = Config(ttl: nat, gap: nat)

  datatype Progress =
    | Missed(hash: Hash)
    | Read(hash: Hash, session: Session, readAt: Time)
    | Checked(hash: Hash, session: Session, readAt: Time)
    | Revoking(cut: Cut, known: set<Hash>)  // known: what had been issued at the store delete
  {
    predicate Holds(h: Hash) { (Read? || Checked?) && hash == h }
  }

  datatype Acceptance = Acceptance(hash: Hash, user: UserId, at: Time)

  datatype State = State(
    now: Time,
    sessions: Sessions,
    cache: Entries,
    calls: map<Call, Progress>,
    issued: Sessions,  // every session ever committed
    log: seq<Acceptance>)

  const INIT := State(0, map[], map[], map[], map[], [])

  datatype Action =
    | Tick
    | Issue(hash: Hash, session: Session)
    | StoreDelete(gone: set<Hash>)  // eviction, pruning, and revocations made elsewhere
    | ReadCache(call: Call, hash: Hash)
    | ReadStore(call: Call)
    | CheckExpiry(call: Call, deleteFails: bool)  // the outcome of deleting an expired session is ignored
    | WriteCache(call: Call)
    | RevokeStored(call: Call, cut: Cut)
    | RevokeCached(call: Call)
    | SweepCache
    | Crash(call: Call)

  function Accepted(s: State, h: Hash, user: UserId): State {
    s.(log := s.log + [Acceptance(h, user, s.now)])
  }

  function Step(cfg: Config, s: State, a: Action): Option<State> {
    match a
    case Tick => Some(s.(now := s.now + 1))
    case Issue(h, session) =>
      if h in s.issued then None
      else Some(s.(sessions := s.sessions[h := session], issued := s.issued[h := session]))
    case StoreDelete(gone) => Some(s.(sessions := s.sessions - gone))
    case ReadCache(c, h) =>
      if c in s.calls then None
      else
        var hit := Lookup(s.cache, h, s.now);
        Some(if hit.Some? then Accepted(s, h, hit.value)
             else s.(calls := s.calls[c := Missed(h)]))
    case ReadStore(c) =>
      if c in s.calls && s.calls[c].Missed? && s.calls[c].hash in s.sessions
      then var h := s.calls[c].hash;
           Some(s.(calls := s.calls[c := Read(h, s.sessions[h], s.now)]))
      else None
    case CheckExpiry(c, deleteFails) =>
      if c in s.calls && s.calls[c].Read? then
        var p := s.calls[c];
        if s.now > p.session.expiresAt
        then Some(s.(calls := s.calls - {c},
                     sessions := if deleteFails then s.sessions else s.sessions - {p.hash}))
        else Some(s.(calls := s.calls[c := Checked(p.hash, p.session, p.readAt)]))
      else None
    case WriteCache(c) =>
      if c in s.calls && s.calls[c].Checked? && s.now <= s.calls[c].readAt + cfg.gap
      then var p := s.calls[c];
           Some(Accepted(s, p.hash, p.session.user)
                .(cache := s.cache[p.hash := Entry(p.session.user, s.now + cfg.ttl)],
                  calls := s.calls - {c}))
      else None
    case RevokeStored(c, cut) =>
      if c in s.calls then None
      else Some(s.(sessions := UncutSessions(s.sessions, cut),
                   calls := s.calls[c := Revoking(cut, s.issued.Keys)]))
    case RevokeCached(c) =>
      if c in s.calls && s.calls[c].Revoking?
      then Some(s.(cache := UncutEntries(s.cache, s.calls[c].cut), calls := s.calls - {c}))
      else None
    case SweepCache => Some(s.(cache := AfterSweep(s.cache, s.now)))
    case Crash(c) => Some(s.(calls := s.calls - {c}))
  }

  function Run(cfg: Config, s: State, actions: seq<Action>): Option<State>
    decreases |actions|
  {
    if actions == [] then Some(s)
    else
      match Run(cfg, s, actions[..|actions| - 1])
      case None => None
      case Some(s') => Step(cfg, s', actions[|actions| - 1])
  }

  // ---------- Ownership ----------

  /** Every copy of a session, and every cache entry, names the owner its hash was issued to. */
  ghost predicate OwnersInv(s: State) {
    SessionsOwned(s) && EntriesOwned(s) && CopiesOwned(s)
  }

  ghost predicate SessionsOwned(s: State) {
    forall h :: h in s.sessions ==> h in s.issued && s.issued[h] == s.sessions[h]
  }

  ghost predicate EntriesOwned(s: State) {
    forall h :: h in s.cache ==> h in s.issued && s.issued[h].user == s.cache[h].user
  }

  ghost predicate CopiesOwned(s: State) {
    forall c :: c in s.calls && (s.calls[c].Read? || s.calls[c].Checked?) ==>
      s.calls[c].hash in s.issued && s.issued[s.calls[c].hash] == s.calls[c].session
  }

  /** What a pending revocation has already deleted stays deleted. */
  ghost predicate CutsInv(s: State) {
    forall c :: c in s.calls && s.calls[c].Revoking? ==>
      && s.calls[c].known <= s.issued.Keys
      && (forall h :: h in s.calls[c].known && Covers(s.calls[c].cut, h, s.issued[h].user)
            ==> h !in s.sessions)
  }

  lemma StepKeepsSessionsOwned(cfg: Config, s: State, a: Action)
    requires SessionsOwned(s) && Step(cfg, s, a).Some?
    ensures SessionsOwned(Step(cfg, s, a).value)
  {
  }

  lemma StepKeepsEntriesOwned(cfg: Config, s: State, a: Action)
    requires OwnersInv(s) && Step(cfg, s, a).Some?
    ensures EntriesOwned(Step(cfg, s, a).value)
  {
  }

  lemma StepKeepsCopiesOwned(cfg: Config, s: State, a: Action)
    requires OwnersInv(s) && Step(cfg, s, a).Some?
    ensures CopiesOwned(Step(cfg, s, a).value)
  {
  }

  lemma {:induction false} StepKeepsOwners(cfg: Config, s: State, a: Action)
    requires OwnersInv(s) && Step(cfg, s, a).Some?
    ensures OwnersInv(Step(cfg, s, a).value)
  {
    StepKeepsSessionsOwned(cfg, s, a);
    StepKeepsEntriesOwned(cfg, s, a);
    StepKeepsCopiesOwned(cfg, s, a);
  }

  lemma StepKeepsCuts(cfg: Config, s: State, a: Action)
    requires OwnersInv(s) && CutsInv(s) && Step(cfg, s, a).Some?
    ensures CutsInv(Step(cfg, s, a).value)
  {
  }

  lemma {:induction false} RunKeepsInv(cfg: Config, s: State, actions: seq<Action>)
    requires OwnersInv(s) && CutsInv(s) && Run(cfg, s, actions).Some?
    ensures OwnersInv(Run(cfg, s, actions).value) && CutsInv(Run(cfg, s, actions).value)
    decreases |actions|
  {
    if actions != [] {
      var earlier := actions[..|actions| - 1];
      RunKeepsInv(cfg, s, earlier);
      StepKeepsOwners(cfg, Run(cfg, s, earlier).value, actions[|actions| - 1]);
      StepKeepsCuts(cfg, Run(cfg, s, earlier).value, actions[|actions| - 1]);
    }
  }

  // ---------- Bounded staleness ----------

  /** The store held h for user, unexpired, when the run had got this far. */
  ghost predicate LiveAfter(cfg: Config, prefix: seq<Action>, h: Hash, user: UserId, since: int) {
    match Run(cfg, INIT, prefix)
    case None => false
    case Some(s) =>
      h in s.sessions && s.sessions[h].user == user && s.now <= s.sessions[h].expiresAt
      && since <= s.now
  }

  /** ... at some instant of the run no earlier than since. */
  ghost predicate LiveSince(cfg: Config, actions: seq<Action>, h: Hash, user: UserId, since: int) {
    exists k :: 0 <= k <= |actions| && LiveAfter(cfg, actions[..k], h, user, since)
  }

  /** The store returned session for h at exactly at. */
  ghost predicate ReadDuring(cfg: Config, actions: seq<Action>, h: Hash, session: Session, at: Time) {
    exists k :: 0 <= k <= |actions| && Run(cfg, INIT, actions[..k]).Some?
      && var s := Run(cfg, INIT, actions[..k]).value;
         h in s.sessions && s.sessions[h] == session && s.now == at
  }

  ghost predicate CacheKnown(cfg: Config, actions: seq<Action>, s: State) {
    forall h :: h in s.cache ==>
      LiveSince(cfg, actions, h, s.cache[h].user, s.cache[h].expiresAt - cfg.ttl - cfg.gap)
  }

  ghost predicate CallsKnown(cfg: Config, actions: seq<Action>, s: State) {
    forall c :: c in s.calls && (s.calls[c].Read? || s.calls[c].Checked?) ==>
      var p := s.calls[c];
      && ReadDuring(cfg, actions, p.hash, p.session, p.readAt) && p.readAt <= s.now
      && (p.Checked? ==> p.readAt <= p.session.expiresAt)
  }

  ghost predicate LogKnown(cfg: Config, actions: seq<Action>, s: State) {
    forall i :: 0 <= i < |s.log| ==>
      LiveSince(cfg, actions, s.log[i].hash, s.log[i].user, s.log[i].at - cfg.ttl - cfg.gap)
  }

  ghost predicate StaleInv(cfg: Config, actions: seq<Action>, s: State) {
    CacheKnown(cfg, actions, s) && CallsKnown(cfg, actions, s) && LogKnown(cfg, actions, s)
  }

  lemma LiveStays(cfg: Config, earlier: seq<Action>, a: Action, h: Hash, user: UserId, since: int)
    requires LiveSince(cfg, earlier, h, user, since)
    ensures LiveSince(cfg, earlier + [a], h, user, since)
  {
    var k :| 0 <= k <= |earlier| && LiveAfter(cfg, earlier[..k], h, user, since);
    assert (earlier + [a])[..k] == earlier[..k];
  }

  lemma ReadStays(cfg: Config, earlier: seq<Action>, a: Action, h: Hash, x: Session, at: Time)
    requires ReadDuring(cfg, earlier, h, x, at)
    ensures ReadDuring(cfg, earlier + [a], h, x, at)
  {
    var k :| 0 <= k <= |earlier| && Run(cfg, INIT, earlier[..k]).Some?
      && var s := Run(cfg, INIT, earlier[..k]).value;
         h in s.sessions && s.sessions[h] == x && s.now == at;
    assert (earlier + [a])[..k] == earlier[..k];
  }

  lemma ReadNow(cfg: Config, actions: seq<Action>, h: Hash)
    requires Run(cfg, INIT, actions).Some? && h in Run(cfg, INIT, actions).value.sessions
    ensures ReadDuring(cfg, actions, h, Run(cfg, INIT, actions).value.sessions[h],
                       Run(cfg, INIT, actions).value.now)
  {
    assert actions[..|actions|] == actions;
  }

  /** All that was known before a step is still known after it. */
  lemma KnownStays(cfg: Config, earlier: seq<Action>, a: Action, s: State)
    requires StaleInv(cfg, earlier, s)
    ensures StaleInv(cfg, earlier + [a], s)
  {
    forall h | h in s.cache
      ensures LiveSince(cfg, earlier + [a], h, s.cache[h].user,
                        s.cache[h].expiresAt - cfg.ttl - cfg.gap)
    {
      LiveStays(cfg, earlier, a, h, s.cache[h].user, s.cache[h].expiresAt - cfg.ttl - cfg.gap);
    }
    forall c | c in s.calls && (s.calls[c].Read? || s.calls[c].Checked?)
      ensures ReadDuring(cfg, earlier + [a], s.calls[c].hash, s.calls[c].session, s.calls[c].readAt)
    {
      ReadStays(cfg, earlier, a, s.calls[c].hash, s.calls[c].session, s.calls[c].readAt);
    }
    forall i | 0 <= i < |s.log|
      ensures LiveSince(cfg, earlier + [a], s.log[i].hash, s.log[i].user,
                        s.log[i].at - cfg.ttl - cfg.gap)
    {
      LiveStays(cfg, earlier, a, s.log[i].hash, s.log[i].user, s.log[i].at - cfg.ttl - cfg.gap);
    }
  }

  lemma StepKeepsCache(cfg: Config, actions: seq<Action>, s: State, a: Action)
    requires StaleInv(cfg, actions, s) && Step(cfg, s, a).Some?
    ensures CacheKnown(cfg, actions, Step(cfg, s, a).value)
  {
  }

  lemma StepKeepsLog(cfg: Config, actions: seq<Action>, s: State, a: Action)
    requires StaleInv(cfg, actions, s) && Step(cfg, s, a).Some?
    ensures LogKnown(cfg, actions, Step(cfg, s, a).value)
  {
    if a.WriteCache? {
    } else if a.ReadCache? && Lookup(s.cache, a.hash, s.now).Some? {
      var e := s.cache[a.hash];
    }
  }

  lemma LookupKeepsCalls(cfg: Config, actions: seq<Action>, s: State, a: Action)
    requires StaleInv(cfg, actions, s) && Step(cfg, s, a).Some?
    requires a.ReadStore? || a.CheckExpiry?
    requires forall h :: h in s.sessions ==> ReadDuring(cfg, actions, h, s.sessions[h], s.now)
    ensures CallsKnown(cfg, actions, Step(cfg, s, a).value)
  {
  }

  lemma OtherStepKeepsCalls(cfg: Config, actions: seq<Action>, s: State, a: Action)
    requires StaleInv(cfg, actions, s) && Step(cfg, s, a).Some?
    requires !a.ReadStore? && !a.CheckExpiry?
    ensures CallsKnown(cfg, actions, Step(cfg, s, a).value)
  {
  }

  lemma {:induction false} RunKeepsStale(cfg: Config, actions: seq<Action>)
    requires Run(cfg, INIT, actions).Some?
    ensures StaleInv(cfg, actions, Run(cfg, INIT, actions).value)
    decreases |actions|
  {
    if actions != [] {
      var earlier, a := actions[..|actions| - 1], actions[|actions| - 1];
      var s := Run(cfg, INIT, earlier).value;
      RunKeepsStale(cfg, earlier);
      KnownStays(cfg, earlier, a, s);
      assert earlier + [a] == actions;
      forall h | h in s.sessions ensures ReadDuring(cfg, actions, h, s.sessions[h], s.now) {
        ReadNow(cfg, earlier, h);
        ReadStays(cfg, earlier, a, h, s.sessions[h], s.now);
      }
      StepKeepsCache(cfg, actions, s, a);
      if a.ReadStore? || a.CheckExpiry? {
        LookupKeepsCalls(cfg, actions, s, a);
      } else {
        OtherStepKeepsCalls(cfg, actions, s, a);
      }
      StepKeepsLog(cfg, actions, s, a);
    }
  }

  /**
   A token accepted at any point of any run had an unexpired session of that user in the store
   at some instant of the run no earlier than ttl plus gap before. With gap at zero, lookup and
   caching being one instant, the bound is ttl.
   */
  lemma StalenessIsBounded(cfg: Config, actions: seq<Action>, i: nat)
    requires Run(cfg, INIT, actions).Some? && i < |Run(cfg, INIT, actions).value.log|
    ensures var accepted := Run(cfg, INIT, actions).value.log[i];
            LiveSince(cfg, actions, accepted.hash, accepted.user,
                      accepted.at - cfg.ttl - cfg.gap)
  {
    RunKeepsStale(cfg, actions);
  }

  // ---------- The bound is exact ----------

  ghost predicate BoundedBy(cfg: Config, bound: nat) {
    forall actions: seq<Action>, i: nat ::
      Run(cfg, INIT, actions).Some? && i < |Run(cfg, INIT, actions).value.log| ==>
        var accepted := Run(cfg, INIT, actions).value.log[i];
        LiveSince(cfg, actions, accepted.hash, accepted.user, accepted.at - bound)
  }

  const BRIEF := Session(0, 0, 0)

  function Ticks(n: nat): seq<Action> {
    if n == 0 then [] else Ticks(n - 1) + [Tick]
  }

  /** A token read just before it expires and cached as late as the gap allows. */
  function SlowCall(cfg: Config): seq<Action> {
    [Issue(0, BRIEF), ReadCache(0, 0), ReadStore(0), CheckExpiry(0, false)] + Ticks(cfg.gap)
    + [WriteCache(0)]
  }

  function LatestUse(cfg: Config): seq<Action> {
    SlowCall(cfg) + Ticks(cfg.ttl) + [ReadCache(0, 0)]
  }

  lemma RunStep(cfg: Config, s: State, actions: seq<Action>, a: Action)
    requires Run(cfg, s, actions).Some?
    ensures Run(cfg, s, actions + [a]) == Step(cfg, Run(cfg, s, actions).value, a)
  {
  }

  lemma RunTick(cfg: Config, s: State, actions: seq<Action>)
    requires Run(cfg, s, actions).Some?
    ensures var before := Run(cfg, s, actions).value;
            Run(cfg, s, actions + [Tick]) == Some(before.(now := before.now + 1))
  {
    RunStep(cfg, s, actions, Tick);
  }

  lemma {:induction false} RunTicks(cfg: Config, s: State, actions: seq<Action>, n: nat)
    requires Run(cfg, s, actions).Some?
    ensures var before := Run(cfg, s, actions).value;
            Run(cfg, s, actions + Ticks(n)) == Some(before.(now := before.now + n))
  {
    if n == 0 {
      assert actions + Ticks(0) == actions;
    } else {
      RunTicks(cfg, s, actions, n - 1);
      assert actions + Ticks(n) == actions + Ticks(n - 1) + [Tick];
      RunTick(cfg, s, actions + Ticks(n - 1));
    }
  }

  lemma BriefIsChecked(cfg: Config)
    ensures var checked := [Issue(0, BRIEF), ReadCache(0, 0), ReadStore(0), CheckExpiry(0, false)];
            Run(cfg, INIT, checked) == Some(State(0, map[0 := BRIEF], map[],
              map[0 := Checked(0, BRIEF, 0)], map[0 := BRIEF], []))
  {
    var s1 := State(0, map[0 := BRIEF], map[], map[], map[0 := BRIEF], []);
    RunStep(cfg, INIT, [], Issue(0, BRIEF));
    assert Run(cfg, INIT, [Issue(0, BRIEF)]) == Some(s1) by {
      assert [] + [Issue(0, BRIEF)] == [Issue(0, BRIEF)];
    }
    var a2 := [Issue(0, BRIEF)] + [ReadCache(0, 0)];
    RunStep(cfg, INIT, [Issue(0, BRIEF)], ReadCache(0, 0));
    var s2 := s1.(calls := map[0 := Missed(0)]);
    assert Run(cfg, INIT, a2) == Some(s2);
    var s3 := s2.(calls := map[0 := Read(0, BRIEF, 0)]);
    RunStep(cfg, INIT, a2, ReadStore(0));
    assert s2.calls[0 := Read(0, BRIEF, 0)] == s3.calls;
    assert Run(cfg, INIT, a2 + [ReadStore(0)]) == Some(s3);
    RunStep(cfg, INIT, a2 + [ReadStore(0)], CheckExpiry(0, false));
    assert s3.calls[0 := Checked(0, BRIEF, 0)] == map[0 := Checked(0, BRIEF, 0)];
    assert Step(cfg, s3, CheckExpiry(0, false)) == Some(s3.(calls := map[0 := Checked(0, BRIEF, 0)]));
    assert a2 + [ReadStore(0)] + [CheckExpiry(0, false)]
           == [Issue(0, BRIEF), ReadCache(0, 0), ReadStore(0), CheckExpiry(0, false)];
  }

  lemma SlowWrite(cfg: Config)
    ensures Step(cfg, State(cfg.gap, map[0 := BRIEF], map[], map[0 := Checked(0, BRIEF, 0)],
                            map[0 := BRIEF], []), WriteCache(0))
            == Some(State(cfg.gap, map[0 := BRIEF], map[0 := Entry(0, cfg.gap + cfg.ttl)], map[],
                          map[0 := BRIEF], [Acceptance(0, 0, cfg.gap)]))
  {
    var none: Entries := map[];
    assert none[0 := Entry(0, cfg.gap + cfg.ttl)] == map[0 := Entry(0, cfg.gap + cfg.ttl)];
    var calls: map<Call, Progress> := map[0 := Checked(0, BRIEF, 0)];
    assert calls - {0} == map[];
    var s := State(cfg.gap, map[0 := BRIEF], none, calls, map[0 := BRIEF], []);
    assert s.now <= s.calls[0].readAt + cfg.gap;
    assert Step(cfg, s, WriteCache(0)).value.log == [Acceptance(0, 0, cfg.gap)];
  }

  lemma {:induction false} SlowCallIsAccepted(cfg: Config)
    ensures Run(cfg, INIT, SlowCall(cfg))
            == Some(State(cfg.gap, map[0 := BRIEF], map[0 := Entry(0, cfg.gap + cfg.ttl)], map[],
                          map[0 := BRIEF], [Acceptance(0, 0, cfg.gap)]))
  {
    var checked := [Issue(0, BRIEF), ReadCache(0, 0), ReadStore(0), CheckExpiry(0, false)];
    BriefIsChecked(cfg);
    RunTicks(cfg, INIT, checked, cfg.gap);
    SlowWrite(cfg);
    RunStep(cfg, INIT, checked + Ticks(cfg.gap), WriteCache(0));
  }

  lemma LatestUseIsAccepted(cfg: Config)
    ensures Run(cfg, INIT, LatestUse(cfg)).Some?
    ensures Run(cfg, INIT, LatestUse(cfg)).value.log
            == [Acceptance(0, 0, cfg.gap), Acceptance(0, 0, cfg.gap + cfg.ttl)]
  {
    SlowCallIsAccepted(cfg);
    RunTicks(cfg, INIT, SlowCall(cfg), cfg.ttl);
    RunStep(cfg, INIT, SlowCall(cfg) + Ticks(cfg.ttl), ReadCache(0, 0));
  }

  ghost predicate OnlyBrief(actions: seq<Action>) {
    forall a :: a in actions && a.Issue? ==> a.session == BRIEF
  }

  lemma {:induction false} BriefStaysBrief(cfg: Config, actions: seq<Action>)
    requires OnlyBrief(actions) && Run(cfg, INIT, actions).Some?
    ensures var s := Run(cfg, INIT, actions).value;
            forall h :: h in s.sessions ==> s.sessions[h] == BRIEF
    decreases |actions|
  {
    if actions != [] {
      BriefStaysBrief(cfg, actions[..|actions| - 1]);
      assert actions[|actions| - 1] in actions;
    }
  }

  lemma {:induction false} TicksOnly(n: nat)
    ensures OnlyBrief(Ticks(n))
  {
    if n > 0 { TicksOnly(n - 1); }
  }

  /** No bound below ttl plus gap would be true, so a token can outlive its session that long. */
  lemma BoundIsExact(cfg: Config, bound: nat)
    ensures BoundedBy(cfg, bound) <==> bound >= cfg.ttl + cfg.gap
  {
    if bound >= cfg.ttl + cfg.gap {
      forall actions: seq<Action>, i: nat
        | Run(cfg, INIT, actions).Some? && i < |Run(cfg, INIT, actions).value.log|
        ensures var accepted := Run(cfg, INIT, actions).value.log[i];
                LiveSince(cfg, actions, accepted.hash, accepted.user, accepted.at - bound)
      {
        StalenessIsBounded(cfg, actions, i);
        var accepted := Run(cfg, INIT, actions).value.log[i];
      }
    } else if BoundedBy(cfg, bound) {
      var actions := LatestUse(cfg);
      LatestUseIsAccepted(cfg);
      assert Run(cfg, INIT, actions).value.log[1] == Acceptance(0, 0, cfg.gap + cfg.ttl);
      var k :| 0 <= k <= |actions|
        && LiveAfter(cfg, actions[..k], 0, 0, cfg.gap + cfg.ttl - bound);
      TicksOnly(cfg.gap);
      TicksOnly(cfg.ttl);
      assert forall a :: a in actions[..k] ==> a in actions;
      BriefStaysBrief(cfg, actions[..k]);
      assert false;
    }
  }

  // ---------- Revocation ----------

  /** A validation that read h before it was revoked and can still finish. */
  predicate CanPass(cfg: Config, s: State, c: Call, h: Hash) {
    && c in s.calls && s.calls[c].Holds(h)
    && s.now <= s.calls[c].readAt + cfg.gap
    && (s.calls[c].Read? ==> s.now <= s.calls[c].session.expiresAt)
  }

  predicate InFlight(cfg: Config, s: State, h: Hash) {
    exists c :: c in s.calls && CanPass(cfg, s, c, h)
  }

  /** Nothing is left of h that a validation could go by. */
  ghost predicate Dead(cfg: Config, s: State, h: Hash) {
    h in s.issued && h !in s.sessions && h !in s.cache && !InFlight(cfg, s, h)
  }

  lemma DeadStaysDead(cfg: Config, s: State, a: Action, h: Hash)
    requires Dead(cfg, s, h) && Step(cfg, s, a).Some?
    ensures Dead(cfg, Step(cfg, s, a).value, h)
    ensures var after := Step(cfg, s, a).value;
            && |after.log| >= |s.log|
            && (forall i :: |s.log| <= i < |after.log| ==> after.log[i].hash != h)
            && after.log[..|s.log|] == s.log
  {
    var s' := Step(cfg, s, a).value;
    if c :| c in s'.calls && CanPass(cfg, s', c, h) {
      assert c in s.calls && CanPass(cfg, s, c, h);
    }
    if a.WriteCache? && s.calls[a.call].hash == h {
      assert CanPass(cfg, s, a.call, h);
    }
  }

  /** Neither a hit nor a completed lookup accepts h anywhere in the run of actions from s. */
  ghost predicate NeverAccepts(cfg: Config, s: State, actions: seq<Action>, h: Hash)
    requires Run(cfg, s, actions).Some?
  {
    var log := Run(cfg, s, actions).value.log;
    forall i :: |s.log| <= i < |log| ==> log[i].hash != h
  }

  lemma {:induction false} DeadIsNeverAccepted(cfg: Config, s: State, actions: seq<Action>, h: Hash)
    requires Dead(cfg, s, h) && Run(cfg, s, actions).Some?
    ensures Dead(cfg, Run(cfg, s, actions).value, h)
    ensures |Run(cfg, s, actions).value.log| >= |s.log|
    ensures NeverAccepts(cfg, s, actions, h)
    decreases |actions|
  {
    if actions != [] {
      var earlier := actions[..|actions| - 1];
      DeadIsNeverAccepted(cfg, s, earlier, h);
      var t := Run(cfg, s, earlier).value;
      DeadStaysDead(cfg, t, actions[|actions| - 1], h);
      var t' := Run(cfg, s, actions).value;
      forall i | |s.log| <= i < |t'.log| ensures t'.log[i].hash != h {
        if i < |t.log| { assert t'.log[i] == t.log[i]; }
      }
    }
  }

  lemma WriteAccepts(cfg: Config, s: State, c: Call, h: Hash)
    requires CanPass(cfg, s, c, h) && s.calls[c].Checked?
    ensures Step(cfg, s, WriteCache(c)).Some?
    ensures Step(cfg, s, WriteCache(c)).value.log
            == s.log + [Acceptance(h, s.calls[c].session.user, s.now)]
  {
  }

  lemma CheckedPasses(cfg: Config, s: State, actions: seq<Action>, c: Call, h: Hash)
    requires Run(cfg, s, actions).Some?
    requires var ready := Run(cfg, s, actions).value;
             ready.log == s.log && CanPass(cfg, ready, c, h) && ready.calls[c].Checked?
    ensures Run(cfg, s, actions + [WriteCache(c)]).Some?
    ensures !NeverAccepts(cfg, s, actions + [WriteCache(c)], h)
  {
    WriteAccepts(cfg, Run(cfg, s, actions).value, c, h);
    RunStep(cfg, s, actions, WriteCache(c));
    var log := Run(cfg, s, actions + [WriteCache(c)]).value.log;
    assert log[|s.log|].hash == h;
  }

  lemma InFlightPasses(cfg: Config, s: State, h: Hash)
    requires InFlight(cfg, s, h)
    ensures exists actions :: Run(cfg, s, actions).Some? && !NeverAccepts(cfg, s, actions, h)
  {
    var c :| c in s.calls && CanPass(cfg, s, c, h);
    if s.calls[c].Read? {
      RunStep(cfg, s, [], CheckExpiry(c, false));
      CheckedPasses(cfg, s, [] + [CheckExpiry(c, false)], c, h);
    } else {
      CheckedPasses(cfg, s, [], c, h);
    }
  }

  /**
   Once a revocation has returned, a token it covers, issued before its store delete, is
   accepted again by some run exactly if a validation that had already read the session is
   still in flight. With none in flight, the only old tokens that validate are spared ones.
   */
  lemma RevocationIsComplete(cfg: Config, past: seq<Action>, c: Call, h: Hash)
    requires Run(cfg, INIT, past).Some?
    requires var s := Run(cfg, INIT, past).value;
             && Step(cfg, s, RevokeCached(c)).Some?
             && h in s.calls[c].known && h in s.issued
             && var cut, owner := s.calls[c].cut, s.issued[h].user;
                (cut == One(h) || cut == AllOf(owner)
                 || (cut.AllExcept? && cut.user == owner && cut.keep != h))
    ensures var s := Run(cfg, INIT, past).value;
            var after := Step(cfg, s, RevokeCached(c)).value;
            (forall actions :: Run(cfg, after, actions).Some? ==>
               NeverAccepts(cfg, after, actions, h)) <==> !InFlight(cfg, s, h)
  {
    var s := Run(cfg, INIT, past).value;
    var after := Step(cfg, s, RevokeCached(c)).value;
    RunKeepsInv(cfg, INIT, past);
    assert InFlight(cfg, s, h) <==> InFlight(cfg, after, h) by {
      assert forall d :: CanPass(cfg, s, d, h) <==> CanPass(cfg, after, d, h);
    }
    if InFlight(cfg, after, h) {
      InFlightPasses(cfg, after, h);
    } else {
      assert Dead(cfg, after, h);
      forall actions | Run(cfg, after, actions).Some?
        ensures NeverAccepts(cfg, after, actions, h)
      {
        DeadIsNeverAccepted(cfg, after, actions, h);
      }
    }
  }

  /**
   Neither half of a revocation touches any other token: of Logout and RevokeSession all but the
   one named, of LogoutAll everybody else's, of ChangePassword everybody else's and the kept one.
   */
  lemma RevocationSparesTheRest(cfg: Config, past: seq<Action>, a: Action, h: Hash)
    requires Run(cfg, INIT, past).Some? && (a.RevokeStored? || a.RevokeCached?)
    requires Step(cfg, Run(cfg, INIT, past).value, a).Some?
    requires var s := Run(cfg, INIT, past).value;
             h in s.issued
             && var cut := if a.RevokeStored? then a.cut else s.calls[a.call].cut;
                match cut
                case One(only) => h != only
                case AllOf(user) => s.issued[h].user != user
                case AllExcept(user, keep) => s.issued[h].user != user || h == keep
    ensures var s := Run(cfg, INIT, past).value;
            var after := Step(cfg, s, a).value;
            && (h in after.sessions <==> h in s.sessions)
            && (h in s.sessions ==> after.sessions[h] == s.sessions[h])
            && (h in after.cache <==> h in s.cache)
            && (h in s.cache ==> after.cache[h] == s.cache[h])
  {
    RunKeepsInv(cfg, INIT, past);
  }
}
