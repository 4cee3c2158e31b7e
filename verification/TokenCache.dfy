/** The short-lived in-process cache in front of session lookups. */
module TokenCache {
  import opened Collections
  import opened UserModel
  import opened Sweeping

  datatype Entry = Entry(user: UserId, expiresAt: Time)

  type Entries = map<Hash, Entry>

  /** What get answers: an entry counts up to and including its expiry. */
  function Lookup(entries: Entries, h: Hash, now: Time): Option<UserId> {
    if h in entries && now <= entries[h].expiresAt then Some(entries[h].user) else None
  }

  /** What is left once the tokens of cut are dropped. */
  function UncutEntries(entries: Entries, cut: Cut): Entries {
    map h | h in entries && !Covers(cut, h, entries[h].user) :: entries[h]
  }

  function AfterSweep(entries: Entries, now: Time): Entries {
    map h | h in entries && now <= entries[h].expiresAt :: entries[h]
  }

  class Cache {
    var entries: Entries
    const ttl: nat

    constructor (ttl: nat)
      ensures entries == map[] && this.ttl == ttl
    {
      this.ttl := ttl;
      entries := map[];
    }

    method Get(h: Hash, now: Time) returns (user: Option<UserId>)
      ensures user == Lookup(entries, h, now)
      ensures user.Some? <==> h in entries && now <= entries[h].expiresAt
    {
      if h !in entries || now > entries[h].expiresAt {
        return None;
      }
      return Some(entries[h].user);
    }

    method Set(h: Hash, user: UserId, now: Time)
      modifies this
      ensures entries == old(entries)[h := Entry(user, now + ttl)]
    {
      entries := entries[h := Entry(user, now + ttl)];
    }

    method Delete(h: Hash)
      modifies this
      ensures entries == UncutEntries(old(entries), One(h))
      ensures entries == old(entries) - {h}
    {
      entries := entries - {h};
    }

    method DeleteAllForUser(user: UserId)
      modifies this
      ensures entries == UncutEntries(old(entries), AllOf(user))
      ensures forall h :: h in entries <==> h in old(entries) && old(entries)[h].user != user
      ensures forall h :: h in entries ==> entries[h] == old(entries)[h]
    {
      var before, todo := entries, entries.Keys;
      while todo != {}
        invariant todo <= before.Keys
        invariant entries ==
                  map h | h in before && (h in todo || before[h].user != user) :: before[h]
        decreases |todo|
      {
        var h :| h in todo;
        todo := todo - {h};
        if before[h].user == user {
          entries := entries - {h};
        }
      }
    }

    method DeleteAllForUserExcept(user: UserId, keep: Hash)
      modifies this
      ensures entries == UncutEntries(old(entries), AllExcept(user, keep))
      ensures forall h :: h in entries <==>
                h in old(entries) && (old(entries)[h].user != user || h == keep)
      ensures forall h :: h in entries ==> entries[h] == old(entries)[h]
    {
      var before, todo := entries, entries.Keys;
      while todo != {}
        invariant todo <= before.Keys
        invariant entries ==
                  map h | h in before && (h in todo || before[h].user != user || h == keep)
                    :: before[h]
        decreases |todo|
      {
        var h :| h in todo;
        todo := todo - {h};
        if before[h].user == user && h != keep {
          entries := entries - {h};
        }
      }
    }

    method Sweep(now: Time)
      modifies this
      ensures entries == AfterSweep(old(entries), now)
      ensures forall h :: h in entries <==> h in old(entries) && now <= old(entries)[h].expiresAt
      ensures forall h :: h in entries ==> entries[h] == old(entries)[h]
    {
      var before, todo := entries, entries.Keys;
      while todo != {}
        invariant todo <= before.Keys
        invariant entries ==
                  map h | h in before && (h in todo || now <= before[h].expiresAt) :: before[h]
        decreases |todo|
      {
        var h :| h in todo;
        todo := todo - {h};
        if now > before[h].expiresAt {
          entries := entries - {h};
        }
      }
    }
  }

  // ---------- Sweeps cannot be observed ----------

  datatype Op =
    | Get(h: Hash)
    | Set(h: Hash, user: UserId)
    | Drop(cut: Cut)  // delete, deleteAllForUser, deleteAllForUserExcept

  function After(ttl: nat, entries: Entries, e: Event<Op>): Entries {
    match e
    case Call(Get(_), _) => entries
    case Call(Set(h, user), at) => entries[h := Entry(user, at + ttl)]
    case Call(Drop(cut), _) => UncutEntries(entries, cut)
    case Sweep(at) => AfterSweep(entries, at)
  }

  function Replay(ttl: nat, history: seq<Event<Op>>): Entries {
    if history == [] then map[]
    else After(ttl, Replay(ttl, history[..|history| - 1]), history[|history| - 1])
  }

  /** What the gets of a run answered, in order. */
  function Answers(ttl: nat, history: seq<Event<Op>>): seq<Option<UserId>> {
    if history == [] then []
    else
      var earlier := history[..|history| - 1];
      var e := history[|history| - 1];
      Answers(ttl, earlier)
      + if e.Call? && e.op.Get? then [Lookup(Replay(ttl, earlier), e.op.h, e.at)] else []
  }

  /** Two caches nobody can tell apart from now on. */
  ghost predicate Alike(a: Entries, b: Entries, now: Time) {
    forall h, t :: t >= now ==> Lookup(a, h, t) == Lookup(b, h, t)
  }

  lemma EventKeepsAlike(ttl: nat, a: Entries, b: Entries, e: Event<Op>, earlier: Time)
    requires Alike(a, b, earlier) && earlier <= e.at
    ensures Alike(After(ttl, a, e), After(ttl, b, e), e.at)
  {
    forall h, t | t >= e.at
      ensures Lookup(After(ttl, a, e), h, t) == Lookup(After(ttl, b, e), h, t)
    {
      assert Lookup(a, h, t) == Lookup(b, h, t);
    }
  }

  lemma {:induction false} SweptIsAlike(ttl: nat, history: seq<Event<Op>>, now: Time)
    requires Ordered(history, now)
    ensures Alike(Replay(ttl, history), Replay(ttl, WithoutSweeps(history)), now)
    decreases |history|
  {
    if history != [] {
      var earlier := history[..|history| - 1];
      var e := history[|history| - 1];
      SweptIsAlike(ttl, earlier, e.at);
      if e.Sweep? {
        var swept := Replay(ttl, earlier);
        assert forall h, t :: t >= e.at ==>
          Lookup(AfterSweep(swept, e.at), h, t) == Lookup(swept, h, t);
      } else {
        EventKeepsAlike(ttl, Replay(ttl, earlier), Replay(ttl, WithoutSweeps(earlier)), e, e.at);
        KeptLast(earlier, e);
      }
    }
  }

  /** Adding or removing sweeps anywhere in a run under a monotone clock changes no answer. */
  lemma {:induction false} SweepsAreUnobservable(ttl: nat, history: seq<Event<Op>>, now: Time)
    requires Ordered(history, now)
    ensures Answers(ttl, WithoutSweeps(history)) == Answers(ttl, history)
    decreases |history|
  {
    if history != [] {
      var earlier := history[..|history| - 1];
      var e := history[|history| - 1];
      SweepsAreUnobservable(ttl, earlier, e.at);
      if e.Call? {
        KeptLast(earlier, e);
        if e.op.Get? { SweptIsAlike(ttl, earlier, e.at); }
      }
    }
  }

  // ---------- How long an entry counts ----------

  /** No later event sets h again or drops a token of user's that h is one of. */
  ghost predicate LeavesAlone(later: seq<Event<Op>>, h: Hash, user: UserId) {
    forall e :: e in later && e.Call? ==>
      && (e.op.Set? ==> e.op.h != h)
      && (e.op.Drop? ==> !Covers(e.op.cut, h, user))
  }

  /**
   Set at t, a token answers its user exactly until t + ttl, whatever gets, sweeps, other sets
   and revocations of other tokens come in between.
   */
  lemma {:induction false} SetCountsForTtl(
    ttl: nat, earlier: seq<Event<Op>>, h: Hash, user: UserId, t: Time, later: seq<Event<Op>>, now: Time)
    requires Ordered(earlier + [Call(Set(h, user), t)] + later, now)
    requires LeavesAlone(later, h, user)
    ensures var entries := Replay(ttl, earlier + [Call(Set(h, user), t)] + later);
            && Lookup(entries, h, now) == (if now <= t + ttl then Some(user) else None)
            && (h in entries ==> entries[h] == Entry(user, t + ttl))
    decreases |later|
  {
    var history := earlier + [Call(Set(h, user), t)] + later;
    if later == [] {
      assert history[..|history| - 1] == earlier;
    } else {
      var last := |later| - 1;
      assert history[..|history| - 1] == earlier + [Call(Set(h, user), t)] + later[..last];
      SetCountsForTtl(ttl, earlier, h, user, t, later[..last], later[last].at);
      SetCountsForTtl(ttl, earlier, h, user, t, later[..last], now);
      assert later[last] in later;
    }
  }
}
