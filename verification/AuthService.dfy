/**
 The account service over one repository, one token cache and one backoff. A store call that
 fails is a parameter, and fails before it changes anything.
 */
module AuthService {
  import opened Collections
  import opened UserModel
  import opened TokenCache
  import UserStore
  import Backoffs = LoginBackoff
  import Validation

  datatype Failure = NotFound | InvalidInput | InvalidCredentials | StoreFailed

  datatype Result<+T> = Ok(value: T) | Err(failure: Failure)

  /** A session's public identifier: a one-way, collision-free image of its hash. */
  datatype SessionId = Derived(hash: Hash) | Unknown(text: nat)

  function DeriveSessionId(hash: Hash): SessionId {
    Derived(hash)
  }

  /** The store call a ChangePassword loses, if any. */
  datatype Fault = NoFault | LookupFails | UpdateFails | DeleteFails

  predicate Live(sessions: Sessions, h: Hash, now: Time) {
    h in sessions && now <= sessions[h].expiresAt
  }

  /** What a validation answers that misses the cache and whose lookup does not fail. */
  function Verdict(sessions: Sessions, h: Hash, now: Time): Result<UserId> {
    if Live(sessions, h, now) then Ok(sessions[h].user) else Err(NotFound)
  }

  class Service {
    const repo: UserStore.Repository
    const cache: Cache
    const backoff: Backoffs.Backoff
    const sessionTTL: nat
    const maxSessions: nat

    constructor (repo: UserStore.Repository, cacheTTL: nat, sessionTTL: nat, maxSessions: nat)
      ensures this.repo == repo && this.sessionTTL == sessionTTL && this.maxSessions == maxSessions
      ensures fresh(cache) && cache.entries == map[] && cache.ttl == cacheTTL
      ensures fresh(backoff) && backoff.entries == map[]
    {
      this.repo, this.sessionTTL, this.maxSessions := repo, sessionTTL, maxSessions;
      cache := new Cache(cacheTTL);
      backoff := new Backoffs.Backoff();
    }

    method ValidateToken(h: Hash, now: Time, lookupFails: bool, cleanupFails: bool)
      returns (r: Result<UserId>)
      modifies repo`sessions, cache
      ensures var cached := h in old(cache.entries) && now <= old(cache.entries)[h].expiresAt;
              var looked := !cached && !lookupFails;
              var live := h in old(repo.sessions) && now <= old(repo.sessions)[h].expiresAt;
              && (r.Ok? <==> cached || (looked && live))
              && (cached ==> r == Ok(old(cache.entries)[h].user))
              && (looked ==> r == Verdict(old(repo.sessions), h, now))
              && (looked && live ==> r == Ok(old(repo.sessions)[h].user))
              && (looked && !live ==> r == Err(NotFound))
              && (!cached && lookupFails ==> r == Err(StoreFailed))
              && cache.entries == (if looked && live
                   then old(cache.entries)[h := Entry(old(repo.sessions)[h].user, now + cache.ttl)]
                   else old(cache.entries))
              && repo.sessions == (if looked && !live && !cleanupFails
                   then old(repo.sessions) - {h} else old(repo.sessions))
    {
      var hit := cache.Get(h, now);
      if hit.Some? {
        return Ok(hit.value);
      }
      if lookupFails {
        return Err(StoreFailed);
      }
      var found := repo.FindSessionByTokenHash(h);
      if found.None? {
        assert repo.sessions - {h} == repo.sessions;
        return Err(NotFound);
      }
      if now > found.value.expiresAt {
        if !cleanupFails {
          repo.DeleteSession(h);
        }
        return Err(NotFound);
      }
      cache.Set(h, found.value.user, now);
      return Ok(found.value.user);
    }

    /** The cache hears nothing of the sessions this evicts. */
    method CreateSession(user: UserId, token: Hash, now: Time, storeFails: bool)
      returns (r: Result<Time>)
      modifies repo`sessions
      ensures r == if storeFails then Err(StoreFailed) else Ok(now + sessionTTL)
      ensures r.Err? ==> repo.sessions == old(repo.sessions)
      ensures r.Ok? ==> UserStore.StoredWithinCap(old(repo.sessions), repo.sessions, token,
                                                  Session(user, r.value, now), maxSessions)
      ensures r.Ok? ==>
                var full := old(repo.sessions)[token := Session(user, now + sessionTTL, now)];
                var mine := MineIn(repo.sessions, user);
                && |mine| <= maxSessions
                && (|mine| < maxSessions ==> repo.sessions == full)
                && (forall h :: h in repo.sessions ==> h in full && repo.sessions[h] == full[h])
                && (forall h :: h in full && full[h].user != user ==> h in repo.sessions)
                && (forall k, v :: k in mine && v in full && v !in repo.sessions ==>
                      full[k].createdAt >= full[v].createdAt)
    {
      if storeFails {
        return Err(StoreFailed);
      }
      repo.CreateSession(token, Session(user, now + sessionTTL, now), maxSessions);
      return Ok(now + sessionTTL);
    }

    method Logout(h: Hash, storeFails: bool) returns (error: Option<Failure>)
      modifies repo`sessions, cache
      ensures error == if storeFails then Some(StoreFailed) else None
      ensures repo.sessions == if error.Some? then old(repo.sessions) else old(repo.sessions) - {h}
      ensures cache.entries == if error.Some? then old(cache.entries) else old(cache.entries) - {h}
    {
      if storeFails {
        return Some(StoreFailed);
      }
      repo.DeleteSession(h);
      cache.Delete(h);
      return None;
    }

    method LogoutAll(user: UserId, storeFails: bool) returns (error: Option<Failure>)
      modifies repo`sessions, cache
      ensures error == if storeFails then Some(StoreFailed) else None
      ensures error.Some? ==>
                repo.sessions == old(repo.sessions) && cache.entries == old(cache.entries)
      // Every token of the user goes, and no other.
      ensures error.None? ==>
                && (forall h :: h in repo.sessions <==>
                      h in old(repo.sessions) && old(repo.sessions)[h].user != user)
                && (forall h :: h in cache.entries <==>
                      h in old(cache.entries) && old(cache.entries)[h].user != user)
      ensures forall h :: h in repo.sessions ==> repo.sessions[h] == old(repo.sessions)[h]
      ensures forall h :: h in cache.entries ==> cache.entries[h] == old(cache.entries)[h]
    {
      if storeFails {
        return Some(StoreFailed);
      }
      repo.DeleteSessionsForUser(user);
      cache.DeleteAllForUser(user);
      return None;
    }

    method VerifyPassword(user: UserId, password: UserStore.Password, lookupFails: bool)
      returns (error: Option<Failure>)
      ensures error == if lookupFails then Some(StoreFailed)
                       else if user in repo.usersByID && repo.usersByID[user].password == password
                       then None else Some(InvalidCredentials)
    {
      if lookupFails {
        return Some(StoreFailed);
      }
      var u := repo.FindUserByID(user);
      if u.None? || u.value.password != password {
        return Some(InvalidCredentials);
      }
      return None;
    }

    /** weak is validatePassword's verdict on the new password. */
    method ChangePassword(
      user: UserId, current: UserStore.Password, next: UserStore.Password, weak: bool,
      token: Hash, now: Time, fault: Fault) returns (error: Option<Failure>)
      requires repo.Indexed()
      modifies repo`usersByID, repo`sessions, cache
      ensures repo.Indexed()
      ensures error.None? <==>
                !weak && fault == NoFault && user in old(repo.usersByID)
                && old(repo.usersByID)[user].password == current
      ensures error == Some(InvalidInput) <==> weak
      ensures error == Some(InvalidCredentials) <==>
                !weak && fault != LookupFails
                && !(user in old(repo.usersByID) && old(repo.usersByID)[user].password == current)
      // Only a failed revocation leaves the new password in place and reports an error.
      ensures repo.usersByID == old(repo.usersByID)
              || (user in old(repo.usersByID) && old(repo.usersByID)[user].password == current
                  && (error.None? || (error == Some(StoreFailed) && fault == DeleteFails))
                  && repo.usersByID == old(repo.usersByID)[user :=
                       old(repo.usersByID)[user].(password := next, updatedAt := now)])
      ensures error.None?
              || (error == Some(StoreFailed) && fault == DeleteFails) ==>
                repo.usersByID == old(repo.usersByID)[user :=
                  old(repo.usersByID)[user].(password := next, updatedAt := now)]
      ensures error.Some? ==>
                repo.sessions == old(repo.sessions) && cache.entries == old(cache.entries)
      // The token it was called with and everybody else's survive, and nothing more.
      ensures error.None? ==>
                && (forall h :: h in repo.sessions <==>
                      h in old(repo.sessions)
                      && (old(repo.sessions)[h].user != user || h == token))
                && (forall h :: h in cache.entries <==>
                      h in old(cache.entries)
                      && (old(cache.entries)[h].user != user || h == token))
      ensures forall h :: h in repo.sessions ==> repo.sessions[h] == old(repo.sessions)[h]
      ensures forall h :: h in cache.entries ==> cache.entries[h] == old(cache.entries)[h]
    {
      if weak {
        return Some(InvalidInput);
      }
      error := VerifyPassword(user, current, fault == LookupFails);
      if error.Some? {
        return;
      }
      if fault == UpdateFails {
        return Some(StoreFailed);
      }
      var missing := repo.UpdateUserPassword(user, next, now);
      if missing.Some? {
        return Some(NotFound);
      }
      if fault == DeleteFails {
        return Some(StoreFailed);
      }
      repo.DeleteSessionsForUserExcept(user, token);
      cache.DeleteAllForUserExcept(user, token);
      return None;
    }

    method RevokeSession(user: UserId, id: SessionId, lookupFails: bool, deleteFails: bool)
      returns (error: Option<Failure>)
      modifies repo`sessions, cache
      ensures error.None? <==>
                !lookupFails && !deleteFails
                && id.Derived? && id.hash in old(repo.sessions)
                && old(repo.sessions)[id.hash].user == user
      ensures error == Some(NotFound) <==>
                !lookupFails
                && !(id.Derived? && id.hash in old(repo.sessions)
                     && old(repo.sessions)[id.hash].user == user)
      ensures error.None? ==>
                && repo.sessions == old(repo.sessions) - {id.hash}
                && cache.entries == old(cache.entries) - {id.hash}
      ensures error.Some? ==>
                repo.sessions == old(repo.sessions) && cache.entries == old(cache.entries)
    {
      if lookupFails {
        return Some(StoreFailed);
      }
      var rows := repo.FindSessionsForUser(user);
      UserStore.ListedOnce(rows, repo.sessions, user);
      for i := 0 to |rows|
        invariant repo.sessions == old(repo.sessions) && cache.entries == old(cache.entries)
        invariant forall j :: 0 <= j < i ==> DeriveSessionId(rows[j].hash) != id
      {
        if DeriveSessionId(rows[i].hash) != id {
          continue;
        }
        assert rows[i] in rows;
        assert rows[i].hash in MineIn(repo.sessions, user);
        if deleteFails {
          return Some(StoreFailed);
        }
        repo.DeleteSession(rows[i].hash);
        cache.Delete(rows[i].hash);
        return None;
      }
      forall h | h in MineIn(repo.sessions, user) ensures DeriveSessionId(h) != id {
        assert h in UserStore.HashesOf(rows);
      }
      assert id.Derived? ==> id.hash !in MineIn(repo.sessions, user);
      return Some(NotFound);
    }

    method DeleteAccount(user: UserId, sessionsFail: bool, userFails: bool)
      returns (error: Option<Failure>)
      requires repo.Indexed()
      modifies repo, cache
      ensures repo.Indexed()
      ensures error.None? <==> !sessionsFail && !userFails && user in old(repo.usersByID)
      ensures repo.usersByID == if error.None? then old(repo.usersByID) - {user}
                                else old(repo.usersByID)
      ensures sessionsFail ==>
                repo.sessions == old(repo.sessions) && cache.entries == old(cache.entries)
      ensures !sessionsFail ==>
                && (forall h :: h in repo.sessions <==>
                      h in old(repo.sessions) && old(repo.sessions)[h].user != user)
                && (forall h :: h in cache.entries <==>
                      h in old(cache.entries) && old(cache.entries)[h].user != user)
      ensures forall h :: h in repo.sessions ==> repo.sessions[h] == old(repo.sessions)[h]
      ensures forall h :: h in cache.entries ==> cache.entries[h] == old(cache.entries)[h]
    {
      if sessionsFail {
        return Some(StoreFailed);
      }
      repo.DeleteSessionsForUser(user);
      cache.DeleteAllForUser(user);
      if userFails {
        return Some(StoreFailed);
      }
      var missing := repo.DeleteUser(user);
      if missing.Some? {
        return Some(NotFound);
      }
      return None;
    }

    method PruneExpiredSessions(now: Time, storeFails: bool) returns (error: Option<Failure>)
      modifies repo`sessions, cache, backoff
      ensures error == if storeFails then Some(StoreFailed) else None
      ensures cache.entries == AfterSweep(old(cache.entries), now)
      ensures backoff.entries == Backoffs.AfterSweep(old(backoff.entries), now)
      ensures repo.sessions == if storeFails then old(repo.sessions)
                               else UserStore.ExpiredRemoved(old(repo.sessions), now)
      ensures !storeFails ==>
                forall h :: h in repo.sessions <==>
                  h in old(repo.sessions) && now <= old(repo.sessions)[h].expiresAt
      ensures forall h :: h in cache.entries <==>
                h in old(cache.entries) && now <= old(cache.entries)[h].expiresAt
      ensures forall h :: h in repo.sessions ==> repo.sessions[h] == old(repo.sessions)[h]
      ensures forall h :: h in cache.entries ==> cache.entries[h] == old(cache.entries)[h]
    {
      cache.Sweep(now);
      backoff.Sweep(now);
      if storeFails {
        return Some(StoreFailed);
      }
      repo.DeleteExpiredSessions(now);
      return None;
    }

    /**
     The delay is settled before the outcome is known: success and refusal both pay it, and an
     error of the store pays none.
     */
    method Authenticate(email: Email, password: UserStore.Password, now: Time, lookupFails: bool)
      returns (r: Result<UserStore.User>, slept: int)
      requires repo.Indexed()
      modifies backoff
      ensures var failures :=
                if email in old(backoff.entries)
                   && now <= old(backoff.entries)[email].lastAttempt + 900_000_000_000
                then old(backoff.entries)[email].failures else 0;
              && (r == Err(StoreFailed) <==> lookupFails)
              && (!lookupFails ==> slept == Backoffs.DelayAfter(failures))
              && (lookupFails ==> slept == 0)
              && (r.Ok? ==> r.value.email == email && r.value.password == password
                            && email !in backoff.entries)
              && (r == Err(InvalidCredentials) ==>
                    && backoff.entries
                       == old(backoff.entries)[email := Backoffs.Entry(failures + 1, now)]
                    && (forall id :: id in repo.usersByID && repo.usersByID[id].email == email
                          ==> repo.usersByID[id].password != password))
              && (r.Ok? || r == Err(InvalidCredentials) || r == Err(StoreFailed))
      ensures backoff.entries - {email} == old(backoff.entries) - {email}
    {
      var delay := backoff.Delay(email, now);
      if lookupFails {
        return Err(StoreFailed), 0;
      }
      var u := repo.FindUserByEmail(email);
      if u.None? || u.value.password != password {
        backoff.RecordFailure(email, now);
        return Err(InvalidCredentials), delay;
      }
      backoff.RecordSuccess(email);
      return Ok(u.value), delay;
    }
  }

  /**
   A prune keeps exactly the sessions a validation would accept at that instant, and so no
   validation from then on can tell that it ran.
   */
  lemma PruneIsUnobservable(sessions: Sessions, now: Time)
    ensures var left := UserStore.ExpiredRemoved(sessions, now);
            && (forall h :: h in left <==> Verdict(sessions, h, now).Ok?)
            && (forall h, t :: t >= now ==> Verdict(left, h, t) == Verdict(sessions, h, t))
            && (forall h :: h in left ==> h in sessions && left[h] == sessions[h])
  {
  }

  // ---------- The calls above are what Validation interleaves ----------

  /** The stores as a validation state with no call in flight. */
  function Quiet(sessions: Sessions, entries: Entries, now: Time): Validation.State {
    Validation.State(now, sessions, entries, map[], sessions, [])
  }

  /** A revocation that runs alone takes the two steps of the interleaved model to the same stores. */
  lemma RevocationTakesBothSteps(
    cfg: Validation.Config, sessions: Sessions, entries: Entries, now: Time, cut: Cut)
    ensures var run := Validation.Run(cfg, Quiet(sessions, entries, now),
                         [Validation.RevokeStored(0, cut), Validation.RevokeCached(0)]);
            && run.Some? && run.value.calls == map[] && run.value.log == []
            && run.value.sessions == UncutSessions(sessions, cut)
            && run.value.cache == UncutEntries(entries, cut)
  {
    var s := Quiet(sessions, entries, now);
    Validation.RunStep(cfg, s, [], Validation.RevokeStored(0, cut));
    var first := [] + [Validation.RevokeStored(0, cut)];
    Validation.RunStep(cfg, s, first, Validation.RevokeCached(0));
    assert first + [Validation.RevokeCached(0)]
           == [Validation.RevokeStored(0, cut), Validation.RevokeCached(0)];
  }

  /** The state of a validation by call 0 that has got to p, having changed nothing yet. */
  function ValidatingAt(sessions: Sessions, entries: Entries, now: Time, p: Validation.Progress)
    : Validation.State
  {
    Quiet(sessions, entries, now).(calls := map[0 := p])
  }

  lemma CallEnds(sessions: Sessions, entries: Entries, now: Time, p: Validation.Progress)
    ensures ValidatingAt(sessions, entries, now, p).calls - {0} == map[]
  {
  }

  lemma CacheIsRead(
    cfg: Validation.Config, sessions: Sessions, entries: Entries, now: Time, h: Hash)
    ensures var hit := Lookup(entries, h, now);
            Validation.Run(cfg, Quiet(sessions, entries, now), [Validation.ReadCache(0, h)])
            == Some(if hit.Some?
                    then Quiet(sessions, entries, now)
                         .(log := [Validation.Acceptance(h, hit.value, now)])
                    else ValidatingAt(sessions, entries, now, Validation.Missed(h)))
  {
    var s := Quiet(sessions, entries, now);
    Validation.RunStep(cfg, s, [], Validation.ReadCache(0, h));
    assert [] + [Validation.ReadCache(0, h)] == [Validation.ReadCache(0, h)];
    assert s.calls[0 := Validation.Missed(h)] == map[0 := Validation.Missed(h)];
    if Lookup(entries, h, now).Some? {
      var accepted := Validation.Acceptance(h, Lookup(entries, h, now).value, now);
      assert s.log + [accepted] == [accepted];
    }
  }

  lemma StoreIsRead(
    cfg: Validation.Config, sessions: Sessions, entries: Entries, now: Time, h: Hash)
    requires Lookup(entries, h, now).None? && h in sessions
    ensures Validation.Run(cfg, Quiet(sessions, entries, now),
                           [Validation.ReadCache(0, h)] + [Validation.ReadStore(0)])
            == Some(ValidatingAt(sessions, entries, now, Validation.Read(h, sessions[h], now)))
  {
    var read := Validation.Read(h, sessions[h], now);
    CacheIsRead(cfg, sessions, entries, now, h);
    Validation.RunStep(cfg, Quiet(sessions, entries, now), [Validation.ReadCache(0, h)],
                       Validation.ReadStore(0));
    assert map[0 := Validation.Missed(h)][0 := read] == map[0 := read];
  }

  lemma ExpiryIsChecked(
    cfg: Validation.Config, sessions: Sessions, entries: Entries, now: Time, h: Hash,
    cleanupFails: bool)
    requires h in sessions
    ensures var s := ValidatingAt(sessions, entries, now, Validation.Read(h, sessions[h], now));
            Validation.Step(cfg, s, Validation.CheckExpiry(0, cleanupFails))
            == Some(if Live(sessions, h, now)
                    then ValidatingAt(sessions, entries, now, Validation.Checked(h, sessions[h], now))
                    else Quiet(sessions, entries, now).(
                           sessions := if cleanupFails then sessions
                                       else UncutSessions(sessions, One(h))))
  {
    var read := Validation.Read(h, sessions[h], now);
    CallEnds(sessions, entries, now, read);
    assert map[0 := read][0 := Validation.Checked(h, sessions[h], now)]
           == map[0 := Validation.Checked(h, sessions[h], now)];
    assert UncutSessions(sessions, One(h)) == sessions - {h};
  }

  lemma CacheIsWritten(
    cfg: Validation.Config, sessions: Sessions, entries: Entries, now: Time, h: Hash)
    requires h in sessions
    ensures var s := ValidatingAt(sessions, entries, now, Validation.Checked(h, sessions[h], now));
            Validation.Step(cfg, s, Validation.WriteCache(0))
            == Some(Quiet(sessions, entries, now).(
                      cache := entries[h := Entry(sessions[h].user, now + cfg.ttl)],
                      log := [Validation.Acceptance(h, sessions[h].user, now)]))
  {
    var s := ValidatingAt(sessions, entries, now, Validation.Checked(h, sessions[h], now));
    CallEnds(sessions, entries, now, Validation.Checked(h, sessions[h], now));
    assert now <= s.calls[0].readAt + cfg.gap;
    assert s.log + [Validation.Acceptance(h, sessions[h].user, now)]
           == [Validation.Acceptance(h, sessions[h].user, now)];
  }

  /** The steps of a validation by call 0, as far as it gets. */
  function ValidationSteps(
    sessions: Sessions, entries: Entries, now: Time, h: Hash, lookupFails: bool, cleanupFails: bool)
    : seq<Validation.Action>
  {
    var first := [Validation.ReadCache(0, h)];
    if Lookup(entries, h, now).Some? then first
    else if lookupFails || h !in sessions then first + [Validation.Crash(0)]
    else
      var looked := first + [Validation.ReadStore(0)] + [Validation.CheckExpiry(0, cleanupFails)];
      if Live(sessions, h, now) then looked + [Validation.WriteCache(0)] else looked
  }

  lemma MissTakesItsSteps(
    cfg: Validation.Config, sessions: Sessions, entries: Entries, now: Time, h: Hash,
    cleanupFails: bool)
    requires Lookup(entries, h, now).None? && h in sessions
    ensures var s := Quiet(sessions, entries, now);
            Validation.Run(cfg, s, ValidationSteps(sessions, entries, now, h, false, cleanupFails))
            == Some(if Live(sessions, h, now)
                    then s.(cache := entries[h := Entry(sessions[h].user, now + cfg.ttl)],
                            log := [Validation.Acceptance(h, sessions[h].user, now)])
                    else s.(sessions := if cleanupFails then sessions
                                        else UncutSessions(sessions, One(h))))
  {
    var s := Quiet(sessions, entries, now);
    var first := [Validation.ReadCache(0, h)] + [Validation.ReadStore(0)];
    StoreIsRead(cfg, sessions, entries, now, h);
    ExpiryIsChecked(cfg, sessions, entries, now, h, cleanupFails);
    Validation.RunStep(cfg, s, first, Validation.CheckExpiry(0, cleanupFails));
    if Live(sessions, h, now) {
      CacheIsWritten(cfg, sessions, entries, now, h);
      Validation.RunStep(cfg, s, first + [Validation.CheckExpiry(0, cleanupFails)],
                         Validation.WriteCache(0));
    }
  }

  /**
   A ValidateToken that runs alone, whatever it meets, takes steps of the interleaved model to the
   same stores: a hit one step, a lookup that fails or finds nothing one and then no more, an
   expired session three, its delete done or failed, and a live one all four.
   */
  lemma ValidationTakesItsSteps(
    cfg: Validation.Config, sessions: Sessions, entries: Entries, now: Time, h: Hash,
    lookupFails: bool, cleanupFails: bool)
    ensures var hit := Lookup(entries, h, now);
            var looked := hit.None? && !lookupFails;
            var live := Live(sessions, h, now);
            Validation.Run(cfg, Quiet(sessions, entries, now),
              ValidationSteps(sessions, entries, now, h, lookupFails, cleanupFails))
            == Some(Validation.State(
                 now,
                 if looked && !live && !cleanupFails then UncutSessions(sessions, One(h)) else sessions,
                 if looked && live then entries[h := Entry(sessions[h].user, now + cfg.ttl)]
                 else entries,
                 map[], sessions,
                 if hit.Some? then [Validation.Acceptance(h, hit.value, now)]
                 else if looked && live then [Validation.Acceptance(h, sessions[h].user, now)]
                 else []))
  {
    if Lookup(entries, h, now).None? && !lookupFails && h in sessions {
      MissTakesItsSteps(cfg, sessions, entries, now, h, cleanupFails);
    } else {
      CacheIsRead(cfg, sessions, entries, now, h);
      CallEnds(sessions, entries, now, Validation.Missed(h));
      Validation.RunStep(cfg, Quiet(sessions, entries, now), [Validation.ReadCache(0, h)],
                         Validation.Crash(0));
      assert h !in sessions ==> UncutSessions(sessions, One(h)) == sessions;
    }
  }
}
