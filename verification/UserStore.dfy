/**
 The in-memory account and session tables.

 Accounts are held twice, by ID and by email, and Indexed says that the two maps agree; new IDs
 being fresh, every method that writes one of the maps keeps it. Sessions are held by token hash,
 so one insert can replace a session but never adds a second one under its hash.

 A login inserts, collects the user's sessions, sorts them and evicts from the old end. Ties in
 CreatedAt make the survivors ambiguous, so StoredWithinCap states what any order of ties leaves
 and CapHolds is about all of them.
 */
module UserStore {
  import opened Collections
  import opened Sorting
  import opened UserModel

  // bcrypt is not part of this model: a stored hash is known by the password it matches.
  type Password = nat

  datatype User = User(id: UserId, email: Email, password: Password, updatedAt: Time)

  datatype Error = NotFound | AlreadyExists

  datatype Stored = Stored(hash: Hash, session: Session)

  predicate OlderFirst(a: Stored, b: Stored) {
    a.session.createdAt <= b.session.createdAt
  }

  predicate NewerFirst(a: Stored, b: Stored) {
    a.session.createdAt >= b.session.createdAt
  }

  function RowsOf(sessions: Sessions, user: UserId): set<Stored> {
    set h | h in sessions && sessions[h].user == user :: Stored(h, sessions[h])
  }

  /** rows holds user's sessions, each once. */
  ghost predicate Lists(rows: seq<Stored>, sessions: Sessions, user: UserId) {
    multiset(rows) == multiset(RowsOf(sessions, user))
  }

  function HashesOf(rows: seq<Stored>): set<Hash> {
    set row | row in rows :: row.hash
  }

  function ExpiredRemoved(sessions: Sessions, now: Time): Sessions {
    map h | h in sessions && now <= sessions[h].expiresAt :: sessions[h]
  }

  /** after is before with a session of user stored and the rest of user's cut down to cap. */
  ghost predicate StoredWithinCap(
    before: Sessions, after: Sessions, hash: Hash, session: Session, cap: nat)
  {
    var full := before[hash := session];
    && KeepsNewest(full, session.user, MineIn(after, session.user), cap)
    && (forall h :: h in after ==> h in full && after[h] == full[h])
    && (forall h :: h in full && full[h].user != session.user ==> h in after)
  }

  lemma ListedOnce(rows: seq<Stored>, sessions: Sessions, user: UserId)
    requires Lists(rows, sessions, user)
    ensures forall i, j :: 0 <= i < j < |rows| ==> rows[i].hash != rows[j].hash
    ensures forall row :: row in rows <==> row in RowsOf(sessions, user)
    ensures HashesOf(rows) == MineIn(sessions, user)
    ensures |rows| == |MineIn(sessions, user)|
  {
    OnceEach(rows, RowsOf(sessions, user));
    forall i, j | 0 <= i < j < |rows| ensures rows[i].hash != rows[j].hash {
      assert rows[i] in rows && rows[j] in rows;
    }
    forall h | h in MineIn(sessions, user) ensures h in HashesOf(rows) {
      assert Stored(h, sessions[h]) in rows;
    }
    DistinctHashes(rows);
  }

  lemma {:induction false} DistinctHashes(rows: seq<Stored>)
    requires forall i, j :: 0 <= i < j < |rows| ==> rows[i].hash != rows[j].hash
    ensures |HashesOf(rows)| == |rows|
  {
    if rows != [] {
      var last := |rows| - 1;
      DistinctHashes(rows[..last]);
      assert rows == rows[..last] + [rows[last]];
      assert HashesOf(rows) == HashesOf(rows[..last]) + {rows[last].hash};
    }
  }

  lemma ListedInFull(rows: seq<Stored>, sessions: Sessions, user: UserId)
    requires Lists(rows, sessions, user)
    ensures |rows| == |MineIn(sessions, user)|
  {
    ListedOnce(rows, sessions, user);
  }

  lemma RowAdded(sessions: Sessions, todo: set<Hash>, h: Hash, user: UserId)
    requires h in sessions && h in todo
    ensures RowsOf(sessions - (todo - {h}), user)
            == RowsOf(sessions - todo, user)
               + if sessions[h].user == user then {Stored(h, sessions[h])} else {}
    ensures Stored(h, sessions[h]) !in RowsOf(sessions - todo, user)
  {
    var seen, more := sessions - todo, sessions - (todo - {h});
    assert more == seen[h := sessions[h]];
    forall row
      ensures row in RowsOf(more, user) <==>
              row in RowsOf(seen, user)
              || (row == Stored(h, sessions[h]) && sessions[h].user == user)
    {
      RowIn(seen, user, row);
      RowIn(more, user, row);
    }
  }

  lemma RowIn(sessions: Sessions, user: UserId, row: Stored)
    ensures row in RowsOf(sessions, user) <==>
            && row.hash in sessions && sessions[row.hash] == row.session
            && row.session.user == user
  {
  }

  lemma Divided(rows: seq<Stored>, n: nat)
    requires n <= |rows|
    requires forall i, j :: 0 <= i < j < |rows| ==> rows[i].hash != rows[j].hash
    ensures HashesOf(rows) - HashesOf(rows[..n]) == HashesOf(rows[n..])
    ensures |HashesOf(rows[n..])| == |rows| - n
  {
    assert rows == rows[..n] + rows[n..];
    DistinctHashes(rows[n..]);
  }

  /** Of rows sorted oldest first, the last are the newest. */
  lemma LastAreNewest(full: Sessions, user: UserId, rows: seq<Stored>, n: nat, k: Hash, v: Hash)
    requires Lists(rows, full, user) && Sorted(rows, OlderFirst) && n <= |rows|
    requires k in HashesOf(rows[n..]) && v in HashesOf(rows[..n])
    ensures k in full && v in full && full[k].createdAt >= full[v].createdAt
  {
    ListedOnce(rows, full, user);
    var i :| n <= i < |rows| && rows[i].hash == k;
    var j :| 0 <= j < n && rows[j].hash == v;
    assert OlderFirst(rows[j], rows[i]);
    assert rows[i] in rows && rows[j] in rows;
  }

  lemma EvictionKeepsNewest(full: Sessions, user: UserId, rows: seq<Stored>, cap: nat)
    requires Lists(rows, full, user) && Sorted(rows, OlderFirst) && |rows| > cap
    ensures KeepsNewest(full, user, MineIn(full, user) - HashesOf(rows[..|rows| - cap]), cap)
  {
    var n := |rows| - cap;
    ListedOnce(rows, full, user);
    Divided(rows, n);
    var mine, keep := HashesOf(rows), HashesOf(rows[n..]);
    forall k, v | k in keep && v in mine - keep
      ensures full[k].createdAt >= full[v].createdAt
    {
      LastAreNewest(full, user, rows, n, k, v);
    }
  }

  lemma UncrowdedIsStored(before: Sessions, hash: Hash, session: Session, cap: nat)
    requires |MineIn(before[hash := session], session.user)| <= cap
    ensures StoredWithinCap(before, before[hash := session], hash, session, cap)
  {
  }

  lemma EvictedIsStored(
    before: Sessions, hash: Hash, session: Session, rows: seq<Stored>, cap: nat)
    requires var full := before[hash := session];
             Lists(rows, full, session.user) && Sorted(rows, OlderFirst) && |rows| > cap
    ensures StoredWithinCap(before, before[hash := session] - HashesOf(rows[..|rows| - cap]),
                            hash, session, cap)
  {
    var full := before[hash := session];
    var gone := HashesOf(rows[..|rows| - cap]);
    EvictionKeepsNewest(full, session.user, rows, cap);
    ListedOnce(rows, full, session.user);
    assert gone <= HashesOf(rows);
    assert MineIn(full - gone, session.user) == MineIn(full, session.user) - gone;
  }

  /** In so many words: within the cap, nothing dropped without need, and nothing newer dropped. */
  lemma StoredMeans(before: Sessions, after: Sessions, hash: Hash, session: Session, cap: nat)
    requires StoredWithinCap(before, after, hash, session, cap)
    ensures var full := before[hash := session];
            var mine := MineIn(after, session.user);
            && |mine| <= cap
            && (|mine| < cap ==> after == full)
            && (forall k, v :: k in mine && v in full && v !in after ==>
                  after[k].createdAt >= full[v].createdAt)
  {
    var full, mine := before[hash := session], MineIn(after, session.user);
    if |mine| < cap {
      SubsetSize(mine, MineIn(full, session.user));
      assert forall h :: h in full && full[h].user == session.user ==> h in mine;
    }
  }

  class Repository {
    var usersByID: map<UserId, User>
    var usersByEmail: map<Email, UserId>
    var sessions: Sessions

    /** The email index names exactly the stored users. */
    ghost predicate Indexed()
      reads this
    {
      && (forall e :: e in usersByEmail ==>
            usersByEmail[e] in usersByID && usersByID[usersByEmail[e]].email == e)
      && (forall id :: id in usersByID ==>
            && usersByID[id].id == id
            && usersByID[id].email in usersByEmail
            && usersByEmail[usersByID[id].email] == id)
    }

    constructor ()
      ensures usersByID == map[] && usersByEmail == map[] && sessions == map[]
      ensures Indexed()
    {
      usersByID, usersByEmail, sessions := map[], map[], map[];
    }

    method CreateUser(u: User) returns (error: Option<Error>)
      modifies this`usersByID, this`usersByEmail
      ensures error == if u.email in old(usersByEmail) then Some(AlreadyExists) else None
      ensures error.Some? ==> usersByID == old(usersByID) && usersByEmail == old(usersByEmail)
      ensures error.None? ==>
                && usersByID == old(usersByID)[u.id := u]
                && usersByEmail == old(usersByEmail)[u.email := u.id]
      ensures old(Indexed()) && u.id !in old(usersByID) ==> Indexed()
    {
      if u.email in usersByEmail {
        return Some(AlreadyExists);
      }
      usersByID := usersByID[u.id := u];
      usersByEmail := usersByEmail[u.email := u.id];
      return None;
    }

    method FindUserByEmail(email: Email) returns (u: Option<User>)
      requires Indexed()
      ensures u.Some? <==> exists id :: id in usersByID && usersByID[id].email == email
      ensures u.Some? ==> u.value.id in usersByID && usersByID[u.value.id] == u.value
                          && u.value.email == email
    {
      if email !in usersByEmail {
        return None;
      }
      assert usersByEmail[email] in usersByID;
      return Some(usersByID[usersByEmail[email]]);
    }

    method FindUserByID(id: UserId) returns (u: Option<User>)
      ensures u == if id in usersByID then Some(usersByID[id]) else None
    {
      if id !in usersByID {
        return None;
      }
      return Some(usersByID[id]);
    }

    method UpdateUserPassword(id: UserId, password: Password, now: Time)
      returns (error: Option<Error>)
      modifies this`usersByID
      ensures error == if id in old(usersByID) then None else Some(NotFound)
      ensures usersByID == if error.Some? then old(usersByID)
                           else old(usersByID)[id := old(usersByID)[id]
                                                     .(password := password, updatedAt := now)]
      ensures old(Indexed()) ==> Indexed()
    {
      if id !in usersByID {
        return Some(NotFound);
      }
      usersByID := usersByID[id := usersByID[id].(password := password, updatedAt := now)];
      return None;
    }

    method DeleteUser(id: UserId) returns (error: Option<Error>)
      modifies this`usersByID, this`usersByEmail
      ensures error == if id in old(usersByID) then None else Some(NotFound)
      ensures usersByID == old(usersByID) - {id}
      ensures error.Some? ==> usersByEmail == old(usersByEmail)
      ensures old(Indexed()) ==> Indexed()
    {
      if id !in usersByID {
        return Some(NotFound);
      }
      var u := usersByID[id];
      usersByID := usersByID - {id};
      usersByEmail := usersByEmail - {u.email};
      return None;
    }

    method CollectSessions(user: UserId) returns (rows: seq<Stored>)
      ensures Lists(rows, sessions, user)
    {
      rows := [];
      var todo := sessions.Keys;
      while todo != {}
        invariant todo <= sessions.Keys
        invariant Lists(rows, sessions - todo, user)
        decreases |todo|
      {
        var h :| h in todo;
        RowAdded(sessions, todo, h, user);
        todo := todo - {h};
        if sessions[h].user == user {
          rows := rows + [Stored(h, sessions[h])];
        }
      }
      assert sessions - todo == sessions;
    }

    method OldestFirst(mine: seq<Stored>, user: UserId) returns (rows: seq<Stored>)
      requires Lists(mine, sessions, user)
      ensures Lists(rows, sessions, user) && Sorted(rows, OlderFirst) && |rows| == |mine|
    {
      rows := Sort(mine, OlderFirst);
      SortSorts(mine, OlderFirst);
    }

    method CreateSession(hash: Hash, session: Session, maxSessions: nat)
      modifies this`sessions
      ensures StoredWithinCap(old(sessions), sessions, hash, session, maxSessions)
      // Nobody else's session goes, nothing goes without need, and what goes is no newer.
      ensures forall h :: h in sessions ==> sessions[h] == old(sessions)[hash := session][h]
      ensures forall h :: h in old(sessions) && h != hash && old(sessions)[h].user != session.user ==>
                h in sessions
      ensures var mine := MineIn(sessions, session.user);
              && |mine| <= maxSessions
              && (|mine| < maxSessions ==> sessions == old(sessions)[hash := session])
              && (forall k, v ::
                    k in mine && v !in sessions && v in old(sessions)[hash := session] ==>
                    sessions[k].createdAt >= old(sessions)[hash := session][v].createdAt)
    {
      sessions := sessions[hash := session];
      var mine := CollectSessions(session.user);
      ListedInFull(mine, sessions, session.user);
      if |mine| <= maxSessions {
        UncrowdedIsStored(old(sessions), hash, session, maxSessions);
        StoredMeans(old(sessions), sessions, hash, session, maxSessions);
        return;
      }
      var rows := OldestFirst(mine, session.user);
      EvictFirst(rows, |rows| - maxSessions);
      EvictedIsStored(old(sessions), hash, session, rows, maxSessions);
      StoredMeans(old(sessions), sessions, hash, session, maxSessions);
    }

    method EvictFirst(rows: seq<Stored>, excess: nat)
      requires excess <= |rows|
      modifies this`sessions
      ensures sessions == old(sessions) - HashesOf(rows[..excess])
    {
      for i := 0 to excess
        invariant sessions == old(sessions) - HashesOf(rows[..i])
      {
        assert HashesOf(rows[..i + 1]) == HashesOf(rows[..i]) + {rows[i].hash};
        sessions := sessions - {rows[i].hash};
      }
    }

    method DeleteSessionsForUser(user: UserId)
      modifies this`sessions
      ensures sessions == UncutSessions(old(sessions), AllOf(user))
      ensures forall h :: h in sessions <==> h in old(sessions) && old(sessions)[h].user != user
      ensures forall h :: h in sessions ==> sessions[h] == old(sessions)[h]
    {
      var before, todo := sessions, sessions.Keys;
      while todo != {}
        invariant todo <= before.Keys
        invariant sessions ==
                  map h | h in before && (h in todo || before[h].user != user) :: before[h]
        decreases |todo|
      {
        var h :| h in todo;
        todo := todo - {h};
        if before[h].user == user {
          sessions := sessions - {h};
        }
      }
    }

    method DeleteSessionsForUserExcept(user: UserId, keep: Hash)
      modifies this`sessions
      ensures sessions == UncutSessions(old(sessions), AllExcept(user, keep))
      ensures forall h :: h in sessions <==>
                h in old(sessions) && (old(sessions)[h].user != user || h == keep)
      ensures forall h :: h in sessions ==> sessions[h] == old(sessions)[h]
    {
      var before, todo := sessions, sessions.Keys;
      while todo != {}
        invariant todo <= before.Keys
        invariant sessions ==
                  map h | h in before && (h in todo || before[h].user != user || h == keep)
                    :: before[h]
        decreases |todo|
      {
        var h :| h in todo;
        todo := todo - {h};
        if before[h].user == user && h != keep {
          sessions := sessions - {h};
        }
      }
    }

    method FindSessionByTokenHash(hash: Hash) returns (session: Option<Session>)
      ensures session == if hash in sessions then Some(sessions[hash]) else None
    {
      if hash !in sessions {
        return None;
      }
      return Some(sessions[hash]);
    }

    /** Newest first. */
    method FindSessionsForUser(user: UserId) returns (rows: seq<Stored>)
      ensures Lists(rows, sessions, user) && Sorted(rows, NewerFirst)
      ensures forall i, j :: 0 <= i < j < |rows| ==>
                rows[i].hash != rows[j].hash
                && rows[i].session.createdAt >= rows[j].session.createdAt
      ensures forall row :: row in rows <==>
                row.hash in sessions && sessions[row.hash] == row.session && row.session.user == user
    {
      var mine := CollectSessions(user);
      rows := Sort(mine, NewerFirst);
      SortSorts(mine, NewerFirst);
      ListedOnce(rows, sessions, user);
    }

    method DeleteSession(hash: Hash)
      modifies this`sessions
      ensures sessions == UncutSessions(old(sessions), One(hash))
      ensures sessions == old(sessions) - {hash}
    {
      sessions := sessions - {hash};
    }

    method DeleteExpiredSessions(now: Time)
      modifies this`sessions
      ensures sessions == ExpiredRemoved(old(sessions), now)
      ensures forall h :: h in sessions <==> h in old(sessions) && now <= old(sessions)[h].expiresAt
      ensures forall h :: h in sessions ==> sessions[h] == old(sessions)[h]
    {
      var before, todo := sessions, sessions.Keys;
      while todo != {}
        invariant todo <= before.Keys
        invariant sessions ==
                  map h | h in before && (h in todo || now <= before[h].expiresAt) :: before[h]
        decreases |todo|
      {
        var h :| h in todo;
        todo := todo - {h};
        if before[h].expiresAt < now {
          sessions := sessions - {h};
        }
      }
    }
  }

  /** However ties in CreatedAt are broken, the cap holds after each login and other users keep all. */
  lemma {:induction false} CapHolds(before: Sessions, after: Sessions, hash: Hash, session: Session, cap: nat)
    requires StoredWithinCap(before, after, hash, session, cap)
    requires hash in before ==> before[hash].user == session.user
    ensures |MineIn(after, session.user)| <= cap
    ensures forall other :: other != session.user ==>
              MineIn(after, other) == MineIn(before, other)
    ensures |MineIn(before, session.user) + {hash}| <= cap ==> after == before[hash := session]
  {
    var full := before[hash := session];
    assert MineIn(full, session.user) == MineIn(before, session.user) + {hash};
    if |MineIn(full, session.user)| <= cap {
      var mine := MineIn(full, session.user);
      if MineIn(after, session.user) != mine {
        SubsetSize(MineIn(after, session.user), mine);
      }
      assert forall h :: h in full && full[h].user == session.user ==> h in mine;
    }
  }
}
