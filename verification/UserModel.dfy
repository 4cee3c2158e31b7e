/** The accounts and sessions internal/user stores. */
module UserModel {
  // Identifiers are only ever compared, so numbers stand in for UUIDs, and a token is its own
  // SHA-256 digest.
  type UserId = nat
  type Email = nat
  type Hash = nat
  type Time = nat

  datatype Session = Session(user: UserId, expiresAt: Time, createdAt: Time)

  type Sessions = map<Hash, Session>

  function MineIn(sessions: Sessions, user: UserId): set<Hash> {
    set h | h in sessions && sessions[h].user == user
  }

  /** keep is as many of user's sessions as the cap allows, and no dropped one is newer. */
  ghost predicate KeepsNewest(sessions: Sessions, user: UserId, keep: set<Hash>, cap: nat) {
    var mine := MineIn(sessions, user);
    && keep <= mine
    && |keep| == (if |mine| <= cap then |mine| else cap)
    && (forall k, v :: k in keep && v in mine - keep ==>
          sessions[k].createdAt >= sessions[v].createdAt)
  }

  /** Which tokens an operation revokes. */
  datatype Cut =
    | One(only: Hash)  // Logout and RevokeSession
    | AllOf(user: UserId)  // LogoutAll and DeleteAccount
    | AllExcept(user: UserId, keep: Hash)  // ChangePassword

  predicate Covers(cut: Cut, h: Hash, owner: UserId) {
    match cut
    case One(only) => h == only
    case AllOf(user) => owner == user
    case AllExcept(user, keep) => owner == user && h != keep
  }

  function UncutSessions(sessions: Sessions, cut: Cut): Sessions {
    map h | h in sessions && !Covers(cut, h, sessions[h].user) :: sessions[h]
  }
}
