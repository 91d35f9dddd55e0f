/**
 * SessionService: the server-side session table behind the sign-in cookie.
 * Sessions are created, validated, touched, revoked one at a time or for a
 * whole user, and removed by a retention cleanup.
 *
 * Times are DateTime ticks (100 ns) as plain integers; `now` and the fresh
 * session id are parameters where the service reads the clock or calls
 * Guid.NewGuid.
 */
module SessionService {
  import opened Wrappers

  /** A Guid session id; only equality matters. */
  type Guid = nat

  const TicksPerDay: int := 864_000_000_000
  /** The lifetime of a session created without an explicit expiry. */
  const DefaultExpiry: int := 7 * TicksPerDay
  /** Revoked and expired sessions are kept this long after creation, for audit. */
  const AuditRetention: int := 30 * TicksPerDay

  datatype UserSession = UserSession(
    sessionId: Guid,
    userId: int,
    createdUtc: int,
    expiresUtc: int,
    revokedUtc: Option<int>,
    lastSeenUtc: Option<int>,
    ipAddress: Option<string>,
    userAgent: Option<string>)

  /** UserSession.IsValid: not revoked and not yet expired (strictly). */
  predicate IsValid(s: UserSession, now: int) {
    s.revokedUtc.None? && s.expiresUtc > now
  }

  /** The UserSessions table, keyed by SessionId. */
  type Table = map<Guid, UserSession>

  /** Every row is stored under its own primary key. */
  predicate Keyed(t: Table) {
    forall id | id in t :: t[id].sessionId == id
  }

  /** The row CreateSessionAsync builds. */
  function NewSession(sessionId: Guid, userId: int, ipAddress: Option<string>, userAgent: Option<string>,
                      expiry: Option<int>, now: int): (s: UserSession)
    ensures s.sessionId == sessionId && s.userId == userId
    ensures s.ipAddress == ipAddress && s.userAgent == userAgent
    ensures s.createdUtc == now && s.expiresUtc == now + expiry.GetOr(DefaultExpiry)
    ensures s.revokedUtc.None? && s.lastSeenUtc.None?
  {
    UserSession(sessionId, userId, now, now + expiry.GetOr(DefaultExpiry), None, None, ipAddress, userAgent)
  }

  /** ValidateSessionAsync: the row under the id, if it is valid at `now`. */
  function ValidSession(t: Table, sessionId: Guid, now: int): (r: Option<UserSession>)
    ensures r.Some? <==> sessionId in t && IsValid(t[sessionId], now)
    ensures r.Some? ==> r.value == t[sessionId]
  {
    if sessionId in t && IsValid(t[sessionId], now) then Some(t[sessionId]) else None
  }

  /** The table after TouchSessionAsync: LastSeenUtc set on the caller's own valid session. */
  function Touched(t: Table, sessionId: Guid, userId: int, now: int): Table {
    if sessionId in t && t[sessionId].userId == userId && IsValid(t[sessionId], now)
    then t[sessionId := t[sessionId].(lastSeenUtc := Some(now))]
    else t
  }

  /** The table after RevokeSessionAsync: RevokedUtc set to `now` on the row, if there is one. */
  function Revoked(t: Table, sessionId: Guid, now: int): Table {
    if sessionId in t then t[sessionId := t[sessionId].(revokedUtc := Some(now))] else t
  }

  /** The row after RevokeAllSessionsAsync for `userId`. */
  function RevokedForUser(s: UserSession, userId: int, now: int): UserSession {
    if s.userId == userId && s.revokedUtc.None? then s.(revokedUtc := Some(now)) else s
  }

  function RevokedAll(t: Table, userId: int, now: int): Table {
    map id | id in t :: RevokedForUser(t[id], userId, now)
  }

  /** Cleanup's filter: expired or revoked, and created more than 30 days before `now`. */
  predicate Removable(s: UserSession, now: int) {
    (s.expiresUtc < now || s.revokedUtc.Some?) && s.createdUtc < now - AuditRetention
  }

  function CleanedUp(t: Table, now: int): Table {
    map id | id in t && !Removable(t[id], now) :: t[id]
  }

  class SessionStore {
    var sessions: Table

    ghost predicate Valid()
      reads this
    {
      Keyed(sessions)
    }

    constructor()
      ensures Valid() && sessions == map[]
    {
      sessions := map[];
    }

    method CreateSession(freshId: Guid, userId: int, ipAddress: Option<string>, userAgent: Option<string>,
                         expiry: Option<int>, now: int) returns (session: UserSession)
      requires Valid() && freshId !in sessions
      modifies this
      ensures Valid()
      ensures session == NewSession(freshId, userId, ipAddress, userAgent, expiry, now)
      ensures sessions == old(sessions)[freshId := session]
    {
      session := UserSession(freshId, userId, now, now + expiry.GetOr(DefaultExpiry), None, None, ipAddress, userAgent);
      sessions := sessions[freshId := session];
    }

    function ValidateSession(sessionId: Guid, now: int): (r: Option<UserSession>)
      reads this
      ensures r.Some? <==> sessionId in sessions && IsValid(sessions[sessionId], now)
      ensures r.Some? ==> r.value == sessions[sessionId]
    {
      ValidSession(sessions, sessionId, now)
    }

    /** A bulk update of the matching rows; true when exactly one row matched. */
    method TouchSession(sessionId: Guid, userId: int, now: int) returns (updated: bool)
      requires Valid()
      modifies this
      ensures Valid()
      ensures updated <==> sessionId in old(sessions) && old(sessions)[sessionId].userId == userId
                           && IsValid(old(sessions)[sessionId], now)
      ensures sessions == Touched(old(sessions), sessionId, userId, now)
    {
      var matched := set id | id in sessions && id == sessionId && sessions[id].userId == userId
                                && sessions[id].revokedUtc.None? && sessions[id].expiresUtc > now;
      ghost var before := sessions;
      sessions := map id | id in sessions :: if id in matched then sessions[id].(lastSeenUtc := Some(now)) else sessions[id];
      if sessionId in before && before[sessionId].userId == userId && IsValid(before[sessionId], now) {
        assert matched == {sessionId};
      } else {
        assert matched == {};
      }
      updated := |matched| == 1;
    }

    method RevokeSession(sessionId: Guid, now: int) returns (found: bool)
      requires Valid()
      modifies this
      ensures Valid()
      ensures found <==> sessionId in old(sessions)
      ensures sessions == Revoked(old(sessions), sessionId, now)
    {
      if sessionId !in sessions {
        return false;
      }
      var session := sessions[sessionId];
      sessions := sessions[sessionId := session.(revokedUtc := Some(now))];
      return true;
    }

    /** A bulk update of that user's unrevoked rows. */
    method RevokeAllSessions(userId: int, now: int)
      requires Valid()
      modifies this
      ensures Valid()
      ensures sessions == RevokedAll(old(sessions), userId, now)
    {
      var matched := set id | id in sessions && sessions[id].userId == userId && sessions[id].revokedUtc.None?;
      sessions := map id | id in sessions :: if id in matched then sessions[id].(revokedUtc := Some(now)) else sessions[id];
    }

    /** Selects the removable rows, then removes them. */
    method CleanupExpiredSessions(now: int)
      requires Valid()
      modifies this
      ensures Valid()
      ensures sessions == CleanedUp(old(sessions), now)
    {
      var expiredSessions := set id | id in sessions && (sessions[id].expiresUtc < now || sessions[id].revokedUtc.Some?)
                                        && sessions[id].createdUtc < now - AuditRetention;
      sessions := sessions - expiredSessions;
    }
  }

  /** A created session validates exactly until its expiry, and by default for seven days. */
  lemma CreatedSessionValidUntilExpiry(t: Table, freshId: Guid, userId: int, ipAddress: Option<string>,
                                       userAgent: Option<string>, expiry: Option<int>, now: int, later: int)
    ensures var s := NewSession(freshId, userId, ipAddress, userAgent, expiry, now);
            ValidSession(t[freshId := s], freshId, later) == if later < now + expiry.GetOr(DefaultExpiry) then Some(s) else None
    ensures expiry.None? ==> NewSession(freshId, userId, ipAddress, userAgent, expiry, now).expiresUtc == now + 7 * TicksPerDay
  {
  }

  /** Creating a session leaves whether any other session validates untouched. */
  lemma CreateKeepsOthers(t: Table, s: UserSession, other: Guid, later: int)
    requires s.sessionId !in t && other != s.sessionId
    ensures ValidSession(t[s.sessionId := s], other, later) == ValidSession(t, other, later)
  {
  }

  /** Touching never starts, extends or ends a session: validity is the same before and after. */
  lemma TouchKeepsValidity(t: Table, sessionId: Guid, userId: int, now: int, id: Guid, later: int)
    ensures ValidSession(Touched(t, sessionId, userId, now), id, later).Some?
            <==> ValidSession(t, id, later).Some?
  {
  }

  /** A touch on behalf of another user, or of an invalid session, changes nothing. */
  lemma TouchNeedsOwnerAndValidity(t: Table, sessionId: Guid, userId: int, now: int)
    requires sessionId !in t || t[sessionId].userId != userId || ValidSession(t, sessionId, now).None?
    ensures Touched(t, sessionId, userId, now) == t
  {
  }

  /** After a revoke, the session never validates again; the other rows are unchanged. */
  lemma RevokeInvalidates(t: Table, sessionId: Guid, now: int, later: int)
    ensures ValidSession(Revoked(t, sessionId, now), sessionId, later).None?
    ensures forall id | id != sessionId && id in t :: id in Revoked(t, sessionId, now) && Revoked(t, sessionId, now)[id] == t[id]
    ensures Revoked(t, sessionId, now).Keys == t.Keys
  {
  }

  /** After RevokeAll, none of the user's sessions validates at any time. */
  lemma RevokeAllInvalidatesUser(t: Table, userId: int, now: int, id: Guid, later: int)
    requires id in t && t[id].userId == userId
    ensures ValidSession(RevokedAll(t, userId, now), id, later).None?
  {
  }

  /**
   * RevokeAll touches only the user's unrevoked rows: other users' rows and
   * rows revoked earlier keep their RevokedUtc, and no row is added or removed.
   */
  lemma RevokeAllTouchesOnlyUnrevokedOfUser(t: Table, userId: int, now: int)
    ensures RevokedAll(t, userId, now).Keys == t.Keys
    ensures forall id | id in t && (t[id].userId != userId || t[id].revokedUtc.Some?) ::
              RevokedAll(t, userId, now)[id] == t[id]
    ensures forall id | id in t && t[id].userId == userId && t[id].revokedUtc.None? ::
              RevokedAll(t, userId, now)[id] == t[id].(revokedUtc := Some(now))
  {
  }

  /** Cleanup removes exactly the removable rows and keeps the others as they were. */
  lemma CleanupRemovesExactly(t: Table, now: int)
    ensures forall id :: id in CleanedUp(t, now) <==> id in t && !Removable(t[id], now)
    ensures forall id | id in CleanedUp(t, now) :: CleanedUp(t, now)[id] == t[id]
  {
  }

  /** Cleanup never removes a session that validates at the same instant. */
  lemma CleanupKeepsValidSessions(t: Table, now: int, id: Guid)
    requires ValidSession(t, id, now).Some?
    ensures ValidSession(CleanedUp(t, now), id, now) == ValidSession(t, id, now)
  {
  }

  /** Sessions created within the last 30 days survive cleanup, expired or not. */
  lemma CleanupKeepsRecentSessions(t: Table, now: int, id: Guid)
    requires id in t && t[id].createdUtc >= now - 30 * TicksPerDay
    ensures id in CleanedUp(t, now) && CleanedUp(t, now)[id] == t[id]
  {
  }

  /** A second cleanup at the same instant removes nothing more. */
  lemma CleanupIdempotent(t: Table, now: int)
    ensures CleanedUp(CleanedUp(t, now), now) == CleanedUp(t, now)
  {
  }

  /** Every transition keeps every row under its own key. */
  lemma TransitionsKeepKeys(t: Table, sessionId: Guid, userId: int, now: int)
    requires Keyed(t)
    ensures Keyed(Touched(t, sessionId, userId, now)) && Keyed(Revoked(t, sessionId, now))
    ensures Keyed(RevokedAll(t, userId, now)) && Keyed(CleanedUp(t, now))
  {
  }
}
