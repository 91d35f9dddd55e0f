/**
 * CurrentUserService: the signed-in user of a circuit, read from the
 * authentication state's `app_user_id` claim and cached in two fields.
 *
 * The authentication state and the Users table are parameters of each call;
 * the table is a map from Id to row.
 */
module CurrentUserService {
  import opened Wrappers
  import opened Text
  import opened NumberParsing

  /** The Users row, without its navigation properties. */
  datatype User = User(id: int, googleSubject: string, email: string, displayName: string)

  datatype Claim = Claim(claimType: string, value: string)

  /**
   * The principal of an authentication state. `authenticated` is false both
   * for an identity that is not authenticated and for a missing identity.
   */
  datatype Principal = Principal(authenticated: bool, claims: seq<Claim>)

  const UserIdClaim: string := "app_user_id"

  type Users = map<int, User>

  /** Every row is stored under its own Id. */
  predicate Keyed(users: Users) {
    forall id | id in users :: users[id].id == id
  }

  /** The claim's type is `claimType`, compared ordinally ignoring case. */
  predicate HasType(c: Claim, claimType: string) {
    EqualsIgnoringCase(c.claimType, claimType)
  }

  /**
   * ClaimsPrincipal.FindFirstValue: the value of the first claim whose type
   * matches, or None when no claim does.
   */
  function FindFirstValue(claims: seq<Claim>, claimType: string): (r: Option<string>)
    ensures r.None? <==> forall i | 0 <= i < |claims| :: !HasType(claims[i], claimType)
    ensures r.Some? ==> exists i | 0 <= i < |claims| ::
              HasType(claims[i], claimType) && claims[i].value == r.value &&
              forall j | 0 <= j < i :: !HasType(claims[j], claimType)
  {
    if claims == [] then None
    else if HasType(claims[0], claimType) then Some(claims[0].value)
    else
      var r := FindFirstValue(claims[1..], claimType);
      assert forall i | 1 <= i < |claims| :: claims[i] == claims[1..][i - 1];
      if r.Some? then
        var k :| 0 <= k < |claims[1..]| && HasType(claims[1..][k], claimType) && claims[1..][k].value == r.value &&
                 forall j | 0 <= j < k :: !HasType(claims[1..][j], claimType);
        assert HasType(claims[k + 1], claimType) && forall j | 0 <= j < k + 1 :: !HasType(claims[j], claimType);
        r
      else r
  }

  /** int.TryParse of a claim value; a missing claim does not parse. */
  function TryParseClaim(text: Option<string>): Option<int> {
    match text
    case None => None
    case Some(t) => ParseInt32(t)
  }

  function ClaimedUserId(principal: Principal): Option<int> {
    TryParseClaim(FindFirstValue(principal.claims, UserIdClaim))
  }

  /** FirstOrDefault(u => u.Id == userId) on the Users table. */
  function FindUser(users: Users, userId: int): (r: Option<User>)
    requires Keyed(users)
    ensures r.Some? <==> userId in users
    ensures r.Some? ==> r.value == users[userId] && r.value.id == userId
  {
    if userId in users then Some(users[userId]) else None
  }

  /** The two cache fields. */
  datatype Cache = Cache(user: Option<User>, userId: Option<int>)

  const Empty: Cache := Cache(None, None)

  /** The cache only ever holds a user under that user's own Id. */
  predicate Consistent(c: Cache) {
    c.user.Some? ==> c.userId == Some(c.user.value.id)
  }

  /** The result of one GetCurrentUserAsync call: what it returns, the new cache, and whether it read the table. */
  datatype Outcome = Outcome(user: Option<User>, cache: Cache, lookedUp: bool)

  function GetUser(principal: Principal, users: Users, cache: Cache): Outcome
    requires Keyed(users)
  {
    if !principal.authenticated then Outcome(None, Empty, false)
    else match ClaimedUserId(principal)
      case None => Outcome(None, Empty, false)
      case Some(userId) =>
        if cache.user.Some? && cache.userId == Some(userId) then Outcome(cache.user, cache, false)
        else
          var found := FindUser(users, userId);
          Outcome(found, Cache(found, Some(userId)), true)
  }

  class CurrentUserCache {
    var cachedUser: Option<User>
    var cachedUserId: Option<int>
    /** How many times the Users table has been read. */
    ghost var lookups: nat

    function State(): Cache
      reads this
    {
      Cache(cachedUser, cachedUserId)
    }

    constructor()
      ensures State() == Empty && lookups == 0
    {
      cachedUser, cachedUserId := None, None;
      lookups := 0;
    }

    method GetCurrentUser(principal: Principal, users: Users) returns (user: Option<User>)
      requires Keyed(users)
      modifies this
      ensures var o := GetUser(principal, users, old(State()));
              user == o.user && State() == o.cache
              && lookups == old(lookups) + (if o.lookedUp then 1 else 0)
    {
      if !principal.authenticated {
        ClearCache();
        return None;
      }
      var userIdStr := FindFirstValue(principal.claims, UserIdClaim);
      var parsed := TryParseClaim(userIdStr);
      if parsed.None? {
        ClearCache();
        return None;
      }
      var userId := parsed.value;
      if cachedUser.Some? && cachedUserId == Some(userId) {
        return cachedUser;
      }
      cachedUser := if userId in users then Some(users[userId]) else None;
      lookups := lookups + 1;
      cachedUserId := Some(userId);
      return cachedUser;
    }

    method GetCurrentUserId(principal: Principal, users: Users) returns (id: Option<int>)
      requires Keyed(users)
      modifies this
      ensures var o := GetUser(principal, users, old(State()));
              id == (if o.user.Some? then Some(o.user.value.id) else None) && State() == o.cache
              && lookups == old(lookups) + (if o.lookedUp then 1 else 0)
    {
      var user := GetCurrentUser(principal, users);
      id := if user.Some? then Some(user.value.id) else None;
    }

    method IsAuthenticated(principal: Principal, users: Users) returns (authenticated: bool)
      requires Keyed(users)
      modifies this
      ensures var o := GetUser(principal, users, old(State()));
              authenticated == o.user.Some? && State() == o.cache
              && lookups == old(lookups) + (if o.lookedUp then 1 else 0)
    {
      var user := GetCurrentUser(principal, users);
      authenticated := user.Some?;
    }

    method ClearCache()
      modifies this
      ensures State() == Empty && lookups == old(lookups)
    {
      cachedUser := None;
      cachedUserId := None;
    }
  }

  /** An unauthenticated principal gets no user and empties the cache, without a lookup. */
  lemma NotAuthenticatedClears(principal: Principal, users: Users, cache: Cache)
    requires Keyed(users) && !principal.authenticated
    ensures GetUser(principal, users, cache) == Outcome(None, Empty, false)
  {
  }

  /** A missing, empty or non-numeric claim gets no user and empties the cache. */
  lemma BadClaimClears(principal: Principal, users: Users, cache: Cache)
    requires Keyed(users) && principal.authenticated
    requires forall i | 0 <= i < |principal.claims| ::
               HasType(principal.claims[i], UserIdClaim) ==> ParseInt32(principal.claims[i].value).None?
    ensures GetUser(principal, users, cache) == Outcome(None, Empty, false)
  {
    var v := FindFirstValue(principal.claims, UserIdClaim);
  }

  /** An empty claim value does not parse. */
  lemma EmptyClaimDoesNotParse()
    ensures ParseInt32("").None?
  {
  }

  /** A cached user under the claimed id is returned as it is, without reading the table. */
  lemma CacheHit(principal: Principal, users: Users, cache: Cache, userId: int)
    requires Keyed(users) && principal.authenticated && ClaimedUserId(principal) == Some(userId)
    requires cache.user.Some? && cache.userId == Some(userId)
    ensures GetUser(principal, users, cache) == Outcome(cache.user, cache, false)
  {
  }

  /**
   * Any other cache state (empty, a different id, or a cached miss) reads the
   * table and stores both the result and the id; an id with no row gives none.
   */
  lemma CacheMiss(principal: Principal, users: Users, cache: Cache, userId: int)
    requires Keyed(users) && principal.authenticated && ClaimedUserId(principal) == Some(userId)
    requires cache.user.None? || cache.userId != Some(userId)
    ensures var o := GetUser(principal, users, cache);
            o.lookedUp && o.cache == Cache(o.user, Some(userId))
            && (o.user.Some? <==> userId in users)
            && (o.user.Some? ==> o.user.value == users[userId])
  {
  }

  /** From a consistent cache, the user returned is always the one the claim names, and the cache stays consistent. */
  lemma ReturnedUserMatchesClaim(principal: Principal, users: Users, cache: Cache)
    requires Keyed(users) && Consistent(cache)
    ensures var o := GetUser(principal, users, cache);
            Consistent(o.cache)
            && (o.user.Some? ==> principal.authenticated && ClaimedUserId(principal) == Some(o.user.value.id))
  {
  }

  /** A second call with the same principal does not read the table again once a user was found. */
  lemma SecondCallHits(principal: Principal, users: Users, cache: Cache)
    requires Keyed(users)
    ensures var first := GetUser(principal, users, cache);
            var second := GetUser(principal, users, first.cache);
            first.user.Some? ==> second == Outcome(first.user, first.cache, false)
  {
  }

  /** After ClearCache an authenticated principal with a numeric claim always causes a lookup. */
  lemma ClearForcesLookup(principal: Principal, users: Users)
    requires Keyed(users) && principal.authenticated && ClaimedUserId(principal).Some?
    ensures GetUser(principal, users, Empty).lookedUp
  {
  }

  /**
   * With the identity column starting at 1, a claim that parses to 0 or a
   * negative number never names a user, from any cache filled from the same table.
   */
  lemma ZeroAndNegativeIdsUnknown(principal: Principal, users: Users, cache: Cache)
    requires Keyed(users) && forall id | id in users :: id >= 1
    requires Consistent(cache) && (cache.user.Some? ==> cache.user.value.id in users)
    requires principal.authenticated && ClaimedUserId(principal).Some? && ClaimedUserId(principal).value < 1
    ensures GetUser(principal, users, cache).user.None?
  {
  }

  /** The claims "0" and "-1", first among the principal's claims, parse to 0 and -1. */
  lemma ZeroAndMinusOneClaims(principal: Principal)
    requires |principal.claims| > 0
    requires principal.claims[0] == Claim(UserIdClaim, "0") || principal.claims[0] == Claim(UserIdClaim, "-1")
    ensures ClaimedUserId(principal) == Some(if principal.claims[0].value == "0" then 0 else -1)
  {
    assert FindFirstValue(principal.claims, UserIdClaim) == Some(principal.claims[0].value);
    if principal.claims[0].value == "0" {
      ParseZero();
    } else {
      ParseMinusOne();
    }
  }

  lemma ParseZero()
    ensures ParseInt32("0") == Some(0)
  {
    TrimUnchanged("0");
    assert DigitsValue("0") == 0 by { assert "0"[..0] == []; }
  }

  lemma ParseMinusOne()
    ensures ParseInt32("-1") == Some(-1)
  {
    TrimUnchanged("-1");
    assert "-1"[1..] == "1";
    assert DigitsValue("1") == 1 by { assert "1"[..0] == []; }
  }
}
