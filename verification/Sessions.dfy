/**
 Server-side sessions (app/auth/service.py) under a clock that never goes back: who is
 authenticated, for how long, and what can never be undone.
 */
module Sessions {
  import opened Wrappers

  type UserId = nat

  datatype Session = Session(
    user: UserId, csrfHash: int, expiresAt: real, lastSeenAt: real, revokedAt: Option<real>)

  datatype Operator = Operator(active: bool, isOperator: bool)

  /** SHA-256 of text, the CSRF token derived from a session token, and the token format. */
  datatype Secrets = Secrets(hash: string -> int, derive: string -> string, valid: string -> bool) {
    function Hash(text: string): int { hash(text) }
    function CsrfHash(raw: string): int { hash(derive(raw)) }
    predicate WellFormed(raw: string) { valid(raw) }
  }

  ghost predicate CollisionFree(secrets: Secrets) {
    forall a, b :: secrets.Hash(a) == secrets.Hash(b) ==> a == b
  }

  /** The lifetimes in seconds, as the settings accept them. */
  datatype LifetimeSettings = LifetimeSettings(absolute: real, inactivity: real, refresh: real)

  predicate ValidLifetimes(l: LifetimeSettings) {
    && 300.0 <= l.absolute <= 86_400.0 && 60.0 <= l.inactivity <= 43_200.0 && 30.0 <= l.refresh <= 3_600.0
    && l.inactivity <= l.absolute && l.refresh < l.inactivity
  }

  type Lifetimes = l: LifetimeSettings | ValidLifetimes(l) witness LifetimeSettings(28_800.0, 1_800.0, 300.0)

  /** The stored CSRF hashes belong to the tokens their rows are found by. */
  ghost predicate CsrfMatches(secrets: Secrets, sessions: map<int, Session>) {
    forall raw :: secrets.Hash(raw) in sessions ==> sessions[secrets.Hash(raw)].csrfHash == secrets.CsrfHash(raw)
  }

  /** A session that has ended is revoked for as long as it is stored. */
  ghost predicate EndedRevoked(sessions: map<int, Session>, ended: set<int>) {
    forall h :: h in ended && h in sessions ==> sessions[h].revokedAt.Some?
  }

  /** The last use of a session lies less than a refresh interval after the stored one. */
  ghost predicate Fresh(sessions: map<int, Session>, lastUse: map<int, real>, refresh: real, clock: real) {
    forall h :: h in sessions ==>
      h in lastUse && sessions[h].lastSeenAt <= lastUse[h] <= clock && lastUse[h] - sessions[h].lastSeenAt < refresh
  }

  /** What `authenticate` demands of a session and its operator. */
  predicate Acceptable(s: Session, operator: Operator, lifetimes: Lifetimes, now: real) {
    && s.revokedAt == None && now < s.expiresAt && now - s.lastSeenAt < lifetimes.inactivity
    && operator.active && operator.isOperator
  }

  // ---------------------------------------------------------------- the tables as values

  datatype Tables = Tables(sessions: map<int, Session>, operators: map<UserId, Operator>)

  predicate MayLogin(t: Tables, user: UserId) {
    user in t.operators && t.operators[user].active && t.operators[user].isOperator
  }

  /** The row with its operator that a token finds. */
  predicate Known(t: Tables, h: int) { h in t.sessions && t.sessions[h].user in t.operators }

  predicate Accepts(t: Tables, secrets: Secrets, l: Lifetimes, raw: string, now: real) {
    var h := secrets.Hash(raw);
    && secrets.WellFormed(raw) && Known(t, h)
    && Acceptable(t.sessions[h], t.operators[t.sessions[h].user], l, now)
    && t.sessions[h].csrfHash == secrets.CsrfHash(raw)
  }

  function Revoked(sessions: map<int, Session>, h: int, now: real): map<int, Session> {
    if h in sessions && sessions[h].revokedAt == None then sessions[h := sessions[h].(revokedAt := Some(now))]
    else sessions
  }

  function Touched(sessions: map<int, Session>, h: int, l: Lifetimes, now: real): map<int, Session>
    requires h in sessions
  {
    if now - sessions[h].lastSeenAt >= l.refresh then sessions[h := sessions[h].(lastSeenAt := now)] else sessions
  }

  /** The hash of an optional token, when it is one. */
  function TokenHash(secrets: Secrets, raw: Option<string>): Option<int> {
    if raw.Some? && secrets.WellFormed(raw.value) then Some(secrets.Hash(raw.value)) else None
  }

  function EndedBy(sessions: map<int, Session>, token: Option<int>): set<int> {
    if token.Some? && token.value in sessions then {token.value} else {}
  }

  function AfterLogin(
    t: Tables, secrets: Secrets, l: Lifetimes, user: UserId, raw: string, previous: Option<string>, now: real): Tables
  {
    var token := TokenHash(secrets, previous);
    if !MayLogin(t, user) then t
    else
      var sessions := if token.Some? then Revoked(t.sessions, token.value, now) else t.sessions;
      var row := Session(user, secrets.CsrfHash(raw), now + l.absolute, now, None);
      t.(sessions := sessions[secrets.Hash(raw) := row])
  }

  function AfterUse(t: Tables, secrets: Secrets, l: Lifetimes, raw: Option<string>, now: real): Tables {
    var token := TokenHash(secrets, raw);
    if token == None || !Known(t, token.value) then t
    else if Accepts(t, secrets, l, raw.value, now) then t.(sessions := Touched(t.sessions, token.value, l, now))
    else t.(sessions := Revoked(t.sessions, token.value, now))
  }

  function AfterLogout(t: Tables, secrets: Secrets, raw: Option<string>, now: real): Tables {
    var token := TokenHash(secrets, raw);
    if token == None then t else t.(sessions := Revoked(t.sessions, token.value, now))
  }

  class SessionService {
    const secrets: Secrets
    const lifetimes: Lifetimes
    /** Session rows by the hash of their token. */
    var sessions: map<int, Session>
    var operators: map<UserId, Operator>
    ghost var clock: real
    /** Every token hash ever stored. */
    ghost var issued: set<int>
    /** Sessions that were refused, logged out or replaced while stored. */
    ghost var ended: set<int>
    /** When a session was created or last accepted. */
    ghost var lastUse: map<int, real>

    ghost predicate Valid()
      reads this
    {
      && CollisionFree(secrets) && CsrfMatches(secrets, sessions)
      && sessions.Keys <= issued && ended <= issued && EndedRevoked(sessions, ended)
      && Fresh(sessions, lastUse, lifetimes.refresh, clock)
    }

    ghost function Now(): Tables
      reads this
    {
      Tables(sessions, operators)
    }

    constructor (secrets: Secrets, lifetimes: Lifetimes, ghost now: real)
      requires CollisionFree(secrets)
      ensures Valid() && this.secrets == secrets && this.lifetimes == lifetimes && clock == now
      ensures sessions == map[] && operators == map[] && issued == {} && ended == {}
    {
      this.secrets, this.lifetimes, sessions, operators := secrets, lifetimes, map[], map[];
      clock, issued, ended, lastUse := now, {}, {}, map[];
    }

    method SetOperator(user: UserId, operator: Operator)
      requires Valid()
      modifies `operators
      ensures Valid() && operators == old(operators)[user := operator]
    {
      operators := operators[user := operator];
    }

    /** Revoke a stored session that is not revoked yet. */
    method Revoke(h: int, now: real)
      requires Valid()
      modifies `sessions, `ended
      ensures Valid() && ended == old(ended) + if h in old(sessions) then {h} else {}
      ensures sessions == Revoked(old(sessions), h, now)
    {
      if h in sessions {
        if sessions[h].revokedAt == None {
          sessions := sessions[h := sessions[h].(revokedAt := Some(now))];
        }
        ended := ended + {h};
      }
    }

    /** The session part of `login`: a fresh token gets a row, and the previous session ends. */
    method Login(user: UserId, raw: string, previous: Option<string>, now: real) returns (ok: bool)
      requires Valid() && clock <= now && secrets.Hash(raw) !in issued
      modifies `sessions, `issued, `ended, `lastUse, `clock
      ensures Valid() && clock == now
      ensures ok <==> user in operators && operators[user].active && operators[user].isOperator
      ensures Now() == AfterLogin(old(Now()), secrets, lifetimes, user, raw, previous, now)
      ensures issued == if ok then old(issued) + {secrets.Hash(raw)} else old(issued)
      ensures lastUse == if ok then old(lastUse)[secrets.Hash(raw) := now] else old(lastUse)
      ensures ended == if ok then old(ended) + EndedBy(old(sessions), TokenHash(secrets, previous)) else old(ended)
    {
      clock := now;
      ok := user in operators && operators[user].active && operators[user].isOperator;
      if ok {
        if previous.Some? && secrets.WellFormed(previous.value) {
          Revoke(secrets.Hash(previous.value), now);
        }
        Store(secrets.Hash(raw), raw, Session(user, secrets.CsrfHash(raw), now + lifetimes.absolute, now, None));
      }
    }

    method Store(h: int, ghost raw: string, row: Session)
      requires Valid() && h == secrets.Hash(raw) && h !in issued
      requires row.csrfHash == secrets.CsrfHash(raw) && row.lastSeenAt == clock
      modifies `sessions, `issued, `lastUse
      ensures Valid() && sessions == old(sessions)[h := row] && issued == old(issued) + {h}
      ensures lastUse == old(lastUse)[h := clock]
    {
      sessions := sessions[h := row];
      issued := issued + {h};
      lastUse := lastUse[h := clock];
    }

    /**
     Accepted exactly while the stored session is unrevoked, unexpired and recently used and its
     operator is active. A refused stored session has ended for good; a gap of the inactivity
     lifetime is always refused; and any gap short of it by the refresh interval is not, on its
     own, a reason to refuse.
     */
    method Authenticate(raw: Option<string>, now: real) returns (user: Option<UserId>)
      requires Valid() && clock <= now
      modifies `sessions, `ended, `lastUse, `clock
      ensures Valid() && clock == now
      ensures Now() == AfterUse(old(Now()), secrets, lifetimes, raw, now)
      ensures user.Some? <==> raw.Some? && Accepts(old(Now()), secrets, lifetimes, raw.value, now)
      ensures user.Some? ==>
                user.value in operators && operators[user.value].active && operators[user.value].isOperator
      ensures user.Some? ==>
                var row := old(sessions)[secrets.Hash(raw.value)];
                user.value == row.user && row.revokedAt == None && now < row.expiresAt
                && now - row.lastSeenAt < lifetimes.inactivity
      ensures raw.Some? && secrets.WellFormed(raw.value) ==>
                AuthenticatedAs(old(sessions), old(lastUse), old(ended), secrets.Hash(raw.value), now, user)
      ensures lastUse == if user.Some? then old(lastUse)[secrets.Hash(raw.value) := now] else old(lastUse)
      ensures var token := TokenHash(secrets, raw);
              ended == old(ended)
                       + if user == None && token.Some? && Known(old(Now()), token.value) then {token.value} else {}
    {
      clock := now;
      user := None;
      if raw.Some? && secrets.WellFormed(raw.value) {
        var h := secrets.Hash(raw.value);
        if h in sessions && sessions[h].user in operators {
          var row := sessions[h];
          if Acceptable(row, operators[row.user], lifetimes, now) && row.csrfHash == secrets.CsrfHash(raw.value) {
            Touch(h, now);
            user := Some(row.user);
          } else {
            Revoke(h, now);
          }
        }
      }
    }

    /** Note a use, writing it down once a refresh interval has passed. */
    method Touch(h: int, now: real)
      requires Valid() && h in sessions && clock == now
      modifies `sessions, `lastUse
      ensures Valid() && lastUse == old(lastUse)[h := now]
      ensures sessions == Touched(old(sessions), h, lifetimes, now)
    {
      if now - sessions[h].lastSeenAt >= lifetimes.refresh {
        sessions := sessions[h := sessions[h].(lastSeenAt := now)];
      }
      lastUse := lastUse[h := now];
    }

    /** What one authentication attempt with a well-formed token means. */
    ghost predicate AuthenticatedAs(
      before: map<int, Session>, used: map<int, real>, over: set<int>, h: int, now: real, user: Option<UserId>)
      reads this
    {
      var known := h in before && before[h].user in operators;
      && (user.Some? <==> known && Acceptable(before[h], operators[before[h].user], lifetimes, now))
      && (user.Some? ==> user.value == before[h].user)
      && (known && user == None ==> h in ended)
      && (h in over ==> user == None)
      && (known && h in used && now - used[h] >= lifetimes.inactivity ==> user == None)
      && ((known && h in used && before[h].revokedAt == None && now < before[h].expiresAt
           && operators[before[h].user].active && operators[before[h].user].isOperator
           && now - used[h] <= lifetimes.inactivity - lifetimes.refresh) ==> user.Some?)
    }

    method Logout(raw: Option<string>, now: real)
      requires Valid() && clock <= now
      modifies `sessions, `ended, `clock
      ensures Valid() && clock == now
      ensures Now() == AfterLogout(old(Now()), secrets, raw, now)
      ensures ended == old(ended) + EndedBy(old(sessions), TokenHash(secrets, raw))
    {
      clock := now;
      if raw.Some? && secrets.WellFormed(raw.value) {
        Revoke(secrets.Hash(raw.value), now);
      }
    }

    /** Delete up to `limit` expired or revoked sessions, `ids`; no other row is touched. */
    method CleanupSessions(limit: nat, apply: bool, now: real) returns (count: nat, ghost ids: set<int>)
      requires Valid() && clock <= now
      modifies `sessions, `clock
      ensures Valid() && clock == now
      ensures var stale := Stale(old(sessions), now);
              ids <= stale && |ids| == count == if |stale| <= limit then |stale| else limit
      ensures sessions == if apply then old(sessions) - ids else old(sessions)
    {
      clock := now;
      var stale := Stale(sessions, now);
      var chosen: set<int> := {};
      while |chosen| < limit && stale - chosen != {}
        modifies {}
        invariant chosen <= stale && |chosen| <= limit
        decreases stale - chosen
      {
        var one := PickOne(stale - chosen);
        chosen := chosen + one;
      }
      StaleCount(stale, chosen);
      count, ids := |chosen|, chosen;
      if apply {
        sessions := sessions - chosen;
      }
    }
  }

  function Stale(sessions: map<int, Session>, now: real): set<int> {
    set h | h in sessions && (sessions[h].expiresAt <= now || sessions[h].revokedAt.Some?)
  }

  method PickOne<T(==)>(s: set<T>) returns (one: set<T>)
    requires s != {}
    ensures |one| == 1 && one <= s
  {
    var x :| x in s;
    one := {x};
  }

  lemma StaleCount<T>(stale: set<T>, ids: set<T>)
    requires ids <= stale
    ensures stale - ids == {} ==> ids == stale
    ensures |ids| <= |stale|
  {
    assert stale == ids + (stale - ids);
  }
}
