/**
 Whole histories of the session service: any sequence of logins, uses, logouts, cleanups and
 operator changes, under a clock that never goes back. One session is followed from its login.
 */
module SessionHistory {
  import opened Wrappers
  import opened Sessions

  datatype Event =
    | Login(user: UserId, raw: string, previous: Option<string>)
    | Use(token: Option<string>)
    | Logout(ended: Option<string>)
    | Cleanup(ids: set<int>)
    | SetOperator(changed: UserId, operator: Operator)

  datatype Entry = Entry(event: Event, at: real)

  /** One call; a cleanup deletes some of the rows that are stale. */
  function After(t: Tables, secrets: Secrets, l: Lifetimes, entry: Entry): Tables {
    match entry.event
    case Login(user, raw, previous) => AfterLogin(t, secrets, l, user, raw, previous, entry.at)
    case Use(raw) => AfterUse(t, secrets, l, raw, entry.at)
    case Logout(raw) => AfterLogout(t, secrets, raw, entry.at)
    case Cleanup(ids) => if ids <= Stale(t.sessions, entry.at) then t.(sessions := t.sessions - ids) else t
    case SetOperator(user, operator) => t.(operators := t.operators[user := operator])
  }

  function Run(t: Tables, secrets: Secrets, l: Lifetimes, log: seq<Entry>): Tables {
    if log == [] then t
    else After(Run(t, secrets, l, log[..|log| - 1]), secrets, l, log[|log| - 1])
  }

  /** The clock never goes back and starts at `start`. */
  ghost predicate Ordered(log: seq<Entry>, start: real) {
    forall i {:trigger TimeBefore(log, start, i)} :: 0 <= i < |log| ==> TimeBefore(log, start, i) <= log[i].at
  }

  function TimeBefore(log: seq<Entry>, start: real, i: nat): real
    requires i <= |log|
  {
    if i == 0 then start else log[i - 1].at
  }

  /** Tokens are drawn afresh: no login is given the token with this hash again. */
  predicate OtherToken(secrets: Secrets, h: int, event: Event) { event.Login? ==> secrets.Hash(event.raw) != h }

  ghost predicate NeverReissued(secrets: Secrets, h: int, log: seq<Entry>) {
    forall i :: 0 <= i < |log| ==> OtherToken(secrets, h, log[i].event)
  }

  /** Nobody ends the session with this hash or takes its user's rights. */
  predicate Quiet(secrets: Secrets, h: int, user: UserId, event: Event) {
    match event
    case Login(_, raw, previous) => secrets.Hash(raw) != h && TokenHash(secrets, previous) != Some(h)
    case Use(_) => true
    case Logout(raw) => TokenHash(secrets, raw) != Some(h)
    case Cleanup(_) => true
    case SetOperator(changed, operator) => changed == user ==> operator.active && operator.isOperator
  }

  ghost predicate AllQuiet(secrets: Secrets, h: int, user: UserId, log: seq<Entry>) {
    forall i :: 0 <= i < |log| ==> Quiet(secrets, h, user, log[i].event)
  }

  /** When the session was last used, or created. */
  function LastUse(log: seq<Entry>, raw: string, start: real): real {
    if log == [] then start
    else
      var entry := log[|log| - 1];
      if entry.event == Use(Some(raw)) then entry.at else LastUse(log[..|log| - 1], raw, start)
  }

  /** Every use comes within the inactivity lifetime less the refresh interval after the one before. */
  ghost predicate Frequent(log: seq<Entry>, raw: string, start: real, l: Lifetimes) {
    forall i {:trigger LastUse(log[..i], raw, start)} :: 0 <= i < |log| && log[i].event == Use(Some(raw)) ==>
      log[i].at - LastUse(log[..i], raw, start) <= l.inactivity - l.refresh
  }

  lemma RunStep(t: Tables, secrets: Secrets, l: Lifetimes, log: seq<Entry>, i: nat)
    requires i < |log|
    ensures Run(t, secrets, l, log[..i + 1]) == After(Run(t, secrets, l, log[..i]), secrets, l, log[i])
  {
    assert log[..i + 1][..i] == log[..i];
  }

  lemma LastUseStep(log: seq<Entry>, raw: string, start: real, i: nat)
    requires i < |log|
    ensures LastUse(log[..i + 1], raw, start)
            == if log[i].event == Use(Some(raw)) then log[i].at else LastUse(log[..i], raw, start)
  {
    assert log[..i + 1][..i] == log[..i];
  }

  lemma {:induction false} LastUseBetween(log: seq<Entry>, raw: string, start: real, i: nat)
    requires i <= |log| && Ordered(log, start)
    ensures LastUse(log[..i], raw, start) <= TimeBefore(log, start, i)
  {
    if i > 0 {
      LastUseBetween(log, raw, start, i - 1);
      LastUseStep(log, raw, start, i - 1);
    }
  }

  // ---------------------------------------------------------------- ended

  /** The session is gone or revoked. */
  predicate Over(t: Tables, h: int) { h in t.sessions ==> t.sessions[h].revokedAt.Some? }

  lemma OverStep(t: Tables, secrets: Secrets, l: Lifetimes, entry: Entry, h: int)
    requires Over(t, h) && OtherToken(secrets, h, entry.event)
    ensures Over(After(t, secrets, l, entry), h)
  {
  }

  lemma {:induction false} OverForever(t: Tables, secrets: Secrets, l: Lifetimes, log: seq<Entry>, h: int, i: nat, j: nat)
    requires i <= j <= |log| && NeverReissued(secrets, h, log)
    requires Over(Run(t, secrets, l, log[..i]), h)
    ensures Over(Run(t, secrets, l, log[..j]), h)
    decreases j
  {
    if i < j {
      OverForever(t, secrets, l, log, h, i, j - 1);
      RunStep(t, secrets, l, log, j - 1);
      OverStep(Run(t, secrets, l, log[..j - 1]), secrets, l, log[j - 1], h);
    }
  }

  /** What ends the session with this hash: a refused use, a logout, or a login that replaces it. */
  predicate Ends(t: Tables, secrets: Secrets, l: Lifetimes, entry: Entry, h: int) {
    match entry.event
    case Login(user, _, previous) => MayLogin(t, user) && TokenHash(secrets, previous) == Some(h)
    case Use(raw) => TokenHash(secrets, raw) == Some(h) && Known(t, h) && !Accepts(t, secrets, l, raw.value, entry.at)
    case Logout(raw) => TokenHash(secrets, raw) == Some(h)
    case _ => false
  }

  /** Once a session is refused, logged out or replaced, no later use of its token is accepted. */
  lemma EndedForever(t: Tables, secrets: Secrets, l: Lifetimes, log: seq<Entry>, raw: string, i: nat, j: nat)
    requires i < j < |log| && NeverReissued(secrets, secrets.Hash(raw), log)
    requires Ends(Run(t, secrets, l, log[..i]), secrets, l, log[i], secrets.Hash(raw))
    ensures !Accepts(Run(t, secrets, l, log[..j]), secrets, l, raw, log[j].at)
  {
    RunStep(t, secrets, l, log, i);
    assert OtherToken(secrets, secrets.Hash(raw), log[i].event);
    OverForever(t, secrets, l, log, secrets.Hash(raw), i + 1, j);
  }

  // ---------------------------------------------------------------- rights

  /** A change of this user's rights, that takes them. */
  predicate Takes(event: Event, user: UserId) {
    event.SetOperator? && event.changed == user && !(event.operator.active && event.operator.isOperator)
  }

  /** A change of this user's rights, that gives them. */
  predicate Gives(event: Event, user: UserId) {
    event.SetOperator? && event.changed == user && event.operator.active && event.operator.isOperator
  }

  predicate Powerless(t: Tables, user: UserId) {
    user in t.operators && !(t.operators[user].active && t.operators[user].isOperator)
  }

  lemma PowerlessStep(t: Tables, secrets: Secrets, l: Lifetimes, entry: Entry, user: UserId)
    requires if Takes(entry.event, user) then true else Powerless(t, user) && !Gives(entry.event, user)
    ensures Powerless(After(t, secrets, l, entry), user)
  {
  }

  lemma {:induction false} StaysPowerless(
    t: Tables, secrets: Secrets, l: Lifetimes, log: seq<Entry>, user: UserId, i: nat, j: nat)
    requires i < j <= |log| && Takes(log[i].event, user)
    requires forall k :: i < k < j ==> !Gives(log[k].event, user)
    ensures Powerless(Run(t, secrets, l, log[..j]), user)
    decreases j
  {
    RunStep(t, secrets, l, log, j - 1);
    if i + 1 < j {
      StaysPowerless(t, secrets, l, log, user, i, j - 1);
    }
    PowerlessStep(Run(t, secrets, l, log[..j - 1]), secrets, l, log[j - 1], user);
  }

  /**
   After a user's rights were taken, and until they are given back, the user cannot log in and
   every use of a session of that user is refused; a session whose token was used in that time
   is never accepted again, whatever rights the user gets later.
   */
  lemma NoRightsRefused(
    t: Tables, secrets: Secrets, l: Lifetimes, log: seq<Entry>, user: UserId, raw: string, i: nat, j: nat)
    requires i < j < |log| && Takes(log[i].event, user)
    requires forall k :: i < k < j ==> !Gives(log[k].event, user)
    ensures !MayLogin(Run(t, secrets, l, log[..j]), user)
    ensures var s, h := Run(t, secrets, l, log[..j]), secrets.Hash(raw);
            h in s.sessions && s.sessions[h].user == user ==>
              !Accepts(s, secrets, l, raw, log[j].at)
              && (log[j].event == Use(Some(raw)) && secrets.WellFormed(raw) && NeverReissued(secrets, h, log) ==>
                    forall m :: j < m < |log| ==> !Accepts(Run(t, secrets, l, log[..m]), secrets, l, raw, log[m].at))
  {
    StaysPowerless(t, secrets, l, log, user, i, j);
    var s, h := Run(t, secrets, l, log[..j]), secrets.Hash(raw);
    if h in s.sessions && s.sessions[h].user == user && log[j].event == Use(Some(raw)) && secrets.WellFormed(raw)
       && NeverReissued(secrets, h, log)
    {
      assert Ends(s, secrets, l, log[j], h);
      forall m | j < m < |log| ensures !Accepts(Run(t, secrets, l, log[..m]), secrets, l, raw, log[m].at) {
        EndedForever(t, secrets, l, log, raw, j, m);
      }
    }
  }

  // ---------------------------------------------------------------- too old

  /** While stored, the session expires at `expiry` and was last written down no later than `last`. */
  predicate Bounded(t: Tables, h: int, expiry: real, last: real) {
    h in t.sessions ==> t.sessions[h].expiresAt == expiry && t.sessions[h].lastSeenAt <= last
  }

  lemma BoundedStep(t: Tables, secrets: Secrets, l: Lifetimes, entry: Entry, raw: string, expiry: real, last: real)
    requires CollisionFree(secrets) && OtherToken(secrets, secrets.Hash(raw), entry.event)
    requires Bounded(t, secrets.Hash(raw), expiry, last) && last <= entry.at
    ensures Bounded(After(t, secrets, l, entry), secrets.Hash(raw), expiry,
                    if entry.event == Use(Some(raw)) then entry.at else last)
  {
  }

  lemma {:induction false} StaysBounded(
    t: Tables, secrets: Secrets, l: Lifetimes, log: seq<Entry>, raw: string, start: real, i: nat)
    requires i <= |log| && CollisionFree(secrets) && Ordered(log, start)
    requires NeverReissued(secrets, secrets.Hash(raw), log)
    requires Bounded(t, secrets.Hash(raw), start + l.absolute, start)
    ensures Bounded(Run(t, secrets, l, log[..i]), secrets.Hash(raw), start + l.absolute, LastUse(log[..i], raw, start))
  {
    if i > 0 {
      StaysBounded(t, secrets, l, log, raw, start, i - 1);
      LastUseBetween(log, raw, start, i - 1);
      assert OtherToken(secrets, secrets.Hash(raw), log[i - 1].event);
      assert TimeBefore(log, start, i - 1) <= log[i - 1].at;
      BoundedNext(t, secrets, l, log, raw, start, i - 1);
    }
  }

  lemma BoundedNext(t: Tables, secrets: Secrets, l: Lifetimes, log: seq<Entry>, raw: string, start: real, i: nat)
    requires i < |log| && CollisionFree(secrets) && OtherToken(secrets, secrets.Hash(raw), log[i].event)
    requires LastUse(log[..i], raw, start) <= log[i].at
    requires Bounded(Run(t, secrets, l, log[..i]), secrets.Hash(raw), start + l.absolute, LastUse(log[..i], raw, start))
    ensures Bounded(Run(t, secrets, l, log[..i + 1]), secrets.Hash(raw), start + l.absolute,
                    LastUse(log[..i + 1], raw, start))
  {
    RunStep(t, secrets, l, log, i);
    LastUseStep(log, raw, start, i);
    BoundedStep(Run(t, secrets, l, log[..i]), secrets, l, log[i], raw, start + l.absolute, LastUse(log[..i], raw, start));
  }

  /**
   Whatever happens after a login, its token is refused from the absolute expiry on, and at any
   time at least the inactivity lifetime after its last use.
   */
  lemma TooOldRefused(
    t: Tables, secrets: Secrets, l: Lifetimes, user: UserId, raw: string, previous: Option<string>, start: real,
    log: seq<Entry>, i: nat)
    requires i < |log| && CollisionFree(secrets) && Ordered(log, start) && NeverReissued(secrets, secrets.Hash(raw), log)
    requires secrets.Hash(raw) !in t.sessions
    requires log[i].at >= start + l.absolute || log[i].at - LastUse(log[..i], raw, start) >= l.inactivity
    ensures var first := AfterLogin(t, secrets, l, user, raw, previous, start);
            !Accepts(Run(first, secrets, l, log[..i]), secrets, l, raw, log[i].at)
  {
    StaysBounded(AfterLogin(t, secrets, l, user, raw, previous, start), secrets, l, log, raw, start, i);
  }

  // ---------------------------------------------------------------- kept alive

  /**
   The session is stored and unrevoked, its user active, and its last use less than a refresh
   interval past the stored one.
   */
  predicate Alive(t: Tables, secrets: Secrets, l: Lifetimes, raw: string, user: UserId, expiry: real, last: real) {
    var h := secrets.Hash(raw);
    && h in t.sessions && MayLogin(t, user)
    && t.sessions[h].user == user && t.sessions[h].csrfHash == secrets.CsrfHash(raw) && t.sessions[h].expiresAt == expiry
    && t.sessions[h].revokedAt == None && t.sessions[h].lastSeenAt <= last < t.sessions[h].lastSeenAt + l.refresh
  }

  lemma AliveAccepted(
    t: Tables, secrets: Secrets, l: Lifetimes, raw: string, user: UserId, expiry: real, last: real, now: real)
    requires Alive(t, secrets, l, raw, user, expiry, last) && secrets.WellFormed(raw)
    requires now < expiry && now - last <= l.inactivity - l.refresh
    ensures Accepts(t, secrets, l, raw, now)
  {
  }

  lemma AliveStep(
    t: Tables, secrets: Secrets, l: Lifetimes, entry: Entry, raw: string, user: UserId, expiry: real, last: real)
    requires CollisionFree(secrets) && secrets.WellFormed(raw)
    requires Alive(t, secrets, l, raw, user, expiry, last) && Quiet(secrets, secrets.Hash(raw), user, entry.event)
    requires last <= entry.at < expiry
    requires entry.event == Use(Some(raw)) ==> entry.at - last <= l.inactivity - l.refresh
    ensures Alive(After(t, secrets, l, entry), secrets, l, raw, user, expiry,
                  if entry.event == Use(Some(raw)) then entry.at else last)
  {
    if entry.event == Use(Some(raw)) {
      AliveAccepted(t, secrets, l, raw, user, expiry, last, entry.at);
    }
  }

  lemma {:induction false} StaysAlive(
    t: Tables, secrets: Secrets, l: Lifetimes, user: UserId, raw: string, start: real, log: seq<Entry>, i: nat)
    requires i <= |log| && CollisionFree(secrets) && secrets.WellFormed(raw) && Ordered(log, start)
    requires AllQuiet(secrets, secrets.Hash(raw), user, log) && Frequent(log, raw, start, l)
    requires forall k :: 0 <= k < |log| ==> log[k].at < start + l.absolute
    requires Alive(t, secrets, l, raw, user, start + l.absolute, start)
    ensures Alive(Run(t, secrets, l, log[..i]), secrets, l, raw, user, start + l.absolute, LastUse(log[..i], raw, start))
  {
    if i > 0 {
      StaysAlive(t, secrets, l, user, raw, start, log, i - 1);
      LastUseBetween(log, raw, start, i - 1);
      assert Quiet(secrets, secrets.Hash(raw), user, log[i - 1].event);
      assert TimeBefore(log, start, i - 1) <= log[i - 1].at;
      AliveNext(t, secrets, l, user, raw, start, log, i - 1);
    }
  }

  lemma AliveNext(
    t: Tables, secrets: Secrets, l: Lifetimes, user: UserId, raw: string, start: real, log: seq<Entry>, i: nat)
    requires i < |log| && CollisionFree(secrets) && secrets.WellFormed(raw)
    requires Quiet(secrets, secrets.Hash(raw), user, log[i].event)
    requires LastUse(log[..i], raw, start) <= log[i].at < start + l.absolute
    requires log[i].event == Use(Some(raw)) ==> log[i].at - LastUse(log[..i], raw, start) <= l.inactivity - l.refresh
    requires Alive(Run(t, secrets, l, log[..i]), secrets, l, raw, user, start + l.absolute, LastUse(log[..i], raw, start))
    ensures Alive(Run(t, secrets, l, log[..i + 1]), secrets, l, raw, user, start + l.absolute,
                  LastUse(log[..i + 1], raw, start))
  {
    RunStep(t, secrets, l, log, i);
    LastUseStep(log, raw, start, i);
    AliveStep(Run(t, secrets, l, log[..i]), secrets, l, log[i], raw, user, start + l.absolute,
              LastUse(log[..i], raw, start));
  }

  /**
   After a login, if nobody ends the session or takes its user's rights, and every use comes
   within the inactivity lifetime less the refresh interval after the one before, then every
   use before the absolute expiry is accepted, whatever other sessions do meanwhile.
   */
  lemma StaysAccepted(
    t: Tables, secrets: Secrets, l: Lifetimes, user: UserId, raw: string, previous: Option<string>, start: real,
    log: seq<Entry>, i: nat)
    requires i < |log| && CollisionFree(secrets) && secrets.WellFormed(raw) && Ordered(log, start) && MayLogin(t, user)
    requires AllQuiet(secrets, secrets.Hash(raw), user, log) && Frequent(log, raw, start, l)
    requires forall k :: 0 <= k < |log| ==> log[k].at < start + l.absolute
    requires log[i].event == Use(Some(raw))
    ensures var first := AfterLogin(t, secrets, l, user, raw, previous, start);
            Accepts(Run(first, secrets, l, log[..i]), secrets, l, raw, log[i].at)
  {
    var first := AfterLogin(t, secrets, l, user, raw, previous, start);
    StaysAlive(first, secrets, l, user, raw, start, log, i);
    AliveAccepted(Run(first, secrets, l, log[..i]), secrets, l, raw, user, start + l.absolute,
                  LastUse(log[..i], raw, start), log[i].at);
  }
}
