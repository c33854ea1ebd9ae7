/**
 The in-process rate limiters (app/core/abuse.py, app/auth/rate_limit.py) against the full logs
 they forget, under a clock that never goes back.
 */
module RateLimits {
  import opened Wrappers

  ghost predicate Ordered(times: seq<real>) {
    forall i, j :: 0 <= i < j < |times| ==> times[i] <= times[j]
  }

  /** What is left when moments up to `cutoff` are popped from the front. */
  function Recent(times: seq<real>, cutoff: real): seq<real> {
    if times == [] || times[0] > cutoff then times else Recent(times[1..], cutoff)
  }

  /** The moments after `cutoff`, counted one by one. */
  function CountAfter(times: seq<real>, cutoff: real): nat {
    if times == [] then 0 else (if times[0] > cutoff then 1 else 0) + CountAfter(times[1..], cutoff)
  }

  /** `kept` is a log without a front part whose moments lie at or before `cutoff`. */
  ghost predicate Forgets(log: seq<real>, kept: seq<real>, cutoff: real) {
    |kept| <= |log| && kept == log[|log| - |kept|..]
    && forall i :: 0 <= i < |log| - |kept| ==> log[i] <= cutoff
  }

  lemma {:induction false} RecentForgets(times: seq<real>, cutoff: real)
    ensures Forgets(times, Recent(times, cutoff), cutoff)
    ensures var r := Recent(times, cutoff); r != [] ==> r[0] > cutoff
  {
    if times != [] && times[0] <= cutoff {
      RecentForgets(times[1..], cutoff);
    }
  }

  /** Pruning what was kept, or the full log, comes to the same. */
  lemma {:induction false} RecentOfKept(log: seq<real>, kept: seq<real>, before: real, cutoff: real)
    requires Forgets(log, kept, before) && before <= cutoff
    ensures Recent(log, cutoff) == Recent(kept, cutoff)
    ensures Forgets(log, Recent(kept, cutoff), cutoff)
  {
    RecentForgets(log, cutoff);
    if |kept| < |log| {
      assert log[0] <= cutoff;
      assert Forgets(log[1..], kept, before);
      RecentOfKept(log[1..], kept, before, cutoff);
    } else {
      assert kept == log;
    }
  }

  lemma ForgetsMore(log: seq<real>, kept: seq<real>, cutoff: real, later: real, now: real)
    requires Forgets(log, kept, cutoff) && cutoff <= later
    ensures Forgets(log, kept, later)
    ensures Forgets(log + [now], kept + [now], later)
  {
  }

  /** On an ordered log, counting recent moments is counting what pruning leaves. */
  lemma {:induction false} CountIsRecent(times: seq<real>, cutoff: real)
    requires Ordered(times)
    ensures CountAfter(times, cutoff) == |Recent(times, cutoff)|
  {
    if times != [] {
      CountIsRecent(times[1..], cutoff);
      if times[0] > cutoff {
        var rest := times[1..];
        assert rest != [] ==> rest[0] > cutoff;
      }
    }
  }

  // ---------------------------------------------------------------- abuse limiter

  const MAX_BUCKETS: nat := 20_000

  /** The limit and window every caller of a key uses. */
  datatype Quota = Quota(limit: int, window: real)

  datatype Quotas = Quotas(of: string -> Quota) {
    function Limit(key: string): int { of(key).limit }
    function Window(key: string): real { of(key).window }
  }

  /** Grants at least `limit` places apart lie at least a window apart. */
  ghost predicate Spaced(grants: seq<real>, limit: int, window: real) {
    limit > 0 ==> forall i, j :: 0 <= i <= j - limit && j < |grants| ==> grants[i] + window <= grants[j]
  }

  /** What a bucket says about the full log of its key's grants. */
  ghost predicate Bucket(log: seq<real>, kept: seq<real>, limit: int, window: real, clock: real) {
    && Ordered(log) && (forall t :: t in log ==> t <= clock)
    && Forgets(log, kept, clock - window) && Spaced(log, limit, window) && (limit <= 0 ==> log == [])
  }

  lemma Ages(log: seq<real>, kept: seq<real>, limit: int, window: real, clock: real, now: real)
    requires Bucket(log, kept, limit, window, clock) && clock <= now
    ensures Bucket(log, kept, limit, window, now)
  {
  }

  /** Pruning keeps a bucket valid and leaves what pruning the full log leaves. */
  lemma Pruned(log: seq<real>, kept: seq<real>, limit: int, window: real, clock: real, now: real)
    requires Bucket(log, kept, limit, window, clock) && clock <= now
    ensures Recent(kept, now - window) == Recent(log, now - window)
    ensures Bucket(log, Recent(kept, now - window), limit, window, now)
  {
    RecentOfKept(log, kept, clock - window, now - window);
    Ages(log, kept, limit, window, clock, now);
  }

  function Entry(logs: map<string, seq<real>>, key: string): seq<real> {
    if key in logs then logs[key] else []
  }

  /** A bucket for every key with grants, valid for its quota. */
  ghost predicate Buckets(quotas: Quotas, events: map<string, seq<real>>, grants: map<string, seq<real>>, clock: real) {
    && events.Keys == grants.Keys
    && forall key :: key in events ==>
         Bucket(grants[key], events[key], quotas.Limit(key), quotas.Window(key), clock)
  }

  class AbuseRateLimiter {
    ghost const quotas: Quotas
    var events: map<string, seq<real>>
    ghost var clock: real
    /** Every grant ever given, by key. */
    ghost var grants: map<string, seq<real>>

    ghost predicate Valid()
      reads this
    {
      |events| <= MAX_BUCKETS && Buckets(quotas, events, grants, clock)
    }

    constructor (ghost quotas: Quotas, ghost now: real)
      ensures Valid() && this.quotas == quotas && clock == now && grants == map[] && events == map[]
    {
      this.quotas, events, clock, grants := quotas, map[], now, map[];
    }

    /** A key is the action and the actor it limits. */
    method Consume(action: string, actor: string, limit: int, window: real, now: real) returns (granted: bool)
      requires Valid() && clock <= now
      requires limit == quotas.Limit(action + ":" + actor) && window == quotas.Window(action + ":" + actor)
      modifies this
      ensures Valid() && clock == now
      ensures Decided(old(events), old(grants), grants, action + ":" + actor, limit, window, now, granted)
    {
      granted := ConsumeKey(action + ":" + actor, limit, window, now);
    }

    method ConsumeKey(key: string, limit: int, window: real, now: real) returns (granted: bool)
      requires Valid() && clock <= now && limit == quotas.Limit(key) && window == quotas.Window(key)
      modifies this
      ensures Valid() && clock == now
      ensures Decided(old(events), old(grants), grants, key, limit, window, now, granted)
    {
      granted := false;
      if key in events || |events| < MAX_BUCKETS {
        EntryBucket(quotas, events, grants, clock, key);
        var kept;
        kept, granted := ServeBucket(Entry(events, key), limit, window, now, Entry(grants, key), clock);
        ghost var log := if granted then Entry(grants, key) + [now] else Entry(grants, key);
        Replaced(quotas, events, grants, clock, now, key, kept, log);
        events := events[key := kept];
        grants := grants[key := log];
      } else {
        BucketsAge(quotas, events, grants, clock, now);
      }
      clock := now;
    }
  }

  /**
   A call is granted exactly when the key has a bucket, or one is free, and fewer than `limit`
   grants of the full log lie within the window before it.
   */
  ghost predicate Decided(
    events: map<string, seq<real>>, grants: map<string, seq<real>>, grants': map<string, seq<real>>,
    key: string, limit: int, window: real, now: real, granted: bool)
  {
    && (granted <==> (key in events || |events| < MAX_BUCKETS) && |Recent(Entry(grants, key), now - window)| < limit)
    && grants' == if key in events || |events| < MAX_BUCKETS
                  then grants[key := if granted then Entry(grants, key) + [now] else Entry(grants, key)] else grants
  }

  lemma EntryBucket(
    quotas: Quotas, events: map<string, seq<real>>, grants: map<string, seq<real>>, clock: real, key: string)
    requires Buckets(quotas, events, grants, clock)
    ensures Bucket(Entry(grants, key), Entry(events, key), quotas.Limit(key), quotas.Window(key), clock)
  {
  }

  lemma BucketsAge(
    quotas: Quotas, events: map<string, seq<real>>, grants: map<string, seq<real>>, clock: real, now: real)
    requires Buckets(quotas, events, grants, clock) && clock <= now
    ensures Buckets(quotas, events, grants, now)
  {
    forall key | key in events
      ensures Bucket(grants[key], events[key], quotas.Limit(key), quotas.Window(key), now)
    {
      Ages(grants[key], events[key], quotas.Limit(key), quotas.Window(key), clock, now);
    }
  }

  /** One bucket and its log are replaced. */
  lemma Replaced(
    quotas: Quotas, events: map<string, seq<real>>, grants: map<string, seq<real>>, clock: real, now: real,
    key: string, kept: seq<real>, log: seq<real>)
    requires Buckets(quotas, events, grants, clock) && clock <= now
    requires Bucket(log, kept, quotas.Limit(key), quotas.Window(key), now)
    ensures Buckets(quotas, events[key := kept], grants[key := log], now)
  {
    BucketsAge(quotas, events, grants, clock, now);
  }

  /** `popleft` while the oldest moment is outside the window. */
  method PopOld(times: seq<real>, cutoff: real) returns (kept: seq<real>)
    ensures kept == Recent(times, cutoff)
  {
    kept := times;
    while kept != [] && kept[0] <= cutoff
      invariant Recent(kept, cutoff) == Recent(times, cutoff)
      decreases |kept|
    {
      kept := kept[1..];
    }
  }

  /** Prune one bucket and grant when there is room in it, judged by the full log. */
  method ServeBucket(
    times: seq<real>, limit: int, window: real, now: real, ghost log: seq<real>, ghost clock: real)
    returns (kept: seq<real>, granted: bool)
    requires Bucket(log, times, limit, window, clock) && clock <= now
    ensures granted <==> |Recent(log, now - window)| < limit
    ensures Bucket(if granted then log + [now] else log, kept, limit, window, now)
  {
    Pruned(log, times, limit, window, clock, now);
    kept := PopOld(times, now - window);
    granted := |kept| < limit;
    if granted {
      Granted(log, kept, limit, window, now);
      kept := kept + [now];
    }
  }

  /** One more grant keeps the spacing: the grant `limit` places back was already forgotten. */
  lemma Granted(log: seq<real>, kept: seq<real>, limit: int, window: real, now: real)
    requires Bucket(log, kept, limit, window, now) && |kept| < limit
    ensures Bucket(log + [now], kept + [now], limit, window, now)
  {
    assert forall i :: 0 <= i < |log| ==> log[i] in log;
  }

  /** In every state, no window of a key's length holds more grants than its limit. */
  lemma NeverOverLimit(
    quotas: Quotas, events: map<string, seq<real>>, grants: map<string, seq<real>>, clock: real,
    key: string, start: real)
    requires Buckets(quotas, events, grants, clock) && key in grants
    ensures var log, limit := grants[key], quotas.Limit(key);
            |set i: nat | i < |log| && start <= log[i] < start + quotas.Window(key)| <= if limit > 0 then limit else 0
  {
    var log := grants[key];
    assert key in events && Bucket(log, events[key], quotas.Limit(key), quotas.Window(key), clock);
    if quotas.Limit(key) > 0 {
      AtMostLimit(log, quotas.Limit(key), quotas.Window(key), start);
    }
  }

  lemma AtMostLimit(grants: seq<real>, limit: int, window: real, start: real)
    requires Ordered(grants) && Spaced(grants, limit, window) && limit > 0
    ensures |set i: nat | i < |grants| && start <= grants[i] < start + window| <= limit
  {
    var inside := set i: nat | i < |grants| && start <= grants[i] < start + window;
    var first := FirstFrom(grants, start);
    SpanMembers(first, limit);
    SubsetSize(inside, Span(first, limit));
  }

  /** Where the moments from `start` on begin. */
  lemma {:induction false} FirstFrom(times: seq<real>, start: real) returns (k: nat)
    requires Ordered(times)
    ensures k <= |times| && (forall i :: 0 <= i < k ==> times[i] < start) && (k < |times| ==> start <= times[k])
  {
    if times == [] || start <= times[0] {
      k := 0;
    } else {
      var rest := FirstFrom(times[1..], start);
      k := rest + 1;
    }
  }

  function Span(first: nat, n: nat): set<nat> {
    if n == 0 then {} else Span(first, n - 1) + {first + n - 1}
  }

  lemma {:induction false} SpanMembers(first: nat, n: nat)
    ensures |Span(first, n)| == n && forall i: nat :: i in Span(first, n) <==> first <= i < first + n
  {
    if n > 0 {
      SpanMembers(first, n - 1);
    }
  }

  // ---------------------------------------------------------------- login limiter

  const MAX_TRACKED_KEYS: nat := 10_000
  const MINUTE := 60.0
  const HOUR := 3_600.0

  /** The digest of a source address or of a canonical username. */
  datatype LoginKey = Source(digest: int) | Username(digest: int)

  type Log = map<LoginKey, seq<real>>

  function Moments(log: Log, key: LoginKey): seq<real> {
    if key in log then log[key] else []
  }

  /** What the tracked attempts say about the failures recorded and not cleared since. */
  ghost predicate Tracks(attempts: Log, failures: Log, clock: real) {
    && attempts.Keys <= failures.Keys && (forall key :: key in attempts ==> attempts[key] != [])
    && forall key :: key in failures ==> Remembered(failures[key], Moments(attempts, key), clock)
  }

  ghost predicate Remembered(log: seq<real>, kept: seq<real>, clock: real) {
    Ordered(log) && (forall t :: t in log ==> t <= clock) && Forgets(log, kept, clock - HOUR)
  }

  /** The tracked attempts are exactly the failures of the hour before `now`. */
  ghost predicate LastHour(attempts: Log, failures: Log, now: real) {
    && attempts.Keys <= failures.Keys
    && forall key :: key in failures ==>
         && Moments(attempts, key) == Recent(failures[key], now - HOUR)
         && (key in attempts <==> Recent(failures[key], now - HOUR) != [])
  }

  lemma RememberedLater(log: seq<real>, kept: seq<real>, clock: real, now: real)
    requires Remembered(log, kept, clock) && clock <= now
    ensures Recent(kept, now - HOUR) == Recent(log, now - HOUR)
    ensures Remembered(log, Recent(kept, now - HOUR), now)
  {
    RecentOfKept(log, kept, clock - HOUR, now - HOUR);
  }

  /** One more failure under a key that is tracked or for which there is room. */
  function Recorded(log: Log, room: bool, key: LoginKey, now: real): Log {
    if room then log[key := Moments(log, key) + [now]] else log
  }

  predicate Room(attempts: Log, key: LoginKey) {
    key in attempts || |attempts| < MAX_TRACKED_KEYS
  }

  lemma RecordedTracks(attempts: Log, failures: Log, room: bool, key: LoginKey, now: real)
    requires Tracks(attempts, failures, now)
    ensures Tracks(Recorded(attempts, room, key, now), Recorded(failures, room, key, now), now)
  {
    if room {
      OneMoreRemembered(Moments(failures, key), Moments(attempts, key), now);
    }
  }

  lemma OneMoreRemembered(log: seq<real>, kept: seq<real>, now: real)
    requires log == kept == [] || Remembered(log, kept, now)
    ensures Remembered(log + [now], kept + [now], now)
  {
    ForgetsMore(log, kept, now - HOUR, now - HOUR, now);
    assert forall i :: 0 <= i < |log| ==> log[i] in log;
  }

  /** Whether the full log admits another attempt: too few failures in the last minute and hour. */
  predicate Admits(log: seq<real>, perMinute: int, perHour: int, now: real) {
    |Recent(log, now - MINUTE)| < perMinute && |Recent(log, now - HOUR)| < perHour
  }

  class LoginRateLimiter {
    const perMinute: int
    const perHour: int
    var attempts: Log
    ghost var clock: real
    /** Every failure recorded and not cleared since. */
    ghost var failures: Log

    ghost predicate Valid()
      reads this
    {
      |attempts| <= MAX_TRACKED_KEYS && Tracks(attempts, failures, clock)
    }

    constructor (perMinute: int, perHour: int, ghost now: real)
      ensures Valid() && this.perMinute == perMinute && this.perHour == perHour
      ensures clock == now && attempts == map[] && failures == map[]
    {
      this.perMinute, this.perHour, attempts, clock, failures := perMinute, perHour, map[], now, map[];
    }

    /** Forget what is older than an hour, and every key left without attempts. */
    method Prune(now: real)
      requires Valid() && clock <= now
      modifies `attempts, `clock
      ensures Valid() && clock == now && LastHour(attempts, failures, now)
    {
      PruneKeys(now - HOUR);
      PrunedHour(old(attempts), attempts, failures, clock, now);
      clock := now;
    }

    method PruneKeys(cutoff: real)
      modifies `attempts
      ensures PartlyPruned(old(attempts), attempts, {}, cutoff) && |attempts| <= |old(attempts)|
    {
      var todo := attempts.Keys;
      while todo != {}
        invariant PartlyPruned(old(attempts), attempts, todo, cutoff)
        decreases |todo|
      {
        var key :| key in todo;
        var kept := PopOld(attempts[key], cutoff);
        PruneStep(old(attempts), attempts, todo, key, cutoff);
        todo := todo - {key};
        attempts := if kept == [] then attempts - {key} else attempts[key := kept];
      }
      SubsetSize(attempts.Keys, old(attempts).Keys);
    }

    /** `check`: both keys must admit another attempt, judged by the full log. */
    method Check(source: int, username: int, now: real) returns (allowed: bool)
      requires Valid() && clock <= now
      modifies `attempts, `clock
      ensures Valid() && clock == now && LastHour(attempts, failures, now)
      ensures allowed ==
              (Admits(Moments(failures, Source(source)), perMinute, perHour, now)
               && Admits(Moments(failures, Username(username)), perMinute, perHour, now))
    {
      Prune(now);
      var first := KeyAllowed(Source(source), now);
      var second := KeyAllowed(Username(username), now);
      allowed := first && second;
    }

    method KeyAllowed(key: LoginKey, now: real) returns (allowed: bool)
      requires Valid() && clock == now && LastHour(attempts, failures, now)
      ensures allowed <==> Admits(Moments(failures, key), perMinute, perHour, now)
    {
      var kept := Moments(attempts, key);
      allowed := CountAfter(kept, now - MINUTE) < perMinute && |kept| < perHour;
      var log := Moments(failures, key);
      assert key in failures ==> Remembered(log, kept, now);
      KeptMinute(log, kept, now);
    }

    /** `record_failure`: a key that is not tracked is dropped once the table is full. */
    method RecordFailure(source: int, username: int, now: real)
      requires Valid() && clock <= now
      modifies this
      ensures Valid() && clock == now
      ensures exists pruned: Log ::
                LastHour(pruned, old(failures), now)
                && var first, second := Source(source), Username(username);
                   var once := Recorded(pruned, Room(pruned, first), first, now);
                   failures == Recorded(Recorded(old(failures), Room(pruned, first), first, now),
                                        Room(once, second), second, now)
    {
      Prune(now);
      ghost var pruned := attempts;
      var keys := [Source(source), Username(username)];
      RecordKey(keys[0], now);
      RecordKey(keys[1], now);
      assert LastHour(pruned, old(failures), now);
    }

    method RecordKey(key: LoginKey, now: real)
      requires Valid() && clock == now
      modifies `attempts, `failures
      ensures Valid()
      ensures attempts == Recorded(old(attempts), Room(old(attempts), key), key, now)
      ensures failures == Recorded(old(failures), Room(old(attempts), key), key, now)
    {
      RecordedTracks(attempts, failures, Room(attempts, key), key, now);
      if key in attempts || |attempts| < MAX_TRACKED_KEYS {
        failures := Recorded(failures, true, key, now);
        attempts := attempts[key := Moments(attempts, key) + [now]];
      }
    }

    /** A successful login clears the username's failures, not the source's. */
    method ClearUsername(username: int)
      requires Valid()
      modifies `attempts, `failures
      ensures Valid() && attempts == old(attempts) - {Username(username)}
      ensures failures == old(failures) - {Username(username)}
    {
      attempts := attempts - {Username(username)};
      failures := failures - {Username(username)};
    }
  }

  /** Every key outside `todo` was pruned and dropped when nothing was left; the others are untouched. */
  ghost predicate PartlyPruned(before: Log, attempts: Log, todo: set<LoginKey>, cutoff: real) {
    && todo <= attempts.Keys <= before.Keys
    && (forall key :: key in todo ==> attempts[key] == before[key])
    && (forall key :: key in before && key !in todo ==> Moments(attempts, key) == Recent(before[key], cutoff))
    && (forall key :: key in attempts && key !in todo ==> attempts[key] != [])
  }

  lemma PruneStep(before: Log, attempts: Log, todo: set<LoginKey>, key: LoginKey, cutoff: real)
    requires PartlyPruned(before, attempts, todo, cutoff) && key in todo
    ensures var kept := Recent(attempts[key], cutoff);
            PartlyPruned(before, if kept == [] then attempts - {key} else attempts[key := kept], todo - {key}, cutoff)
  {
  }

  lemma PrunedHour(before: Log, attempts: Log, failures: Log, clock: real, now: real)
    requires Tracks(before, failures, clock) && clock <= now && PartlyPruned(before, attempts, {}, now - HOUR)
    ensures Tracks(attempts, failures, now) && LastHour(attempts, failures, now)
  {
    forall key | key in failures
      ensures Remembered(failures[key], Moments(attempts, key), now)
      ensures Moments(attempts, key) == Recent(failures[key], now - HOUR)
    {
      RememberedLater(failures[key], Moments(before, key), clock, now);
    }
  }

  /** Counting the kept attempts of the last minute counts those of the full log. */
  lemma KeptMinute(log: seq<real>, kept: seq<real>, now: real)
    requires log == kept == [] || (Remembered(log, kept, now) && kept == Recent(log, now - HOUR))
    ensures CountAfter(kept, now - MINUTE) == |Recent(log, now - MINUTE)|
  {
    if kept != [] || log != [] {
      assert Ordered(kept);
      CountIsRecent(kept, now - MINUTE);
      RecentOfKept(log, kept, now - HOUR, now - MINUTE);
    }
  }
}
