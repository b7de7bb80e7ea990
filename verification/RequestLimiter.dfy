/** The durable request quota of one provider login: two rows, a barrier, cooldowns and short permits.
    Times are microseconds of the database clock; waits handed to callers are whole milliseconds. */
module RequestLimiter {
  import opened Basics
  import opened Text

  const MS: int := 1_000
  const REQUEST_GAP: int := 31_000 * MS
  const DIRECTORY_GAP: int := 6_100 * MS
  const PERMIT_LIFETIME: int := 1_000 * MS
  const MIN_COOLDOWN_MS: int := 60_000
  const MAX_COOLDOWN_MS: int := 24 * 60 * 60_000
  const ATTEMPTS: nat := 8

  datatype Group = Directories | Conservative

  function Gap(group: Group): int {
    match group case Directories => DIRECTORY_GAP case Conservative => REQUEST_GAP
  }

  /** Row keys: the two hashes of a login are distinct and injective. */
  datatype Key = LoginKey(login: nat) | DirectoryKey(login: nat)

  /** The rows of one login: the earliest time of its next request, if a row exists. */
  datatype Quota = Quota(login: Option<int>, directory: Option<int>)

  /** The clock readings of one claim, in the order its statements take them. */
  datatype Readings = Readings(insert: int, barrier: int, check: int, store: int, extend: int, wait: int)

  predicate InOrder(t: Readings) {
    t.insert <= t.barrier <= t.check <= t.store <= t.extend <= t.wait
  }

  function CeilMs(micros: int): (ms: int)
    ensures micros <= ms * MS < micros + MS
  {
    (micros + MS - 1) / MS
  }

  predicate Ready(row: Option<int>, now: int) { row.None? || row.value <= now }

  function Later(row: Option<int>, at: int): Option<int> {
    if row.Some? && row.value > at then row else Some(at)
  }

  // ----- One claim

  /** The rows after a claim, and the wait it returns; zero means a permit was granted. */
  function ClaimQuota(q: Quota, group: Group, t: Readings): (r: (Quota, int)) {
    if group == Conservative then
      if Ready(q.login, t.check) then (q.(login := Some(t.store + REQUEST_GAP)), 0)
      else (q, Max(1, CeilMs(q.login.value - t.wait)))
    else
      var barred := if q.login.None? then q.(login := Some(t.insert)) else q;
      var delay := Max(0, CeilMs(barred.login.value - t.barrier));
      if delay > 0 then (barred, delay)
      else if Ready(q.directory, t.check) then
        (Quota(Some(t.extend + DIRECTORY_GAP), Some(t.store + DIRECTORY_GAP)), 0)
      else (barred, Max(1, CeilMs(q.directory.value - t.wait)))
  }

  function CooldownQuota(q: Quota, at: int, delayMs: int): Quota {
    q.(login := Later(q.login, at + delayMs * MS))
  }

  predicate CooldownAccepts(delayMs: int) { MIN_COOLDOWN_MS <= delayMs <= MAX_COOLDOWN_MS }

  /** The quota table. Each method is one transaction that holds the login's row. */
  class QuotaTable {
    var rows: map<Key, int>

    constructor ()
      ensures rows == map[]
    {
      rows := map[];
    }

    function Row(key: Key): Option<int>
      reads this
    {
      if key in rows then Some(rows[key]) else None
    }

    function QuotaOf(login: nat): Quota
      reads this
    {
      Quota(Row(LoginKey(login)), Row(DirectoryKey(login)))
    }

    method Claim(login: nat, group: Group, t: Readings) returns (waitMs: int)
      requires InOrder(t)
      modifies this
      ensures (QuotaOf(login), waitMs) == ClaimQuota(old(QuotaOf(login)), group, t)
      ensures forall other :: other != login ==> QuotaOf(other) == old(QuotaOf(other))
    {
      var quotaKey := if group == Directories then DirectoryKey(login) else LoginKey(login);
      var gap := Gap(group);
      if group == Directories {
        if LoginKey(login) !in rows { rows := rows[LoginKey(login) := t.insert]; }
        var delay := Max(0, CeilMs(rows[LoginKey(login)] - t.barrier));
        if delay > 0 { return delay; }
      }
      if quotaKey !in rows || rows[quotaKey] <= t.check {
        rows := rows[quotaKey := t.store + gap];
        if group == Directories { rows := rows[LoginKey(login) := t.extend + gap]; }
        return 0;
      }
      waitMs := Max(1, CeilMs(rows[quotaKey] - t.wait));
    }

    method Cooldown(login: nat, at: int, delayMs: int) returns (accepted: bool)
      modifies this
      ensures accepted == CooldownAccepts(delayMs)
      ensures QuotaOf(login)
              == if accepted then CooldownQuota(old(QuotaOf(login)), at, delayMs) else old(QuotaOf(login))
      ensures forall other :: other != login ==> QuotaOf(other) == old(QuotaOf(other))
    {
      if !CooldownAccepts(delayMs) { return false; }
      var until := at + delayMs * MS;
      if LoginKey(login) !in rows || rows[LoginKey(login)] < until {
        rows := rows[LoginKey(login) := until];
      }
      return true;
    }
  }

  // ----- Acquiring a permit

  /** What one attempt of the retry loop meets; local clock readings share the database's time line. */
  datatype Attempt = Attempt(
    abortedFirst: bool, nowFirst: int, guardPasses: bool, abortedSecond: bool, nowSecond: int,
    started: int, claim: Option<int>, abortedThird: bool, nowThird: int, abortedWaiting: bool)

  datatype Acquired = Permit(expiresAt: int) | Limited(retryAfterMs: int) | Cancelled | GuardFailed | Unavailable

  /** One attempt's verdict; None means the loop waited out the delay and tries again. */
  function Decide(a: Attempt, group: Group, until: int): Option<Acquired> {
    if a.abortedFirst then Some(Cancelled)
    else if a.nowFirst >= until then Some(Limited(60_000))
    else if !a.guardPasses then Some(GuardFailed)
    else if a.abortedSecond then Some(Cancelled)
    else if a.nowSecond >= until then Some(Limited(60_000))
    else if a.claim.None? then Some(Unavailable)
    else if a.abortedThird then Some(Cancelled)
    else if a.claim.value == 0 then
      var expiresAt := Min(until, a.started + PERMIT_LIFETIME);
      if a.nowThird < expiresAt then Some(Permit(expiresAt)) else Some(Limited(Gap(group) / MS))
    else if a.claim.value * MS >= until - a.nowThird then Some(Limited(a.claim.value))
    else if a.abortedWaiting then Some(Cancelled)
    else None
  }

  /** The bounded loop stops at the first attempt that decides. A permit comes from exactly one granted
      claim, made by the last attempt, and lives at most a second from before that claim. */
  method Acquire(group: Group, until: int, attempts: seq<Attempt>) returns (result: Acquired, tried: nat)
    requires |attempts| == ATTEMPTS
    ensures 0 < tried <= ATTEMPTS
    ensures forall k :: 0 <= k < tried - 1 ==> Decide(attempts[k], group, until) == None
    ensures result == if Decide(attempts[tried - 1], group, until).Some?
                      then Decide(attempts[tried - 1], group, until).value else Limited(60_000)
    ensures result.Permit? ==>
              && attempts[tried - 1].claim == Some(0)
              && (forall k :: 0 <= k < tried - 1 ==> attempts[k].claim.Some? && attempts[k].claim.value != 0)
              && attempts[tried - 1].nowThird < result.expiresAt
              && result.expiresAt <= Min(until, attempts[tried - 1].started + PERMIT_LIFETIME)
    ensures Decide(attempts[tried - 1], group, until).None? ==> tried == ATTEMPTS
  {
    for attempt := 0 to ATTEMPTS
      invariant forall k :: 0 <= k < attempt ==> Decide(attempts[k], group, until) == None
    {
      var a := attempts[attempt];
      tried := attempt + 1;
      if a.abortedFirst { return Cancelled, tried; }
      if a.nowFirst >= until { return Limited(60_000), tried; }
      if !a.guardPasses { return GuardFailed, tried; }
      if a.abortedSecond { return Cancelled, tried; }
      if a.nowSecond >= until { return Limited(60_000), tried; }
      if a.claim.None? { return Unavailable, tried; }
      if a.abortedThird { return Cancelled, tried; }
      if a.claim.value == 0 {
        var expiresAt := Min(until, a.started + PERMIT_LIFETIME);
        if a.nowThird >= expiresAt { return Limited(Gap(group) / MS), tried; }
        return Permit(expiresAt), tried;
      }
      if a.claim.value * MS >= until - a.nowThird { return Limited(a.claim.value), tried; }
      if a.abortedWaiting { return Cancelled, tried; }
    }
    return Limited(60_000), ATTEMPTS;
  }

  // ----- Retry-After, section 10.2.3 of RFC 9110

  /** One to nine digits, between spaces, are a number of seconds. */
  predicate InSeconds(header: string) { 1 <= |Trim(header)| <= 9 && Digits(Trim(header)) }

  /** The nearest cooldown the quota accepts. */
  function Acceptable(ms: int): int { Min(MAX_COOLDOWN_MS, Max(MIN_COOLDOWN_MS, ms)) }

  /** `headerDate` and `responseDate` are the two headers parsed as dates, where they are dates. */
  function RetryAfterMs(header: Option<string>, headerDate: Option<int>, responseDate: Option<int>,
                        now: int): (delay: int)
    ensures CooldownAccepts(delay)
    ensures header.None? ==> delay == MIN_COOLDOWN_MS
    ensures header.Some? && InSeconds(header.value) ==> delay == Acceptable(NumberOf(Trim(header.value)) * 1_000)
    ensures header.Some? && header.value != "" && !InSeconds(header.value) && headerDate.Some? && responseDate.Some? ==>
              delay == Acceptable(headerDate.value - responseDate.value)
    ensures header.Some? && header.value != "" && !InSeconds(header.value) && headerDate.Some? && responseDate.None? ==>
              delay == Acceptable(headerDate.value - now)
    ensures header.Some? && !InSeconds(header.value) && headerDate.None? ==> delay == MIN_COOLDOWN_MS
  {
    var asked :=
      if header.None? || header.value == "" then 60_000
      else if InSeconds(header.value) then NumberOf(Trim(header.value)) * 1_000
      else if headerDate.Some? then headerDate.value - (if responseDate.Some? then responseDate.value else now)
      else 60_000;
    Acceptable(asked)
  }

  // ----- Runs: any number of instances sharing one login's rows

  datatype Event =
    | ClaimEvent(group: Group, t: Readings)
    | CooldownEvent(at: int, delayMs: int)

  datatype Entry = Granted(group: Group, at: int) | Cooled(until: int)

  datatype Run = Run(quota: Quota, log: seq<Entry>)

  /** Within one claim the clock is read in statement order. Nothing is asked of readings in different
      transactions: one that waited for the row may carry an earlier reading than the one it waited for. */
  ghost predicate ReadInOrder(events: seq<Event>) {
    forall i :: 0 <= i < |events| && events[i].ClaimEvent? ==> InOrder(events[i].t)
  }

  function Apply(run: Run, e: Event): Run {
    match e
    case ClaimEvent(group, t) =>
      var (quota, waitMs) := ClaimQuota(run.quota, group, t);
      Run(quota, if waitMs == 0 then run.log + [Granted(group, t.check)] else run.log)
    case CooldownEvent(at, delayMs) =>
      if CooldownAccepts(delayMs) then Run(CooldownQuota(run.quota, at, delayMs), run.log + [Cooled(at + delayMs * MS)])
      else run
  }

  function Exec(events: seq<Event>): Run {
    if events == [] then Run(Quota(None, None), []) else Apply(Exec(events[..|events| - 1]), events[|events| - 1])
  }

  /** The earliest next permit an entry allows. */
  function Until(entry: Entry): int {
    match entry case Granted(group, at) => at + Gap(group) case Cooled(until) => until
  }

  /** The login row is a barrier behind every entry; the directory row never outlasts it. */
  ghost predicate Barred(run: Run) {
    && (run.log != [] ==> run.quota.login.Some?)
    && (forall i :: 0 <= i < |run.log| ==> Until(run.log[i]) <= run.quota.login.value)
    && (forall i, j :: 0 <= i < j < |run.log| ==> run.log[j].Granted? ==> Until(run.log[i]) <= run.log[j].at)
    && (run.quota.directory.Some? ==> run.quota.login.Some? && run.quota.directory.value <= run.quota.login.value)
  }

  /** Rows only ever move forward. */
  predicate Forward(before: Option<int>, after: Option<int>) {
    before.Some? ==> after.Some? && before.value <= after.value
  }

  lemma ApplyKeepsBarrier(run: Run, e: Event)
    requires Barred(run) && (e.ClaimEvent? ==> InOrder(e.t))
    ensures Barred(Apply(run, e))
    ensures Forward(run.quota.login, Apply(run, e).quota.login)
    ensures Forward(run.quota.directory, Apply(run, e).quota.directory)
  {
  }

  lemma {:induction false} RunsAreBarred(events: seq<Event>)
    requires ReadInOrder(events)
    ensures Barred(Exec(events))
  {
    if events != [] {
      RunsAreBarred(events[..|events| - 1]);
      ApplyKeepsBarrier(Exec(events[..|events| - 1]), events[|events| - 1]);
    }
  }

  /** No permit is granted during a cooldown, by either group. */
  lemma NoPermitDuringCooldown(events: seq<Event>, i: nat, j: nat)
    requires ReadInOrder(events) && i < j < |Exec(events).log|
    requires Exec(events).log[i].Cooled? && Exec(events).log[j].Granted?
    ensures Exec(events).log[i].until <= Exec(events).log[j].at
  {
    RunsAreBarred(events);
  }

  // ----- Dispatches

  /** What the claim at this place of a run returned: zero for a permit. */
  function WaitAt(events: seq<Event>, k: nat): int
    requires k < |events| && events[k].ClaimEvent?
  {
    ClaimQuota(Exec(events[..k]).quota, events[k].group, events[k].t).1
  }

  lemma {:induction false} LogGrows(events: seq<Event>, k: nat)
    requires k <= |events|
    ensures |Exec(events[..k]).log| <= |Exec(events).log|
    ensures Exec(events).log[..|Exec(events[..k]).log|] == Exec(events[..k]).log
  {
    if k == |events| {
      assert events[..k] == events;
    } else {
      var n := |events| - 1;
      assert events[..n][..k] == events[..k];
      LogGrows(events[..n], k);
    }
  }

  /** A granted claim leaves its entry right after those of the run before it. */
  lemma GrantIsLogged(events: seq<Event>, k: nat)
    requires k < |events| && events[k].ClaimEvent? && WaitAt(events, k) == 0
    ensures var i := |Exec(events[..k]).log|;
            i < |Exec(events[..k + 1]).log| <= |Exec(events).log|
            && Exec(events).log[i] == Granted(events[k].group, events[k].t.check)
  {
    assert events[..k + 1][..k] == events[..k];
    LogGrows(events, k + 1);
  }

  /** Two permits of one login are at least the first one's gap apart. */
  lemma GrantsAreSpaced(events: seq<Event>, j: nat, k: nat)
    requires ReadInOrder(events) && j < k < |events| && events[j].ClaimEvent? && events[k].ClaimEvent?
    requires WaitAt(events, j) == 0 && WaitAt(events, k) == 0
    ensures events[j].t.check + Gap(events[j].group) <= events[k].t.check
  {
    RunsAreBarred(events);
    GrantIsLogged(events, j);
    GrantIsLogged(events, k);
    assert events[..k][..j + 1] == events[..j + 1];
    LogGrows(events[..k], j + 1);
  }

  /** A request sent under the permit that the last attempt of an acquisition returned. */
  datatype Send = Send(attempt: Attempt, until: int, at: int)

  /** Each send follows its own claim, whose granted permit was still fresh when the request went out. */
  ghost predicate UnderPermits(events: seq<Event>, sends: map<nat, Send>) {
    forall k :: k in sends ==>
      && k < |events| && events[k].ClaimEvent?
      && sends[k].attempt.claim == Some(WaitAt(events, k))
      && Decide(sends[k].attempt, events[k].group, sends[k].until).Some?
      && Decide(sends[k].attempt, events[k].group, sends[k].until).value.Permit?
      && sends[k].attempt.started <= events[k].t.check <= sends[k].at
      && sends[k].at < Decide(sends[k].attempt, events[k].group, sends[k].until).value.expiresAt
  }

  /** A permit comes from a granted claim, and a request sent under it goes out within a second of the grant. */
  lemma SendIsPrompt(events: seq<Event>, sends: map<nat, Send>, k: nat)
    requires UnderPermits(events, sends) && k in sends
    ensures WaitAt(events, k) == 0
    ensures events[k].t.check <= sends[k].at < events[k].t.check + PERMIT_LIFETIME
  {
  }

  function Window(events: seq<Event>, sends: map<nat, Send>, from: int, length: int,
                  groups: set<Group>): (inside: set<nat>)
    requires forall k :: k in sends ==> k < |events| && events[k].ClaimEvent?
  {
    set k | k in sends && from <= sends[k].at <= from + length && events[k].group in groups
  }

  lemma LargestOf(s: set<nat>) returns (largest: nat)
    requires s != {}
    ensures largest in s && forall i :: i in s ==> i <= largest
  {
    var some :| some in s;
    if s == {some} {
      largest := some;
    } else {
      var rest := s - {some};
      assert s == rest + {some};
      var other := LargestOf(rest);
      largest := if some > other then some else other;
    }
  }

  /** Instants `gap` apart spread over at least `gap` times one less than their number. */
  lemma {:induction false} Spread(at: map<nat, int>, s: set<nat>, gap: nat) returns (lo: nat, hi: nat)
    requires s != {} && s <= at.Keys
    requires forall i, j :: i in s && j in s && i < j ==> at[i] + gap <= at[j]
    ensures lo in s && hi in s && at[hi] - at[lo] >= gap * (|s| - 1)
  {
    hi := LargestOf(s);
    var rest := s - {hi};
    if rest == {} {
      assert s == {hi};
      lo := hi;
    } else {
      var h;
      lo, h := Spread(at, rest, gap);
      assert at[h] + gap <= at[hi];
      assert |s| - 1 == |rest|;
      MulStep(gap, |rest|);
    }
  }

  lemma MulStep(gap: nat, n: nat)
    ensures gap * n == gap * (n - 1) + gap
  {
  }

  lemma TooManySpread(span: int, gap: nat, most: nat, count: nat, length: int)
    requires span >= gap * (count - 1) && span < length + PERMIT_LIFETIME
    requires gap * most >= length + PERMIT_LIFETIME
    ensures count <= most
  {
  }

  /** The instants at which the permits of these sends were granted. */
  function GrantTimes(events: seq<Event>, inside: set<nat>): (at: map<nat, int>)
    requires forall k :: k in inside ==> k < |events| && events[k].ClaimEvent?
    ensures at.Keys == inside
  {
    map k | k in inside :: events[k].t.check
  }

  lemma GrantTimesAreSpaced(events: seq<Event>, sends: map<nat, Send>, inside: set<nat>, gap: nat)
    requires ReadInOrder(events) && UnderPermits(events, sends) && inside <= sends.Keys
    requires forall k :: k in inside ==> gap <= Gap(events[k].group)
    ensures var at := GrantTimes(events, inside);
            && (forall i, j :: i in inside && j in inside && i < j ==> at[i] + gap <= at[j])
            && (forall k :: k in inside ==> at[k] <= sends[k].at < at[k] + PERMIT_LIFETIME)
  {
    var at := GrantTimes(events, inside);
    forall k | k in inside ensures WaitAt(events, k) == 0 && at[k] <= sends[k].at < at[k] + PERMIT_LIFETIME {
      SendIsPrompt(events, sends, k);
    }
    forall i, j | i in inside && j in inside && i < j ensures at[i] + gap <= at[j] {
      GrantsAreSpaced(events, i, j);
    }
  }

  lemma WindowBound(events: seq<Event>, sends: map<nat, Send>, from: int, length: int, groups: set<Group>, gap: nat,
                    most: nat)
    requires ReadInOrder(events) && UnderPermits(events, sends)
    requires forall g :: g in groups ==> gap <= Gap(g)
    requires gap * most >= length + PERMIT_LIFETIME
    ensures |Window(events, sends, from, length, groups)| <= most
  {
    var inside := Window(events, sends, from, length, groups);
    if inside != {} {
      var at := GrantTimes(events, inside);
      GrantTimesAreSpaced(events, sends, inside, gap);
      var lo, hi := Spread(at, inside, gap);
      TooManySpread(at[hi] - at[lo], gap, most, |inside|, length);
    }
  }

  /** The rate bound, for any number of instances mixing both groups and cooldowns: any 60 seconds hold
      at most 2 conservative and 10 total sends, any 10 minutes at most 100 directory sends. */
  lemma RateBound(events: seq<Event>, sends: map<nat, Send>, from: int)
    requires ReadInOrder(events) && UnderPermits(events, sends)
    ensures |Window(events, sends, from, 60_000 * MS, {Conservative})| <= 2
    ensures |Window(events, sends, from, 60_000 * MS, {Conservative, Directories})| <= 10
    ensures |Window(events, sends, from, 600_000 * MS, {Directories})| <= 100
  {
    WindowBound(events, sends, from, 60_000 * MS, {Conservative}, REQUEST_GAP, 2);
    WindowBound(events, sends, from, 60_000 * MS, {Conservative, Directories}, DIRECTORY_GAP, 10);
    WindowBound(events, sends, from, 600_000 * MS, {Directories}, DIRECTORY_GAP, 100);
  }
}
