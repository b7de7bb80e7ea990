/** The request quota and the retry loop, said of times and rows alone, with their numbers. */
module LimiterLaws {
  import opened Basics
  import opened Text
  import opened RequestLimiter

  // ----- One claim

  /** No row, or its time has come: times are microseconds. */
  predicate Due(row: Option<int>, now: int) { row == None || row.value <= now }

  /** A conservative request is granted exactly when the login's row is due, and then bars the login for 31 seconds. */
  lemma ConservativeClaim(q: Quota, t: Readings)
    requires InOrder(t)
    ensures var (after, waitMs) := ClaimQuota(q, Conservative, t);
            && (waitMs == 0 <==> Due(q.login, t.check)) && waitMs >= 0
            && after == if waitMs == 0 then Quota(Some(t.store + 31_000_000), q.directory) else q
  {
  }

  /** A directory request is granted exactly when the login's row and the directory row are both due, and then bars both
      for 6.1 seconds; refused, it leaves only a missing login row made. */
  lemma DirectoryClaim(q: Quota, t: Readings)
    requires InOrder(t)
    ensures var (after, waitMs) := ClaimQuota(q, Directories, t);
            && (waitMs == 0 <==> Due(q.login, t.barrier) && Due(q.directory, t.check)) && waitMs >= 0
            && after == if waitMs == 0 then Quota(Some(t.extend + 6_100_000), Some(t.store + 6_100_000))
                        else Quota(if q.login == None then Some(t.insert) else q.login, q.directory)
  {
  }

  /** When the clock was read that a refused claim's wait counts from. */
  function Measured(q: Quota, group: Group, t: Readings): int {
    if group == Directories && !Due(q.login, t.barrier) then t.barrier else t.wait
  }

  /** The wait is enough: unless something else claims meanwhile, a claim of the same group that starts when it is over
      is granted. (The directory row never outlasts the login row.) */
  lemma WaitIsEnough(q: Quota, group: Group, t: Readings, again: Readings)
    requires InOrder(t) && InOrder(again) && ClaimQuota(q, group, t).1 > 0
    requires q.directory.Some? ==> q.login.Some? && q.directory.value <= q.login.value
    requires Measured(q, group, t) + ClaimQuota(q, group, t).1 * 1_000 <= again.insert
    ensures ClaimQuota(ClaimQuota(q, group, t).0, group, again).1 == 0
  {
  }

  /** Nor is it longer than it must be: a claim a millisecond earlier is refused again. */
  lemma WaitIsNotLonger(q: Quota, group: Group, t: Readings, again: Readings)
    requires InOrder(t) && InOrder(again) && ClaimQuota(q, group, t).1 > 1
    requires again.check <= Measured(q, group, t) + (ClaimQuota(q, group, t).1 - 1) * 1_000
    ensures ClaimQuota(ClaimQuota(q, group, t).0, group, again).1 > 0
  {
  }

  /** A cooldown of one minute to one day moves the login's row to its end, if that is later, and nothing else. */
  lemma CooldownExactly(q: Quota, at: int, delayMs: int)
    ensures CooldownAccepts(delayMs) <==> 60_000 <= delayMs <= 86_400_000
    ensures CooldownQuota(q, at, delayMs).directory == q.directory
    ensures CooldownQuota(q, at, delayMs).login
            == if q.login.Some? && q.login.value >= at + delayMs * 1_000 then q.login else Some(at + delayMs * 1_000)
  {
  }

  // ----- Cooldowns over runs

  /** A cooldown out of range changes nothing and bars nobody. */
  lemma RejectedCooldown(run: Run, at: int, delayMs: int)
    requires delayMs < 60_000 || delayMs > 86_400_000
    ensures Apply(run, CooldownEvent(at, delayMs)) == run
  {
  }

  lemma CooldownIsLogged(events: seq<Event>, i: nat)
    requires i < |events| && events[i].CooldownEvent? && 60_000 <= events[i].delayMs <= 86_400_000
    ensures var n := |Exec(events[..i]).log|;
            n < |Exec(events[..i + 1]).log| <= |Exec(events).log|
            && Exec(events).log[n] == Cooled(events[i].at + events[i].delayMs * 1_000)
  {
    assert events[..i + 1][..i] == events[..i];
    LogGrows(events, i + 1);
  }

  /** However cooldowns, conservative and directory claims mix, no claim made after an accepted cooldown is granted
      before it is over. */
  lemma CooldownIsObeyed(events: seq<Event>, i: nat, k: nat)
    requires ReadInOrder(events) && i < k < |events| && events[i].CooldownEvent? && events[k].ClaimEvent?
    requires 60_000 <= events[i].delayMs <= 86_400_000 && WaitAt(events, k) == 0
    ensures events[i].at + events[i].delayMs * 1_000 <= events[k].t.check
  {
    CooldownIsLogged(events, i);
    GrantIsLogged(events, k);
    assert events[..k][..i + 1] == events[..i + 1];
    LogGrows(events[..k], i + 1);
    NoPermitDuringCooldown(events, |Exec(events[..i]).log|, |Exec(events[..k]).log|);
  }

  // ----- One attempt

  /** The attempt gets as far as its claim: not aborted and not late before the guard, let through by it, and neither
      aborted nor late after it. */
  predicate Claims(a: Attempt, until: int) {
    !a.abortedFirst && a.nowFirst < until && a.guardPasses && !a.abortedSecond && a.nowSecond < until
  }

  /** An attempt returns a permit exactly when its claim was granted and a second from before the claim, and the
      deadline, are still ahead. */
  lemma PermitExactly(a: Attempt, group: Group, until: int, expiresAt: int)
    ensures Decide(a, group, until) == Some(Permit(expiresAt)) <==>
            && Claims(a, until) && a.claim == Some(0) && !a.abortedThird && a.nowThird < expiresAt
            && expiresAt == if until < a.started + 1_000_000 then until else a.started + 1_000_000
  {
  }

  /** It waits and tries again exactly when the claim asked for a wait that ends before the deadline, and nothing
      aborted it. */
  lemma RetriesExactly(a: Attempt, group: Group, until: int)
    ensures Decide(a, group, until) == None <==>
            && Claims(a, until) && a.claim.Some? && a.claim.value != 0 && !a.abortedThird && !a.abortedWaiting
            && a.nowThird + a.claim.value * 1_000 < until
  {
  }

  /** It is cancelled by an abort before the guard, after it, after the claim, or while waiting; a late start or a
      refused guard comes first where it comes earlier. */
  lemma CancelledExactly(a: Attempt, group: Group, until: int)
    ensures Decide(a, group, until) == Some(Cancelled) <==>
            || a.abortedFirst
            || (a.nowFirst < until && a.guardPasses && a.abortedSecond)
            || (Claims(a, until) && a.claim.Some? && a.abortedThird)
            || (Claims(a, until) && a.claim.Some? && !a.abortedThird && a.claim.value != 0 && a.abortedWaiting
                && a.nowThird + a.claim.value * 1_000 < until)
  {
  }

  lemma OthersExactly(a: Attempt, group: Group, until: int)
    ensures Decide(a, group, until) == Some(GuardFailed) <==> !a.abortedFirst && a.nowFirst < until && !a.guardPasses
    ensures Decide(a, group, until) == Some(Unavailable) <==> Claims(a, until) && a.claim == None
  {
  }

  /** What a caller is told to wait: a minute when there was no time to claim, the claim's own wait when it ends too
      late, the gap of its group when a permit was granted but is no longer fresh. */
  lemma LimitedExactly(a: Attempt, group: Group, until: int, retryAfterMs: int)
    ensures Decide(a, group, until) == Some(Limited(retryAfterMs)) <==>
            || (!a.abortedFirst && a.nowFirst >= until && retryAfterMs == 60_000)
            || (!a.abortedFirst && a.nowFirst < until && a.guardPasses && !a.abortedSecond && a.nowSecond >= until
                && retryAfterMs == 60_000)
            || (Claims(a, until) && !a.abortedThird && a.claim.Some? && a.claim.value != 0
                && a.nowThird + a.claim.value * 1_000 >= until && retryAfterMs == a.claim.value)
            || (Claims(a, until) && !a.abortedThird && a.claim == Some(0)
                && (a.nowThird >= until || a.nowThird >= a.started + 1_000_000)
                && retryAfterMs == match group case Directories => 6_100 case Conservative => 31_000)
  {
  }

  /** A header of one to nine digits, between spaces, is a number of seconds; any other that is a date is the time to
      it, from the response's own date or else the local clock; the delay is then brought within a minute and a day. */
  lemma RetryAfterExactly(header: string, headerDate: Option<int>, responseDate: Option<int>, now: int)
    ensures var digits := 1 <= |Trim(header)| <= 9 && forall i :: 0 <= i < |Trim(header)| ==>
              '0' <= Trim(header)[i] <= '9';
            var asked := if digits then NumberOf(Trim(header)) * 1_000
                         else if header == "" || headerDate.None? then 60_000
                         else headerDate.value - (if responseDate.Some? then responseDate.value else now);
            RetryAfterMs(Some(header), headerDate, responseDate, now)
            == if asked < 60_000 then 60_000 else if asked > 86_400_000 then 86_400_000 else asked
  {
    assert header == "" ==> Trim(header) == "";
  }
}
