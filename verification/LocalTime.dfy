/** Turning a Kyiv wall-clock time into an instant by three corrections of a first guess.
    A time zone is the number of seconds its wall clock is ahead of universal time at each instant. */
module LocalTime {
  type Zone = int -> int

  function LocalAt(zone: Zone, instant: int): int { instant + zone(instant) }

  /** The wall clock is always ahead, by at most reach. */
  ghost predicate Ahead(zone: Zone, reach: int) {
    forall instant :: 0 < zone(instant) <= reach
  }

  /** Within reach of the target the clock is changed at most once, at the given instant. */
  ghost predicate ChangesOnce(zone: Zone, target: int, reach: int, change: int) {
    forall instant :: target - reach <= instant <= target ==>
      zone(instant) == if instant < change then zone(target - reach) else zone(target)
  }

  /** The wall clock shows this time at some instant. */
  ghost predicate Exists(zone: Zone, target: int) {
    exists instant :: LocalAt(zone, instant) == target
  }

  /** The guess after n corrections. */
  function Guess(zone: Zone, target: int, n: nat): int {
    if n == 0 then target else target - zone(Guess(zone, target, n - 1))
  }

  method KyivLocalDateTimeToUtc(zone: Zone, target: int) returns (guess: int)
    ensures guess == Guess(zone, target, 3)
  {
    guess := target;
    for index := 0 to 3
      invariant guess == Guess(zone, target, index)
    {
      var represented := guess + zone(guess);
      guess := guess + target - represented;
    }
  }

  /** Three corrections find the target whenever the wall clock shows it at all. */
  lemma ThreeCorrectionsSuffice(zone: Zone, target: int, reach: int, change: int)
    requires Ahead(zone, reach) && ChangesOnce(zone, target, reach, change)
    ensures LocalAt(zone, Guess(zone, target, 3)) == target <==> Exists(zone, target)
  {
    GuessInReach(zone, target, reach);
    if instant :| LocalAt(zone, instant) == target {
      assert instant == target - zone(instant);
    }
  }

  lemma GuessInReach(zone: Zone, target: int, reach: int)
    requires Ahead(zone, reach)
    ensures target - reach <= Guess(zone, target, 1) < target
    ensures target - reach <= Guess(zone, target, 2) < target
    ensures target - reach <= Guess(zone, target, 3) < target
    ensures Guess(zone, target, 1) == target - zone(target)
    ensures Guess(zone, target, 2) == target - zone(Guess(zone, target, 1))
    ensures Guess(zone, target, 3) == target - zone(Guess(zone, target, 2))
  {
  }

  /** A time shown twice, when the clock goes back, is taken to be the later of the two instants. */
  lemma AmbiguousTimeIsLater(zone: Zone, target: int, reach: int, change: int, instant: int)
    requires Ahead(zone, reach) && ChangesOnce(zone, target, reach, change)
    requires LocalAt(zone, instant) == target
    ensures instant <= Guess(zone, target, 3)
  {
    GuessInReach(zone, target, reach);
    assert instant == target - zone(instant);
  }

  /** A time skipped when the clock goes forward is read with the offset in force after the change. */
  lemma SkippedTimeUsesLaterOffset(zone: Zone, target: int, reach: int, change: int)
    requires Ahead(zone, reach) && ChangesOnce(zone, target, reach, change)
    requires !Exists(zone, target)
    ensures Guess(zone, target, 3) == target - zone(target) < change
    ensures LocalAt(zone, Guess(zone, target, 3)) == target - (zone(target) - zone(target - reach)) < target
  {
    GuessInReach(zone, target, reach);
    assert LocalAt(zone, Guess(zone, target, 1)) != target;
    assert LocalAt(zone, Guess(zone, target, 2)) != target;
  }
}
