/** What each step of the PIN throttle does to the stored rows, said of their fields alone, with the numbers. */
module PinLaws {
  import opened Basics
  import opened PinThrottle

  /** A quarter of an hour, in milliseconds. */
  const QUARTER: int := 900_000

  /** A lock of this subject that ends later. */
  predicate Locks(row: Row, subject: Subject, now: int) {
    row.subject.scope == subject.scope && row.subject.hash == subject.hash
    && match row.lockedUntil case None => false case Some(until) => now < until
  }

  /** An attempt of this subject no older than a quarter of an hour: pending since its reservation, failed since then.
      */
  predicate Weighs(row: Row, subject: Subject, now: int) {
    && row.subject.scope == subject.scope && row.subject.hash == subject.hash
    && (row.status == Pending ==> now - row.reservedAt <= QUARTER)
    && (row.status == Failed ==> row.failedAt.Some? && now - row.failedAt.value <= QUARTER)
  }

  ghost function Weighing(rows: Rows, subject: Subject, now: int): set<nat> {
    set id | id in rows && Weighs(rows[id], subject, now)
  }

  ghost function FailuresWeighing(rows: Rows, subject: Subject, now: int): set<nat> {
    set id | id in rows && rows[id].status == Failed && Weighs(rows[id], subject, now)
  }

  lemma QueriesMean(rows: Rows, subject: Subject, now: int)
    ensures IsLocked(rows, subject, now) <==> exists id :: id in rows && Locks(rows[id], subject, now)
    ensures Counted(rows, subject, now) == Weighing(rows, subject, now)
    ensures FailedIds(rows, subject, now) == FailuresWeighing(rows, subject, now)
  {
    forall id | id in rows
      ensures LockedNow(rows[id], subject, now) <==> Locks(rows[id], subject, now)
      ensures CountsNow(rows[id], subject, now) <==> Weighs(rows[id], subject, now)
    {
    }
  }

  /** A reservation is let through exactly when the subject is not locked and fewer than five attempts weigh; it adds
      one pending row under a new id. */
  lemma ReservedExactly(pins: Pins, subject: Subject, now: int)
    ensures var refused := (exists id :: id in pins.rows && Locks(pins.rows[id], subject, now))
                           || |Weighing(pins.rows, subject, now)| >= 5;
            && (refused ==> Apply(pins, Reserve(subject, now)) == pins)
            && (!refused ==>
                  var after := Apply(pins, Reserve(subject, now));
                  && after.rows == pins.rows[pins.nextId := Row(subject, Pending, now, None, None)]
                  && after.nextId == pins.nextId + 1)
  {
    QueriesMean(pins.rows, subject, now);
  }

  /** A failure is recorded exactly on a row of this subject that is still pending; when it is the fifth that weighs,
      the row locks the subject for a quarter of an hour. */
  lemma FailedExactly(pins: Pins, subject: Subject, id: nat, now: int)
    ensures var after := Apply(pins, Fail(subject, id, now)).rows;
            if !(id in pins.rows && pins.rows[id].subject == subject && pins.rows[id].status == Pending)
            then after == pins.rows
            else
              && after.Keys == pins.rows.Keys && (forall k :: k in after && k != id ==> after[k] == pins.rows[k])
              && after[id] == pins.rows[id].(status := Failed, failedAt := Some(now),
                                             lockedUntil := after[id].lockedUntil)
              && after[id].lockedUntil == if |FailuresWeighing(after, subject, now)| >= 5 then Some(now + QUARTER)
                                          else pins.rows[id].lockedUntil
  {
    if id in pins.rows && pins.rows[id].subject == subject && pins.rows[id].status == Pending {
      var after := Apply(pins, Fail(subject, id, now)).rows;
      var failed := pins.rows[id := pins.rows[id].(status := Failed, failedAt := Some(now))];
      QueriesMean(failed, subject, now);
      QueriesMean(after, subject, now);
      assert FailuresWeighing(after, subject, now) == FailuresWeighing(failed, subject, now);
    }
  }

  /** A success deletes its own row and the failures before it, of this subject, and nothing else. */
  lemma ClearedExactly(pins: Pins, subject: Subject, upTo: nat, id: nat)
    requires id in pins.rows
    ensures var row, after := pins.rows[id], Apply(pins, Clear(subject, upTo)).rows;
            && (id !in after <==> row.subject == subject && (id == upTo || (id < upTo && row.status == Failed)))
            && (id in after ==> after[id] == row)
  {
  }

  /** A release deletes its own row if it is still pending, and nothing else. */
  lemma ReleasedExactly(pins: Pins, subject: Subject, released: nat, id: nat)
    requires id in pins.rows
    ensures var row, after := pins.rows[id], Apply(pins, Release(subject, released)).rows;
            && (id !in after <==> id == released && row.subject == subject && row.status == Pending)
            && (id in after ==> after[id] == row)
  {
  }

  /** A clean-up deletes exactly the rows whose lock, if any, is over, and that were pending for twenty minutes or
      failed a quarter of an hour ago. */
  lemma CleanedExactly(pins: Pins, now: int, id: nat)
    requires id in pins.rows
    ensures var row, after := pins.rows[id], Apply(pins, CleanUp(now)).rows;
            && (id !in after <==>
                  && (row.lockedUntil == None || row.lockedUntil.value <= now)
                  && (row.status == Pending ==> now - row.reservedAt >= 1_200_000)
                  && (row.status == Failed ==> row.failedAt.Some? && now - row.failedAt.value >= QUARTER))
            && (id in after ==> after[id] == row)
  {
  }

  /** No step but a reservation adds a row. */
  lemma OnlyReservationsAdd(pins: Pins, e: Event)
    ensures !e.Reserve? ==> Apply(pins, e).rows.Keys <= pins.rows.Keys && Apply(pins, e).nextId == pins.nextId
  {
  }
}
