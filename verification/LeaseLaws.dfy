/** What each statement of the operation lease does, said of the rows' fields alone, with the numbers. */
module LeaseLaws {
  import opened Basics
  import opened OperationLease

  /** Running, inside its lease and its budget. */
  predicate Alive(row: Row, now: int) { row.status == Running && now < row.liveUntil && now < row.expiresAt }

  /** The row is this owner's operation on this runner, and alive. */
  predicate Holds(t: Table, id: nat, owner: nat, runner: nat, now: int) {
    id in t.rows && t.rows[id].owner == owner && t.rows[id].runner == runner && Alive(t.rows[id], now)
  }

  predicate Owned(whose: Option<nat>, row: Row) { whose == None || whose == Some(row.owner) }

  /** Expiring fails exactly the owner's rows that run past their lease or budget, keeping whose they are. */
  lemma ExpiredExactly(t: Table, whose: Option<nat>, now: int, id: nat)
    requires id in t.rows
    ensures var row, after := t.rows[id], Apply(t, Expire(whose, now)).rows;
            && after.Keys == t.rows.Keys
            && after[id] == if Owned(whose, row) && row.status == Running && !Alive(row, now)
                            then row.(status := Failed, completedAt := Some(now), result := None) else row
  {
  }

  /** A sweep forgets exactly the owner's finished rows completed more than a day ago: a fresh result survives it. */
  lemma ForgottenExactly(t: Table, whose: Option<nat>, now: int, id: nat)
    requires id in t.rows
    ensures var row, after := t.rows[id], Apply(t, Forget(whose, now)).rows;
            && after.Keys <= t.rows.Keys
            && (id !in after <==>
                  Owned(whose, row) && row.status != Running && row.completedAt.Some?
                  && now - row.completedAt.value > 86_400_000)
            && (id in after ==> after[id] == row)
  {
  }

  /** A new operation is inserted exactly when its id is new and its owner has none running; it then has a minute's
      lease within half an hour. */
  lemma InsertedExactly(t: Table, owner: nat, runner: nat, id: nat, now: int)
    ensures Apply(t, Insert(owner, runner, id, now))
            == if id !in t.used && !(exists k :: k in t.rows && t.rows[k].owner == owner && t.rows[k].status == Running)
               then Table(t.rows[id := Row(owner, runner, Running, now + 1_800_000, now + 60_000, None, None)],
                          t.used + {id})
               else t
  {
  }

  /** A renewal extends exactly a held lease, to a minute from now or to the end of the budget. */
  lemma RenewedExactly(t: Table, id: nat, owner: nat, runner: nat, now: int)
    ensures Apply(t, Renew(id, owner, runner, now))
            == if Holds(t, id, owner, runner, now)
               then t.(rows := t.rows[id := t.rows[id].(liveUntil := if t.rows[id].expiresAt < now + 60_000
                                                                     then t.rows[id].expiresAt else now + 60_000)])
               else t
  {
  }

  /** So a lease renewed at most a minute after it was last renewed or begun is not lost before the budget ends. */
  lemma RenewalKeepsAlive(t: Table, id: nat, owner: nat, runner: nat, now: int, later: int)
    requires Holds(t, id, owner, runner, now) && now <= later < now + 60_000 && later < t.rows[id].expiresAt
    ensures Holds(Apply(t, Renew(id, owner, runner, now)), id, owner, runner, later)
  {
  }

  /** An outcome is stored exactly under a held lease: done with its result, or failed without one. */
  lemma FinishedExactly(t: Table, id: nat, owner: nat, runner: nat, outcome: Option<nat>, now: int)
    ensures Apply(t, Finish(id, owner, runner, outcome, now))
            == if !Holds(t, id, owner, runner, now) then t
               else
                 t.(rows := t.rows[id := t.rows[id].(status := match outcome case Some(_) => Done case None => Failed,
                                                     completedAt := Some(now), result := outcome)])
  {
  }

  /** The guard lets through exactly the holder. */
  lemma GuardMeans(t: Table, id: nat, owner: nat, runner: nat, now: int)
    ensures Guarded(t.rows, id, owner, runner, now) <==> Holds(t, id, owner, runner, now)
  {
  }
}
