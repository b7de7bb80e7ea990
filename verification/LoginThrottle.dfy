/** The in-memory sliding-window throttle of developer logins, against the log it never keeps. */
module LoginThrottle {
  import opened Basics

  const WINDOW_MS: int := 15 * 60 * 1000
  const GLOBAL_WINDOW_MS: int := 60 * 1000
  const MAX_ADDRESSES: nat := 200
  const PER_ADDRESS: nat := 5
  const OVERALL: nat := 20

  /** Network addresses are opaque: only equality matters. */
  type Address = nat

  datatype Attempt = Attempt(address: Address, time: int)

  // ----- The reference: decide from the full history of accepted attempts

  function Recent(times: seq<int>, after: int): seq<int> {
    if times == [] then []
    else
      var rest := Recent(times[..|times| - 1], after);
      if times[|times| - 1] > after then rest + [times[|times| - 1]] else rest
  }

  function TimesOf(history: seq<Attempt>, address: Address): seq<int> {
    if history == [] then []
    else
      var rest, last := TimesOf(history[..|history| - 1], address), history[|history| - 1];
      if last.address == address then rest + [last.time] else rest
  }

  function AllTimes(history: seq<Attempt>): (times: seq<int>)
    ensures |times| == |history|
    ensures forall i :: 0 <= i < |history| ==> times[i] == history[i].time
  {
    seq(|history|, i requires 0 <= i < |history| => history[i].time)
  }

  /** The addresses with an accepted attempt after a given time. */
  function Addresses(history: seq<Attempt>, after: int): set<Address> {
    set a | a in history && a.time > after :: a.address
  }

  /** The decision computed from every attempt ever accepted. */
  predicate Admits(history: seq<Attempt>, address: Address, now: int) {
    && |Recent(TimesOf(history, address), now - WINDOW_MS)| < PER_ADDRESS
    && |Recent(AllTimes(history), now - GLOBAL_WINDOW_MS)| < OVERALL
    && (address in Addresses(history, now - WINDOW_MS) || |Addresses(history, now - WINDOW_MS)| < MAX_ADDRESSES)
  }

  function Record(history: seq<Attempt>, address: Address, now: int): seq<Attempt> {
    if Admits(history, address, now) then history + [Attempt(address, now)] else history
  }

  // ----- The throttle

  /** The `attempts` map a full history leaves after pruning at `cut`. */
  ghost predicate Pruned(attempts: map<Address, seq<int>>, history: seq<Attempt>, cut: int) {
    && (forall a :: a in attempts ==> attempts[a] != [] && attempts[a] == Recent(TimesOf(history, a), cut))
    && (forall a :: a !in attempts ==> Recent(TimesOf(history, a), cut) == [])
  }

  /** Every entry of the history was admitted by the entries before it, at its own time. */
  ghost predicate Admitted(history: seq<Attempt>) {
    history == [] ||
    (var rest, last := history[..|history| - 1], history[|history| - 1];
     && Admitted(rest) && Admits(rest, last.address, last.time)
     && forall a :: a in rest ==> a.time <= last.time)
  }

  /** The two pruned structures stand for the full history, as of the latest call. */
  ghost predicate Tracks(attempts: map<Address, seq<int>>, overall: seq<int>, history: seq<Attempt>, clock: int) {
    && Pruned(attempts, history, clock - WINDOW_MS)
    && overall == Recent(AllTimes(history), clock - GLOBAL_WINDOW_MS)
    && Admitted(history) && (forall a :: a in history ==> a.time <= clock)
  }

  class DeveloperLoginThrottle {
    var attempts: map<Address, seq<int>>
    var globalAttempts: seq<int>
    /** Every attempt ever accepted, and the clock of the latest call. */
    ghost var history: seq<Attempt>
    ghost var clock: int

    ghost predicate Valid()
      reads this
    {
      Tracks(attempts, globalAttempts, history, clock)
    }

    constructor (ghost start: int)
      ensures Valid() && history == [] && clock == start
    {
      attempts, globalAttempts, history, clock := map[], [], [], start;
    }

    /** Accepts exactly when the full history would, for a clock that does not run backwards. */
    method Reserve(address: Address, now: int) returns (accepted: bool)
      requires Valid() && clock <= now
      modifies this
      ensures Valid() && clock == now
      ensures accepted <==> Admits(old(history), address, now)
      ensures history == Record(old(history), address, now)
    {
      Forget(now);
      var recent := if address in attempts then attempts[address] else [];
      Decision(attempts, globalAttempts, history, address, now);
      if |recent| >= PER_ADDRESS || |globalAttempts| >= OVERALL
         || (address !in attempts && |attempts| >= MAX_ADDRESSES) {
        return false;
      }
      TracksOneMore(attempts, globalAttempts, history, address, now);
      attempts, globalAttempts := attempts[address := recent + [now]], globalAttempts + [now];
      history := history + [Attempt(address, now)];
      return true;
    }

    method Forget(now: int)
      requires Valid() && clock <= now
      modifies this
      ensures Valid() && clock == now && history == old(history)
    {
      var kept := Prune(attempts, now - WINDOW_MS);
      TracksLater(attempts, kept, globalAttempts, history, clock, now);
      attempts, globalAttempts, clock := kept, Recent(globalAttempts, now - GLOBAL_WINDOW_MS), now;
    }

    /** The pruning loop: forget old times, and addresses left without any. */
    static method Prune(attempts: map<Address, seq<int>>, cut: int) returns (kept: map<Address, seq<int>>)
      ensures forall a :: a in kept <==> a in attempts && Recent(attempts[a], cut) != []
      ensures forall a :: a in kept ==> kept[a] == Recent(attempts[a], cut)
    {
      kept := attempts;
      var todo := attempts.Keys;
      while todo != {}
        invariant todo <= attempts.Keys
        invariant forall a :: a in kept <==> a in attempts && (a in todo || Recent(attempts[a], cut) != [])
        invariant forall a :: a in kept ==> kept[a] == if a in todo then attempts[a] else Recent(attempts[a], cut)
      {
        var key :| key in todo;
        todo := todo - {key};
        var recent := Recent(attempts[key], cut);
        if |recent| > 0 { kept := kept[key := recent]; } else { kept := kept - {key}; }
      }
    }
  }

  // ----- Why pruning loses nothing

  lemma {:induction false} RecentOfRecent(times: seq<int>, early: int, late: int)
    requires early <= late
    ensures Recent(Recent(times, early), late) == Recent(times, late)
  {
    if times != [] {
      var rest, last := times[..|times| - 1], times[|times| - 1];
      RecentOfRecent(rest, early, late);
      if last > early {
        assert (Recent(rest, early) + [last])[..|Recent(rest, early)|] == Recent(rest, early);
      }
    }
  }

  lemma {:induction false} RecentMembers(times: seq<int>, cut: int)
    ensures forall t :: t in times && t > cut <==> t in Recent(times, cut)
  {
    if times != [] {
      RecentMembers(times[..|times| - 1], cut);
      assert times == times[..|times| - 1] + [times[|times| - 1]];
    }
  }

  lemma {:induction false} TimesOfMembers(history: seq<Attempt>, address: Address)
    ensures forall t :: Attempt(address, t) in history <==> t in TimesOf(history, address)
  {
    if history != [] {
      TimesOfMembers(history[..|history| - 1], address);
      assert history == history[..|history| - 1] + [history[|history| - 1]];
      assert history[|history| - 1].address == address ==>
        history[|history| - 1] == Attempt(address, history[|history| - 1].time);
    }
  }

  /** The keys left after pruning are the addresses still counted. */
  lemma PrunedKeys(attempts: map<Address, seq<int>>, history: seq<Attempt>, cut: int)
    requires Pruned(attempts, history, cut)
    ensures attempts.Keys == Addresses(history, cut)
  {
    forall a ensures a in attempts <==> a in Addresses(history, cut) {
      TimesOfMembers(history, a);
      RecentMembers(TimesOf(history, a), cut);
      if a in attempts {
        var t := attempts[a][0];
        assert t in attempts[a];
        assert Attempt(a, t) in history;
      }
      if a in Addresses(history, cut) {
        var x :| x in history && x.time > cut && x.address == a;
        assert x == Attempt(a, x.time);
        assert x.time in Recent(TimesOf(history, a), cut);
      }
    }
  }

  lemma PruneAgain(attempts: map<Address, seq<int>>, kept: map<Address, seq<int>>, history: seq<Attempt>, early: int,
                   late: int)
    requires early <= late && Pruned(attempts, history, early)
    requires forall a :: a in kept <==> a in attempts && Recent(attempts[a], late) != []
    requires forall a :: a in kept ==> kept[a] == Recent(attempts[a], late)
    ensures Pruned(kept, history, late)
  {
    forall a
      ensures Recent(TimesOf(history, a), late) == Recent(Recent(TimesOf(history, a), early), late)
    {
      RecentOfRecent(TimesOf(history, a), early, late);
    }
  }

  /** What the pruned structures decide is what the full history decides. */
  lemma Decision(attempts: map<Address, seq<int>>, overall: seq<int>, history: seq<Attempt>, address: Address, now: int)
    requires Pruned(attempts, history, now - WINDOW_MS) && overall == Recent(AllTimes(history), now - GLOBAL_WINDOW_MS)
    ensures var recent := if address in attempts then attempts[address] else [];
            Admits(history, address, now) <==>
            !(|recent| >= PER_ADDRESS || |overall| >= OVERALL || (address !in attempts && |attempts| >= MAX_ADDRESSES))
  {
    PrunedKeys(attempts, history, now - WINDOW_MS);
    assert |attempts.Keys| == |attempts|;
  }

  lemma ExtendPruned(attempts: map<Address, seq<int>>, history: seq<Attempt>, address: Address, now: int)
    requires Pruned(attempts, history, now - WINDOW_MS)
    ensures var recent := if address in attempts then attempts[address] else [];
            Pruned(attempts[address := recent + [now]], history + [Attempt(address, now)], now - WINDOW_MS)
  {
    ExtendHistory(history, address, now);
    var recent := if address in attempts then attempts[address] else [];
    var kept, longer := attempts[address := recent + [now]], history + [Attempt(address, now)];
    forall a
      ensures a in kept ==> kept[a] != [] && kept[a] == Recent(TimesOf(longer, a), now - WINDOW_MS)
      ensures a !in kept ==> Recent(TimesOf(longer, a), now - WINDOW_MS) == []
    {
      if a != address { assert TimesOf(longer, a) == TimesOf(history, a); }
    }
  }

  lemma TracksLater(attempts: map<Address, seq<int>>, kept: map<Address, seq<int>>, overall: seq<int>,
                    history: seq<Attempt>, clock: int, now: int)
    requires Tracks(attempts, overall, history, clock) && clock <= now
    requires forall a :: a in kept <==> a in attempts && Recent(attempts[a], now - WINDOW_MS) != []
    requires forall a :: a in kept ==> kept[a] == Recent(attempts[a], now - WINDOW_MS)
    ensures Tracks(kept, Recent(overall, now - GLOBAL_WINDOW_MS), history, now)
  {
    PruneAgain(attempts, kept, history, clock - WINDOW_MS, now - WINDOW_MS);
    RecentOfRecent(AllTimes(history), clock - GLOBAL_WINDOW_MS, now - GLOBAL_WINDOW_MS);
  }

  lemma TracksOneMore(attempts: map<Address, seq<int>>, overall: seq<int>, history: seq<Attempt>, address: Address,
                      now: int)
    requires Tracks(attempts, overall, history, now) && Admits(history, address, now)
    ensures var recent := if address in attempts then attempts[address] else [];
            Tracks(attempts[address := recent + [now]], overall + [now], history + [Attempt(address, now)], now)
  {
    ExtendHistory(history, address, now);
    ExtendPruned(attempts, history, address, now);
    AdmitOne(history, address, now);
  }

  lemma AdmitOne(history: seq<Attempt>, address: Address, now: int)
    requires Admitted(history) && Admits(history, address, now) && forall a :: a in history ==> a.time <= now
    ensures Admitted(history + [Attempt(address, now)])
  {
  }

  lemma ExtendHistory(history: seq<Attempt>, address: Address, now: int)
    ensures var longer := history + [Attempt(address, now)];
            && TimesOf(longer, address) == TimesOf(history, address) + [now]
            && (forall a :: a != address ==> TimesOf(longer, a) == TimesOf(history, a))
            && AllTimes(longer) == AllTimes(history) + [now]
    ensures Recent(TimesOf(history, address) + [now], now - WINDOW_MS)
            == Recent(TimesOf(history, address), now - WINDOW_MS) + [now]
    ensures Recent(AllTimes(history) + [now], now - GLOBAL_WINDOW_MS)
            == Recent(AllTimes(history), now - GLOBAL_WINDOW_MS) + [now]
  {
  }

  // ----- What the admitted history obeys

  /** Positions of the accepted attempts in a half-open window, of one address or of all. */
  function Within(history: seq<Attempt>, from: int, length: int): (inside: set<nat>)
  {
    set i: nat | i < |history| && from < history[i].time <= from + length
  }

  function WithinOf(history: seq<Attempt>, address: Address, from: int, length: int): set<nat> {
    set i: nat | i < |history| && history[i].address == address && from < history[i].time <= from + length
  }

  function AddressesWithin(history: seq<Attempt>, from: int, length: int): set<Address> {
    set a | a in history && from < a.time <= from + length :: a.address
  }

  lemma {:induction false} CountOverall(history: seq<Attempt>, from: int, length: int)
    requires forall a :: a in history ==> a.time <= from + length
    ensures |Recent(AllTimes(history), from)| == |Within(history, from, length)|
  {
    if history == [] {
      assert Within(history, from, length) == {};
    } else {
      var n := |history| - 1;
      CountOverall(history[..n], from, length);
      assert AllTimes(history)[..n] == AllTimes(history[..n]);
      assert Within(history, from, length) == Within(history[..n], from, length)
        + (if history[n].time > from then {n} else {});
    }
  }

  lemma {:induction false} CountOf(history: seq<Attempt>, address: Address, from: int, length: int)
    requires forall a :: a in history ==> a.time <= from + length
    ensures |Recent(TimesOf(history, address), from)| == |WithinOf(history, address, from, length)|
  {
    if history == [] {
      assert WithinOf(history, address, from, length) == {};
    } else {
      var n := |history| - 1;
      CountOf(history[..n], address, from, length);
      var rest := TimesOf(history[..n], address);
      assert (rest + [history[n].time])[..|rest|] == rest;
      assert WithinOf(history, address, from, length)
          == WithinOf(history[..n], address, from, length)
             + (if history[n].address == address && history[n].time > from then {n} else {});
    }
  }

  /** In any window of 15 minutes one address has at most 5 accepted attempts and at most 200 addresses
      have any; in any minute there are at most 20 in all. */
  lemma {:induction false} WindowBounds(history: seq<Attempt>, address: Address, from: int)
    requires Admitted(history)
    ensures |WithinOf(history, address, from, WINDOW_MS)| <= PER_ADDRESS
    ensures |Within(history, from, GLOBAL_WINDOW_MS)| <= OVERALL
    ensures |AddressesWithin(history, from, WINDOW_MS)| <= MAX_ADDRESSES
  {
    if history == [] {
      assert WithinOf(history, address, from, WINDOW_MS) == {};
      assert Within(history, from, GLOBAL_WINDOW_MS) == {};
      assert AddressesWithin(history, from, WINDOW_MS) == {};
    } else {
      var n := |history| - 1;
      var rest, last := history[..n], history[n];
      WindowBounds(rest, address, from);
      PerAddressBound(rest, last, address, from);
      OverallBound(rest, last, from);
      WindowBounds(rest, address, last.time - WINDOW_MS);
      AddressBound(rest, last, from);
      assert history == rest + [last];
    }
  }

  lemma PerAddressBound(rest: seq<Attempt>, last: Attempt, address: Address, from: int)
    requires Admits(rest, last.address, last.time) && forall a :: a in rest ==> a.time <= last.time
    requires |WithinOf(rest, address, from, WINDOW_MS)| <= PER_ADDRESS
    ensures |WithinOf(rest + [last], address, from, WINDOW_MS)| <= PER_ADDRESS
  {
    var now := WithinOf(rest + [last], address, from, WINDOW_MS);
    if |rest| in now {
      CountOf(rest, address, last.time - WINDOW_MS, WINDOW_MS);
      var before := WithinOf(rest, address, last.time - WINDOW_MS, WINDOW_MS);
      assert now - {|rest|} <= before;
      SubsetSize(now - {|rest|}, before);
    } else {
      assert now == WithinOf(rest, address, from, WINDOW_MS);
    }
  }

  lemma OverallBound(rest: seq<Attempt>, last: Attempt, from: int)
    requires Admits(rest, last.address, last.time) && forall a :: a in rest ==> a.time <= last.time
    requires |Within(rest, from, GLOBAL_WINDOW_MS)| <= OVERALL
    ensures |Within(rest + [last], from, GLOBAL_WINDOW_MS)| <= OVERALL
  {
    var now := Within(rest + [last], from, GLOBAL_WINDOW_MS);
    if |rest| in now {
      CountOverall(rest, last.time - GLOBAL_WINDOW_MS, GLOBAL_WINDOW_MS);
      var before := Within(rest, last.time - GLOBAL_WINDOW_MS, GLOBAL_WINDOW_MS);
      assert now - {|rest|} <= before;
      SubsetSize(now - {|rest|}, before);
    } else {
      assert now == Within(rest, from, GLOBAL_WINDOW_MS);
    }
  }

  lemma AddressBound(rest: seq<Attempt>, last: Attempt, from: int)
    requires Admits(rest, last.address, last.time) && forall a :: a in rest ==> a.time <= last.time
    requires |AddressesWithin(rest, from, WINDOW_MS)| <= MAX_ADDRESSES
    requires |AddressesWithin(rest, last.time - WINDOW_MS, WINDOW_MS)| <= MAX_ADDRESSES
    ensures |AddressesWithin(rest + [last], from, WINDOW_MS)| <= MAX_ADDRESSES
  {
    var now := AddressesWithin(rest + [last], from, WINDOW_MS);
    var before := AddressesWithin(rest, last.time - WINDOW_MS, WINDOW_MS);
    assert before == Addresses(rest, last.time - WINDOW_MS);
    if from < last.time <= from + WINDOW_MS {
      if last.address in before {
        assert now <= before;
        SubsetSize(now, before);
      } else {
        assert now <= before + {last.address};
        SubsetSize(now, before + {last.address});
      }
    } else {
      assert now == AddressesWithin(rest, from, WINDOW_MS);
    }
  }

}
