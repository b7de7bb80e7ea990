/** The developer login throttle, said of the accepted attempts alone, with its numbers. */
module LoginLaws {
  import opened Basics
  import opened LoginThrottle

  /** The accepted attempts after a given time, at one address or at any, by their place in the history. */
  ghost function Since(history: seq<Attempt>, address: Option<Address>, after: int): set<nat> {
    set i: nat | i < |history| && history[i].time > after && (address == None || address == Some(history[i].address))
  }

  lemma SinceGrows(history: seq<Attempt>, address: Option<Address>, after: int)
    requires history != []
    ensures var n := |history| - 1;
            Since(history, address, after)
            == Since(history[..n], address, after)
               + if history[n].time > after && (address == None || address == Some(history[n].address)) then {n} else {}
  {
  }

  lemma {:induction false} RecentAtAddress(history: seq<Attempt>, address: Address, after: int)
    ensures |Recent(TimesOf(history, address), after)| == |Since(history, Some(address), after)|
  {
    if history != [] {
      var n := |history| - 1;
      var rest := TimesOf(history[..n], address);
      RecentAtAddress(history[..n], address, after);
      SinceGrows(history, Some(address), after);
      if history[n].address == address { assert (rest + [history[n].time])[..|rest|] == rest; }
    }
  }

  lemma {:induction false} RecentAnywhere(history: seq<Attempt>, after: int)
    ensures |Recent(AllTimes(history), after)| == |Since(history, None, after)|
  {
    if history != [] {
      var n := |history| - 1;
      RecentAnywhere(history[..n], after);
      SinceGrows(history, None, after);
      assert AllTimes(history)[..n] == AllTimes(history[..n]);
    }
  }

  /** An attempt is admitted exactly when fewer than five were accepted from its address in the quarter of an hour
      before, fewer than twenty in the minute before, and its address is among those of that quarter of an hour, or
      they are fewer than two hundred. */
  lemma AdmittedExactly(history: seq<Attempt>, address: Address, now: int)
    ensures Admits(history, address, now) <==>
            && |Since(history, Some(address), now - 900_000)| < 5
            && |Since(history, None, now - 60_000)| < 20
            && (Since(history, Some(address), now - 900_000) != {}
                || |set i: nat | i < |history| && history[i].time > now - 900_000 :: history[i].address| < 200)
  {
    RecentAtAddress(history, address, now - 900_000);
    RecentAnywhere(history, now - 60_000);
    var here := Since(history, Some(address), now - 900_000);
    assert address in Addresses(history, now - 900_000) <==> here != {} by {
      if address in Addresses(history, now - 900_000) {
        var i :| 0 <= i < |history| && history[i].time > now - 900_000 && history[i].address == address;
        assert i in here;
      }
    }
    assert Addresses(history, now - 900_000) == set i: nat | i < |history| && history[i].time > now - 900_000 ::
      history[i].address;
  }

  /** The history grows by this attempt exactly when it is admitted. */
  lemma RecordedExactly(history: seq<Attempt>, address: Address, now: int)
    ensures Record(history, address, now) == history
            + (if Admits(history, address, now) then [Attempt(address, now)] else [])
  {
  }
}
