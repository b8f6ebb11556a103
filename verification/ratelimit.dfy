/** The authentication rate limit: a list of failure times for each address, pruned in place,
    checked against the full history of failures. */
module RateLimit {

  const MINUTE := 60_000
  const LIMIT := 5

  /** The times less than a minute before now, in order. */
  function Recent(ts: seq<int>, now: int): seq<int> {
    if ts == [] then []
    else
      var n := |ts| - 1;
      Recent(ts[..n], now) + if now - ts[n] < MINUTE then [ts[n]] else []
  }

  lemma RecentAppend(ts: seq<int>, t: int, now: int)
    ensures Recent(ts + [t], now) == Recent(ts, now) + if now - t < MINUTE then [t] else []
  {
    assert (ts + [t])[..|ts|] == ts;
  }

  /** Pruning earlier loses nothing later. */
  lemma {:induction false} PruningIsHarmless(ts: seq<int>, earlier: int, now: int)
    requires earlier <= now
    ensures Recent(Recent(ts, earlier), now) == Recent(ts, now)
  {
    if ts != [] {
      var n := |ts| - 1;
      PruningIsHarmless(ts[..n], earlier, now);
      if earlier - ts[n] < MINUTE {
        RecentAppend(Recent(ts[..n], earlier), ts[n], now);
      } else {
        assert Recent(ts[..n], earlier) + [] == Recent(ts[..n], earlier);
      }
    }
  }

  datatype Failure = Failure(ip: string, t: int)

  /** All failures of an address ever recorded. */
  function Times(history: seq<Failure>, ip: string): seq<int> {
    if history == [] then []
    else
      var n := |history| - 1;
      Times(history[..n], ip) + if history[n].ip == ip then [history[n].t] else []
  }

  lemma TimesAppend(history: seq<Failure>, f: Failure, ip: string)
    ensures Times(history + [f], ip) == Times(history, ip) + if f.ip == ip then [f.t] else []
  {
    assert (history + [f])[..|history|] == history;
  }

  /** The failures of an address in the last minute, by their place in the history. */
  function LastMinute(history: seq<Failure>, ip: string, now: int): set<int> {
    set j | 0 <= j < |history| && history[j].ip == ip && now - history[j].t < 60_000
  }

  lemma OneMoreFailure(history: seq<Failure>, f: Failure, ip: string, now: int)
    ensures |LastMinute(history + [f], ip, now)| ==
      |LastMinute(history, ip, now)| + if f.ip == ip && now - f.t < 60_000 then 1 else 0
  {
    var n, more := |history|, history + [f];
    assert more[n] == f && forall j :: 0 <= j < n ==> more[j] == history[j];
    assert LastMinute(more, ip, now) ==
      LastMinute(history, ip, now) + if f.ip == ip && now - f.t < 60_000 then {n} else {};
  }

  lemma {:induction false} RecentAreCounted(history: seq<Failure>, ip: string, now: int)
    ensures |Recent(Times(history, ip), now)| == |LastMinute(history, ip, now)|
  {
    if history == [] {
      assert LastMinute(history, ip, now) == {};
    } else {
      var n := |history| - 1;
      var f := history[n];
      assert history == history[..n] + [f];
      hide LastMinute, Recent, Times;
      RecentAreCounted(history[..n], ip, now);
      OneMoreFailure(history[..n], f, ip, now);
      TimesAppend(history[..n], f, ip);
      if f.ip == ip {
        RecentAppend(Times(history[..n], ip), f.t, now);
      } else {
        assert Times(history[..n], ip) + [] == Times(history[..n], ip);
      }
    }
  }

  class Auth {
    var fails: map<string, seq<int>>
    ghost var history: seq<Failure>
    ghost var clock: int

    function Listed(ip: string): seq<int>
      reads this
    {
      if ip in fails then fails[ip] else []
    }

    /** What pruning has dropped is too old to matter now or later. */
    ghost predicate Valid()
      reads this
    {
      forall ip :: Recent(Listed(ip), clock) == Recent(Times(history, ip), clock)
    }

    constructor (now: int)
      ensures Valid() && history == [] && clock == now
    {
      fails, history, clock := map[], [], now;
    }

    /** Filters the list into its own front, then appends the new failure. */
    method RecordFailure(ip: string, now: int)
      requires Valid() && now >= clock
      modifies this
      ensures Valid() && clock == now && history == old(history) + [Failure(ip, now)]
      ensures fails == old(fails)[ip := Recent(old(Listed(ip)), now) + [now]]
    {
      hide Recent, Times;
      var list := new int[|Listed(ip)|](i requires 0 <= i < |Listed(ip)| reads this => Listed(ip)[i]);
      assert list[..] == Listed(ip);
      var n := Prune(list, now);
      fails := fails[ip := list[..n] + [now]];
      history, clock := history + [Failure(ip, now)], now;
      forall k ensures Recent(Listed(k), now) == Recent(Times(history, k), now) {
        var before, past := old(Listed(k)), old(Times(history, k));
        assert old(Recent(Listed(k), clock) == Recent(Times(history, k), clock));
        assert k != ip ==> Listed(k) == before && past + [] == past;
        TimesAppend(old(history), Failure(ip, now), k);
        PruningIsHarmless(before, old(clock), now);
        PruningIsHarmless(past, old(clock), now);
        if k == ip {
          PruningIsHarmless(before, now, now);
          RecentAppend(Recent(before, now), now, now);
          RecentAppend(past, now, now);
          assert Listed(k) == Recent(before, now) + [now];
        }
      }
    }

    /** The in-place filter: the kept times move to the front of the same array. */
    method Prune(list: array<int>, now: int) returns (n: nat)
      modifies list
      ensures n <= list.Length && list[..n] == Recent(old(list[..]), now)
    {
      hide Recent;
      n := 0;
      ghost var ts := list[..];
      NothingRecent(now);
      for j := 0 to list.Length
        invariant n <= j && list[..n] == Recent(ts[..j], now) && list[j..] == ts[j..]
      {
        assert ts[..j + 1] == ts[..j] + [ts[j]] && list[j] == ts[j];
        RecentAppend(ts[..j], ts[j], now);
        if now - list[j] < MINUTE {
          list[n] := list[j];
          n := n + 1;
        }
      }
      assert ts[..list.Length] == ts;
    }

    /** The answer the pruned list gives is the answer of the full history. */
    method TooManyFailures(ip: string, now: int) returns (b: bool)
      requires Valid() && now >= clock
      modifies this`clock
      ensures Valid() && clock == now
      ensures b <==> |Recent(Times(history, ip), now)| > LIMIT
      ensures b <==> |LastMinute(history, ip, now)| > 5
    {
      hide Recent, Times;
      RecentAreCounted(history, ip, now);
      var n, list := 0, Listed(ip);
      NothingRecent(now);
      for j := 0 to |list|
        invariant n == |Recent(list[..j], now)| && clock == old(clock)
      {
        assert list[..j + 1] == list[..j] + [list[j]];
        RecentAppend(list[..j], list[j], now);
        if now - list[j] < MINUTE {
          n := n + 1;
        }
      }
      assert list[..|list|] == list;
      b := n > LIMIT;
      forall k ensures Recent(Listed(k), now) == Recent(Times(history, k), now) {
        PruningIsHarmless(Listed(k), clock, now);
        PruningIsHarmless(Times(history, k), clock, now);
      }
      clock := now;
    }
  }

  lemma NothingRecent(now: int)
    ensures Recent([], now) == []
  {
  }
}
