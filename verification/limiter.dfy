/** The minimum interval between two fetches of one camera. */
module Fetching {

  /** The zero time, 0001-01-01, in Unix milliseconds. */
  const ZERO_TIME := -62_135_596_800_000

  /** Neighbouring grants are at least this far apart. */
  predicate Spaced(grants: seq<int>, min: int) {
    forall i :: 0 < i < |grants| ==> grants[i] - grants[i - 1] >= min
  }

  /** n further grants take at least n intervals. */
  lemma {:induction false} GrantsTakeTime(grants: seq<int>, min: int, i: nat, j: nat)
    requires Spaced(grants, min) && i <= j < |grants|
    ensures grants[j] - grants[i] >= (j - i) * min
  {
    if i < j {
      GrantsTakeTime(grants, min, i, j - 1);
      assert (j - i) * min == (j - 1 - i) * min + min;
    }
  }

  class Limiter {
    var last: int
    const min: int
    ghost var grants: seq<int>

    ghost predicate Valid()
      reads this
    {
      Spaced(grants, min) && (grants != [] ==> last == grants[|grants| - 1])
    }

    constructor (min: int)
      ensures Valid() && this.min == min && grants == [] && last == ZERO_TIME
    {
      last, this.min, grants := ZERO_TIME, min, [];
    }

    /** Waits for the next permitted fetch.  now is the caller's clock reading, which may be stale
        by the time it holds the lock: asked is the true time then, and woke the true time when
        the wait is over.  A timer never fires early.  Whatever now was, the new grant is at least
        min after the last one; a cancelled wait leaves no trace. */
    method Wait(now: int, asked: int, woke: int, cancelled: bool) returns (ok: bool)
      requires Valid() && now <= asked <= woke
      requires now < last + min && !cancelled ==> woke - asked >= last + min - now
      modifies this
      ensures Valid()
      ensures ok <==> !(cancelled && now < old(last) + min)
      ensures ok ==> last == woke && grants == old(grants) + [woke] && woke >= old(last) + min
      ensures !ok ==> last == old(last) && grants == old(grants)
    {
      var next := last + min;
      if now < next {
        if cancelled {
          return false;
        }
      }
      last := woke;
      grants := grants + [woke];
      return true;
    }
  }
}
