/** Admin sessions: a swept table of expiry times, checked against the full call history. */
module Sessions {
  import opened Wrappers

  datatype Call = Created(token: string, at: int) | Revoked(token: string)

  /** When the token's latest session ends, if it was created and not revoked since. */
  function Expiry(history: seq<Call>, token: string, ttl: int): Option<int> {
    if history == [] then None
    else
      var c := history[|history| - 1];
      if c.token != token then Expiry(history[..|history| - 1], token, ttl)
      else match c
        case Created(_, at) => Some(at + ttl)
        case Revoked(_) => None
  }

  lemma ExpiryAppend(history: seq<Call>, c: Call, token: string, ttl: int)
    ensures Expiry(history + [c], token, ttl)
      == if c.token != token then Expiry(history, token, ttl)
         else match c case Created(_, at) => Some(at + ttl) case Revoked(_) => None
  {
    assert (history + [c])[..|history|] == history;
  }

  /** The last call about a token decides; a session that was created last ends ttl later. */
  lemma {:induction false} LastCallDecides(history: seq<Call>, token: string, ttl: int, now: int)
    ensures var e := Expiry(history, token, ttl);
      e.Some? && now <= e.value <==>
      exists j :: 0 <= j < |history| && LastCall(history, token, j)
        && history[j].Created? && now <= history[j].at + ttl
  {
    if history != [] {
      var n := |history| - 1;
      LastCallDecides(history[..n], token, ttl, now);
      if history[n].token == token {
        assert LastCall(history, token, n);
      } else {
        assert forall j :: 0 <= j < n ==> LastCall(history, token, j) == LastCall(history[..n], token, j);
      }
    }
  }

  /** Call j is about this token and no later call is. */
  predicate LastCall(history: seq<Call>, token: string, j: nat)
    requires j < |history|
  {
    history[j].token == token && forall k :: j < k < |history| ==> history[k].token != token
  }

  class SessionStore {
    var sessions: map<string, int>
    const ttl: int
    ghost var history: seq<Call>
    ghost var clock: int

    /** A listed token has its expiry time; a token that is not listed has none, or it is past. */
    ghost predicate Listed(token: string)
      reads this
    {
      var e := Expiry(history, token, ttl);
      if token in sessions then e == Some(sessions[token]) else e.None? || e.value < clock
    }

    ghost predicate Consistent()
      reads this
    {
      forall token :: Listed(token)
    }

    constructor (ttl: int, now: int)
      ensures Consistent() && this.ttl == ttl && history == [] && clock == now
    {
      sessions, this.ttl, history, clock := map[], ttl, [], now;
    }

    /** A new session; first the expired ones are swept. */
    method Create(token: string, now: int)
      requires Consistent() && now >= clock
      modifies this
      ensures Consistent() && clock == now && history == old(history) + [Created(token, now)]
      ensures token in sessions && sessions[token] == now + ttl
      ensures forall k :: k in sessions && k != token ==>
        k in old(sessions) && sessions[k] == old(sessions)[k] && sessions[k] >= now
    {
      hide Expiry;
      clock := now;
      assert forall k :: old(Listed(k)) ==> Listed(k);
      var rest := sessions.Keys;
      while rest != {}
        invariant rest <= old(sessions).Keys && rest <= sessions.Keys
        invariant Consistent() && clock == now && history == old(history)
        invariant forall k :: k in sessions ==> k in old(sessions) && sessions[k] == old(sessions)[k]
        invariant forall k :: k in sessions && k !in rest ==> sessions[k] >= now
      {
        var k :| k in rest;
        rest := rest - {k};
        if now > sessions[k] {
          label before:
          sessions := sessions - {k};
          assert forall j :: old@before(Listed(j)) ==> Listed(j);
        }
      }
      label swept:
      sessions := sessions[token := now + ttl];
      history := history + [Created(token, now)];
      forall k ensures Listed(k) {
        assert old@swept(Listed(k));
        ExpiryAppend(old(history), Created(token, now), k, ttl);
      }
    }

    /** Valid is: created, not revoked since, and not past its expiry, over the whole history.  So
        no sweep ever changes an answer. */
    method Valid(token: string, now: int) returns (ok: bool)
      requires Consistent() && now >= clock
      modifies this`clock
      ensures Consistent() && clock == now
      ensures var e := Expiry(history, token, ttl);
        ok <==> token != "" && e.Some? && now <= e.value
      ensures ok <==>
        && token != ""
        && exists j: nat :: j < |history| && LastCall(history, token, j) && history[j].Created?
                            && now <= history[j].at + ttl
    {
      hide Expiry;
      LastCallDecides(history, token, ttl, now);
      assert Listed(token);
      ok := token != "" && token in sessions && !(now > sessions[token]);
      clock := now;
      assert forall k :: old(Listed(k)) ==> Listed(k);
    }

    method Revoke(token: string)
      requires Consistent()
      modifies this
      ensures Consistent() && clock == old(clock) && history == old(history) + [Revoked(token)]
      ensures sessions == old(sessions) - {token}
    {
      hide Expiry;
      sessions := sessions - {token};
      history := history + [Revoked(token)];
      forall k ensures Listed(k) {
        assert old(Listed(k));
        ExpiryAppend(old(history), Revoked(token), k, ttl);
      }
    }
  }
}
