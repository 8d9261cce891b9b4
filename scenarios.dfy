/**
 Single-threaded clients of the map, each on a fresh map with an explicit
 clock, stated as what that client gets back. Most state what the interface
 and its tests promise a client; `LiveHeadShieldsExpiredEntries`,
 `ZeroTimeoutRetrievableBehindLiveHead` and `StaleTokenEvictsNewerEntry`
 show where the code departs from those promises, and
 `NegativeTimeoutIgnored` what it does with a negative timeout. Sleeping
 between calls shows up as the clock values the preconditions allow.
 */
module ExpireMapScenarios {
  import opened ExpirableKeys
  import opened ExpireMaps

  /** A value stored with a zero timeout is gone at the very next lookup. */
  method ZeroTimeoutNotRetrievable(t: int, later: int) returns (r: Option<string>)
    requires t <= later
    ensures r == None
  {
    var m := new ExpireMapImpl<string, string>();
    m.Put("k1", "foo", 0, t);
    ExpiredHeadIsEvicted(m.State(), later);
    r := m.Get("k1", later);
  }

  /** A value looked up before its timeout has elapsed is found. */
  method RetrievableWithinTimeout(t: int, later: int, timeoutMs: int) returns (r: Option<string>)
    requires t <= later < t + timeoutMs
    ensures r == Some("value1")
  {
    var m := new ExpireMapImpl<string, string>();
    m.Put("k1", "value1", timeoutMs, t);
    ReapedStopsAtLiveHead(m.State(), later);
    r := m.Get("k1", later);
  }

  /** A value looked up once its timeout has elapsed is not found. */
  method NotRetrievableAfterTimeout(t: int, later: int, timeoutMs: int) returns (r: Option<string>)
    requires 0 <= timeoutMs && t + timeoutMs <= later
    ensures r == None
  {
    var m := new ExpireMapImpl<string, string>();
    m.Put("k1", "value1", timeoutMs, t);
    ExpiredHeadIsEvicted(m.State(), later);
    r := m.Get("k1", later);
  }

  /** A put with a negative timeout is ignored: the value put before it is still found. */
  method NegativeTimeoutIgnored(t: int) returns (r: Option<string>)
    ensures r == Some("v")
  {
    var m := new ExpireMapImpl<string, string>();
    m.Put("k", "v", 100, t);
    m.Put("k", "w", -1, t);
    ReapedStopsAtLiveHead(m.State(), t);
    r := m.Get("k", t);
  }

  /**
   Putting a new value under a key that has one replaces it: a lookup before
   either timeout has elapsed finds the second value.
   */
  method OverwriteReplacesValue(t1: int, g1: int, t2: int, g2: int) returns (r1: Option<string>, r2: Option<string>)
    requires t1 <= g1 < t1 + 10 && g1 <= t2 <= g2 < t2 + 8
    ensures r1 == Some("one") && r2 == Some("two")
  {
    var m := new ExpireMapImpl<string, string>();
    m.Put("k1", "one", 10, t1);
    ReapedStopsAtLiveHead(m.State(), g1);
    r1 := m.Get("k1", g1);
    ghost var s0 := m.State();
    ghost var s1 := Reaped(s0, t2);
    if s0.queue[0].RemainingLife(t2) > 0 {
      ReapedStopsAtLiveHead(s0, t2);
    } else {
      ReapedPollsDueHead(s0, t2);
      ReapedStopsAtLiveHead(DropHead(s0), t2);
    }
    m.Put("k1", "two", 8, t2);
    if s1.queue != [] {
      ReapedPollsDueHead(s1, t2);
      ReapedStopsAtLiveHead(DropHead(s1), t2);
    } else {
      ReapedStopsAtLiveHead(s1, t2);
    }
    ReapedStopsAtLiveHead(m.State(), g2);
    r2 := m.Get("k1", g2);
  }

  /**
   Three entries put at time `t` with falling timeouts: the first one put is
   at the head of the queue, and all three values are stored.
   */
  method PutWithFallingTimeouts(t: int) returns (m: ExpireMapImpl<string, string>)
    ensures fresh(m) && m.Valid()
    ensures m.expiryQueue != [] && m.expiryQueue[0].birth == t && m.expiryQueue[0].lifeSpan == 3000
    ensures m.valueMap == map["k1" := "one", "k2" := "two", "k3" := "three"]
  {
    m := PutBehindLiveEntry(t, "k1", "one", 3000, "k2", "two", 1500);
    ghost var s := m.State();
    ghost var head := m.expiryQueue[0];
    assert "k3" !in m.expirableKeys;
    ReapedStopsAtLiveHead(s, t);
    m.Put("k3", "three", 500, t);
    ReapedStopsAtLiveHead(s, t);
  }

  /**
   The entries above, looked up while the first is still live: the first is
   found, and so is the third even after its own timeout, because a reap
   never looks past a head that is not due.
   */
  method LiveHeadShieldsExpiredEntries(t: int, g: int) returns (r1: Option<string>, r3: Option<string>)
    requires t + 500 <= g < t + 3000
    ensures r1 == Some("one")
    ensures r3 == Some("three")
  {
    var m := PutWithFallingTimeouts(t);
    ReapedStopsAtLiveHead(m.State(), g);
    r1 := m.Get("k1", g);
    ReapedStopsAtLiveHead(m.State(), g);
    r3 := m.Get("k3", g);
  }

  /** A removed key is not found afterwards. */
  method RemovedNotRetrievable(t: int, tr: int, g: int) returns (r: Option<string>)
    requires t <= tr <= g
    ensures r == None
  {
    var m := new ExpireMapImpl<string, string>();
    m.Put("k1", "toBeRemoved", 10, t);
    m.Remove("k1", tr);
    ReapedRemovesOnlyDueKeys(m.State(), g);
    r := m.Get("k1", g);
  }

  /**
   Puts `k1` for `timeout1` milliseconds and then `k2` for `timeout2`, both
   at time `t`: the entry for `k1` is live at the head of the queue, with
   the token for `k2` behind it.
   */
  method PutBehindLiveEntry(t: int, k1: string, v1: string, timeout1: int, k2: string, v2: string, timeout2: int)
    returns (m: ExpireMapImpl<string, string>)
    requires k1 != k2 && timeout1 > 0 && timeout2 >= 0
    ensures fresh(m) && m.Valid()
    ensures |m.expiryQueue| == 2 && fresh(m.expiryQueue[1])
    ensures k1 in m.expirableKeys && m.expiryQueue[0] == m.expirableKeys[k1]
    ensures m.expiryQueue[0].birth == t && m.expiryQueue[0].lifeSpan == timeout1
    ensures k2 in m.expirableKeys && m.expiryQueue[1] == m.expirableKeys[k2]
    ensures m.expiryQueue[1].birth == t && m.expiryQueue[1].lifeSpan == timeout2
    ensures m.valueMap == map[k1 := v1, k2 := v2]
  {
    m := new ExpireMapImpl<string, string>();
    m.Put(k1, v1, timeout1, t);
    ghost var s := m.State();
    ghost var head := m.expirableKeys[k1];
    assert head.birth == t && k2 !in m.expirableKeys;
    ReapedStopsAtLiveHead(s, t);
    m.Put(k2, v2, timeout2, t);
    ReapedStopsAtLiveHead(s, t);
    assert m.expiryQueue == [head, m.expirableKeys[k2]];
  }

  /**
   A zero timeout does not make a value unreachable when an entry that is
   still live sits at the head of the queue: the reap stops there, and the
   zero-timeout value is found.
   */
  method ZeroTimeoutRetrievableBehindLiveHead(t: int) returns (r: Option<string>)
    ensures r == Some("v")
  {
    var m := PutBehindLiveEntry(t, "c", "x", 100, "k", "v", 0);
    ReapedStopsAtLiveHead(m.State(), t);
    r := m.Get("k", t);
  }

  /**
   Puts `"k"` a second time, one millisecond later: the first token for
   `"k"` is killed but stays in the queue between the live head and the
   second token.
   */
  method PutTwiceBehindLiveHead(t: int) returns (m: ExpireMapImpl<string, string>)
    ensures fresh(m) && m.Valid()
    ensures |m.expiryQueue| == 3
    ensures m.expiryQueue[0].key == "c" && m.expiryQueue[0].RemainingLife(t + 100) == 0
    ensures m.expiryQueue[1].key == "k" && m.expiryQueue[1].RemainingLife(t + 100) <= 0
    ensures m.expiryQueue[2].key == "k" && m.expiryQueue[2].RemainingLife(t + 100) == 1
    ensures m.valueMap == map["c" := "x", "k" := "v2"]
  {
    m := PutBehindLiveEntry(t, "c", "x", 100, "k", "v1", 100);
    ghost var s := m.State();
    ghost var head, first := m.expiryQueue[0], m.expiryQueue[1];
    assert head.key != first.key;
    ReapedStopsAtLiveHead(s, t + 1);
    m.Put("k", "v2", 100, t + 1);
    assert head.birth == t;
    ReapedStopsAtLiveHead(s, t + 1);
  }

  /**
   Reaping goes by key with no check of which token is tracking it: the
   killed first token for `"k"` comes due and evicts the value put second,
   whose own timeout has one millisecond left. This rests on the queue
   keeping first-in first-out order after the head is polled, so that the
   killed token comes next.
   */
  method StaleTokenEvictsNewerEntry(t: int) returns (r: Option<string>)
    ensures r == None
  {
    var m := PutTwiceBehindLiveHead(t);
    ghost var s := m.State();
    ReapedPollsDueHead(s, t + 100);
    ReapedPollsDueHead(DropHead(s), t + 100);
    ReapedStopsAtLiveHead(DropHead(DropHead(s)), t + 100);
    r := m.Get("k", t + 100);
  }
}
