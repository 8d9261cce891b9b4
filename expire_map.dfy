/**
 The lazy-expiry map. Three structures live side by side: the values by key,
 the token currently tracking each key, and the expiry queue of token
 references. Expired entries are removed only when an operation reaps the
 queue: it polls the head while the head is due and deletes the polled
 token's key from both maps.
 */
module ExpireMaps {
  import opened ExpirableKeys

  datatype Option<T> = None | Some(value: T)

  /** A snapshot of the three structures of the map. */
  datatype Store<K(==), V> = Store(values: map<K, V>, tokens: map<K, ExpirableKey<K>>, queue: seq<ExpirableKey<K>>)

  /**
   The agreement the map keeps between its structures: the two maps have the
   same keys, each tracked token tracks its own key and is held by reference in
   the queue, and no token in the queue has a negative life span.
   */
  ghost predicate Consistent<K, V>(s: Store<K, V>)
  {
    && s.values.Keys == s.tokens.Keys
    && (forall k | k in s.tokens :: s.tokens[k].key == k && s.tokens[k] in s.queue)
    && (forall i | 0 <= i < |s.queue| :: s.queue[i].lifeSpan >= 0)
  }

  /** The keys of the tokens in `q`. */
  ghost function KeysOf<K>(q: seq<ExpirableKey<K>>): set<K>
  {
    set i | 0 <= i < |q| :: q[i].key
  }

  /** The tokens of `q` that are due at `now`: those with no life left. */
  ghost function DueAt<K>(q: seq<ExpirableKey<K>>, now: int): set<ExpirableKey<K>>
    reads q
  {
    set t | t in q && t.RemainingLife(now) <= 0
  }

  /**
   How many tokens a drain of the tokens in `due` polls: the length of the
   longest run of such tokens at the head of the queue.
   */
  function DueRun<K>(q: seq<ExpirableKey<K>>, due: set<ExpirableKey<K>>): (n: nat)
    ensures n <= |q|
    ensures forall i | 0 <= i < n :: q[i] in due
    ensures n == |q| || q[n] !in due
  {
    if q != [] && q[0] in due then 1 + DueRun(q[1..], due) else 0
  }

  /** One poll of a due head: its key leaves both maps, whichever token each entry is tracked by. */
  function DropHead<K, V>(s: Store<K, V>): Store<K, V>
    requires s.queue != []
  {
    var k := s.queue[0].key;
    Store(s.values - {k}, s.tokens - {k}, s.queue[1..])
  }

  /** Polls and drops the head while it is one of the `due` tokens. */
  function Drain<K, V>(s: Store<K, V>, due: set<ExpirableKey<K>>): Store<K, V>
    decreases |s.queue|
  {
    if s.queue != [] && s.queue[0] in due then Drain(DropHead(s), due) else s
  }

  /** The state after a reap at `now`: due heads are polled and dropped until the head is not due. */
  ghost function Reaped<K, V>(s: Store<K, V>, now: int): Store<K, V>
    reads s.queue
  {
    Drain(s, DueAt(s.queue, now))
  }

  /** The key of a token among the first `n` of the queue is among their keys. */
  lemma KeyOfPrefix<K>(q: seq<ExpirableKey<K>>, n: nat, i: nat)
    ensures i < n <= |q| ==> q[i].key in KeysOf(q[..n])
  {
    if i < n <= |q| {
      assert q[..n][i] == q[i];
    }
  }

  /** The keys of the first `1 + m` tokens: the head's key and the keys of the next `m`. */
  lemma KeysOfCons<K>(q: seq<ExpirableKey<K>>, m: nat)
    requires 1 + m <= |q|
    ensures KeysOf(q[..1 + m]) == {q[0].key} + KeysOf(q[1..][..m])
  {
    var a, b := q[..1 + m], q[1..][..m];
    forall x | x in KeysOf(a)
      ensures x in {q[0].key} + KeysOf(b)
    {
      var i :| 0 <= i < |a| && a[i].key == x;
      if i > 0 {
        assert b[i - 1] == a[i];
      }
    }
    forall x | x in {q[0].key} + KeysOf(b)
      ensures x in KeysOf(a)
    {
      if x == q[0].key {
        assert a[0] == q[0];
      } else {
        var i :| 0 <= i < |b| && b[i].key == x;
        assert a[i + 1] == b[i];
      }
    }
  }

  /** Removing one key and then a set of keys removes their union. */
  lemma MinusUnion<K, U>(m: map<K, U>, k: K, gone: set<K>)
    ensures (m - {k}) - gone == m - ({k} + gone)
  {
  }

  /** A drain keeps the structures consistent. */
  lemma {:induction false} DrainConsistent<K, V>(s: Store<K, V>, due: set<ExpirableKey<K>>)
    requires Consistent(s)
    ensures Consistent(Drain(s, due))
    decreases |s.queue|
  {
    if s.queue != [] && s.queue[0] in due {
      var d := DropHead(s);
      forall k | k in d.tokens
        ensures d.tokens[k] in d.queue
      {
        var i :| 0 <= i < |s.queue| && s.queue[i] == s.tokens[k];
        assert i != 0;
        assert d.queue[i - 1] == s.tokens[k];
      }
      DrainConsistent(d, due);
    }
  }

  /**
   The closed form of a drain: it polls exactly the due run at the head of
   the queue, and removes the key of every polled token from both maps.
   */
  lemma {:induction false} DrainClosedForm<K, V>(s: Store<K, V>, due: set<ExpirableKey<K>>)
    ensures var n := DueRun(s.queue, due);
      var gone := KeysOf(s.queue[..n]);
      Drain(s, due) == Store(s.values - gone, s.tokens - gone, s.queue[n..])
    decreases |s.queue|
  {
    var q := s.queue;
    if q != [] && q[0] in due {
      var d := DropHead(s);
      DrainClosedForm(d, due);
      var m := DueRun(q[1..], due);
      assert DueRun(q, due) == 1 + m;
      var gone := KeysOf(q[1..][..m]);
      assert q[1 + m..] == q[1..][m..];
      KeysOfCons(q, m);
      MinusUnion(s.values, q[0].key, gone);
      MinusUnion(s.tokens, q[0].key, gone);
    } else {
      assert q[..0] == [];
    }
  }

  /**
   A drain never adds or changes an entry; every key it removes is the key of
   a polled token, every polled token was due, and it stops at an empty queue
   or at a head that is not due.
   */
  lemma DrainRemovesOnlyDueKeys<K, V>(s: Store<K, V>, due: set<ExpirableKey<K>>)
    ensures var r := Drain(s, due);
      var n := |s.queue| - |r.queue|;
      && 0 <= n
      && r.queue == s.queue[n..]
      && (forall i | 0 <= i < n :: s.queue[i] in due)
      && (r.queue == [] || r.queue[0] !in due)
      && (forall k | k in r.values :: k in s.values && r.values[k] == s.values[k])
      && (forall k | k in r.tokens :: k in s.tokens && r.tokens[k] == s.tokens[k])
      && (forall k | k in s.values && k !in r.values :: k in KeysOf(s.queue[..n]))
  {
    DrainClosedForm(s, due);
  }

  /** Re-setting `k` after removing a set of keys undoes any earlier setting of `k`. */
  lemma MinusUpdate<K, U>(m: map<K, U>, k: K, u: U, gone: set<K>)
    ensures (m[k := u] - gone)[k := u] == (m - gone)[k := u]
  {
  }

  /**
   The token tracking a key plays no part in a drain: re-tracking `k` after a
   drain gives the same state whichever token tracked it before.
   */
  lemma DrainIgnoresTracking<K, V>(s: Store<K, V>, due: set<ExpirableKey<K>>, k: K, token: ExpirableKey<K>)
    ensures var r := Drain(s, due);
      var r' := Drain(Store(s.values, s.tokens[k := token], s.queue), due);
      r'.values == r.values && r'.queue == r.queue && r'.tokens[k := token] == r.tokens[k := token]
  {
    DrainClosedForm(s, due);
    DrainClosedForm(Store(s.values, s.tokens[k := token], s.queue), due);
    MinusUpdate(s.tokens, k, token, KeysOf(s.queue[..DueRun(s.queue, due)]));
  }

  /** Tracking a key by a new token at the back of the queue keeps the structures consistent. */
  lemma Install<K, V>(s: Store<K, V>, k: K, v: V, token: ExpirableKey<K>)
    requires Consistent(s) && token.key == k && token.lifeSpan >= 0
    ensures Consistent(Store(s.values[k := v], s.tokens[k := token], s.queue + [token]))
  {
    var r := Store(s.values[k := v], s.tokens[k := token], s.queue + [token]);
    forall k' | k' in r.tokens
      ensures r.tokens[k'] in r.queue
    {
      if k' != k {
        var i :| 0 <= i < |s.queue| && s.queue[i] == s.tokens[k'];
        assert r.queue[i] == s.tokens[k'];
      } else {
        assert r.queue[|s.queue|] == token;
      }
    }
  }

  /**
   A reap at `now` polls only due tokens, never adds or changes an entry,
   removes only keys of polled tokens, and leaves an empty queue or a head
   that is not due.
   */
  lemma ReapedRemovesOnlyDueKeys<K, V>(s: Store<K, V>, now: int)
    ensures var r := Reaped(s, now);
      var n := |s.queue| - |r.queue|;
      && 0 <= n
      && r.queue == s.queue[n..]
      && (forall i | 0 <= i < n :: s.queue[i].RemainingLife(now) <= 0)
      && (r.queue == [] || r.queue[0].RemainingLife(now) > 0)
      && (forall k | k in r.values :: k in s.values && r.values[k] == s.values[k])
      && (forall k | k in r.tokens :: k in s.tokens && r.tokens[k] == s.tokens[k])
      && (forall k | k in s.values && k !in r.values :: k in KeysOf(s.queue[..n]))
  {
    DrainRemovesOnlyDueKeys(s, DueAt(s.queue, now));
  }

  /** A drain looks at a token only through its membership in `due`, and only at tokens in the queue. */
  lemma {:induction false} DrainSeesOnlyQueue<K, V>(s: Store<K, V>, due1: set<ExpirableKey<K>>, due2: set<ExpirableKey<K>>)
    requires forall t | t in s.queue :: t in due1 <==> t in due2
    ensures Drain(s, due1) == Drain(s, due2)
    decreases |s.queue|
  {
    if s.queue != [] && s.queue[0] in due1 {
      var d := DropHead(s);
      forall t | t in d.queue
        ensures t in due1 <==> t in due2
      {
        assert t in s.queue;
      }
      DrainSeesOnlyQueue(d, due1, due2);
    }
  }

  /** A reap leaves the state as it is when the queue is empty or its head is not due. */
  lemma ReapedStopsAtLiveHead<K, V>(s: Store<K, V>, now: int)
    requires s.queue == [] || s.queue[0].RemainingLife(now) > 0
    ensures Reaped(s, now) == s
  {
    assert s.queue == [] || s.queue[0] !in DueAt(s.queue, now);
  }

  /** A reap whose head is due polls it, drops its key, and goes on reaping the rest. */
  lemma ReapedPollsDueHead<K, V>(s: Store<K, V>, now: int)
    requires s.queue != [] && s.queue[0].RemainingLife(now) <= 0
    ensures Reaped(s, now) == Reaped(DropHead(s), now)
  {
    var d := DropHead(s);
    forall t | t in d.queue
      ensures t in DueAt(s.queue, now) <==> t in DueAt(d.queue, now)
    {
      assert t in s.queue;
    }
    DrainSeesOnlyQueue(d, DueAt(s.queue, now), DueAt(d.queue, now));
  }

  /** A second reap at the same time finds nothing to do. */
  lemma ReapedIsIdempotent<K, V>(s: Store<K, V>, now: int)
    ensures Reaped(Reaped(s, now), now) == Reaped(s, now)
  {
    ReapedRemovesOnlyDueKeys(s, now);
  }

  /** A due run of length `n` at the head is drained in full. */
  lemma {:induction false} DueRunAtLeast<K>(q: seq<ExpirableKey<K>>, due: set<ExpirableKey<K>>, n: nat)
    requires n <= |q| && forall j | 0 <= j < n :: q[j] in due
    ensures DueRun(q, due) >= n
  {
    if n > 0 {
      DueRunAtLeast(q[1..], due, n - 1);
    }
  }

  /**
   The drain goes by key alone: the key of a drained token leaves both maps
   even when a different, newer token is the one tracking that key.
   */
  lemma ReapEvictsByKeyOnly<K, V>(s: Store<K, V>, now: int, i: nat)
    requires i < |s.queue| && forall j | 0 <= j <= i :: s.queue[j].RemainingLife(now) <= 0
    ensures s.queue[i].key !in Reaped(s, now).values
    ensures s.queue[i].key !in Reaped(s, now).tokens
  {
    var due := DueAt(s.queue, now);
    DueRunAtLeast(s.queue, due, i + 1);
    DrainClosedForm(s, due);
    KeyOfPrefix(s.queue, DueRun(s.queue, due), i);
  }

  /** An entry whose token has reached the head of the queue and is due is no longer retrievable. */
  lemma ExpiredHeadIsEvicted<K, V>(s: Store<K, V>, now: int)
    requires s.queue != [] && s.queue[0].RemainingLife(now) <= 0
    ensures s.queue[0].key !in Reaped(s, now).values
  {
    ReapEvictsByKeyOnly(s, now, 0);
  }

  class ExpireMapImpl<K(==), V> {
    var valueMap: map<K, V>
    var expirableKeys: map<K, ExpirableKey<K>>
    var expiryQueue: seq<ExpirableKey<K>>

    function State(): Store<K, V>
      reads this
    {
      Store(valueMap, expirableKeys, expiryQueue)
    }

    ghost predicate Valid()
      reads this
    {
      Consistent(State())
    }

    constructor ()
      ensures Valid()
      ensures valueMap == map[] && expirableKeys == map[] && expiryQueue == []
    {
      valueMap := map[];
      expirableKeys := map[];
      expiryQueue := [];
    }

    /**
     `DelayQueue.poll`: the head comes out only if it is due; otherwise nothing
     comes out and the queue is left as it is.
     */
    method Poll(now: int) returns (head: Option<ExpirableKey<K>>)
      modifies this
      ensures valueMap == old(valueMap) && expirableKeys == old(expirableKeys)
      ensures if old(expiryQueue) != [] && old(expiryQueue)[0].RemainingLife(now) <= 0
              then head == Some(old(expiryQueue)[0]) && expiryQueue == old(expiryQueue)[1..]
              else head == None && expiryQueue == old(expiryQueue)
    {
      if expiryQueue != [] && expiryQueue[0].RemainingLife(now) <= 0 {
        head := Some(expiryQueue[0]);
        expiryQueue := expiryQueue[1..];
      } else {
        head := None;
      }
    }

    /**
     Reaps the queue: polls until nothing is due, dropping each polled key
     from both maps. Afterwards the queue is empty or its head is not due.
     */
    method ClearOldKeysFromExpiryQueue(now: int)
      modifies this
      ensures State() == old(Reaped(State(), now))
      ensures expiryQueue == [] || expiryQueue[0].RemainingLife(now) > 0
      ensures |expiryQueue| <= |old(expiryQueue)|
      ensures expiryQueue == old(expiryQueue)[|old(expiryQueue)| - |expiryQueue|..]
    {
      ghost var q0 := expiryQueue;
      ghost var due := DueAt(expiryQueue, now);
      ghost var target := Drain(State(), due);
      var expired := Poll(now);
      ghost var polled := if expired.Some? then 1 else 0;
      while expired.Some?
        invariant polled <= |q0| && expiryQueue == q0[polled..]
        invariant expired.None? ==> State() == target
        invariant expired.None? ==> expiryQueue == [] || expiryQueue[0].RemainingLife(now) > 0
        invariant expired.Some? ==>
          var k := expired.value.key;
          Drain(Store(valueMap - {k}, expirableKeys - {k}, expiryQueue), due) == target
        decreases |expiryQueue| + if expired.Some? then 1 else 0
      {
        valueMap := valueMap - {expired.value.key};
        expirableKeys := expirableKeys - {expired.value.key};
        expired := Poll(now);
        polled := polled + if expired.Some? then 1 else 0;
      }
    }

    /**
     The middle of `put`, on a reaped queue: the key is tracked by `token`; a
     token that was tracking it before is killed, the queue reaped again, and
     the key tracked by `token` once more.
     */
    method ReplaceToken(key: K, token: ExpirableKey<K>, now: int)
      requires Valid()
      requires expiryQueue == [] || expiryQueue[0].RemainingLife(now) > 0
      modifies this, if key in expirableKeys then {expirableKeys[key]} else {}
      ensures var s := old(State());
        && Consistent(Reaped(s, now))
        && State() == Store(Reaped(s, now).values, Reaped(s, now).tokens[key := token], Reaped(s, now).queue)
        && (key in s.tokens ==> s.tokens[key].birth == now - 2 * s.tokens[key].lifeSpan)
    {
      ghost var s1 := State();
      var prevKey := if key in expirableKeys then Some(expirableKeys[key]) else None;
      expirableKeys := expirableKeys[key := token];
      if prevKey.Some? {
        prevKey.value.Die(now);
        ghost var due := DueAt(s1.queue, now);
        ghost var s2 := Drain(s1, due);
        label Killed:
        DrainIgnoresTracking(s1, due, key, token);
        DrainConsistent(s1, due);
        ClearOldKeysFromExpiryQueue(now);
        expirableKeys := expirableKeys[key := token];
        assert State() == Store(s2.values, s2.tokens[key := token], s2.queue);
        assert forall t | t in s1.queue :: t.birth == old@Killed(t.birth);
        assert DueAt(s1.queue, now) == due;
      } else {
        assert s1.queue == [] || s1.queue[0] !in DueAt(s1.queue, now);
      }
    }

    /**
     The rest of `put`, on a reaped queue: `token` takes over tracking `key`
     as `ReplaceToken` does, then joins the back of the queue, and `value` is
     stored under `key`.
     */
    method TrackAndStore(key: K, value: V, token: ExpirableKey<K>, now: int)
      requires Valid()
      requires expiryQueue == [] || expiryQueue[0].RemainingLife(now) > 0
      requires token.key == key && token.lifeSpan >= 0
      requires key in expirableKeys ==> expirableKeys[key] != token
      modifies this, if key in expirableKeys then {expirableKeys[key]} else {}
      ensures token.birth == old(token.birth)
      ensures Valid()
      ensures var s := old(State());
        var r := Reaped(s, now);
        && State() == Store(r.values[key := value], r.tokens[key := token], r.queue + [token])
        && (key in s.tokens ==> s.tokens[key].birth == now - 2 * s.tokens[key].lifeSpan)
    {
      ghost var s1 := State();
      ReplaceToken(key, token, now);
      ghost var s2 := Reaped(s1, now);
      label Offer:
      expiryQueue := expiryQueue + [token];
      valueMap := valueMap[key := value];
      assert s2 == Reaped(s1, now);
      assert State() == Store(s2.values[key := value], s2.tokens[key := token], s2.queue + [token]);
      Install(s2, key, value, token);
    }

    /**
     Stores `value` under `key` for `timeoutMs` milliseconds. A negative
     timeout leaves everything as it was. Otherwise, after a reap, a fresh
     token tracks the key; a token that was tracking it is killed and the
     queue reaped again; the new token goes to the back of the queue and the
     value is stored.
     */
    method Put(key: K, value: V, timeoutMs: int, now: int)
      requires Valid()
      modifies this, if key in expirableKeys then {expirableKeys[key]} else {}
      ensures Valid()
      ensures timeoutMs < 0 ==> State() == old(State())
      ensures timeoutMs >= 0 ==>
        var s1 := old(Reaped(State(), now));
        var s2 := Reaped(s1, now);
        && key in expirableKeys
        && var token := expirableKeys[key];
        && fresh(token) && token.key == key && token.lifeSpan == timeoutMs && token.birth == now
        && State() == Store(s2.values[key := value], s2.tokens[key := token], s2.queue + [token])
        && (key in s1.tokens ==> s1.tokens[key].birth == now - 2 * s1.tokens[key].lifeSpan)
      ensures key in old(expirableKeys) && (timeoutMs < 0 || key !in old(Reaped(State(), now)).tokens) ==>
        unchanged(old(expirableKeys)[key])
    {
      if timeoutMs < 0 {
        return;
      }
      DrainConsistent(State(), DueAt(expiryQueue, now));
      ReapedRemovesOnlyDueKeys(State(), now);
      ClearOldKeysFromExpiryQueue(now);
      var expirableKey := new ExpirableKey(key, timeoutMs, now);
      assert key in expirableKeys ==> expirableKeys[key] != expirableKey;
      TrackAndStore(key, value, expirableKey, now);
    }

    /** Reaps the queue, then looks `key` up. */
    method Get(key: K, now: int) returns (r: Option<V>)
      requires Valid()
      modifies this
      ensures Valid()
      ensures State() == old(Reaped(State(), now))
      ensures r == if key in valueMap then Some(valueMap[key]) else None
    {
      DrainConsistent(State(), DueAt(expiryQueue, now));
      ClearOldKeysFromExpiryQueue(now);
      r := if key in valueMap then Some(valueMap[key]) else None;
    }

    /**
     Removes `key` from both maps; if a token was tracking it, kills that
     token and reaps the queue.
     */
    method Remove(key: K, now: int)
      requires Valid()
      modifies this, if key in expirableKeys then {expirableKeys[key]} else {}
      ensures Valid()
      ensures key !in valueMap && key !in expirableKeys
      ensures var s1 := Store(old(valueMap) - {key}, old(expirableKeys) - {key}, old(expiryQueue));
        if key in old(expirableKeys)
        then old(expirableKeys)[key].birth == now - 2 * old(expirableKeys)[key].lifeSpan && State() == Reaped(s1, now)
        else State() == s1
    {
      valueMap := valueMap - {key};
      var keyToKill := if key in expirableKeys then Some(expirableKeys[key]) else None;
      expirableKeys := expirableKeys - {key};
      ghost var s1 := State();
      assert Consistent(s1);
      if keyToKill.Some? {
        keyToKill.value.Die(now);
        DrainConsistent(s1, DueAt(s1.queue, now));
        ReapedRemovesOnlyDueKeys(s1, now);
        ClearOldKeysFromExpiryQueue(now);
      }
    }

    /** The number of entries, which is also the number of tracked tokens. */
    function Size(): (n: nat)
      reads this
      requires Valid()
      ensures n == |valueMap| && n == |expirableKeys|
    {
      assert valueMap.Keys == expirableKeys.Keys;
      |valueMap|
    }
  }
}
