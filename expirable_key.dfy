/**
 The expiry token of the map: a key together with the time it was born and the
 number of milliseconds it is allowed to live. The clock is explicit: every
 operation that would read the system clock takes the current time `now`
 (milliseconds) as a parameter instead.
 */
module ExpirableKeys {

  const MinInt32: int := -0x8000_0000
  const MaxInt32: int := 0x7FFF_FFFF

  /** Two's-complement wrap-around of a Java `int` computation. */
  function WrapInt32(x: int): (r: int)
    ensures MinInt32 <= r <= MaxInt32
    ensures (r - x) % 0x1_0000_0000 == 0
    ensures MinInt32 <= x <= MaxInt32 ==> r == x
  {
    (x - MinInt32) % 0x1_0000_0000 + MinInt32
  }

  /** `Long.compare`: the sign of the result orders `x` against `y`. */
  function LongCompare(x: int, y: int): (r: int)
    ensures r < 0 <==> x < y
    ensures r == 0 <==> x == y
    ensures r > 0 <==> x > y
    ensures -1 <= r <= 1
  {
    if x < y then -1 else if x == y then 0 else 1
  }

  class ExpirableKey<K(==)> {
    /** Milliseconds of clock time at which the token started to live; `Die` moves it into the past. */
    var birth: int
    const lifeSpan: int
    const key: K

    /** A token born at `now` has exactly its whole life span left. */
    constructor (key: K, lifeSpan: int, now: int)
      ensures this.key == key && this.lifeSpan == lifeSpan && birth == now
      ensures RemainingLife(now) == lifeSpan
    {
      this.key := key;
      this.lifeSpan := lifeSpan;
      this.birth := now;
    }

    /** Milliseconds this token has left to live at time `now`; zero or less means due. */
    function RemainingLife(now: int): (life: int)
      reads this
      ensures life <= 0 <==> birth + lifeSpan <= now
    {
      (birth + lifeSpan) - now
    }

    /** The `Delayed` view of the token, in milliseconds: the delay is the remaining life. */
    function GetDelay(now: int): (delay: int)
      reads this
      ensures delay == RemainingLife(now)
      ensures delay <= 0 <==> now >= birth + lifeSpan
    {
      RemainingLife(now)
    }

    /**
     Kills the token: its birth goes back twice its life span before `now`, so
     from `now` on it has at least its life span overdue. The new birth does
     not depend on the old one, so a second kill at the same time changes nothing.
     */
    method Die(now: int)
      modifies this
      ensures birth == now - lifeSpan * 2
      ensures forall t :: t >= now ==> RemainingLife(t) == -lifeSpan - (t - now)
      ensures lifeSpan >= 0 ==> forall t :: t >= now ==> RemainingLife(t) <= 0
    {
      birth := now - lifeSpan * 2;
    }

    /**
     The comparison as written: both delays are read from the receiver, so
     `other` plays no part in the result.
     */
    function CompareTo(other: ExpirableKey<K>, now: int): (r: int)
      reads this
      ensures r == 0
    {
      var myDelay := GetDelay(now);
      var itsDelay := GetDelay(now);
      LongCompare(myDelay, itsDelay)
    }

    /** Tokens are equal exactly when their keys are, whatever their births and life spans. */
    predicate Equals(other: ExpirableKey<K>)
    {
      key == other.key
    }

    /**
     `hashCode`: `11 * 3 + hash(key)` in 32-bit arithmetic, where `keyHash`
     stands for `Objects.hashCode` on keys.
     */
    function HashCode(keyHash: K -> int): (h: int)
      ensures MinInt32 <= h <= MaxInt32
      ensures (h - 33 - keyHash(key)) % 0x1_0000_0000 == 0
    {
      WrapInt32(11 * 3 + keyHash(key))
    }
  }

  /** Remaining life falls by exactly the milliseconds that pass. */
  lemma RemainingLifeElapses<K>(token: ExpirableKey<K>, t1: int, t2: int)
    ensures token.RemainingLife(t2) == token.RemainingLife(t1) - (t2 - t1)
  {
  }

  /**
   The comparison never reports an order: even when `a` has strictly less life
   left than `b`, which the documentation says gives a negative result, it gives 0.
   */
  lemma CompareToIgnoresOperand<K>(a: ExpirableKey<K>, b: ExpirableKey<K>, now: int)
    requires a.RemainingLife(now) < b.RemainingLife(now)
    ensures a.CompareTo(b, now) == 0 && b.CompareTo(a, now) == 0
  {
  }

  /** Equality on tokens is an equivalence that ignores birth and life span. */
  lemma EqualsIsKeyEquivalence<K>(a: ExpirableKey<K>, b: ExpirableKey<K>, c: ExpirableKey<K>)
    ensures a.Equals(a)
    ensures a.Equals(b) <==> a.key == b.key
    ensures a.Equals(b) ==> b.Equals(a)
    ensures a.Equals(b) && b.Equals(c) ==> a.Equals(c)
  {
  }

  /** Equal tokens hash equally, whatever their births and life spans. */
  lemma EqualTokensHashEqually<K>(a: ExpirableKey<K>, b: ExpirableKey<K>, keyHash: K -> int)
    requires a.Equals(b)
    ensures a.HashCode(keyHash) == b.HashCode(keyHash)
  {
  }
}
