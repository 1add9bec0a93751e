/** The exponential backoff: the sequence of delays an app without a stable run goes through. */
module Backoff {
  import opened Domain
  import opened Policy

  /** The delay before the k-th consecutive restart, counting from 1. */
  function Orbit(base: u64, k: nat): u64
    requires k >= 1
  {
    if k == 1 then base else NextBackoff(base, Orbit(base, k - 1))
  }

  ghost predicate InOrbit(base: u64, delay: u64) {
    delay == 0 || exists k: nat :: k >= 1 && Orbit(base, k) == delay
  }

  lemma NextStaysInOrbit(base: u64, prev: u64)
    requires InOrbit(base, prev)
    ensures InOrbit(base, NextBackoff(base, prev))
  {
    if prev == 0 {
      assert Orbit(base, 1) == base;
    } else {
      var k: nat :| k >= 1 && Orbit(base, k) == prev;
      assert Orbit(base, k + 1) == NextBackoff(base, prev);
    }
  }

  /** No delay exceeds the larger of the base and the cap. */
  lemma {:induction false} OrbitBounded(base: u64, k: nat)
    requires k >= 1
    ensures Orbit(base, k) <= base || Orbit(base, k) <= BACKOFF_CAP_MS
  {
    if k > 1 {
      OrbitBounded(base, k - 1);
    }
  }

  lemma NextGrows(base: u64, d: u64)
    requires 1 <= d <= BACKOFF_CAP_MS
    ensures d <= NextBackoff(base, d) <= BACKOFF_CAP_MS
  {
    assert WrappingMul(d, 3) == d * 3;
  }

  lemma {:induction false} OrbitInRange(base: u64, k: nat)
    requires 1 <= base <= BACKOFF_CAP_MS && k >= 1
    ensures base <= Orbit(base, k) <= BACKOFF_CAP_MS
  {
    if k > 1 {
      OrbitInRange(base, k - 1);
      NextGrows(base, Orbit(base, k - 1));
    }
  }

  /** With a base up to the cap, delays never shrink and never pass the cap. */
  lemma {:induction false} OrbitNondecreasing(base: u64, j: nat, k: nat)
    requires 1 <= base <= BACKOFF_CAP_MS && 1 <= j <= k
    ensures base <= Orbit(base, j) <= Orbit(base, k) <= BACKOFF_CAP_MS
    decreases k
  {
    OrbitInRange(base, j);
    if j < k {
      OrbitNondecreasing(base, j, k - 1);
      NextGrows(base, Orbit(base, k - 1));
    }
  }

  /** From a base of at least 2 every delay below the cap grows by at least a millisecond. */
  lemma {:induction false} OrbitGrows(base: u64, k: nat)
    requires 2 <= base <= BACKOFF_CAP_MS && k >= 1
    ensures Orbit(base, k) == BACKOFF_CAP_MS || Orbit(base, k) >= base + (k - 1)
    ensures 2 <= Orbit(base, k) <= BACKOFF_CAP_MS
  {
    if k > 1 {
      OrbitGrows(base, k - 1);
    }
  }

  /** So the delays reach the cap exactly, and stay there. */
  lemma OrbitReachesCap(base: u64, k: nat)
    requires 2 <= base <= BACKOFF_CAP_MS && k >= BACKOFF_CAP_MS
    ensures Orbit(base, k) == BACKOFF_CAP_MS
  {
    OrbitGrows(base, k);
  }

  /** A base of 1 never grows: 3/2 rounds down to 1. */
  lemma {:induction false} OrbitOfOne(k: nat)
    requires k >= 1
    ensures Orbit(1, k) == 1
  {
    if k > 1 {
      OrbitOfOne(k - 1);
    }
  }

  // ----- bases above the cap, the wrapping ones included

  /** The delay that follows a base above the cap, before the cap is applied. */
  function Grown(base: u64): u64 {
    WrappingMul(base, 3) / 2
  }

  /** A base above the cap whose wrapped growth still reaches it is used once; then the delay is the cap. */
  lemma {:induction false} OrbitAboveCap(base: u64, k: nat)
    requires base > BACKOFF_CAP_MS && Grown(base) >= BACKOFF_CAP_MS && k >= 2
    ensures Orbit(base, k) == BACKOFF_CAP_MS
  {
    if k == 2 {
      assert Orbit(base, 1) == base;
    } else {
      OrbitAboveCap(base, k - 1);
    }
  }

  /** Used once, then the cap for ever: exactly when three times the base, wrapped, reaches twice the cap. */
  lemma UsedOnceIff(base: u64)
    requires base > BACKOFF_CAP_MS
    ensures (forall k: nat :: k >= 2 ==> Orbit(base, k) == 15000) <==> (base * 3) % U64 >= 30000
  {
    assert Orbit(base, 1) == base;
    if Grown(base) >= BACKOFF_CAP_MS {
      forall k: nat | k >= 2 ensures Orbit(base, k) == BACKOFF_CAP_MS {
        OrbitAboveCap(base, k);
      }
    } else {
      assert Orbit(base, 2) == Grown(base);
    }
  }

  /** A nonzero delay is all the orbit remembers: from there on it is that delay's own orbit. */
  lemma {:induction false} OrbitGoesOn(base: u64, k: nat)
    requires k >= 1 && 1 <= Orbit(base, 2) <= BACKOFF_CAP_MS
    ensures Orbit(base, k + 1) == Orbit(Orbit(base, 2), k)
    decreases k
  {
    var d := Orbit(base, 2);
    if k > 1 {
      OrbitGoesOn(base, k - 1);
      OrbitInRange(d, k - 1);
    }
  }

  /** Growth that wraps to nothing: the app restarts at once every second time. */
  lemma {:induction false} OrbitAlternates(base: u64, k: nat)
    requires base > BACKOFF_CAP_MS && Grown(base) == 0 && k >= 1
    ensures Orbit(base, k) == if k % 2 == 1 then base else 0
  {
    if k > 1 {
      OrbitAlternates(base, k - 1);
    }
  }

  lemma SettlesAtCap(base: u64) returns (k: nat)
    requires 2 <= base <= BACKOFF_CAP_MS || (base > BACKOFF_CAP_MS && Grown(base) >= 2)
    ensures k >= 1 && Orbit(base, k) == BACKOFF_CAP_MS
  {
    k := BACKOFF_CAP_MS;
    if base <= BACKOFF_CAP_MS {
      OrbitReachesCap(base, k);
    } else {
      assert Orbit(base, 1) == base;
      OrbitGoesOn(base, k);
      OrbitReachesCap(Orbit(base, 2), k);
      k := k + 1;
    }
  }

  lemma NeverAtCap(base: u64, k: nat)
    requires k >= 1 && (base == 1 || (base > BACKOFF_CAP_MS && Grown(base) <= 1))
    ensures Orbit(base, k) != BACKOFF_CAP_MS
  {
    if base == 1 {
      OrbitOfOne(k);
    } else if Grown(base) == 0 {
      OrbitAlternates(base, k);
    } else if k > 1 {
      assert Orbit(base, 1) == base;
      OrbitGoesOn(base, k - 1);
      OrbitOfOne(k - 1);
    }
  }

  /** Which bases ever wait for the cap: 2 up to the cap, and above it those whose wrapped growth is
      neither 0 nor 1. */
  lemma ReachesCapIff(base: u64)
    requires base >= 1
    ensures (exists k: nat :: k >= 1 && Orbit(base, k) == 15000) <==>
            (if base <= 15000 then base != 1 else ((base * 3) % U64) / 2 !in {0, 1})
  {
    if base == 1 || (base > BACKOFF_CAP_MS && Grown(base) <= 1) {
      forall k: nat | k >= 1 ensures Orbit(base, k) != BACKOFF_CAP_MS {
        NeverAtCap(base, k);
      }
    } else {
      var k := SettlesAtCap(base);
    }
  }

  /** An overflow can cost the wait altogether: three times this base wraps to 1, and the second restart
      is immediate. */
  lemma OverflowingBaseRestartsAtOnce()
    ensures exists base: u64 :: base > BACKOFF_CAP_MS && Orbit(base, 2) == 0
  {
    var base: u64 := 12297829382473034411;
    assert Orbit(base, 1) == base;
    assert Orbit(base, 2) == 0;
  }
}
