/** The health-check loop: consecutive failures of an online app restart it. */
module Health {

  /** What one round of the loop sees. */
  datatype Observation = Offline | Healthy | Failing

  /** The length of the run of failures at the start. */
  function LeadingFails(obs: seq<Observation>): (n: nat)
    ensures n <= |obs|
    ensures forall k :: 0 <= k < n ==> obs[k] == Failing
    ensures n < |obs| ==> obs[n] != Failing
  {
    if obs == [] || obs[0] != Failing then 0 else 1 + LeadingFails(obs[1..])
  }

  /** How often a run of `n` failures reaches the limit. */
  function Reached(n: nat, maxFails: nat): nat
    requires maxFails >= 1
  {
    n / maxFails
  }

  /** The sum, over the maximal runs of consecutive failures, of how often each run reaches the limit. */
  function RestartsOwed(obs: seq<Observation>, maxFails: nat): nat
    requires maxFails >= 1
    decreases |obs|
  {
    var n := LeadingFails(obs);
    if n == |obs| then Reached(n, maxFails)
    else Reached(n, maxFails) + RestartsOwed(obs[n + 1..], maxFails)
  }

  lemma LeadingFailsAfter(prefix: seq<Observation>, o: Observation)
    ensures LeadingFails(prefix) == |prefix| && o == Failing ==> LeadingFails(prefix + [o]) == |prefix| + 1
    ensures LeadingFails(prefix) == |prefix| && o != Failing ==> LeadingFails(prefix + [o]) == |prefix|
    ensures LeadingFails(prefix) < |prefix| ==> LeadingFails(prefix + [o]) == LeadingFails(prefix)
    decreases |prefix|
  {
    if prefix != [] {
      assert (prefix + [o])[1..] == prefix[1..] + [o];
      LeadingFailsAfter(prefix[1..], o);
    }
  }

  /** The length of the run of failures at the end. */
  function TrailingFails(obs: seq<Observation>): (n: nat)
    ensures n <= |obs|
  {
    if obs == [] || obs[|obs| - 1] != Failing then 0 else 1 + TrailingFails(obs[..|obs| - 1])
  }

  lemma {:induction false} AllFailing(obs: seq<Observation>)
    requires LeadingFails(obs) == |obs|
    ensures TrailingFails(obs) == |obs|
    decreases |obs|
  {
    if obs != [] {
      var init := obs[..|obs| - 1];
      assert obs == init + [obs[|obs| - 1]];
      LeadingFailsAfter(init, obs[|obs| - 1]);
      AllFailing(init);
    }
  }

  lemma {:induction false} TrailingOfSuffix(obs: seq<Observation>, n: nat)
    requires n < |obs| && obs[n] != Failing
    ensures TrailingFails(obs) == TrailingFails(obs[n + 1..])
    decreases |obs|
  {
    if n + 1 < |obs| && obs[|obs| - 1] == Failing {
      TrailingOfSuffix(obs[..|obs| - 1], n);
      assert obs[..|obs| - 1][n + 1..] == obs[n + 1..][..|obs[n + 1..]| - 1];
    } else if n + 1 == |obs| {
      assert obs[n + 1..] == [];
    }
  }

  /** Whether one more failure after `trailing` of them completes a multiple of the limit. */
  predicate Completes(trailing: nat, o: Observation, maxFails: nat)
    requires maxFails >= 1
  {
    o == Failing && (trailing + 1) % maxFails == 0
  }

  lemma OwedAfterOneRun(obs: seq<Observation>, o: Observation, maxFails: nat)
    requires maxFails >= 1 && LeadingFails(obs) == |obs|
    ensures RestartsOwed(obs + [o], maxFails) ==
            RestartsOwed(obs, maxFails) + if Completes(|obs|, o, maxFails) then 1 else 0
  {
    LeadingFailsAfter(obs, o);
    if o != Failing {
      assert (obs + [o])[|obs| + 1..] == [];
    } else {
      DivStep(|obs|, maxFails);
    }
  }

  lemma OwedAfterLaterRun(obs: seq<Observation>, o: Observation, maxFails: nat)
    requires maxFails >= 1 && LeadingFails(obs) < |obs|
    ensures var n := LeadingFails(obs);
      RestartsOwed(obs + [o], maxFails) - RestartsOwed(obs, maxFails) ==
      RestartsOwed(obs[n + 1..] + [o], maxFails) - RestartsOwed(obs[n + 1..], maxFails)
  {
    LeadingFailsAfter(obs, o);
    var n := LeadingFails(obs);
    assert (obs + [o])[n + 1..] == obs[n + 1..] + [o];
  }

  /** One more observation owes one more restart exactly when it completes a multiple of the limit. */
  lemma {:induction false} OwedAfter(obs: seq<Observation>, o: Observation, maxFails: nat)
    requires maxFails >= 1
    ensures RestartsOwed(obs + [o], maxFails) - RestartsOwed(obs, maxFails) ==
            if Completes(TrailingFails(obs), o, maxFails) then 1 else 0
    decreases |obs|
  {
    var n := LeadingFails(obs);
    if n == |obs| {
      AllFailing(obs);
      OwedAfterOneRun(obs, o, maxFails);
    } else {
      OwedAfterLaterRun(obs, o, maxFails);
      OwedAfter(obs[n + 1..], o, maxFails);
      TrailingOfSuffix(obs, n);
    }
  }

  lemma DivStep(n: nat, m: nat)
    requires m >= 1
    ensures (n + 1) / m == n / m + if (n + 1) % m == 0 then 1 else 0
    ensures (n + 1) % m == if n % m + 1 == m then 0 else n % m + 1
  {
    var q, r := n / m, n % m;
    assert n == q * m + r;
    if r + 1 == m {
      assert n + 1 == (q + 1) * m;
      Quotient(n + 1, m, q + 1, 0);
    } else {
      Quotient(n + 1, m, q, r + 1);
    }
  }

  lemma Quotient(n: nat, m: nat, q: nat, r: nat)
    requires m >= 1 && r < m && n == q * m + r
    ensures n / m == q && n % m == r
  {
    var d := n / m - q;
    assert d * m == r - n % m;
    MulSign(d, m);
  }

  lemma MulSign(d: int, m: nat)
    requires m >= 1
    ensures d > 0 ==> d * m >= m
    ensures d < 0 ==> d * m + m <= 0
  {
  }

  lemma TrailingStep(obs: seq<Observation>, k: nat)
    requires k < |obs|
    ensures obs[..k + 1] == obs[..k] + [obs[k]]
    ensures TrailingFails(obs[..k + 1]) == if obs[k] == Failing then TrailingFails(obs[..k]) + 1 else 0
  {
    assert obs[..k + 1][..k] == obs[..k];
  }

  lemma RemainderStep(t: nat, m: nat, o: Observation)
    requires m >= 1
    ensures (t + 1) % m == if t % m + 1 == m then 0 else t % m + 1
    ensures Completes(t, o, m) <==> o == Failing && t % m + 1 == m
  {
    DivStep(t, m);
  }

  /** What one round of the loop has to do, in terms of the counter it keeps. */
  lemma Observed(obs: seq<Observation>, k: nat, maxFails: nat, fails: nat)
    requires maxFails >= 1 && k < |obs| && fails == TrailingFails(obs[..k]) % maxFails
    ensures var more := if obs[k] == Failing then fails + 1 else 0;
      && TrailingFails(obs[..k + 1]) % maxFails == (if more == maxFails then 0 else more)
      && RestartsOwed(obs[..k + 1], maxFails) == RestartsOwed(obs[..k], maxFails) + if more == maxFails then 1 else 0
  {
    TrailingStep(obs, k);
    var t := TrailingFails(obs[..k]);
    RemainderStep(t, maxFails, obs[k]);
    OwedAfter(obs[..k], obs[k], maxFails);
  }

  /** The loop over a sequence of observations: it fires exactly the restarts owed, and the counter
      stays below the limit at every loop head. */
  method Watch(obs: seq<Observation>, maxFails: nat) returns (restarts: nat, fails: nat)
    requires maxFails >= 1
    ensures restarts == RestartsOwed(obs, maxFails)
    ensures fails < maxFails && fails == TrailingFails(obs) % maxFails
  {
    restarts, fails := 0, 0;
    assert obs[..0] == [];
    for k := 0 to |obs|
      invariant fails < maxFails && fails == TrailingFails(obs[..k]) % maxFails
      invariant restarts == RestartsOwed(obs[..k], maxFails)
    {
      Observed(obs, k, maxFails, fails);
      if obs[k] != Failing {
        fails := 0;
        continue;
      }
      fails := fails + 1;
      if fails >= maxFails {
        fails := 0;
        restarts := restarts + 1;
      }
    }
    assert obs[..|obs|] == obs;
  }
}
