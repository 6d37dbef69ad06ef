/**
  Chain parameters (qrx-core/src/chain_params.c): parameter lookup with fork
  overrides by height, and the block reward with its halvings.
 */
module ChainParams {

  import opened Wrappers

  // ----- lookup -----

  /** A line of chain.meta or genesis.cfg: key=value, or fork.height.key=value. */
  datatype Line = Setting(key: string, value: string) | Fork(height: nat, key: string, value: string)

  /** None stands for a file that cannot be read, or a genesis whose hash is not the recorded one. */
  datatype Chain = Chain(meta: Option<seq<Line>>, genesis: Option<seq<Line>>)

  /** cfg_get_local: the first line for the key that has a value. */
  function Lookup(lines: seq<Line>, key: string): Option<string> {
    if lines == [] then None
    else if lines[0].Setting? && lines[0].key == key && lines[0].value != "" then Some(lines[0].value)
    else Lookup(lines[1..], key)
  }

  predicate Applies(l: Line, key: string, height: int) {
    l.Fork? && l.key == key && l.height <= height
  }

  /** The line that governs a key: among those that apply the highest, among equals the last. */
  ghost predicate Governs(lines: seq<Line>, i: nat, key: string, height: int) {
    && i < |lines| && Applies(lines[i], key, height)
    && forall j :: 0 <= j < |lines| && Applies(lines[j], key, height) ==>
         lines[j].height < lines[i].height || (lines[j].height == lines[i].height && j <= i)
  }

  lemma GovernsOnce(lines: seq<Line>, i: nat, j: nat, key: string, height: int)
    requires Governs(lines, i, key, height) && Governs(lines, j, key, height)
    ensures i == j
  {
  }

  /** The override loop; None when no fork applies yet. */
  method SelectFork(lines: seq<Line>, key: string, height: int) returns (best: Option<nat>)
    ensures best.Some? ==> Governs(lines, best.value, key, height)
    ensures best.None? ==> forall j :: 0 <= j < |lines| ==> !Applies(lines[j], key, height)
    ensures best == Governing(lines, key, height)
  {
    best := None;
    var bestHeight: int := -1;
    for i := 0 to |lines|
      invariant best.Some? ==> Governs(lines[..i], best.value, key, height) && lines[best.value].height == bestHeight
      invariant best.None? ==> bestHeight == -1 && forall j :: 0 <= j < i ==> !Applies(lines[j], key, height)
    {
      if lines[i].Fork? && lines[i].height <= height && lines[i].key == key && lines[i].height >= bestHeight {
        bestHeight, best := lines[i].height, Some(i);
      }
    }
    assert lines[..|lines|] == lines;
    GoverningIs(lines, key, height);
    if best.Some? { GovernsOnce(lines, best.value, Governing(lines, key, height).value, key, height); }
  }

  function Governing(lines: seq<Line>, key: string, height: int): (r: Option<nat>)
    ensures r.Some? ==> r.value < |lines| && lines[r.value].Fork?
  {
    if lines == [] then None
    else
      var n := |lines| - 1;
      var before := Governing(lines[..n], key, height);
      if Applies(lines[n], key, height) && (before.None? || lines[n].height >= lines[before.value].height) then Some(n)
      else before
  }

  lemma {:induction false} GoverningIs(lines: seq<Line>, key: string, height: int)
    ensures var r := Governing(lines, key, height);
            if r.Some? then Governs(lines, r.value, key, height)
            else forall j :: 0 <= j < |lines| ==> !Applies(lines[j], key, height)
  {
    if lines != [] {
      GoverningIs(lines[..|lines| - 1], key, height);
    }
  }

  /** qrx_chain_get_value_at_height. */
  function ValueAt(chain: Chain, height: int, key: string): Option<string> {
    var meta := if chain.meta.Some? then Lookup(chain.meta.value, key) else None;
    if meta.Some? then meta
    else if chain.genesis.None? then None
    else
      var lines := chain.genesis.value;
      var fork := Governing(lines, key, height);
      if fork.Some? then NonEmpty(lines[fork.value].value) else Lookup(lines, key)
  }

  function NonEmpty(v: string): Option<string> { if v == "" then None else Some(v) }

  /** Overrides that start later change nothing yet, wherever they are written. */
  lemma LaterForkIsInert(chain: Chain, before: seq<Line>, fork: Line, after: seq<Line>, height: int, key: string)
    requires fork.Fork? && fork.height > height
    requires chain.genesis == Some(before + after)
    ensures ValueAt(chain.(genesis := Some(before + [fork] + after)), height, key) == ValueAt(chain, height, key)
  {
    InsertedLookup(before, fork, after, key);
    InsertedGoverning(before, fork, after, key, height);
  }

  lemma {:induction false} InsertedLookup(before: seq<Line>, fork: Line, after: seq<Line>, key: string)
    requires fork.Fork?
    ensures Lookup(before + [fork] + after, key) == Lookup(before + after, key)
  {
    if before == [] {
      assert before + [fork] + after == [fork] + after && before + after == after;
    } else {
      assert (before + [fork] + after)[1..] == before[1..] + [fork] + after;
      assert (before + after)[1..] == before[1..] + after;
      InsertedLookup(before[1..], fork, after, key);
    }
  }

  lemma InsertedGoverning(before: seq<Line>, fork: Line, after: seq<Line>, key: string, height: int)
    requires fork.Fork? && !Applies(fork, key, height)
    ensures var old_, new_ := before + after, before + [fork] + after;
            var r, s := Governing(old_, key, height), Governing(new_, key, height);
            (r.None? <==> s.None?) && (r.Some? ==> new_[s.value] == old_[r.value])
  {
    var old_, new_ := before + after, before + [fork] + after;
    var r, s := Governing(old_, key, height), Governing(new_, key, height);
    GoverningIs(old_, key, height);
    GoverningIs(new_, key, height);
    var n := |before|;
    assert forall j :: 0 <= j < |new_| && j != n ==> new_[j] == old_[if j < n then j else j - 1];
    if r.Some? {
      var i := if r.value < n then r.value else r.value + 1;
      assert new_[i] == old_[r.value];
      forall j | 0 <= j < |new_| && Applies(new_[j], key, height)
        ensures new_[j].height < new_[i].height || (new_[j].height == new_[i].height && j <= i)
      {
        assert j != n;
      }
      assert Governs(new_, i, key, height);
      GovernsOnce(new_, i, s.value, key, height);
    }
  }

  /** A parameter changes only at the height of one of its overrides. */
  lemma StableBetweenForks(chain: Chain, key: string, low: int, high: int)
    requires low <= high
    requires chain.genesis.Some? ==>
               forall j :: 0 <= j < |chain.genesis.value| ==>
                 var l := chain.genesis.value[j]; l.Fork? && l.key == key ==> l.height <= low || l.height > high
    ensures ValueAt(chain, low, key) == ValueAt(chain, high, key)
  {
    if chain.genesis.Some? {
      var lines := chain.genesis.value;
      GoverningIs(lines, key, low);
      GoverningIs(lines, key, high);
      var r, s := Governing(lines, key, low), Governing(lines, key, high);
      assert forall j :: 0 <= j < |lines| ==> (Applies(lines[j], key, low) <==> Applies(lines[j], key, high));
      if r.Some? && s.Some? {
        assert Governs(lines, s.value, key, low);
        GovernsOnce(lines, r.value, s.value, key, low);
      }
    }
  }

  // ----- the reward -----

  /** C division of long long: toward zero. */
  function Quotient(a: int, b: int): int
    requires b > 0
  {
    if a >= 0 then a / b else -((-a) / b)
  }

  function Pow2(n: nat): (p: nat)
    ensures p > 0
  {
    if n == 0 then 1 else 2 * Pow2(n - 1)
  }

  /** The number of halvings a height is past. */
  function Halvings(interval: int, height: int): nat
    requires interval > 0
  {
    if Quotient(height, interval) <= 0 then 0 else Quotient(height, interval)
  }

  /** floor(initial / 2^(height / interval)) */
  function Reward(initial: int, interval: int, height: int): int {
    if interval <= 0 || Halvings(interval, height) == 0 then initial
    else if initial <= 0 then 0
    else initial / Pow2(Halvings(interval, height))
  }

  lemma HalfOfQuotient(a: nat, k: nat)
    ensures a / Pow2(k + 1) == a / Pow2(k) / 2
  {
    HalfQuotient(a, Pow2(k));
  }

  lemma HalfQuotient(a: nat, p: nat)
    requires p > 0
    ensures a / (2 * p) == a / p / 2
  {
    var q, r := a / p, a % p;
    var h, s := q / 2, q % 2;
    assert a == q * p + r && q == 2 * h + s;
    assert a == h * (2 * p) + (s * p + r) by { assert (2 * h + s) * p == h * (2 * p) + s * p; }
    assert s * p + r < 2 * p;
    DivisionIs(a, 2 * p, h, s * p + r);
  }

  lemma DivisionIs(a: int, d: int, q: int, r: int)
    requires d > 0 && a == q * d + r && 0 <= r < d
    ensures a / d == q
  {
    var q', r' := a / d, a % d;
    assert (q - q') * d == r' - r;
    OnlyZero(q - q', d, r' - r);
  }

  lemma OnlyZero(x: int, d: int, y: int)
    requires d > 0 && x * d == y && -d < y < d
    ensures x == 0
  {
  }

  method BlockReward(initial: int, interval: int, height: int) returns (reward: int)
    ensures reward == Reward(initial, interval, height)
  {
    if interval <= 0 { return initial; }
    var halvings := Quotient(height, interval);
    reward := initial;
    var i := 0;
    while i < halvings
      invariant 0 <= i && (i == 0 || i <= halvings)
      invariant i == 0 ==> reward == initial
      invariant i > 0 ==> reward > 0 && initial > 0 && reward == initial / Pow2(i)
    {
      if initial > 0 { HalfOfQuotient(initial, i); }
      reward := Quotient(reward, 2);
      if reward <= 0 {
        if initial > 0 { ZeroAfter(initial, i + 1, halvings); }
        return 0;
      }
      i := i + 1;
    }
  }

  lemma {:induction false} ZeroAfter(a: nat, k: nat, n: nat)
    requires k <= n && a / Pow2(k) == 0
    ensures a / Pow2(n) == 0
  {
    if k < n {
      ZeroAfter(a, k, n - 1);
      HalfOfQuotient(a, n - 1);
    }
  }

  /** qrx_chain_get_next_halving_height. */
  function NextHalving(interval: int, height: int): int {
    if interval <= 0 then -1 else (Quotient(height, interval) + 1) * interval
  }

  lemma SameEpoch(interval: int, height: int, later: int)
    requires interval > 0 && 0 <= height <= later < NextHalving(interval, height)
    ensures Quotient(later, interval) == Quotient(height, interval)
  {
    var k := height / interval;
    assert later == k * interval + (later - k * interval);
    DivisionIs(later, interval, k, later - k * interval);
  }

  /** The reward is constant up to the next halving, where it is half, rounded down. */
  lemma HalvesNext(initial: nat, interval: int, height: int, later: int)
    requires interval > 0 && 0 <= height <= later < NextHalving(interval, height)
    ensures Reward(initial, interval, later) == Reward(initial, interval, height)
    ensures Reward(initial, interval, NextHalving(interval, height)) == Reward(initial, interval, height) / 2
  {
    SameEpoch(interval, height, later);
    var k := height / interval;
    DivisionIs((k + 1) * interval, interval, k + 1, 0);
    HalfOfQuotient(initial, k);
    assert Pow2(0) == 1;
  }

  lemma {:induction false} MoreHalvingsLess(initial: nat, k: nat, n: nat)
    requires k <= n
    ensures initial / Pow2(n) <= initial / Pow2(k)
  {
    hide Pow2;
    if k < n {
      MoreHalvingsLess(initial, k, n - 1);
      HalfOfQuotient(initial, n - 1);
    }
  }

  lemma QuotientMonotone(a: nat, b: nat, d: int)
    requires d > 0 && a <= b
    ensures a / d <= b / d
  {
    var x := b / d - a / d;
    assert x * d == b - a - (b % d - a % d);
    AtLeastZero(x, d);
  }

  lemma AtLeastZero(x: int, d: int)
    requires d > 0 && x * d > -d
    ensures x >= 0
  {
  }

  lemma RewardNonIncreasing(initial: nat, interval: int, height: nat, later: nat)
    requires height <= later
    ensures 0 <= Reward(initial, interval, later) <= Reward(initial, interval, height) <= initial
  {
    if interval > 0 {
      QuotientMonotone(height, later, interval);
      MoreHalvingsLess(initial, height / interval, later / interval);
      MoreHalvingsLess(initial, 0, height / interval);
      assert Pow2(0) == 1 && initial / 1 == initial;
    }
  }

  // ----- supply -----

  /** All rewards of the first n heights. */
  function Emission(initial: nat, interval: int, n: nat): int {
    if n == 0 then 0 else Emission(initial, interval, n - 1) + Reward(initial, interval, n - 1)
  }

  /** The rewards of one height from each of the first k epochs. */
  function EpochRewards(initial: nat, k: nat): int {
    if k == 0 then 0 else EpochRewards(initial, k - 1) + initial / Pow2(k - 1)
  }

  lemma {:induction false} EpochRewardsBound(initial: nat, k: nat)
    requires initial > 0
    ensures EpochRewards(initial, k) + 2 * (initial / Pow2(k)) <= 2 * initial
    ensures EpochRewards(initial, k) < 2 * initial
  {
    if k > 0 {
      EpochRewardsBound(initial, k - 1);
      HalfOfQuotient(initial, k - 1);
    }
  }

  /** Emission counted by epochs: whole ones, then r heights of the current one. */
  lemma {:induction false} EmissionByEpochs(initial: nat, interval: int, k: nat, r: nat)
    requires interval > 0 && r <= interval
    ensures k * interval + r >= 0
    ensures Emission(initial, interval, k * interval + r)
         == interval * EpochRewards(initial, k) + r * (initial / Pow2(k))
    decreases k, r
  {
    if r > 0 {
      EmissionByEpochs(initial, interval, k, r - 1);
      RewardInEpoch(initial, interval, k, r - 1, k * interval + (r - 1));
      OneMore(r, initial / Pow2(k));
    } else if k > 0 {
      EmissionByEpochs(initial, interval, k - 1, interval);
      WholeEpoch(interval, EpochRewards(initial, k - 1), initial / Pow2(k - 1), k);
    }
  }

  lemma OneMore(r: nat, a: int)
    ensures r * a == (r - 1) * a + a
  {
  }

  lemma WholeEpoch(interval: int, e: int, a: int, k: nat)
    ensures interval * e + interval * a == interval * (e + a)
    ensures (k - 1) * interval + interval == k * interval
  {
  }

  lemma RewardInEpoch(initial: nat, interval: int, k: nat, r: nat, height: nat)
    requires interval > 0 && r < interval && height == k * interval + r
    ensures Reward(initial, interval, height) == initial / Pow2(k)
  {
    DivisionIs(height, interval, k, r);
    RewardAfter(initial, interval, height, k);
  }

  lemma RewardAfter(initial: nat, interval: int, height: nat, k: nat)
    requires interval > 0 && height / interval == k
    ensures Reward(initial, interval, height) == initial / Pow2(k)
  {
    assert Pow2(0) == 1 && initial / 1 == initial;
    if initial == 0 { DivisionIs(0, Pow2(k), 0, 0); }
  }

  /** However long the chain runs, all rewards together stay below twice the first epoch's. */
  lemma EmissionBound(initial: nat, interval: int, n: nat)
    requires initial > 0 && interval > 0
    ensures Emission(initial, interval, n) < 2 * initial * interval
  {
    hide Emission, EpochRewards, Pow2;
    var k, r := n / interval, n % interval;
    assert k >= 0 by { QuotientMonotone(0, n, interval); }
    assert n == k * interval + r;
    EpochsBounded(initial, interval, n, k, r);
  }

  lemma EpochsBounded(initial: nat, interval: int, n: nat, k: nat, r: nat)
    requires initial > 0 && 0 <= r < interval && n == k * interval + r
    ensures Emission(initial, interval, n) < 2 * initial * interval
  {
    hide Emission, EpochRewards, Pow2;
    EmissionByEpochs(initial, interval, k, r);
    EpochRewardsBound(initial, k);
    BoundProduct(interval, EpochRewards(initial, k), initial / Pow2(k), r, initial);
  }

  lemma BoundProduct(interval: int, e: int, a: int, r: int, initial: int)
    requires 0 <= r < interval && a >= 0 && e + 2 * a <= 2 * initial && e < 2 * initial
    ensures interval * e + r * a < 2 * initial * interval
  {
    Scaled(a, r, interval);
    Scaled(interval, e + a, 2 * initial - 1);
    assert interval * (e + a) == interval * e + interval * a;
    assert interval * (2 * initial - 1) == 2 * initial * interval - interval;
  }

  lemma Scaled(a: int, x: int, y: int)
    requires a >= 0 && x <= y
    ensures a * x <= a * y
  {
  }

  // ----- the reward of a chain -----

  /** qrx_chain_get_ll_at_height_or_default, over the C library's atoll. */
  function NumberAt(chain: Chain, height: int, key: string, otherwise: int, atoll: string -> int): int {
    var v := ValueAt(chain, height, key);
    if v.Some? then atoll(v.value) else otherwise
  }

  function InitialAt(chain: Chain, height: int, otherwise: int, atoll: string -> int): int {
    NumberAt(chain, height, "initial_reward_atoms",
             NumberAt(chain, height, "epoch_reward_atoms", otherwise, atoll), atoll)
  }

  function IntervalAt(chain: Chain, height: int, otherwise: int, atoll: string -> int): int {
    NumberAt(chain, height, "halving_interval_blocks", otherwise, atoll)
  }

  /** qrx_chain_get_block_reward_at_height: the loop above on the parameters of that height. */
  function RewardAt(chain: Chain, height: int, initial: int, interval: int, atoll: string -> int): int {
    Reward(InitialAt(chain, height, initial, atoll), IntervalAt(chain, height, interval, atoll), height)
  }

  ghost predicate FixedFromStart(chain: Chain, key: string) {
    chain.genesis.Some? ==>
      forall j :: 0 <= j < |chain.genesis.value| ==>
        var l := chain.genesis.value[j]; l.Fork? && l.key == key ==> l.height == 0
  }

  /** All rewards a chain pays for its first n heights. */
  function Paid(chain: Chain, n: nat, initial: int, interval: int, atoll: string -> int): int {
    if n == 0 then 0
    else Paid(chain, n - 1, initial, interval, atoll) + RewardAt(chain, n - 1, initial, interval, atoll)
  }

  /** With no override of the reward parameters above height 0, the chain pays the plain schedule. */
  lemma {:induction false} PaidIsEmission(chain: Chain, n: nat, initial: int, interval: int, atoll: string -> int)
    requires FixedFromStart(chain, "initial_reward_atoms") && FixedFromStart(chain, "epoch_reward_atoms")
    requires FixedFromStart(chain, "halving_interval_blocks")
    requires InitialAt(chain, 0, initial, atoll) >= 0
    ensures Paid(chain, n, initial, interval, atoll)
         == Emission(InitialAt(chain, 0, initial, atoll), IntervalAt(chain, 0, interval, atoll), n)
  {
    hide InitialAt, IntervalAt, Reward, FixedFromStart;
    if n > 0 {
      PaidIsEmission(chain, n - 1, initial, interval, atoll);
      ParametersFixed(chain, n - 1, initial, interval, atoll);
    }
  }

  lemma ParametersFixed(chain: Chain, height: nat, initial: int, interval: int, atoll: string -> int)
    requires FixedFromStart(chain, "initial_reward_atoms") && FixedFromStart(chain, "epoch_reward_atoms")
    requires FixedFromStart(chain, "halving_interval_blocks")
    ensures InitialAt(chain, height, initial, atoll) == InitialAt(chain, 0, initial, atoll)
    ensures IntervalAt(chain, height, interval, atoll) == IntervalAt(chain, 0, interval, atoll)
  {
    hide ValueAt;
    StableBetweenForks(chain, "initial_reward_atoms", 0, height);
    StableBetweenForks(chain, "epoch_reward_atoms", 0, height);
    StableBetweenForks(chain, "halving_interval_blocks", 0, height);
  }

  // ----- the main network -----

  const ATOMS_PER_QUB: int := 100_000_000
  const INITIAL_REWARD_ATOMS: int := 25_000_000       // 0.25 QUB
  const HALVING_INTERVAL: int := 12_614_400
  const BOOTSTRAP_VALIDATORS: int := 60
  const BOOTSTRAP_QUB: int := 1000
  const SUPPLY_CEILING_QUB: int := 21_000_000

  lemma SupplyCeiling(n: nat)
    ensures BOOTSTRAP_VALIDATORS * BOOTSTRAP_QUB * ATOMS_PER_QUB + Emission(INITIAL_REWARD_ATOMS, HALVING_INTERVAL, n)
          < 6_367_200 * ATOMS_PER_QUB < SUPPLY_CEILING_QUB * ATOMS_PER_QUB
  {
    EmissionBound(INITIAL_REWARD_ATOMS, HALVING_INTERVAL, n);
  }
}
