/**
  The block producer of qrx-core/src/qrxd.c: proposer rotation over the signing
  fleet, the catch-up gate before any proposal, and the bounded list of recent blocks.
 */
module Producer {

  import opened Wrappers

  // ----- proposer rotation -----

  /** One pass of the producer loop: which signers can propose, and whether the block is finalised. */
  datatype Round = Round(able: seq<bool>, finalised: bool)

  /** The first signer able to propose, trying each once from the cursor on. */
  function FirstAble(cursor: nat, able: seq<bool>, attempt: nat): Option<nat>
    requires attempt <= |able|
    decreases |able| - attempt
  {
    if attempt == |able| then None
    else
      var candidate := (cursor + attempt) % |able|;
      if able[candidate] then Some(candidate) else FirstAble(cursor, able, attempt + 1)
  }

  function Proposer(cursor: nat, able: seq<bool>): Option<nat> { FirstAble(cursor, able, 0) }

  /** The cursor after a round; only a finalised block moves it. */
  function Advance(cursor: nat, r: Round): nat {
    var p := Proposer(cursor, r.able);
    if p.Some? && r.finalised then p.value + 1 else cursor
  }

  /** Proposers of the finalised blocks of a run, in order. */
  function Finalised(cursor: nat, rounds: seq<Round>): seq<nat>
    decreases |rounds|
  {
    if rounds == [] then []
    else
      var p := Proposer(cursor, rounds[0].able);
      (if p.Some? && rounds[0].finalised then [p.value] else []) + Finalised(Advance(cursor, rounds[0]), rounds[1..])
  }

  /** How many signers are tried before s. */
  function Distance(s: nat, cursor: nat, n: nat): int { if s >= cursor then s - cursor else s + n - cursor }

  lemma Wraps(x: nat, n: nat)
    requires n > 0 && x < 2 * n
    ensures x % n == if x < n then x else x - n
  {
    if x >= n {
      assert x == n + (x - n);
    }
  }

  /** The proposer is no further than any signer that is able. */
  lemma {:induction false} NoFurther(cursor: nat, able: seq<bool>, attempt: nat, s: nat)
    requires s < |able| && able[s] && cursor <= |able|
    requires attempt <= Distance(s, cursor, |able|)
    ensures attempt <= |able|
    ensures var p := FirstAble(cursor, able, attempt);
            && p.Some? && p.value < |able|
            && Distance(p.value, cursor, |able|) <= Distance(s, cursor, |able|)
    decreases |able| - attempt
  {
    Wraps(cursor + attempt, |able|);
    if attempt < Distance(s, cursor, |able|) && !able[(cursor + attempt) % |able|] {
      NoFurther(cursor, able, attempt + 1, s);
    }
  }

  ghost predicate Fleet(rounds: seq<Round>, n: nat) {
    forall k :: 0 <= k < |rounds| ==> |rounds[k].able| == n
  }

  ghost predicate AlwaysAble(rounds: seq<Round>, s: nat) {
    forall k :: 0 <= k < |rounds| ==> s < |rounds[k].able| && rounds[k].able[s]
  }

  /** A signer that can always propose gets its turn before the distance runs out. */
  lemma {:induction false} TurnComes(cursor: nat, rounds: seq<Round>, n: nat, s: nat, blocks: nat)
    requires s < n && cursor <= n && Fleet(rounds, n) && AlwaysAble(rounds, s)
    requires Distance(s, cursor, n) < blocks <= |Finalised(cursor, rounds)|
    ensures s in Finalised(cursor, rounds)[..blocks]
    decreases |rounds|
  {
    var r := rounds[0];
    NoFurther(cursor, r.able, 0, s);
    var p := Proposer(cursor, r.able).value;
    var rest := Finalised(Advance(cursor, r), rounds[1..]);
    if !r.finalised {
      assert [] + rest == rest;
      TurnComes(cursor, rounds[1..], n, s, blocks);
    } else if p == s {
      assert Finalised(cursor, rounds)[0] == s;
    } else {
      assert Distance(s, p + 1, n) < Distance(s, cursor, n);
      TurnComes(p + 1, rounds[1..], n, s, blocks - 1);
      assert Finalised(cursor, rounds)[..blocks] == [p] + rest[..blocks - 1];
    }
  }

  /** Bounded waiting: such a signer proposes one of any n consecutive finalised blocks. */
  lemma {:induction false} BoundedWaiting(cursor: nat, rounds: seq<Round>, n: nat, s: nat, i: nat)
    requires s < n && cursor <= n && Fleet(rounds, n) && AlwaysAble(rounds, s)
    requires i + n <= |Finalised(cursor, rounds)|
    ensures s in Finalised(cursor, rounds)[i..i + n]
    decreases |rounds|
  {
    if i == 0 {
      TurnComes(cursor, rounds, n, s, n);
    } else {
      var r := rounds[0];
      NoFurther(cursor, r.able, 0, s);
      var c := Advance(cursor, r);
      var rest := Finalised(c, rounds[1..]);
      if r.finalised {
        BoundedWaiting(c, rounds[1..], n, s, i - 1);
        assert Finalised(cursor, rounds)[i..i + n] == rest[i - 1..i - 1 + n];
      } else {
        assert [] + rest == rest;
        BoundedWaiting(c, rounds[1..], n, s, i);
      }
    }
  }

  class Rotation {
    const size: nat
    var cursor: nat
    ghost var rounds: seq<Round>

    ghost predicate Valid()
      reads this
    {
      0 < size && cursor <= size && Fleet(rounds, size) && cursor == Cursor(0, rounds)
    }

    constructor (size: nat)
      requires size > 0
      ensures Valid() && this.size == size && rounds == []
    {
      this.size, cursor, rounds := size, 0, [];
    }

    /** Try each signer once from the cursor on. */
    method Propose(able: seq<bool>) returns (proposer: Option<nat>)
      requires Valid() && |able| == size
      ensures proposer == Proposer(cursor, able)
      ensures proposer.Some? <==> true in able
      ensures proposer.Some? ==> proposer.value < size && able[proposer.value]
    {
      var attempt := 0;
      while attempt < size
        invariant 0 <= attempt <= size
        invariant FirstAble(cursor, able, attempt) == Proposer(cursor, able)
        invariant forall s :: 0 <= s < size && Distance(s, cursor, size) < attempt ==> !able[s]
      {
        Wraps(cursor + attempt, size);
        var candidate := (cursor + attempt) % size;
        if able[candidate] { return Some(candidate); }
        attempt := attempt + 1;
      }
      assert forall s :: 0 <= s < size ==> Distance(s, cursor, size) < size;
      return None;
    }

    /** One pass of the loop; the cursor moves past the proposer of a finalised block. */
    method Pass(able: seq<bool>, finalised: bool) returns (proposer: Option<nat>)
      requires Valid() && |able| == size
      modifies this
      ensures Valid() && rounds == old(rounds) + [Round(able, finalised)]
      ensures proposer == Proposer(old(cursor), able)
    {
      proposer := Propose(able);
      ghost var r := Round(able, finalised);
      CursorSnoc(0, rounds, r);
      rounds := rounds + [r];
      if proposer.Some? && finalised { cursor := proposer.value + 1; }
    }
  }

  function Cursor(start: nat, rounds: seq<Round>): nat {
    if rounds == [] then start else Advance(Cursor(start, rounds[..|rounds| - 1]), rounds[|rounds| - 1])
  }

  lemma CursorSnoc(start: nat, rounds: seq<Round>, r: Round)
    ensures Cursor(start, rounds + [r]) == Advance(Cursor(start, rounds), r)
  {
    assert (rounds + [r])[..|rounds|] == rounds;
  }

  // ----- the catch-up gate -----

  datatype Limits = Limits(minPeers: int, maxBehind: int, stable: int)

  /** What one call of validator_catchup_safe sees, the limits read anew each time included. */
  datatype Sight = Sight(now: int, peers: int, behind: int, limits: Limits)

  predicate Good(s: Sight) { s.peers >= s.limits.minPeers && s.behind <= s.limits.maxBehind }

  /** Index of the first call of the unbroken good stretch that ends the run; |calls| when the last is bad. */
  function GoodSince(calls: seq<Sight>): (k: nat)
    ensures k <= |calls|
    ensures forall j :: k <= j < |calls| ==> Good(calls[j])
    ensures k > 0 ==> !Good(calls[k - 1])
  {
    if calls == [] then 0
    else
      var n := |calls| - 1;
      if !Good(calls[n]) then n + 1 else GoodSince(calls[..n])
  }

  /** Signing is allowed when the latest good stretch has lasted the stabilisation time in force. */
  ghost predicate Allowed(calls: seq<Sight>)
    requires calls != []
  {
    var k, n := GoodSince(calls), |calls| - 1;
    k <= n && (calls[n].limits.stable <= 0 || calls[n].now - calls[k].now >= calls[n].limits.stable)
  }

  class CatchUpGate {
    var safeSince: int           // 0: no good stretch
    var paused: bool
    ghost var calls: seq<Sight>

    ghost predicate Valid()
      reads this
    {
      && (forall k :: 0 <= k < |calls| ==> calls[k].now != 0)
      && var k := GoodSince(calls);
         safeSince == if k == |calls| then 0 else calls[k].now
    }

    constructor ()
      ensures Valid() && calls == []
    {
      safeSince, paused, calls := 0, false, [];
    }

    method CatchUpSafe(s: Sight) returns (safe: bool)
      requires Valid() && s.now != 0
      modifies this
      ensures Valid() && calls == old(calls) + [s]
      ensures safe <==> Allowed(calls)
      ensures paused == !safe
    {
      assert (calls + [s])[..|calls|] == calls;
      calls := calls + [s];
      if s.peers < s.limits.minPeers {
        paused, safeSince := true, 0;
        return false;
      }
      if s.behind > s.limits.maxBehind {
        paused, safeSince := true, 0;
        return false;
      }
      if safeSince == 0 { safeSince := s.now; }
      if s.limits.stable > 0 && s.now - safeSince < s.limits.stable {
        paused := true;
        return false;
      }
      paused := false;
      return true;
    }
  }

  // ----- recent blocks -----

  datatype Block = Block(height: int, hash: string)

  ghost predicate HighestFirst(s: seq<Block>) {
    forall i, j :: 0 <= i <= j < |s| ==> s[i].height >= s[j].height
  }

  /** Behind every block at least as high. */
  function InsertBlock(s: seq<Block>, b: Block): (r: seq<Block>)
    ensures |r| == |s| + 1
  {
    if s == [] || s[|s| - 1].height >= b.height then s + [b]
    else InsertBlock(s[..|s| - 1], b) + [s[|s| - 1]]
  }

  function Take(s: seq<Block>, max: nat): seq<Block> { if |s| <= max then s else s[..max] }

  /** All blocks, highest first, earlier found first among equals. */
  function Ranked(blocks: seq<Block>): (r: seq<Block>)
    ensures |r| == |blocks|
  {
    if blocks == [] then [] else InsertBlock(Ranked(blocks[..|blocks| - 1]), blocks[|blocks| - 1])
  }

  lemma {:induction false} InsertBlockSorted(s: seq<Block>, b: Block)
    requires HighestFirst(s)
    ensures HighestFirst(InsertBlock(s, b)) && multiset(InsertBlock(s, b)) == multiset(s) + multiset{b}
  {
    if s != [] && s[|s| - 1].height < b.height {
      var n := |s| - 1;
      InsertBlockSorted(s[..n], b);
      var r := InsertBlock(s[..n], b);
      assert s == s[..n] + [s[n]];
      SortedWithLast(s[..n], b, r, s[n]);
    }
  }

  lemma SortedWithLast(s: seq<Block>, b: Block, r: seq<Block>, last: Block)
    requires HighestFirst(s + [last]) && HighestFirst(r) && multiset(r) == multiset(s) + multiset{b}
    requires last.height < b.height
    ensures HighestFirst(r + [last])
  {
    forall i | 0 <= i < |r| ensures r[i].height >= last.height {
      assert r[i] in multiset(r);
      if r[i] != b {
        var j :| 0 <= j < |s| && s[j] == r[i];
        assert (s + [last])[j].height >= (s + [last])[|s|].height;
      }
    }
  }

  /** Every block found is ranked once, highest first. */
  lemma {:induction false} RankedIs(blocks: seq<Block>)
    ensures HighestFirst(Ranked(blocks)) && multiset(Ranked(blocks)) == multiset(blocks)
  {
    if blocks != [] {
      var n := |blocks| - 1;
      RankedIs(blocks[..n]);
      InsertBlockSorted(Ranked(blocks[..n]), blocks[n]);
      assert blocks == blocks[..n] + [blocks[n]];
    }
  }

  /** Cutting a ranking before an insertion loses nothing the cut after it would keep. */
  lemma {:induction false} CutThenInsert(s: seq<Block>, b: Block, max: nat)
    requires HighestFirst(s)
    ensures Take(InsertBlock(Take(s, max), b), max) == Take(InsertBlock(s, b), max)
  {
    if |s| > max {
      var n := |s| - 1;
      assert s[..n][..max] == s[..max];
      if s[n].height >= b.height {
        assert max > 0 ==> s[max - 1].height >= s[n].height;
      } else {
        CutThenInsert(s[..n], b, max);
      }
    }
  }

  /** Move lower blocks one place down to make room. */
  method ShiftIn(arr: array<Block>, from: nat, b: Block)
    requires from < arr.Length
    modifies arr
    ensures arr[..from + 1] == InsertBlock(old(arr[..from]), b)
  {
    hide InsertBlock;
    var pos := from;
    ghost var kept := arr[..from];
    assert kept[from..] == [] && kept[..from] == kept;
    while pos > 0 && arr[pos - 1].height < b.height
      invariant 0 <= pos <= from
      invariant arr[..pos] == kept[..pos]
      invariant arr[pos + 1..from + 1] == kept[pos..]
      invariant InsertBlock(kept, b) == InsertBlock(kept[..pos], b) + kept[pos..]
    {
      InsertedBefore(kept, pos, b);
      arr[pos] := arr[pos - 1];
      pos := pos - 1;
      assert kept[pos..] == [kept[pos]] + kept[pos + 1..];
    }
    arr[pos] := b;
    InsertedHere(kept[..pos], b);
    assert arr[..from + 1] == arr[..pos] + [b] + arr[pos + 1..from + 1];
  }

  lemma InsertedHere(s: seq<Block>, b: Block)
    requires s != [] ==> s[|s| - 1].height >= b.height
    ensures InsertBlock(s, b) == s + [b]
  {
  }

  lemma InsertedBefore(kept: seq<Block>, pos: nat, b: Block)
    requires 0 < pos <= |kept| && kept[pos - 1].height < b.height
    ensures InsertBlock(kept[..pos], b) + kept[pos..] == InsertBlock(kept[..pos - 1], b) + kept[pos - 1..]
  {
    assert kept[..pos][..pos - 1] == kept[..pos - 1];
    assert kept[pos - 1..] == [kept[pos - 1]] + kept[pos..];
  }

  /** qrx_insert_recent_block: the lowest goes out when the list is full. */
  method InsertRecent(arr: array<Block>, n: nat, max: int, b: Block) returns (n': nat)
    requires n <= max <= arr.Length || (max <= 0 && n <= arr.Length)
    modifies arr
    ensures max <= 0 ==> n' == n && arr[..] == old(arr[..])
    ensures max > 0 ==> n' <= max && arr[..n'] == Take(InsertBlock(old(arr[..n]), b), max)
  {
    n' := n;
    if max <= 0 { return; }
    var pos := n;
    if pos < max {
      n' := n + 1;
    } else if b.height <= arr[max - 1].height {
      assert InsertBlock(arr[..n], b)[..max] == arr[..n];
      return;
    }
    if pos >= max { pos := max - 1; }
    assert n == max ==> arr[..n][..max - 1] == arr[..max - 1];
    ShiftIn(arr, pos, b);
  }

  /** Files that state a height. */
  function WithHeight(blocks: seq<Block>): (r: seq<Block>)
    ensures forall i :: 0 <= i < |r| ==> r[i].height >= 0
  {
    if blocks == [] then []
    else
      var n := |blocks| - 1;
      WithHeight(blocks[..n]) + if blocks[n].height >= 0 then [blocks[n]] else []
  }

  /** qrx_collect_recent_blocks, over the blocks in the order the directory yields them. */
  method CollectRecent(blocks: seq<Block>, arr: array<Block>) returns (n: nat)
    modifies arr
    ensures n <= arr.Length && arr[..n] == Take(Ranked(WithHeight(blocks)), arr.Length)
  {
    n := 0;
    for i := 0 to |blocks|
      invariant n <= arr.Length && arr[..n] == Take(Ranked(WithHeight(blocks[..i])), arr.Length)
    {
      ghost var found := WithHeight(blocks[..i]);
      assert blocks[..i + 1][..i] == blocks[..i];
      if blocks[i].height >= 0 {
        RankedIs(found);
        CutThenInsert(Ranked(found), blocks[i], arr.Length);
        assert (found + [blocks[i]])[..|found|] == found;
        n := InsertRecent(arr, n, arr.Length, blocks[i]);
      } else {
        assert found + [] == found;
      }
    }
    assert blocks[..|blocks|] == blocks;
  }
}
