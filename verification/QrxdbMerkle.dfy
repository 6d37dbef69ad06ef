/**
  The SHA3-512 state root of QRXDB (qrx-core/src/qrxdb.c, qrxdb_recompute_merkle)
  with ideal tagged hashes: a leaf hash names its key and value, a node hash
  names its two children, and the two kinds never meet.
 */
module QrxdbMerkle {
  import opened QrxdbKeys

  datatype Hash = ZeroRoot | Leaf(key: Bytes, value: Bytes) | Node(left: Hash, right: Hash)

  /** Leaf hashes of the live items, in key order. */
  function Leaves(items: seq<Item>): (level: seq<Hash>)
    ensures |level| == |items|
    ensures forall i :: 0 <= i < |items| ==> level[i] == Leaf(items[i].key, items[i].value)
  {
    seq(|items|, i requires 0 <= i < |items| => Leaf(items[i].key, items[i].value))
  }

  /** One round of the halving loop: an odd last hash is paired with itself. */
  function PairUp(level: seq<Hash>): (up: seq<Hash>)
    ensures |up| == (|level| + 1) / 2
  {
    if |level| == 0 then []
    else if |level| == 1 then [Node(level[0], level[0])]
    else [Node(level[0], level[1])] + PairUp(level[2..])
  }

  function Root(level: seq<Hash>): Hash
    requires level != []
    decreases |level|
  {
    if |level| == 1 then level[0] else Root(PairUp(level))
  }

  /** The root of a list of live items; the empty database has the zero root. */
  function StateRoot(items: seq<Item>): Hash {
    if items == [] then ZeroRoot else Root(Leaves(Sort(items)))
  }

  // ----- what a level looks like -----

  ghost predicate NoDuplicates(level: seq<Hash>) {
    forall i, j :: 0 <= i < j < |level| ==> level[i] != level[j]
  }

  /** Length of the leftmost path of a hash. */
  ghost function Depth(h: Hash): nat {
    match h
    case ZeroRoot => 0
    case Leaf(_, _) => 0
    case Node(l, _) => 1 + Depth(l)
  }

  ghost predicate AtDepth(level: seq<Hash>, d: nat) {
    forall i :: 0 <= i < |level| ==> Depth(level[i]) == d
  }

  lemma {:induction false} PairUpAt(level: seq<Hash>, i: nat)
    requires i < |PairUp(level)|
    ensures PairUp(level)[i] ==
            Node(level[2 * i], if 2 * i + 1 < |level| then level[2 * i + 1] else level[2 * i])
  {
    if i > 0 { PairUpAt(level[2..], i - 1); }
  }

  lemma PairUpDepth(level: seq<Hash>, d: nat)
    requires AtDepth(level, d)
    ensures AtDepth(PairUp(level), d + 1)
  {
    forall i | 0 <= i < |PairUp(level)| ensures Depth(PairUp(level)[i]) == d + 1 {
      PairUpAt(level, i);
    }
  }

  lemma PairUpNoDuplicates(level: seq<Hash>)
    requires NoDuplicates(level)
    ensures NoDuplicates(PairUp(level))
  {
    forall i, j | 0 <= i < j < |PairUp(level)| ensures PairUp(level)[i] != PairUp(level)[j] {
      PairUpAt(level, i);
      PairUpAt(level, j);
    }
  }

  /**
    A duplicate-free level can be read back from the level above it: the
    self-paired last node cannot be mistaken for two equal children.
   */
  lemma PairUpInjective(a: seq<Hash>, b: seq<Hash>)
    requires NoDuplicates(a) && NoDuplicates(b)
    requires PairUp(a) == PairUp(b)
    ensures a == b
  {
    if a != [] {
      var last := |PairUp(a)| - 1;
      PairUpAt(a, last);
      PairUpAt(b, last);
    }
    assert |a| == |b|;
    forall i | 0 <= i < |a| ensures a[i] == b[i] {
      PairUpAt(a, i / 2);
      PairUpAt(b, i / 2);
    }
  }

  lemma {:induction false} RootDepth(level: seq<Hash>, d: nat)
    requires level != [] && AtDepth(level, d)
    ensures Depth(Root(level)) >= d
    ensures Depth(Root(level)) == d ==> |level| == 1
    decreases |level|
  {
    if |level| > 1 {
      PairUpDepth(level, d);
      RootDepth(PairUp(level), d + 1);
    }
  }

  lemma {:induction false} RootInjective(a: seq<Hash>, b: seq<Hash>, d: nat)
    requires a != [] && b != []
    requires NoDuplicates(a) && NoDuplicates(b)
    requires AtDepth(a, d) && AtDepth(b, d)
    requires Root(a) == Root(b)
    ensures a == b
    decreases |a|
  {
    RootDepth(a, d);
    RootDepth(b, d);
    if |a| > 1 && |b| > 1 {
      PairUpDepth(a, d);
      PairUpDepth(b, d);
      PairUpNoDuplicates(a);
      PairUpNoDuplicates(b);
      RootInjective(PairUp(a), PairUp(b), d + 1);
      PairUpInjective(a, b);
    }
  }

  /**
    The state root is a faithful name of the live map: two databases have the
    same root exactly when their live maps are equal, in whatever order the
    items were collected.
   */
  lemma RootNamesTheMap(a: seq<Item>, m: map<Bytes, Bytes>, b: seq<Item>, n: map<Bytes, Bytes>)
    requires Lists(a, m) && Lists(b, n)
    ensures StateRoot(a) == StateRoot(b) <==> m == n
  {
    if m == n {
      SortIsCanonical(a, b, m);
      assert a == [] <==> m == map[] by { if a == [] { NothingListed(m); } }
      assert b == [] <==> m == map[] by { if b == [] { NothingListed(m); } }
    }
    if StateRoot(a) == StateRoot(b) {
      SameRootSameItems(a, b, m, n);
      forall k ensures k in m <==> k in n {
        if k in m { ListedIn(a, m, b, n, k); }
        if k in n { ListedIn(b, n, a, m, k); }
      }
      forall k | k in m ensures m[k] == n[k] { ListedIn(a, m, b, n, k); }
    }
  }

  lemma NothingListed(m: map<Bytes, Bytes>)
    requires Lists([], m)
    ensures m == map[]
  {
    assert forall k :: k !in m;
  }

  lemma ListedIn(a: seq<Item>, m: map<Bytes, Bytes>, b: seq<Item>, n: map<Bytes, Bytes>, k: Bytes)
    requires Lists(a, m) && Lists(b, n) && k in m
    requires forall x :: x in a ==> x in b
    ensures k in n && n[k] == m[k]
  {
    assert Item(k, m[k]) in b;
  }

  lemma SameRootSameItems(a: seq<Item>, b: seq<Item>, m: map<Bytes, Bytes>, n: map<Bytes, Bytes>)
    requires Lists(a, m) && Lists(b, n)
    requires StateRoot(a) == StateRoot(b)
    ensures forall x :: x in a <==> x in b
  {
    SortSorts(a);
    SortSorts(b);
    assert |Sort(a)| == |multiset(a)| == |a|;
    assert |Sort(b)| == |multiset(b)| == |b|;
    if a != [] { RootDepth(Leaves(Sort(a)), 0); RootNotZero(Leaves(Sort(a))); }
    if b != [] { RootDepth(Leaves(Sort(b)), 0); RootNotZero(Leaves(Sort(b))); }
    if a != [] && b != [] {
      LeavesNoDuplicates(Sort(a));
      LeavesNoDuplicates(Sort(b));
      RootInjective(Leaves(Sort(a)), Leaves(Sort(b)), 0);
      LeavesInjective(Sort(a), Sort(b));
      forall x ensures x in a <==> x in b {
        assert x in a <==> x in multiset(Sort(a));
        assert x in b <==> x in multiset(Sort(b));
      }
    }
  }

  lemma {:induction false} RootNotZero(level: seq<Hash>)
    requires level != []
    requires forall i :: 0 <= i < |level| ==> level[i] != ZeroRoot
    ensures Root(level) != ZeroRoot
    decreases |level|
  {
    if |level| > 1 {
      forall i | 0 <= i < |PairUp(level)| ensures PairUp(level)[i] != ZeroRoot { PairUpAt(level, i); }
      RootNotZero(PairUp(level));
    }
  }

  lemma LeavesNoDuplicates(s: seq<Item>)
    requires StrictlySorted(s)
    ensures NoDuplicates(Leaves(s))
  {
    SortedIsDistinct(s);
  }

  lemma LeavesInjective(s: seq<Item>, t: seq<Item>)
    requires Leaves(s) == Leaves(t)
    ensures s == t
  {
    forall i | 0 <= i < |s| ensures s[i] == t[i] {
      assert Leaves(s)[i] == Leaf(s[i].key, s[i].value);
      assert Leaves(t)[i] == Leaf(t[i].key, t[i].value);
    }
  }

  /**
    Without distinct keys the odd-level duplication would collide: three equal-keyed
    tails and four give one root.  Distinct keys are what rules this out.
   */
  lemma DuplicatedTailCollides(x: Hash, y: Hash, z: Hash)
    ensures Root([x, y, z]) == Root([x, y, z, z])
  {
    assert [x, y, z][2..] == [z] && [x, y, z, z][2..] == [z, z];
    assert [z, z][2..] == [];
    assert PairUp([z, z]) == [Node(z, z)] + PairUp([]);
    assert PairUp([x, y, z]) == PairUp([x, y, z, z]);
  }

  // ----- the loop over one buffer -----

  /** The in-place halving loop of qrxdb_recompute_merkle. */
  method FoldInPlace(level: array<Hash>) returns (root: Hash)
    requires level.Length > 0
    modifies level
    ensures root == Root(old(level[..]))
  {
    var n := level.Length;
    assert level[..n] == level[..];
    while n > 1
      invariant 1 <= n <= level.Length
      invariant Root(level[..n]) == Root(old(level[..]))
      decreases n
    {
      ghost var before := level[..n];
      var outn, i := 0, 0;
      while i < n
        invariant i == 2 * outn && outn <= (n + 1) / 2
        invariant forall j :: i <= j < n ==> level[j] == before[j]
        invariant forall j :: 0 <= j < outn ==> level[j] == PairUp(before)[j]
      {
        var a := level[i];
        var b := if i + 1 < n then level[i + 1] else a;
        PairUpAt(before, outn);
        level[outn] := Node(a, b);
        outn := outn + 1;
        i := i + 2;
      }
      assert level[..outn] == PairUp(before);
      n := outn;
    }
    root := level[0];
  }
}
