/**
  Keys and values of QRXDB (qrx-core/src/qrxdb.c), the key order of its two
  comparison callbacks, and lists of key/value items standing for maps.
 */
module QrxdbKeys {

  // Keys and values enter QRXDB as C strings, so no byte of them is NUL.
  type Byte = x: int | 1 <= x < 256 witness 1
  type Bytes = seq<Byte>

  // The value that marks a deleted key: 0x1e "QRXDB_DELETE_V1" 0x1e.
  const TOMBSTONE: Bytes := [0x1e, 81, 82, 88, 68, 66, 95, 68, 69, 76, 69, 84, 69, 95, 86, 49, 0x1e]

  datatype Item = Item(key: Bytes, value: Bytes)

  /** memcmp on the common prefix, then the shorter key first. */
  predicate Less(a: Bytes, b: Bytes) {
    if b == [] then false
    else if a == [] then true
    else a[0] < b[0] || (a[0] == b[0] && Less(a[1..], b[1..]))
  }

  lemma {:induction false} LessIrreflexive(a: Bytes)
    ensures !Less(a, a)
  {
    if a != [] { LessIrreflexive(a[1..]); }
  }

  lemma {:induction false} LessTransitive(a: Bytes, b: Bytes, c: Bytes)
    requires Less(a, b) && Less(b, c)
    ensures Less(a, c)
  {
    if a != [] && a[0] == b[0] && b[0] == c[0] { LessTransitive(a[1..], b[1..], c[1..]); }
  }

  lemma {:induction false} LessTotal(a: Bytes, b: Bytes)
    ensures a == b || Less(a, b) || Less(b, a)
  {
    if a != [] && b != [] && a[0] == b[0] {
      LessTotal(a[1..], b[1..]);
      if a[1..] == b[1..] {
        assert a == [a[0]] + a[1..] && b == [b[0]] + b[1..];
      }
    }
  }

  ghost predicate DistinctKeys(s: seq<Item>) {
    forall i, j :: 0 <= i < j < |s| ==> s[i].key != s[j].key
  }

  ghost predicate StrictlySorted(s: seq<Item>) {
    forall i, j :: 0 <= i < j < |s| ==> Less(s[i].key, s[j].key)
  }

  /** The list holds every pair of the map exactly once and nothing else. */
  ghost predicate Lists(s: seq<Item>, m: map<Bytes, Bytes>) {
    && DistinctKeys(s)
    && (forall i :: 0 <= i < |s| ==> s[i].key in m && m[s[i].key] == s[i].value)
    && (forall k :: k in m ==> Item(k, m[k]) in s)
  }

  lemma SortedIsDistinct(s: seq<Item>)
    requires StrictlySorted(s)
    ensures DistinctKeys(s)
  {
    forall i, j | 0 <= i < j < |s| ensures s[i].key != s[j].key {
      LessIrreflexive(s[i].key);
    }
  }

  /** A map has only one strictly sorted listing. */
  lemma {:induction false} SortedListingUnique(a: seq<Item>, b: seq<Item>)
    requires StrictlySorted(a) && StrictlySorted(b)
    requires forall x :: x in a <==> x in b
    ensures a == b
    decreases |a|
  {
    assert b == [] || b[0] in a;
    if a != [] {
      assert a[0] in b && b[0] in a;
      FirstIsLeast(a, b[0]);
      FirstIsLeast(b, a[0]);
      if a[0] != b[0] {
        assert Less(a[0].key, b[0].key) && Less(b[0].key, a[0].key);
        LessTransitive(a[0].key, b[0].key, a[0].key);
        LessIrreflexive(a[0].key);
      }
      NotInTail(a);
      NotInTail(b);
      assert a == [a[0]] + a[1..] && b == [b[0]] + b[1..];
      forall x ensures x in a[1..] <==> x in b[1..] {
        assert x in a <==> x == a[0] || x in a[1..];
        assert x in b <==> x == b[0] || x in b[1..];
      }
      SortedListingUnique(a[1..], b[1..]);
    }
  }

  lemma FirstIsLeast(s: seq<Item>, x: Item)
    requires StrictlySorted(s) && x in s
    ensures x == s[0] || Less(s[0].key, x.key)
  {
  }

  lemma NotInTail(s: seq<Item>)
    requires StrictlySorted(s) && s != []
    ensures s[0] !in s[1..]
  {
    LessIrreflexive(s[0].key);
  }

  /** Put x before the first item whose key is not smaller. */
  function Insert(x: Item, s: seq<Item>): seq<Item> {
    if s == [] then [x]
    else if Less(s[0].key, x.key) then [s[0]] + Insert(x, s[1..])
    else [x] + s
  }

  /** What qsort with cmp_kv_key produces on pairwise different keys. */
  function Sort(s: seq<Item>): seq<Item> {
    if s == [] then [] else Insert(s[0], Sort(s[1..]))
  }

  lemma {:induction false} InsertKeepsItems(x: Item, s: seq<Item>)
    ensures multiset(Insert(x, s)) == multiset(s) + multiset{x}
  {
    if s != [] {
      assert s == [s[0]] + s[1..];
      if Less(s[0].key, x.key) { InsertKeepsItems(x, s[1..]); }
    }
  }

  lemma {:induction false} InsertSorted(x: Item, s: seq<Item>)
    requires StrictlySorted(s)
    requires forall i :: 0 <= i < |s| ==> s[i].key != x.key
    ensures StrictlySorted(Insert(x, s))
  {
    if s != [] {
      if Less(s[0].key, x.key) {
        InsertSorted(x, s[1..]);
        var t := Insert(x, s[1..]);
        InsertKeepsItems(x, s[1..]);
        forall j | 0 <= j < |t| ensures Less(s[0].key, t[j].key) {
          assert t[j] in multiset(t);
          assert t[j] == x || t[j] in s[1..];
        }
      } else {
        LessTotal(s[0].key, x.key);
        forall j | 0 <= j < |s| ensures Less(x.key, s[j].key) {
          if j > 0 { LessTransitive(x.key, s[0].key, s[j].key); }
        }
      }
    }
  }

  /** Sorting a listing of a map keeps it a listing and puts its keys in strict order. */
  lemma {:induction false} SortSorts(s: seq<Item>)
    requires DistinctKeys(s)
    ensures StrictlySorted(Sort(s))
    ensures multiset(Sort(s)) == multiset(s)
  {
    if s != [] {
      SortSorts(s[1..]);
      InsertKeepsItems(s[0], Sort(s[1..]));
      assert s == [s[0]] + s[1..];
      forall i | 0 <= i < |Sort(s[1..])| ensures Sort(s[1..])[i].key != s[0].key {
        assert Sort(s[1..])[i] in multiset(Sort(s[1..]));
        assert Sort(s[1..])[i] in s[1..];
      }
      InsertSorted(s[0], Sort(s[1..]));
    }
  }

  lemma SortLists(s: seq<Item>, m: map<Bytes, Bytes>)
    requires Lists(s, m)
    ensures StrictlySorted(Sort(s)) && Lists(Sort(s), m)
  {
    SortSorts(s);
    SortedIsDistinct(Sort(s));
    forall i | 0 <= i < |Sort(s)| ensures Sort(s)[i].key in m && m[Sort(s)[i].key] == Sort(s)[i].value {
      assert Sort(s)[i] in multiset(Sort(s));
      assert Sort(s)[i] in s;
    }
    forall k | k in m ensures Item(k, m[k]) in Sort(s) {
      assert Item(k, m[k]) in multiset(s);
    }
  }

  /** Two listings of one map sort to the same sequence, whatever order they arrived in. */
  lemma SortIsCanonical(a: seq<Item>, b: seq<Item>, m: map<Bytes, Bytes>)
    requires Lists(a, m) && Lists(b, m)
    ensures Sort(a) == Sort(b)
  {
    SortLists(a, m);
    SortLists(b, m);
    SortedListingUnique(Sort(a), Sort(b));
  }

  /** Position of the first item with this key, or the length of the list. */
  function Find(s: seq<Item>, k: Bytes): (i: nat)
    ensures i <= |s|
    ensures i < |s| ==> s[i].key == k
    ensures forall j :: 0 <= j < i ==> s[j].key != k
  {
    if s == [] || s[0].key == k then 0 else 1 + Find(s[1..], k)
  }

  /** Replace the value of a key in place, or append the pair (kv_upsert). */
  function Upsert(s: seq<Item>, k: Bytes, v: Bytes): seq<Item> {
    var i := Find(s, k);
    if i < |s| then s[i := Item(k, v)] else s + [Item(k, v)]
  }

  lemma UpsertLists(s: seq<Item>, k: Bytes, v: Bytes, m: map<Bytes, Bytes>)
    requires Lists(s, m)
    ensures Lists(Upsert(s, k, v), m[k := v])
  {
    var t, n := Upsert(s, k, v), m[k := v];
    var i := Find(s, k);
    assert t[i] == Item(k, v);
    forall x | x in n ensures Item(x, n[x]) in t {
      if x != k {
        var j :| 0 <= j < |s| && s[j] == Item(x, m[x]);
        assert t[j] == s[j];
      }
    }
  }
}
