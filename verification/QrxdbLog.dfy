/**
  The data file of QRXDB (qrx-core/src/qrxdb.c) as a log of records at 8-aligned
  offsets, its last-writer-wins reading, and the in-memory index over it.

  A disk maps an offset to the record whose bytes lie intact at that offset.  A
  torn or overwritten record is simply not in the map, which is what an ideal
  CRC check reports.
 */
module QrxdbLog {
  import opened Wrappers
  import opened QrxdbKeys
  import opened QrxdbMerkle

  const DATA_START: nat := 112      // align8(sizeof(QrxDBFileHeader))
  const RECORD_HEADER: nat := 32    // sizeof(QrxDBRecordHeader)
  const MAX_KEY_SIZE: nat := 1024 * 1024
  const MAX_VALUE_SIZE: nat := 512 * 1024 * 1024

  datatype Record = Record(key: Bytes, value: Bytes, gen: nat)
  type Disk = map<nat, Record>

  function Align8(x: nat): (r: nat)
    ensures r % 8 == 0 && x <= r < x + 8
  {
    (x + 7) / 8 * 8
  }

  function RawSize(r: Record): nat { RECORD_HEADER + |r.key| + |r.value| }

  /** qrxdb_record_storage_size. */
  function Size(r: Record): (n: nat)
    ensures n % 8 == 0 && RECORD_HEADER <= RawSize(r) <= n < RawSize(r) + 8
  {
    Align8(RawSize(r))
  }

  predicate WithinLimits(r: Record) { |r.key| <= MAX_KEY_SIZE && |r.value| <= MAX_VALUE_SIZE }

  /** read_record_at succeeds. */
  predicate Readable(d: Disk, off: nat, limit: nat) {
    && off + RECORD_HEADER <= limit
    && off in d
    && WithinLimits(d[off])
    && off + RawSize(d[off]) <= limit
  }

  /** The records met by walking the file from off until one is unreadable. */
  function Scan(d: Disk, off: nat, limit: nat): seq<Record>
    decreases if limit > off then limit - off else 0
  {
    if Readable(d, off, limit)
    then [d[off]] + Scan(d, Align8(off + RawSize(d[off])), limit)
    else []
  }

  function Span(recs: seq<Record>): (n: nat)
    ensures n % 8 == 0
  {
    if recs == [] then 0 else Size(recs[0]) + Span(recs[1..])
  }

  /** The records laid out back to back from off. */
  function Place(off: nat, recs: seq<Record>): Disk
    decreases recs
  {
    if recs == [] then map[] else Place(off + Size(recs[0]), recs[1..])[off := recs[0]]
  }

  ghost predicate Holds(d: Disk, off: nat, recs: seq<Record>)
    decreases recs
  {
    recs == [] || (off in d && d[off] == recs[0] && Holds(d, off + Size(recs[0]), recs[1..]))
  }

  ghost predicate AllWithinLimits(recs: seq<Record>) {
    forall i :: 0 <= i < |recs| ==> WithinLimits(recs[i])
  }

  /** The records of d that reach into [lo, hi) removed. */
  function Cut(d: Disk, lo: nat, hi: nat): Disk {
    map o | o in d && (o + Size(d[o]) <= lo || hi <= o) :: d[o]
  }

  /** A record written at off destroys whatever it overlaps. */
  function Write(d: Disk, off: nat, r: Record): Disk { Cut(d, off, off + Size(r))[off := r] }

  function WriteAll(d: Disk, off: nat, recs: seq<Record>): Disk
    decreases recs
  {
    if recs == [] then d else WriteAll(Write(d, off, recs[0]), off + Size(recs[0]), recs[1..])
  }

  function LastGen(recs: seq<Record>): nat {
    if recs == [] then 0 else recs[|recs| - 1].gen
  }

  // ----- layout lemmas -----

  lemma {:induction false} SpanAppend(a: seq<Record>, b: seq<Record>)
    ensures Span(a + b) == Span(a) + Span(b)
  {
    if a == [] {
      assert a + b == b;
    } else {
      assert (a + b)[1..] == a[1..] + b;
      SpanAppend(a[1..], b);
    }
  }

  lemma {:induction false} HoldsAppend(d: Disk, off: nat, a: seq<Record>, b: seq<Record>)
    ensures Holds(d, off, a + b) <==> Holds(d, off, a) && Holds(d, off + Span(a), b)
    decreases a
  {
    if a == [] {
      assert a + b == b;
    } else {
      assert (a + b)[1..] == a[1..] + b;
      HoldsAppend(d, off + Size(a[0]), a[1..], b);
    }
  }

  lemma {:induction false} PlaceBounds(off: nat, recs: seq<Record>)
    ensures forall o :: o in Place(off, recs) ==>
              off <= o && o + Size(Place(off, recs)[o]) <= off + Span(recs)
    decreases recs
  {
    if recs != [] { PlaceBounds(off + Size(recs[0]), recs[1..]); }
  }

  lemma {:induction false} PlaceAppend(off: nat, a: seq<Record>, b: seq<Record>)
    ensures Place(off, a + b) == Place(off, a) + Place(off + Span(a), b)
    decreases a
  {
    if a == [] {
      assert a + b == b;
      EmptyUnion(Place(off, b));
    } else {
      PlaceAppend(off + Size(a[0]), a[1..], b);
      PlaceAppendStep(off, a, b);
    }
  }

  lemma PlaceAppendStep(off: nat, a: seq<Record>, b: seq<Record>)
    requires a != []
    requires var next := off + Size(a[0]);
             Place(next, a[1..] + b) == Place(next, a[1..]) + Place(next + Span(a[1..]), b)
    ensures Place(off, a + b) == Place(off, a) + Place(off + Span(a), b)
  {
    hide Size;
    var next := off + Size(a[0]);
    assert (a + b)[1..] == a[1..] + b;
    NotPlacedBelow(next + Span(a[1..]), b, off);
    UpdateUnion(Place(next, a[1..]), Place(next + Span(a[1..]), b), off, a[0]);
  }

  lemma EmptyUnion(d: Disk)
    ensures map[] + d == d
  {
  }

  lemma UpdateUnion(a: Disk, b: Disk, off: nat, r: Record)
    requires off !in b
    ensures (a + b)[off := r] == a[off := r] + b
  {
  }

  /** The disk holds a log exactly when the laid-out log is part of it. */
  lemma {:induction false} HoldsIffPlaced(d: Disk, off: nat, recs: seq<Record>)
    ensures Holds(d, off, recs) <==>
            forall o :: o in Place(off, recs) ==> o in d && d[o] == Place(off, recs)[o]
    decreases recs
  {
    if recs != [] {
      HoldsIffPlaced(d, off + Size(recs[0]), recs[1..]);
      PlaceBounds(off + Size(recs[0]), recs[1..]);
      var rest := Place(off + Size(recs[0]), recs[1..]);
      assert forall o :: o in Place(off, recs) <==> o == off || o in rest;
      assert off !in rest;
    }
  }

  /** Where the i-th record of a held log lies. */
  lemma HeldAt(d: Disk, off: nat, recs: seq<Record>, i: nat)
    requires Holds(d, off, recs) && i < |recs|
    ensures off + Span(recs[..i]) in d && d[off + Span(recs[..i])] == recs[i]
    ensures Span(recs[..i]) + Size(recs[i]) <= Span(recs)
  {
    assert recs == recs[..i] + recs[i..];
    HoldsAppend(d, off, recs[..i], recs[i..]);
    SpanAppend(recs[..i], recs[i..]);
  }

  /** A scan reads back a held log and goes on behind it. */
  lemma {:induction false} ScanHeld(d: Disk, off: nat, recs: seq<Record>, limit: nat)
    requires off % 8 == 0 && Holds(d, off, recs) && AllWithinLimits(recs)
    requires off + Span(recs) <= limit
    ensures Scan(d, off, limit) == recs + Scan(d, off + Span(recs), limit)
    decreases recs
  {
    if recs != [] {
      assert Align8(off + RawSize(d[off])) == off + Size(d[off]);
      ScanHeld(d, off + Size(recs[0]), recs[1..], limit);
      assert recs == [recs[0]] + recs[1..];
    } else {
      assert recs + Scan(d, off, limit) == Scan(d, off, limit);
    }
  }

  /** What a scan returns is held by the disk. */
  lemma {:induction false} ScanIsHeld(d: Disk, off: nat, limit: nat)
    requires off % 8 == 0
    ensures Holds(d, off, Scan(d, off, limit)) && AllWithinLimits(Scan(d, off, limit))
    ensures limit % 8 == 0 && off <= limit ==> off + Span(Scan(d, off, limit)) <= limit
    ensures !Readable(d, off + Span(Scan(d, off, limit)), limit)
    decreases if limit > off then limit - off else 0
  {
    if Readable(d, off, limit) {
      var next := Align8(off + RawSize(d[off]));
      assert next == off + Size(d[off]);
      ScanIsHeld(d, next, limit);
      assert Scan(d, off, limit)[1..] == Scan(d, next, limit);
    }
  }

  /** Reading a log back within its own extent yields exactly that log. */
  lemma ScanExactly(d: Disk, off: nat, recs: seq<Record>)
    requires off % 8 == 0 && Holds(d, off, recs) && AllWithinLimits(recs)
    ensures Scan(d, off, off + Span(recs)) == recs
  {
    ScanHeld(d, off, recs, off + Span(recs));
    assert recs + [] == recs;
  }

  /** Writing a run of records clears its extent and lays the run out there. */
  lemma {:induction false} WriteAllIs(d: Disk, off: nat, recs: seq<Record>)
    requires recs != []
    ensures WriteAll(d, off, recs) == Cut(d, off, off + Span(recs)) + Place(off, recs)
    decreases recs
  {
    hide Cut, Size;
    var r, next, rest := recs[0], off + Size(recs[0]), recs[1..];
    var e := Write(d, off, r);
    if rest == [] {
      MoveEntry(Cut(d, off, off + Size(r)), map[], off, r);
    } else {
      NotPlacedBelow(next, rest, off);
      calc {
        WriteAll(d, off, recs);
        WriteAll(e, next, rest);
        { WriteAllIs(e, next, rest); }
        Cut(e, next, next + Span(rest)) + Place(next, rest);
        { CutWrite(d, off, r, Span(rest)); }
        Cut(d, off, off + Span(recs))[off := r] + Place(next, rest);
        { MoveEntry(Cut(d, off, off + Span(recs)), Place(next, rest), off, r); }
        Cut(d, off, off + Span(recs)) + Place(next, rest)[off := r];
        Cut(d, off, off + Span(recs)) + Place(off, recs);
      }
    }
  }

  lemma NotPlacedBelow(off: nat, recs: seq<Record>, o: nat)
    requires o < off
    ensures o !in Place(off, recs)
  {
    PlaceBounds(off, recs);
  }

  lemma MoveEntry(a: Disk, b: Disk, off: nat, r: Record)
    requires off !in b
    ensures a[off := r] + b == a + b[off := r]
  {
  }

  lemma CutWrite(d: Disk, off: nat, r: Record, more: nat)
    ensures Cut(Write(d, off, r), off + Size(r), off + Size(r) + more) ==
            Cut(d, off, off + Size(r) + more)[off := r]
  {
    var e := Write(d, off, r);
    var n := Size(r);
    assert forall o :: o in d ==> Size(d[o]) > 0;
    assert forall o :: o in e && o != off ==> o in d && e[o] == d[o];
  }

  // ----- the live map -----

  /** Last value written per key, tombstones included. */
  function Latest(recs: seq<Record>): map<Bytes, Bytes> {
    if recs == [] then map[]
    else
      var r := recs[|recs| - 1];
      Latest(recs[..|recs| - 1])[r.key := r.value]
  }

  function LiveOnly(m: map<Bytes, Bytes>): map<Bytes, Bytes> { map k | k in m && m[k] != TOMBSTONE :: m[k] }

  /** The live map: last writer wins, deleted keys absent. */
  function Live(recs: seq<Record>): map<Bytes, Bytes> { LiveOnly(Latest(recs)) }

  lemma {:induction false} LatestAppend(a: seq<Record>, b: seq<Record>)
    ensures Latest(a + b) == Latest(a) + Latest(b)
  {
    if b == [] {
      assert a + b == a;
    } else {
      assert (a + b)[..|a + b| - 1] == a + b[..|b| - 1];
      LatestAppend(a, b[..|b| - 1]);
    }
  }

  /** The scan half of qrxdb_collect_live: one slot per key, in first-seen order. */
  function Collect(recs: seq<Record>): seq<Item> {
    if recs == [] then []
    else
      var r := recs[|recs| - 1];
      Upsert(Collect(recs[..|recs| - 1]), r.key, r.value)
  }

  /** The squeezing half of qrxdb_collect_live. */
  function DropTombstones(items: seq<Item>): seq<Item> {
    if items == [] then []
    else if items[|items| - 1].value == TOMBSTONE then DropTombstones(items[..|items| - 1])
    else DropTombstones(items[..|items| - 1]) + [items[|items| - 1]]
  }

  function LiveItems(recs: seq<Record>): seq<Item> { DropTombstones(Collect(recs)) }

  lemma {:induction false} CollectLists(recs: seq<Record>)
    ensures Lists(Collect(recs), Latest(recs))
  {
    if recs != [] {
      var r := recs[|recs| - 1];
      CollectLists(recs[..|recs| - 1]);
      UpsertLists(Collect(recs[..|recs| - 1]), r.key, r.value, Latest(recs[..|recs| - 1]));
    }
  }

  lemma {:induction false} DropTombstonesKeeps(items: seq<Item>)
    requires DistinctKeys(items)
    ensures DistinctKeys(DropTombstones(items))
    ensures forall x :: x in DropTombstones(items) <==> x in items && x.value != TOMBSTONE
  {
    if items != [] {
      var init, last := items[..|items| - 1], items[|items| - 1];
      DropTombstonesKeeps(init);
      assert items == init + [last];
      assert forall i :: 0 <= i < |DropTombstones(init)| ==> DropTombstones(init)[i] in init;
    }
  }

  /** Collecting from the log yields exactly the live map. */
  lemma LiveItemsList(recs: seq<Record>)
    ensures Lists(LiveItems(recs), Live(recs))
  {
    CollectLists(recs);
    DropTombstonesKeeps(Collect(recs));
    var m, s := Live(recs), LiveItems(recs);
    forall i | 0 <= i < |s| ensures s[i].key in m && m[s[i].key] == s[i].value {
      assert s[i] in Collect(recs);
    }
    forall k | k in m ensures Item(k, m[k]) in s {
      assert Item(k, m[k]) in Collect(recs);
    }
  }

  /** The state root of a log. */
  function RootOf(recs: seq<Record>): Hash { StateRoot(LiveItems(recs)) }

  /**
    Faithful and history independent: two logs have the same state root exactly
    when they have the same live map.
   */
  lemma SameRootIffSameLiveMap(a: seq<Record>, b: seq<Record>)
    ensures RootOf(a) == RootOf(b) <==> Live(a) == Live(b)
  {
    LiveItemsList(a);
    LiveItemsList(b);
    RootNamesTheMap(LiveItems(a), Live(a), LiveItems(b), Live(b));
  }

  // ----- the index -----

  datatype IndexEntry = IndexEntry(key: Bytes, offset: nat, gen: nat)

  function FindEntry(ix: seq<IndexEntry>, k: Bytes): (i: nat)
    ensures i <= |ix|
    ensures i < |ix| ==> ix[i].key == k
    ensures forall j :: 0 <= j < i ==> ix[j].key != k
  {
    if ix == [] || ix[0].key == k then 0 else 1 + FindEntry(ix[1..], k)
  }

  function IndexUpsert(ix: seq<IndexEntry>, k: Bytes, off: nat, gen: nat): seq<IndexEntry> {
    var i := FindEntry(ix, k);
    if i < |ix| then ix[i := IndexEntry(k, off, gen)] else ix + [IndexEntry(k, off, gen)]
  }

  /** The index after the records of a log starting at DATA_START. */
  function IndexOf(recs: seq<Record>): seq<IndexEntry> {
    if recs == [] then []
    else
      var init, r := recs[..|recs| - 1], recs[|recs| - 1];
      IndexUpsert(IndexOf(init), r.key, DATA_START + Span(init), r.gen)
  }

  /** Position i holds the last record of its key. */
  ghost predicate LastOfKey(recs: seq<Record>, i: nat) {
    i < |recs| && forall j :: i < j < |recs| ==> recs[j].key != recs[i].key
  }

  /** An index entry points at the last record of its key. */
  ghost predicate PointsAtLast(recs: seq<Record>, e: IndexEntry) {
    exists i: nat :: LastOfKey(recs, i) && recs[i].key == e.key && recs[i].gen == e.gen
                     && e.offset == DATA_START + Span(recs[..i])
  }

  lemma {:induction false} PointsAtLastExtends(recs: seq<Record>, r: Record, e: IndexEntry)
    requires PointsAtLast(recs, e) && e.key != r.key
    ensures PointsAtLast(recs + [r], e)
  {
    var i: nat :| LastOfKey(recs, i) && recs[i].key == e.key && recs[i].gen == e.gen
                  && e.offset == DATA_START + Span(recs[..i]);
    assert (recs + [r])[..i] == recs[..i];
    assert LastOfKey(recs + [r], i);
  }

  /** The index holds each written key once, at its last record. */
  lemma {:induction false} IndexRefinesLog(recs: seq<Record>)
    ensures forall i, j :: 0 <= i < j < |IndexOf(recs)| ==> IndexOf(recs)[i].key != IndexOf(recs)[j].key
    ensures forall i :: 0 <= i < |IndexOf(recs)| ==> PointsAtLast(recs, IndexOf(recs)[i])
    ensures forall k :: k in Latest(recs) <==> FindEntry(IndexOf(recs), k) < |IndexOf(recs)|
  {
    hide Span, PointsAtLast, LastOfKey;
    if recs != [] {
      var init, r := recs[..|recs| - 1], recs[|recs| - 1];
      assert recs == init + [r];
      IndexRefinesLog(init);
      var before, after := IndexOf(init), IndexOf(recs);
      var f := FindEntry(before, r.key);
      assert after == IndexUpsert(before, r.key, DATA_START + Span(init), r.gen);
      NewestIsLast(init, r);
      forall i | 0 <= i < |after| ensures PointsAtLast(recs, after[i]) {
        if i != f { PointsAtLastExtends(init, r, before[i]); }
      }
      forall k ensures k in Latest(recs) <==> FindEntry(after, k) < |after| {
        UpsertFinds(before, r.key, DATA_START + Span(init), r.gen, k);
      }
    }
  }

  lemma NewestIsLast(init: seq<Record>, r: Record)
    ensures PointsAtLast(init + [r], IndexEntry(r.key, DATA_START + Span(init), r.gen))
  {
    assert LastOfKey(init + [r], |init|) && (init + [r])[..|init|] == init;
  }

  lemma UpsertFinds(ix: seq<IndexEntry>, key: Bytes, off: nat, gen: nat, k: Bytes)
    ensures var after := IndexUpsert(ix, key, off, gen);
            FindEntry(after, k) < |after| <==> k == key || FindEntry(ix, k) < |ix|
  {
    var after := IndexUpsert(ix, key, off, gen);
    var f, g := FindEntry(ix, key), FindEntry(ix, k);
    assert after[f].key == key;
    if g < |ix| && k != key { assert after[g].key == k; }
  }

  /** The value at the last record of a key is the latest value. */
  lemma {:induction false} LastOfKeyIsLatest(recs: seq<Record>, i: nat)
    requires LastOfKey(recs, i)
    ensures recs[i].key in Latest(recs) && Latest(recs)[recs[i].key] == recs[i].value
  {
    var n := |recs|;
    if i < n - 1 {
      LastOfKeyIsLatest(recs[..n - 1], i);
    }
  }

  /** Value found through an index, None for a missing or deleted key. */
  function IndexedGet(d: Disk, ix: seq<IndexEntry>, end: nat, k: Bytes): Option<Bytes> {
    var i := FindEntry(ix, k);
    if i < |ix| && Readable(d, ix[i].offset, end) && d[ix[i].offset].value != TOMBSTONE
    then Some(d[ix[i].offset].value) else None
  }

  function Lookup(m: map<Bytes, Bytes>, k: Bytes): Option<Bytes> {
    if k in m then Some(m[k]) else None
  }

  /** The record an index entry points at is readable and holds the latest value of the key. */
  lemma EntryReads(d: Disk, recs: seq<Record>, e: IndexEntry)
    requires Holds(d, DATA_START, recs) && AllWithinLimits(recs)
    requires PointsAtLast(recs, e)
    ensures Readable(d, e.offset, DATA_START + Span(recs))
    ensures d[e.offset].key == e.key && d[e.offset].gen == e.gen
    ensures e.key in Latest(recs) && d[e.offset].value == Latest(recs)[e.key]
  {
    var i: nat :| LastOfKey(recs, i) && recs[i].key == e.key && recs[i].gen == e.gen
                  && e.offset == DATA_START + Span(recs[..i]);
    LastOfKeyIsLatest(recs, i);
    HeldAt(d, DATA_START, recs, i);
  }

  /** Indexed get agrees with the full last-writer-wins scan. */
  lemma IndexedGetIsLive(d: Disk, recs: seq<Record>, k: Bytes)
    requires Holds(d, DATA_START, recs) && AllWithinLimits(recs)
    ensures IndexedGet(d, IndexOf(recs), DATA_START + Span(recs), k) == Lookup(Live(recs), k)
  {
    IndexRefinesLog(recs);
    var ix := IndexOf(recs);
    var i := FindEntry(ix, k);
    if i < |ix| { EntryReads(d, recs, ix[i]); }
  }
}
