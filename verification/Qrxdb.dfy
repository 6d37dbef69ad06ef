/**
  QRXDB as an object (qrx-core/src/qrxdb.c): the fields of struct QrxDB, updated
  in place by the loops of the C code, each proved against the value-level
  functions of the other modules.
 */
module Qrxdb {
  import opened Wrappers
  import opened QrxdbKeys
  import opened QrxdbMerkle
  import opened QrxdbLog
  import opened QrxdbWal
  import opened QrxdbStore
  import opened QrxdbRecovery
  import opened QrxdbCrash
  import opened QrxdbReads
  import opened QrxdbCompact
  import opened QrxdbUnsynced

  // ----- one step of a forward walk -----

  lemma ScanStep(d: Disk, off: nat, limit: nat)
    requires off % 8 == 0 && Readable(d, off, limit)
    ensures Scan(d, off, limit) == [d[off]] + Scan(d, off + Size(d[off]), limit)
    ensures Align8(off + RawSize(d[off])) == off + Size(d[off])
    ensures (off + Size(d[off])) % 8 == 0
  {
    assert Align8(off + RawSize(d[off])) == off + Size(d[off]);
  }

  lemma SpanSnoc(recs: seq<Record>, r: Record)
    ensures Span(recs + [r]) == Span(recs) + Size(r)
  {
    SpanAppend(recs, [r]);
    assert [r][1..] == [];
  }

  /** What a walk has seen so far and what is left make up the whole scan. */
  ghost predicate Walked(d: Disk, limit: nat, seen: seq<Record>, off: nat) {
    && off % 8 == 0
    && off == DATA_START + Span(seen)
    && Scan(d, DATA_START, limit) == seen + Scan(d, off, limit)
  }

  lemma WalkStart(d: Disk, limit: nat)
    ensures Walked(d, limit, [], DATA_START)
  {
    assert [] + Scan(d, DATA_START, limit) == Scan(d, DATA_START, limit);
  }

  lemma WalkStep(d: Disk, limit: nat, seen: seq<Record>, off: nat)
    requires Walked(d, limit, seen, off) && Readable(d, off, limit)
    ensures Walked(d, limit, seen + [d[off]], Align8(off + RawSize(d[off])))
  {
    hide Scan, Span, Size, Align8;
    ScanStep(d, off, limit);
    SpanSnoc(seen, d[off]);
    assert seen + ([d[off]] + Scan(d, off + Size(d[off]), limit))
        == (seen + [d[off]]) + Scan(d, off + Size(d[off]), limit);
  }

  lemma WalkEnd(d: Disk, limit: nat, seen: seq<Record>, off: nat)
    requires Walked(d, limit, seen, off) && !Readable(d, off, limit)
    ensures Scan(d, DATA_START, limit) == seen
  {
    assert seen + [] == seen;
  }

  lemma CollectSnoc(recs: seq<Record>, r: Record)
    ensures Collect(recs + [r]) == Upsert(Collect(recs), r.key, r.value)
  {
    assert (recs + [r])[..|recs|] == recs;
  }

  lemma UpToSnoc(recs: seq<Record>, r: Record, g: nat)
    ensures UpTo(recs + [r], g) == if r.gen <= g then UpTo(recs, g) + [r] else UpTo(recs, g)
  {
    assert (recs + [r])[..|recs|] == recs;
  }

  lemma IndexSnoc(recs: seq<Record>, r: Record)
    ensures IndexOf(recs + [r]) == IndexUpsert(IndexOf(recs), r.key, DATA_START + Span(recs), r.gen)
  {
    hide Span;
    assert (recs + [r])[..|recs|] == recs;
  }

  lemma PrefixSnoc(recs: seq<Record>, r: Record, p: Bytes)
    ensures WithPrefix(recs + [r], p) == if HasPrefix(r.key, p) then WithPrefix(recs, p) + [r] else WithPrefix(recs, p)
  {
    hide HasPrefix;
    assert (recs + [r])[..|recs|] == recs;
  }

  // ----- byte counts and write loops of a commit -----

  /** What of a record whose write failed is on file. */
  function Left(item: WalItem, fault: Fault): Segment {
    match fault case Partial(n) => (if n > 0 then [Torn(n)] else []) case Unsynced => [item]
  }

  lemma {:induction false} SegmentBytesTake(s: Segment, n: nat)
    requires n <= |s|
    ensures SegmentBytes(s[..n]) <= SegmentBytes(s)
    ensures n < |s| ==> SegmentBytes(s[..n]) + WalSize(s[n]) == SegmentBytes(s[..n + 1]) <= SegmentBytes(s)
    decreases |s| - n
  {
    if n < |s| {
      assert s[..n + 1] == s[..n] + [s[n]];
      SegmentBytesSnoc(s[..n], s[n]);
      SegmentBytesTake(s, n + 1);
    } else {
      assert s[..n] == s;
    }
  }

  lemma {:induction false} WriteAllSnoc(d: Disk, off: nat, recs: seq<Record>, r: Record)
    ensures WriteAll(d, off, recs + [r]) == Write(WriteAll(d, off, recs), off + Span(recs), r)
    decreases recs
  {
    hide Write, Size;
    if recs == [] {
      assert recs + [r] == [r] && [r][1..] == [];
    } else {
      assert (recs + [r])[1..] == recs[1..] + [r];
      WriteAllSnoc(Write(d, off, recs[0]), off + Size(recs[0]), recs[1..], r);
    }
  }

  lemma AppendTwice(wal: Wal, a: Segment, b: Segment)
    requires wal != []
    ensures AppendToLast(AppendToLast(wal, a), b) == AppendToLast(wal, a + b)
  {
    var last := wal[|wal| - 1];
    assert (last + a) + b == last + (a + b);
  }

  /** kv_upsert: linear search, replace or append. */
  method KvUpsert(items: seq<Item>, k: Bytes, v: Bytes) returns (r: seq<Item>)
    ensures r == Upsert(items, k, v)
  {
    for i := 0 to |items|
      invariant forall j :: 0 <= j < i ==> items[j].key != k
    {
      if items[i].key == k {
        assert Find(items, k) == i;
        return items[i := Item(k, v)];
      }
    }
    r := items + [Item(k, v)];
  }

  /** A batch of puts and deletes with the offsets planned for them. */
  class Batch {
    const gen: nat
    const start: nat
    var entries: seq<Item>
    var plannedEnd: nat
    var active: bool

    ghost predicate Valid()
      reads this
    {
      ValidEntries(entries) && (active ==> plannedEnd == start + Span(RecordsOf(gen, entries)))
    }

    /** qrxdb_batch_begin. */
    constructor (db: QrxDB)
      ensures Valid() && active && entries == []
      ensures gen == db.gen + 1 && start == db.writeOffset
    {
      gen, start := db.gen + 1, db.writeOffset;
      entries, plannedEnd, active := [], db.writeOffset, true;
    }

    /** qrxdb_batch_put. */
    method Put(k: Bytes, v: Bytes) returns (ok: bool)
      requires Valid()
      modifies this
      ensures Valid() && active == old(active)
      ensures ok <==> old(active) && ValidEntry(Item(k, v))
      ensures entries == if ok then old(entries) + [Item(k, v)] else old(entries)
      ensures !ok ==> plannedEnd == old(plannedEnd)
    {
      if !active || !ValidEntry(Item(k, v)) { return false; }
      var r := Record(k, v, gen);
      SpanSnoc(RecordsOf(gen, entries), r);
      entries, plannedEnd := entries + [Item(k, v)], plannedEnd + Size(r);
      assert RecordsOf(gen, entries) == RecordsOf(gen, old(entries)) + [r];
      ok := true;
    }

    /** qrxdb_batch_delete. */
    method Delete(k: Bytes) returns (ok: bool)
      requires Valid()
      modifies this
      ensures Valid() && active == old(active)
      ensures ok <==> old(active) && 0 < |k| <= MAX_KEY_SIZE
      ensures entries == if ok then old(entries) + [Item(k, TOMBSTONE)] else old(entries)
    {
      ok := Put(k, TOMBSTONE);
    }

    /** qrxdb_batch_abort. */
    method Abort()
      modifies this
      ensures Valid() && !active && entries == []
    {
      entries, plannedEnd, active := [], 0, false;
    }
  }

  class QrxDB {
    var mem: Disk
    var platter: Disk
    var mapSize: nat
    var wal: Wal
    var walOffset: nat
    var writeOffset: nat
    var gen: nat
    var index: seq<IndexEntry>
    var root: Hash
    ghost var log: seq<Record>      // the records readers see

    function State(): Store
      reads this
    {
      Store(mem, platter, mapSize, wal, walOffset, writeOffset, gen)
    }

    function View(): Image
      reads this
    {
      Image(mem, mapSize, writeOffset, gen)
    }

    /** Data file, index and root present the same log; reads need no more. */
    ghost predicate Coherent()
      reads this
    {
      && mem == platter == Place(DATA_START, log)
      && writeOffset == DATA_START + Span(log) <= mapSize
      && AllWithinLimits(log)
      && index == IndexOf(log)
      && root == RootOf(log)
      && wal != []
    }

    /** Coherent, and recovery would keep it so; every operation but compaction maintains this. */
    ghost predicate Valid()
      reads this
    {
      Coherent() && Quiescent(State(), log)
    }

    /** A new database. */
    constructor ()
      ensures Valid() && State() == EMPTY && log == []
    {
      mem, platter, mapSize, wal, walOffset := map[], map[], DEFAULT_MAP_SIZE, [[]], 0;
      writeOffset, gen, index, root, log := DATA_START, 0, [], ZeroRoot, [];
      EmptyIsQuiescent();
      assert Collect([]) == [] && DropTombstones([]) == [];
    }

    // ----- index -----

    /** qrxdb_index_upsert. */
    method IndexPut(k: Bytes, off: nat, g: nat)
      modifies this`index
      ensures index == IndexUpsert(old(index), k, off, g)
    {
      for i := 0 to |index|
        invariant index == old(index)
        invariant forall j :: 0 <= j < i ==> index[j].key != k
      {
        if index[i].key == k {
          assert FindEntry(index, k) == i;
          index := index[i := IndexEntry(k, off, g)];
          return;
        }
      }
      index := index + [IndexEntry(k, off, g)];
    }

    /** qrxdb_index_find. */
    method IndexFind(k: Bytes) returns (r: Option<nat>)
      ensures r == if FindEntry(index, k) < |index| then Some(index[FindEntry(index, k)].offset) else None
    {
      for i := 0 to |index|
        invariant forall j :: 0 <= j < i ==> index[j].key != k
      {
        if index[i].key == k {
          assert FindEntry(index, k) == i;
          return Some(index[i].offset);
        }
      }
      r := None;
    }

    // ----- data records -----

    /** qrxdb_ensure_space. */
    method EnsureSpace(need: nat)
      modifies this`mapSize
      ensures mapSize == Grow(old(mapSize), writeOffset + need)
    {
      var end := writeOffset + need;
      if end <= mapSize { return; }
      var ns := if mapSize == 0 then DEFAULT_MAP_SIZE else mapSize;
      while ns < end
        invariant ns > 0 && Grow(ns, end) == Grow(old(mapSize), end)
        decreases end - ns
      {
        ns := 2 * ns;
      }
      mapSize := ns;
    }

    /** write_data_record. */
    method WriteDataRecord(k: Bytes, v: Bytes, g: nat) returns (ok: bool, off: nat)
      modifies this`mem, this`mapSize, this`writeOffset, this`gen, this`index
      ensures ok <==> WithinLimits(Record(k, v, g))
      ensures off == old(writeOffset)
      ensures ok ==> View() == WriteRecord(old(View()), Record(k, v, g))
      ensures ok ==> index == IndexUpsert(old(index), k, off, g)
      ensures !ok ==> View() == old(View()) && index == old(index)
    {
      var r := Record(k, v, g);
      off := writeOffset;
      if !WithinLimits(r) { return false, off; }
      EnsureSpace(Size(r));
      mem := Write(mem, off, r);
      writeOffset, gen := writeOffset + Size(r), g;
      IndexPut(k, off, g);
      ok := true;
    }

    /** scan_valid_tail. */
    method ScanValidTail(limit: nat) returns (good: nat, lastGen: nat)
      ensures good == DATA_START + Span(Scan(mem, DATA_START, limit))
      ensures lastGen == LastGen(Scan(mem, DATA_START, limit))
    {
      ghost var seen: seq<Record> := [];
      good, lastGen := DATA_START, 0;
      WalkStart(mem, limit);
      while Readable(mem, good, limit)
        invariant Walked(mem, limit, seen, good) && lastGen == LastGen(seen)
        decreases if limit > good then limit - good else 0
      {
        WalkStep(mem, limit, seen, good);
        seen := seen + [mem[good]];
        lastGen := mem[good].gen;
        good := Align8(good + RawSize(mem[good]));
      }
      WalkEnd(mem, limit, seen, good);
    }

    /** qrxdb_collect_live; maxgen None stands for UINT64_MAX. */
    method CollectLive(limit: nat, maxgen: Option<nat>) returns (items: seq<Item>)
      ensures maxgen.None? ==> items == LiveItems(Scan(mem, DATA_START, limit))
      ensures maxgen.Some? ==> items == LiveItems(UpTo(Scan(mem, DATA_START, limit), maxgen.value))
    {
      ghost var seen: seq<Record>, taken: seq<Record> := [], [];
      var off := DATA_START;
      var all: seq<Item> := [];
      WalkStart(mem, limit);
      while Readable(mem, off, limit)
        invariant Walked(mem, limit, seen, off)
        invariant taken == if maxgen.Some? then UpTo(seen, maxgen.value) else seen
        invariant all == Collect(taken)
        decreases if limit > off then limit - off else 0
      {
        var r := mem[off];
        WalkStep(mem, limit, seen, off);
        if maxgen.Some? { UpToSnoc(seen, r, maxgen.value); }
        seen := seen + [r];
        if maxgen.None? || r.gen <= maxgen.value {
          CollectSnoc(taken, r);
          taken := taken + [r];
          all := KvUpsert(all, r.key, r.value);
        }
        off := Align8(off + RawSize(r));
      }
      WalkEnd(mem, limit, seen, off);
      items := Squeeze(all);
    }

    /** The squeezing loop that drops deleted keys in place. */
    static method Squeeze(all: seq<Item>) returns (items: seq<Item>)
      ensures items == DropTombstones(all)
    {
      items := [];
      for i := 0 to |all|
        invariant items == DropTombstones(all[..i])
      {
        assert all[..i + 1][..i] == all[..i];
        if all[i].value != TOMBSTONE { items := items + [all[i]]; }
      }
      assert all[..|all|] == all;
    }

    /** qrxdb_recompute_merkle. */
    method RecomputeMerkle()
      modifies this`root
      ensures root == RootOf(Scan(mem, DATA_START, writeOffset))
    {
      hide Scan;
      var items := CollectLive(writeOffset, None);
      if items == [] { root := ZeroRoot; return; }
      LiveItemsList(Scan(mem, DATA_START, writeOffset));
      SortSorts(items);
      var leaves := Leaves(Sort(items));
      assert |leaves| == |multiset(Sort(items))| == |multiset(items)|;
      var level := new Hash[|leaves|](i requires 0 <= i < |leaves| => leaves[i]);
      assert level[..] == leaves;
      root := FoldInPlace(level);
    }

    /** qrxdb_rebuild_index. */
    method RebuildIndex()
      modifies this`index, this`root
      ensures index == IndexOf(Scan(mem, DATA_START, writeOffset))
      ensures root == RootOf(Scan(mem, DATA_START, writeOffset))
    {
      ghost var seen: seq<Record> := [];
      var off := DATA_START;
      index := [];
      WalkStart(mem, writeOffset);
      while Readable(mem, off, writeOffset)
        invariant Walked(mem, writeOffset, seen, off) && index == IndexOf(seen)
        decreases if writeOffset > off then writeOffset - off else 0
      {
        var r := mem[off];
        WalkStep(mem, writeOffset, seen, off);
        IndexSnoc(seen, r);
        seen := seen + [r];
        IndexPut(r.key, off, r.gen);
        off := Align8(off + RawSize(r));
      }
      WalkEnd(mem, writeOffset, seen, off);
      RecomputeMerkle();
    }

    // ----- write-ahead log -----

    /** wal_rotate_if_needed. */
    method RotateIfNeeded(bytes: nat)
      modifies this`wal, this`walOffset
      ensures State() == Rotate(old(State()), bytes)
    {
      if walOffset + bytes > SEGMENT_SIZE {
        wal, walOffset := wal + [[]], 0;
      }
    }

    /**
      wal_write_record; with a fault it returns an error, and the file holds some bytes
      of the record, or all of it without the sync.  With room in the segment the
      record goes there.
     */
    method WalWriteRecord(item: WalItem, fault: Option<Fault>) returns (ok: bool)
      requires wal != []
      modifies this`wal, this`walOffset
      ensures ok <==> fault.None?
      ensures walOffset == Rotate(old(State()), WalSize(item)).walOffset + if ok then WalSize(item) else 0
      ensures wal == AppendToLast(Rotate(old(State()), WalSize(item)).wal,
                                  if ok then [item] else Left(item, fault.value))
    {
      RotateIfNeeded(WalSize(item));
      if fault.Some? {
        if fault.value == Partial(0) {
          assert wal[|wal| - 1] + [] == wal[|wal| - 1];
        } else {
          wal := AppendToLast(wal, Left(item, fault.value));
        }
        return false;
      }
      wal, walOffset := AppendToLast(wal, [item]), walOffset + WalSize(item);
      ok := true;
    }

    // ----- recovery -----

    /** wal_apply_txn_if_needed. */
    method ApplyTransaction(tx: CommittedTx) returns (ok: bool)
      modifies this`mem, this`mapSize, this`writeOffset, this`gen, this`index, this`root
      ensures ok <==> ApplyTx(old(View()), tx).Some?
      ensures ok ==> View() == ApplyTx(old(View()), tx).value
    {
      hide Write, Grow, Readable, Scan, WriteRecord, WithinLimits, FullyApplied, IndexOf, RootOf, IndexUpsert;
      if tx.puts == [] || FullyApplied(View(), tx) { return true; }
      if tx.begin > 0 {
        if tx.begin < DATA_START || tx.begin > writeOffset { return false; }
        writeOffset, gen := tx.begin, if tx.gen > 0 then tx.gen - 1 else 0;
        RebuildIndex();
      }
      ghost var start := View();
      for i := 0 to |tx.puts|
        invariant WritePuts(View(), tx.gen, tx.puts[i..]) == WritePuts(start, tx.gen, tx.puts)
      {
        var p := tx.puts[i];
        assert tx.puts[i..][1..] == tx.puts[i + 1..];
        var expected := writeOffset;
        var wrote, off := WriteDataRecord(p.key, p.value, tx.gen);
        if !wrote || (p.off != 0 && off != p.off) { return false; }
      }
      ok := true;
    }

    /** wal_replay_file. */
    method ReplayFile(s: Segment) returns (ok: bool)
      modifies this`mem, this`mapSize, this`writeOffset, this`gen, this`index, this`root
      ensures ok <==> ReplaySegment(old(View()), s, NO_TX).Some?
      ensures ok ==> View() == ReplaySegment(old(View()), s, NO_TX).value
    {
      hide ApplyTx;
      var cur := NO_TX;
      for i := 0 to |s|
        invariant ReplaySegment(View(), s[i..], cur) == ReplaySegment(old(View()), s, NO_TX)
      {
        assert s[i..][1..] == s[i + 1..];
        match s[i]
        case Torn(_) => return true;
        case Begin(g, o) => cur := OpenTx(g, o, []);
        case Put(g, o, k, v) =>
          if g == cur.gen {
            if k == [] { return false; }
            cur := cur.(puts := cur.puts + [WalPut(k, v, o)]);
          }
        case Commit(g, o) =>
          if g == cur.gen {
            var applied := ApplyTransaction(CommittedTx(g, cur.begin, cur.puts, o));
            if !applied { return false; }
            cur := NO_TX;
          }
      }
      ok := true;
    }

    /** wal_replay_all. */
    method ReplayWal() returns (ok: bool)
      modifies this`mem, this`mapSize, this`writeOffset, this`gen, this`index, this`root
      ensures ok <==> ReplayAll(old(View()), wal).Some?
      ensures ok ==> View() == ReplayAll(old(View()), wal).value
    {
      hide ReplaySegment;
      for i := 0 to |wal|
        invariant ReplayAll(View(), wal[i..]) == ReplayAll(old(View()), wal)
      {
        assert wal[i..][1..] == wal[i + 1..];
        var replayed := ReplayFile(wal[i]);
        if !replayed { return false; }
      }
      ok := true;
    }

    /** qrxdb_recover. */
    method RecoverData() returns (ok: bool)
      modifies this`mem, this`platter, this`mapSize, this`writeOffset, this`gen, this`index, this`root, this`log
      ensures ok <==> Recover(old(mem), old(mapSize), wal).Some?
      ensures ok ==> View() == Recover(old(mem), old(mapSize), wal).value && platter == mem
      ensures ok ==> log == LogOf(State()) && index == IndexOf(log) && root == RootOf(log)
    {
      hide ReplayAll, Scan, IndexOf, RootOf;
      writeOffset, gen := ScanValidTail(mapSize);
      RebuildIndex();
      ok := ReplayWal();
      if !ok { return; }
      RebuildIndex();
      RecomputeMerkle();
      platter := mem;                       // qrxdb_sync
      log := LogOf(State());
    }

    /** Power loss with the given unsynced records on disk, then qrxdb_init. */
    method CrashAndReopen(kept: set<nat>) returns (ok: bool)
      requires wal != []
      modifies this
      ensures ok <==> Reopen(old(State()), kept).Some?
      ensures ok ==> State() == Reopen(old(State()), kept).value
      ensures ok ==> log == LogOf(State()) && index == IndexOf(log) && root == RootOf(log)
      ensures wal == old(wal)
    {
      hide Recover, IndexOf, RootOf;
      mem := Surviving(platter, mem, kept);
      ok := RecoverData();
      walOffset := SegmentBytes(wal[|wal| - 1]);   // wal_open_current
    }

    // ----- commit -----

    /**
      The WAL half of qrxdb_batch_commit: BEGIN, the PUTs and COMMIT.  Because the
      bytes were reserved, no record of the batch moves to another segment.
     */
    method WriteBatchToWal(items: Segment, bytes: nat, stopAt: nat, fault: Fault) returns (done: bool)
      requires wal != [] && SegmentBytes(items) == bytes && walOffset + bytes <= SEGMENT_SIZE
      modifies this`wal, this`walOffset
      ensures done <==> stopAt >= |items|
      ensures var n := if stopAt < |items| then stopAt else |items|;
              && walOffset == old(walOffset) + SegmentBytes(items[..n])
              && wal == AppendToLast(old(wal), items[..n] + if stopAt < |items| then Left(items[stopAt], fault) else [])
    {
      hide SegmentBytes, WalSize;
      assert items[..0] == [] && wal[|wal| - 1] + [] == wal[|wal| - 1];
      SegmentBytesTake(items, 0);
      EmptySegment();
      for i := 0 to |items|
        invariant i <= stopAt && walOffset == old(walOffset) + SegmentBytes(items[..i])
        invariant wal == AppendToLast(old(wal), items[..i])
      {
        SegmentBytesTake(items, i);
        if i == stopAt {
          var failed := WalWriteRecord(items[i], Some(fault));
          AppendTwice(old(wal), items[..i], Left(items[i], fault));
          return false;
        }
        var wrote := WalWriteRecord(items[i], None);
        AppendTwice(old(wal), items[..i], [items[i]]);
        assert items[..i] + [items[i]] == items[..i + 1];
      }
      assert items[..|items|] == items && items + [] == items;
      done := true;
    }

    /** The data half of qrxdb_batch_commit: the first n records of the batch. */
    method WriteBatchToData(entries: seq<Item>, g: nat, n: nat)
      requires n <= |entries| && ValidEntries(entries)
      requires writeOffset == DATA_START + Span(log) && index == IndexOf(log)
      requires writeOffset + Span(RecordsOf(g, entries)) <= mapSize
      modifies this`mem, this`mapSize, this`writeOffset, this`gen, this`index
      ensures var done := RecordsOf(g, entries)[..n];
              && mem == WriteAll(old(mem), old(writeOffset), done)
              && writeOffset == old(writeOffset) + Span(done)
              && index == IndexOf(log + done)
              && gen == if n > 0 then g else old(gen)
      ensures mapSize == old(mapSize)
    {
      hide Span, IndexOf, Write, Size;
      ghost var all := RecordsOf(g, entries);
      assert all[..0] == [] && log + [] == log;
      NothingWritten(mem, writeOffset);
      for i := 0 to n
        invariant mem == WriteAll(old(mem), old(writeOffset), all[..i])
        invariant writeOffset == old(writeOffset) + Span(all[..i])
        invariant index == IndexOf(log + all[..i])
        invariant gen == if i > 0 then g else old(gen)
        invariant mapSize == old(mapSize)
      {
        assert all[..i + 1] == all[..i] + [all[i]];
        assert (log + all[..i]) + [all[i]] == log + all[..i + 1];
        SpanSnoc(all[..i], all[i]);
        SpanTake(all, i + 1);
        SpanAppend(log, all[..i]);
        WriteAllSnoc(old(mem), old(writeOffset), all[..i], all[i]);
        IndexSnoc(log + all[..i], all[i]);
        var wrote, off := WriteDataRecord(entries[i].key, entries[i].value, g);
      }
    }

    /** Reservation of WAL and data space and the WAL half of qrxdb_batch_commit. */
    method LogBatch(entries: seq<Item>, need: nat, stopAt: nat, fault: Fault) returns (logged: bool)
      requires wal != [] && Commits(entries) && need == Span(RecordsOf(gen + 1, entries))
      modifies this`wal, this`walOffset, this`mapSize
      ensures logged <==> stopAt >= |entries| + 2
      ensures State() == Attempt(old(State()), entries, if logged then |entries| + 2 else stopAt, fault)
    {
      hide Span, WriteAll, SegmentBytes, BatchBytes, Scan, BatchItems;
      ghost var s0 := State();
      RotateIfNeeded(BatchBytes(entries));
      EnsureSpace(need);
      ReservationExact(gen + 1, writeOffset, entries);
      logged := WriteBatchToWal(BatchItems(gen + 1, writeOffset, entries), BatchBytes(entries), stopAt, fault);
      if logged { LoggedAttempt(s0, entries, fault); } else { AttemptInWal(s0, entries, stopAt, fault); }
    }

    /** The last steps of qrxdb_batch_commit: recompute the root, sync. */
    method FinishCommit(ghost s0: Store, entries: seq<Item>, ghost stopAt: nat)
      requires Quiescent(s0, log) && ValidEntries(entries) && Commits(entries) && stopAt >= Steps(entries)
      requires State() == CommitUpTo(s0, entries, stopAt, 0).(platter := platter)
      requires index == IndexOf(log + RecordsOf(s0.gen + 1, entries))
      modifies this`root, this`platter, this`log
      ensures Valid() && State() == CommitUpTo(s0, entries, stopAt, 0)
      ensures log == old(log) + RecordsOf(s0.gen + 1, entries)
    {
      hide Span, Quiescent, WriteAll, SegmentBytes, BatchBytes, IndexOf, RootOf, Place, Scan;
      RecomputeMerkle();
      platter := mem;                       // qrxdb_sync
      FinishedCommit(s0, log, entries, stopAt, 0);
      log := log + RecordsOf(s0.gen + 1, entries);
      BecomesValid();
    }

    /** An error behind COMMIT that the process survives: it recovers in place and reports success. */
    method RecoverCommit(ghost s0: Store, ghost recs: seq<Record>, entries: seq<Item>, ghost stopAt: nat)
      requires Quiescent(s0, recs) && ValidEntries(entries) && Commits(entries) && stopAt >= |entries| + 2
      requires State() == CommitUpTo(s0, entries, stopAt, 0)
      modifies this`mem, this`platter, this`mapSize, this`writeOffset, this`gen, this`index, this`root, this`log
      ensures Valid() && s0.wal != [] && log == FinishedLog(s0, recs, entries, stopAt)
    {
      hide Span, Quiescent, SegmentBytes, BatchBytes, IndexOf, RootOf, Place, Scan, CommitUpTo, FinishedLog, Recover,
           LogOf;
      QuiescentWal(s0, recs);
      RecoveredInPlace(s0, recs, entries, stopAt);
      var recovered := RecoverData();
      QuiescentLog(State(), FinishedLog(s0, recs, entries, stopAt));
      BecomesValid();
    }

    /**
      qrxdb_batch_commit on the one open batch, cut short at step stopAt (see CommitUpTo);
      a stopAt of at least Steps(entries) lets it finish.  A WAL record fails in one of
      two ways.  Behind COMMIT the process dies, or it meets an error and recovers.
     */
    method BatchCommit(b: Batch, stopAt: nat, fault: Fault, dies: bool) returns (ok: bool)
      requires Valid() && b.Valid()
      requires b.active ==> b.gen == gen + 1 && b.start == writeOffset
      modifies this, b
      ensures ok <==> && old(b.active) && Commits(old(b.entries))
                      && (stopAt >= Steps(old(b.entries)) || (!dies && stopAt >= |old(b.entries)| + 2))
      ensures old(b.active) && (ok ==> stopAt >= Steps(old(b.entries))) ==>
                State() == Attempt(old(State()), old(b.entries), stopAt, fault)
      ensures !old(b.active) ==> State() == old(State())
      ensures ok ==> Valid() && !b.active
      ensures ok && stopAt >= Steps(old(b.entries)) ==> log == old(log) + RecordsOf(old(gen) + 1, old(b.entries))
      ensures ok && stopAt < Steps(old(b.entries)) ==>
                log == FinishedLog(old(State()), old(log), old(b.entries), stopAt)
      ensures !ok && (!old(b.active) || !Commits(old(b.entries)) || InTime(old(b.entries), stopAt, fault)) ==>
                Valid() && log == old(log) && b.entries == old(b.entries)
    {
      hide Span, Quiescent, WriteAll, SegmentBytes, BatchBytes, IndexOf, RootOf, Place, Scan, CommitUpTo, Attempt,
           FinishedLog;
      CoherentFits();
      var entries, g := b.entries, b.gen;
      if !b.active || !Commits(entries) {
        AttemptRefused(State(), entries, stopAt, fault);
        return false;
      }
      ghost var s0, recs := State(), log;
      var logged := LogBatch(entries, b.plannedEnd - b.start, stopAt, fault);
      if !logged {
        AttemptKeeps(s0, recs, entries, stopAt, fault);
        if InTime(entries, stopAt, fault) { BecomesValid(); }
        return false;
      }
      LoggedFits(s0, entries, fault);
      WriteBatchToData(entries, g, Materialised(entries, stopAt));
      if stopAt >= Steps(entries) {
        AttemptInData(s0, recs, entries, stopAt, fault);
        FinishCommit(s0, entries, stopAt);
        b.Abort();
        return true;
      }
      AttemptInData(s0, recs, entries, stopAt, fault);
      if dies { return false; }
      RecoverCommit(s0, recs, entries, stopAt);
      b.Abort();
      ok := true;
    }

    lemma CoherentFits()
      requires Coherent()
      ensures writeOffset == DATA_START + Span(log) && index == IndexOf(log) && wal != []
    {
    }

    lemma BecomesValid()
      requires Quiescent(State(), log) && index == IndexOf(log) && root == RootOf(log)
      ensures Valid()
    {
      hide Place, Span, IndexOf, RootOf;
    }

    /**
      A commit that dies at any step with any records on disk, followed by reopening: it
      is atomic in a segment without torn records, and CrashLog says what is left in one
      with them.
     */
    method CommitCrashReopen(b: Batch, stopAt: nat, torn: nat, kept: set<nat>) returns (ok: bool)
      requires Valid() && b.Valid() && b.active && b.gen == gen + 1 && b.start == writeOffset
      requires Commits(b.entries)
      modifies this, b
      ensures ok && log == CrashLog(old(State()), old(log), old(b.entries), stopAt, torn, kept)
      ensures old(Clean(Target(State(), b.entries))) ==>
                && Valid()
                && log == if stopAt >= |old(b.entries)| + 2
                          then old(log) + RecordsOf(old(gen) + 1, old(b.entries)) else old(log)
    {
      hide Quiescent, CommitUpTo, Reopen, IndexOf, RootOf, Clean, LogOf, Target, CrashLog;
      ghost var s0, recs, entries := State(), log, b.entries;
      ghost var done := BatchCommit(b, stopAt, Partial(torn), true);
      CommitKeepsWal(s0, entries, stopAt, torn);
      CrashOutcome(s0, recs, entries, stopAt, torn, kept);
      ok := CrashAndReopen(kept);
      if Clean(Target(s0, entries)) {
        CrashAtomicity(s0, recs, entries, stopAt, torn, kept);
        QuiescentLog(State(), CommittedLog(s0, recs, entries, stopAt));
        BecomesValid();
      }
    }

    // ----- reads -----

    /** qrxdb_read_txn_begin. */
    method BeginRead() returns (t: ReadTxn)
      ensures t == ReadTxn(gen, writeOffset, root)
    {
      t := ReadTxn(gen, writeOffset, root);
    }

    /** qrxdb_get_view_at: by index without a transaction, by a walk within one. */
    method GetView(t: Option<ReadTxn>, k: Bytes) returns (v: Option<Bytes>)
      requires Coherent()
      ensures t.None? ==> v == Lookup(Live(log), k)
      ensures t.Some? ==> v == Lookup(Live(SnapshotLog(mem, t.value)), k)
    {
      hide Live, Place, RootOf;
      if t.None? {
        PlaceHolds(DATA_START, log);
        IndexedGetIsLive(mem, log, k);
        var found := IndexFind(k);
        if found.Some? && Readable(mem, found.value, writeOffset) {
          if mem[found.value].value == TOMBSTONE { return None; }
          return Some(mem[found.value].value);
        }
      }
      v := WalkFor(if t.Some? then t.value.writeOffset else writeOffset,
                   if t.Some? then Some(t.value.gen) else None, k);
      if t.None? { ScanPlaced(log, writeOffset); }
    }

    /** The walking half of qrxdb_get_view_at. */
    method WalkFor(limit: nat, maxgen: Option<nat>, k: Bytes) returns (v: Option<Bytes>)
      ensures maxgen.None? ==> v == Lookup(Live(Scan(mem, DATA_START, limit)), k)
      ensures maxgen.Some? ==> v == Lookup(Live(UpTo(Scan(mem, DATA_START, limit), maxgen.value)), k)
    {
      ghost var seen: seq<Record>, taken: seq<Record> := [], [];
      var off := DATA_START;
      v := None;
      WalkStart(mem, limit);
      while Readable(mem, off, limit)
        invariant Walked(mem, limit, seen, off)
        invariant taken == if maxgen.Some? then UpTo(seen, maxgen.value) else seen
        invariant v == Lookup(Live(taken), k)
        decreases if limit > off then limit - off else 0
      {
        var r := mem[off];
        WalkStep(mem, limit, seen, off);
        if maxgen.Some? { UpToSnoc(seen, r, maxgen.value); }
        seen := seen + [r];
        if maxgen.None? || r.gen <= maxgen.value {
          LatestSnoc(taken, r);
          taken := taken + [r];
          if r.key == k { v := if r.value == TOMBSTONE then None else Some(r.value); }
        }
        off := Align8(off + RawSize(r));
      }
      WalkEnd(mem, limit, seen, off);
    }

    /** qrxdb_scan_prefix; calls lists the callbacks made. */
    method ScanPrefix(p: Bytes, callback: Callback) returns (rc: int, calls: seq<Item>)
      ensures calls <= IndexScan(mem, index, p)
      ensures if AllReadable(mem, index, p, writeOffset)
              then Delivered(IndexScan(mem, index, p), callback, calls, rc)
              else rc != 0
      ensures Coherent() ==>
                && Delivered(IndexScan(mem, index, p), callback, calls, rc)
                && Lists(IndexScan(mem, index, p), UnderPrefix(Live(log), p))
    {
      hide Place, RootOf, Span, UnderPrefix, Lists, IndexScan, Delivered;
      if Coherent() { ScanPrefixLive(p); }
      rc, calls := CallEntries(p, callback);
    }

    /** The loop over the index. */
    method CallEntries(p: Bytes, callback: Callback) returns (rc: int, calls: seq<Item>)
      ensures calls <= IndexScan(mem, index, p)
      ensures if AllReadable(mem, index, p, writeOffset)
              then Delivered(IndexScan(mem, index, p), callback, calls, rc)
              else rc != 0
    {
      hide Called, Readable, HasPrefix;
      calls := [];
      for i := 0 to |index|
        invariant calls == IndexScan(mem, index[..i], p)
        invariant AllReadable(mem, index[..i], p, writeOffset)
        invariant WentOn(calls, callback)
      {
        assert index[..i + 1][..i] == index[..i];
        IndexScanGrows(mem, index, i, p);
        IndexScanGrows(mem, index, i + 1, p);
        var e := index[i];
        if !HasPrefix(e.key, p) { NotCalled(mem, e, p); continue; }
        if !Readable(mem, e.offset, writeOffset) { return -1, calls; }
        ReadableIn(mem, e.offset, writeOffset);
        if mem[e.offset].value == TOMBSTONE { NotCalled(mem, e, p); continue; }
        IsCalled(mem, e, p);
        ghost var before := calls;
        calls := calls + [Item(e.key, mem[e.offset].value)];
        assert calls[..|calls| - 1] == before;
        rc := callback(calls);
        if rc != 0 { return; }
      }
      assert index[..|index|] == index;
      rc := 0;
    }

    lemma ScanPrefixLive(p: Bytes)
      requires Coherent()
      ensures forall i :: 0 <= i < |index| ==> Readable(mem, index[i].offset, writeOffset)
      ensures Lists(IndexScan(mem, index, p), UnderPrefix(Live(log), p))
    {
      hide Place, RootOf, Span, UnderPrefix, Lists, IndexScan, Live, Readable;
      PlaceHolds(DATA_START, log);
      IndexScanIsLive(mem, log, p);
      forall i | 0 <= i < |index| ensures Readable(mem, index[i].offset, writeOffset) { IndexReadable(mem, log, i); }
    }

    /** qrxdb_scan_prefix_at. */
    method ScanPrefixAt(t: ReadTxn, p: Bytes, callback: Callback) returns (rc: int, calls: seq<Item>)
      ensures var limit := if t.writeOffset < writeOffset then t.writeOffset else writeOffset;
              Delivered(OrderedScan(SnapshotLog(mem, t.(writeOffset := limit)), p), callback, calls, rc)
    {
      ghost var seen: seq<Record> := [];
      var off, limit := DATA_START, if t.writeOffset < writeOffset then t.writeOffset else writeOffset;
      var items: seq<Item> := [];
      WalkStart(mem, limit);
      while Readable(mem, off, limit)
        invariant Walked(mem, limit, seen, off)
        invariant items == Collect(WithPrefix(UpTo(seen, t.gen), p))
        decreases if limit > off then limit - off else 0
      {
        var r := mem[off];
        WalkStep(mem, limit, seen, off);
        UpToSnoc(seen, r, t.gen);
        if r.gen <= t.gen && HasPrefix(r.key, p) {
          CollectSnoc(WithPrefix(UpTo(seen, t.gen), p), r);
          items := KvUpsert(items, r.key, r.value);
        }
        PrefixSnoc(UpTo(seen, t.gen), r, p);
        seen := seen + [r];
        off := Align8(off + RawSize(r));
      }
      WalkEnd(mem, limit, seen, off);
      rc, calls := Deliver(Sort(items), callback);
    }

    /** The calling loop of qrxdb_scan_prefix_at, skipping deleted keys. */
    static method Deliver(items: seq<Item>, callback: Callback) returns (rc: int, calls: seq<Item>)
      ensures Delivered(DropTombstones(items), callback, calls, rc)
    {
      calls := [];
      for i := 0 to |items|
        invariant calls == DropTombstones(items[..i])
        invariant WentOn(calls, callback)
      {
        assert items[..i + 1][..i] == items[..i];
        DropGrows(items, i + 1);
        if items[i].value == TOMBSTONE { continue; }
        ghost var before := calls;
        calls := calls + [items[i]];
        assert calls[..|calls| - 1] == before;
        rc := callback(calls);
        if rc != 0 { return; }
      }
      assert items[..|items|] == items;
      rc := 0;
    }

    // ----- maintenance -----

    /** qrxdb_verify. */
    method Verify() returns (ok: bool)
      modifies this`root
      ensures ok <==> Verifies(State(), old(root))
      ensures root == old(root)
    {
      hide RootOf;
      var good, lastGen := ScanValidTail(writeOffset);
      if good != writeOffset || lastGen != gen { return false; }
      var before := root;
      RecomputeMerkle();
      ok := root == before;
      root := before;
    }

    /** The rewriting loop of qrxdb_compact: the items into a fresh file, generations 1, 2, ... */
    method WriteFresh(items: seq<Item>)
      requires AllWithinLimits(Renumber(items))
      modifies this`mem, this`mapSize, this`writeOffset, this`gen, this`index
      ensures mem == Place(DATA_START, Renumber(items))
      ensures writeOffset == DATA_START + Span(Renumber(items))
      ensures mapSize == Grow(DEFAULT_MAP_SIZE, writeOffset)
    {
      hide Place, Span, Write, Size, WithinLimits;
      ghost var recs := Renumber(items);
      mem, mapSize, writeOffset, gen, index := map[], DEFAULT_MAP_SIZE, DATA_START, 0, [];
      FreshFile();
      assert recs[..0] == [];
      for i := 0 to |items|
        invariant gen == i
        invariant mem == Place(DATA_START, recs[..i]) && writeOffset == DATA_START + Span(recs[..i])
        invariant mapSize == Grow(DEFAULT_MAP_SIZE, writeOffset)
      {
        assert recs[..i + 1] == recs[..i] + [recs[i]];
        SpanSnoc(recs[..i], recs[i]);
        MaterialisedPrefix(recs[..i], [recs[i]]);
        OneWritten(mem, writeOffset, recs[i]);
        GrowTwice(DEFAULT_MAP_SIZE, writeOffset, Size(recs[i]));
        var wrote, off := WriteDataRecord(items[i].key, items[i].value, gen + 1);
      }
      assert recs[..|items|] == recs;
    }

    /** qrxdb_compact into a fresh file. */
    method CompactData()
      requires Coherent()
      modifies this
      ensures State() == Compact(old(State()))
      ensures Coherent() && log == CompactLog(old(log), gen)
    {
      hide Place, Span, IndexOf, RootOf, UpTo, LiveItems, Sort, Scan, Grow;
      ScanPlaced(log, writeOffset);
      CompactWithinLimits(log, gen);
      var items := CollectLive(writeOffset, Some(gen));
      var snapGen := gen;
      WriteFresh(Sort(items));
      gen := snapGen;
      platter, walOffset, log := mem, SegmentBytes(wal[|wal| - 1]), CompactLog(log, gen);
      ScanPlaced(log, writeOffset);
      RebuildIndex();
    }

    /** qrxdb_salvage: keep the valid head of the log the header points into. */
    method Salvage()
      requires wal != []
      modifies this`writeOffset, this`gen, this`index, this`root, this`platter, this`log
      ensures log == Scan(mem, DATA_START, old(writeOffset)) == LogOf(State())
      ensures index == IndexOf(log) && root == RootOf(log) && platter == mem
      ensures Verifies(State(), root)
    {
      hide IndexOf, RootOf, Span, Readable, LastGen;
      log := Scan(mem, DATA_START, writeOffset);
      ScanIsHeld(mem, DATA_START, writeOffset);
      ScanExactly(mem, DATA_START, log);
      writeOffset, gen := ScanValidTail(writeOffset);
      RebuildIndex();
      platter := mem;
    }
  }

  /** Every entry under the prefix points at an intact record. */
  ghost predicate AllReadable(d: Disk, ix: seq<IndexEntry>, p: Bytes, limit: nat) {
    forall i :: 0 <= i < |ix| && HasPrefix(ix[i].key, p) ==> Readable(d, ix[i].offset, limit)
  }

  lemma ReadableIn(d: Disk, off: nat, limit: nat)
    requires Readable(d, off, limit)
    ensures off in d
  {
  }

  lemma NotCalled(d: Disk, e: IndexEntry, p: Bytes)
    requires !HasPrefix(e.key, p) || e.offset !in d || d[e.offset].value == TOMBSTONE
    ensures !Called(d, e, p)
  {
  }

  lemma IsCalled(d: Disk, e: IndexEntry, p: Bytes)
    requires HasPrefix(e.key, p) && e.offset in d && d[e.offset].value != TOMBSTONE
    ensures Called(d, e, p)
  {
  }

  lemma {:induction false} DropGrows(items: seq<Item>, i: nat)
    requires i <= |items|
    ensures DropTombstones(items[..i]) <= DropTombstones(items)
  {
    if i == |items| {
      assert items[..i] == items;
    } else {
      assert items[..|items| - 1][..i] == items[..i];
      DropGrows(items[..|items| - 1], i);
    }
  }

  lemma EmptySegment()
    ensures SegmentBytes([]) == 0
  {
  }

  lemma NothingWritten(d: Disk, off: nat)
    ensures WriteAll(d, off, []) == d && Span([]) == 0
  {
  }

  lemma OneWritten(d: Disk, off: nat, r: Record)
    ensures WriteAll(d, off, [r]) == Write(d, off, r)
  {
    assert [r][1..] == [];
  }

  lemma FreshFile()
    ensures Place(DATA_START, []) == map[] && Span([]) == 0
  {
  }

  lemma SpanTake(recs: seq<Record>, n: nat)
    requires n <= |recs|
    ensures Span(recs[..n]) <= Span(recs)
  {
    assert recs == recs[..n] + recs[n..];
    SpanAppend(recs[..n], recs[n..]);
  }

  lemma {:induction false} GrowTwice(size: nat, end: nat, more: nat)
    requires size > 0
    ensures Grow(Grow(size, end), end + more) == Grow(size, end + more)
    decreases if end > size then end - size else 0
  {
    if end > size { GrowTwice(2 * size, end, more); }
  }

  lemma LatestSnoc(recs: seq<Record>, r: Record)
    ensures Latest(recs + [r]) == Latest(recs)[r.key := r.value]
  {
    assert (recs + [r])[..|recs|] == recs;
  }

  lemma IndexReadable(d: Disk, recs: seq<Record>, i: nat)
    requires Holds(d, DATA_START, recs) && AllWithinLimits(recs) && i < |IndexOf(recs)|
    ensures var e := IndexOf(recs)[i]; Readable(d, e.offset, DATA_START + Span(recs)) && d[e.offset].key == e.key
  {
    hide Span, Holds;
    IndexRefinesLog(recs);
    EntryReads(d, recs, IndexOf(recs)[i]);
  }

  lemma AttemptRefused(s: Store, entries: seq<Item>, stopAt: nat, fault: Fault)
    requires s.wal != []
    ensures !Commits(entries) ==> Attempt(s, entries, stopAt, fault) == s
  {
    hide BatchBytes, Span, WriteAll;
  }

  /** The attempt failed for sure: its COMMIT record is not on file. */
  predicate InTime(entries: seq<Item>, stopAt: nat, fault: Fault) {
    stopAt < |entries| + 2 && !(fault.Unsynced? && stopAt == |entries| + 1)
  }

  /** A failed attempt leaves the files, and in time also the log, as they were. */
  lemma AttemptKeeps(s: Store, recs: seq<Record>, entries: seq<Item>, stopAt: nat, fault: Fault)
    requires Quiescent(s, recs) && ValidEntries(entries) && Commits(entries) && stopAt < |entries| + 2
    ensures s.wal != []
    ensures InTime(entries, stopAt, fault) ==> Quiescent(Attempt(s, entries, stopAt, fault), recs)
  {
    hide Quiescent, CommitUpTo, BatchBytes, WalAfter;
    QuiescentWal(s, recs);
    if InTime(entries, stopAt, fault) {
      match fault
      case Partial(torn) => AbandonedAttempt(s, recs, entries, stopAt, torn);
      case Unsynced => UnsyncedEarly(s, recs, entries, stopAt);
    }
  }

  lemma LoggedAttempt(s: Store, entries: seq<Item>, fault: Fault)
    requires s.wal != [] && Commits(entries)
    ensures var r, items := Rotate(s, BatchBytes(entries)), BatchItems(s.gen + 1, s.writeOffset, entries);
            Attempt(s, entries, |entries| + 2, fault) ==
            Store(s.mem, s.platter, Grow(s.mapSize, s.writeOffset + Span(RecordsOf(s.gen + 1, entries))),
                  AppendToLast(r.wal, items[..|items|] + []), r.walOffset + SegmentBytes(items[..|items|]),
                  s.writeOffset, s.gen)
  {
    hide BatchBytes, SegmentBytes, Grow, WriteAll, Span, BatchItems, AppendToLast, CommitUpTo;
    CommitInData(s, entries, |entries| + 2, if fault.Partial? then fault.bytes else 0);
    assert RecordsOf(s.gen + 1, entries)[..0] == [];
    NothingWritten(s.mem, s.writeOffset);
  }

  lemma LoggedFits(s: Store, entries: seq<Item>, fault: Fault)
    requires s.wal != [] && Commits(entries)
    ensures var c := Attempt(s, entries, |entries| + 2, fault);
            && c.mem == s.mem && c.platter == s.platter && c.writeOffset == s.writeOffset && c.gen == s.gen
            && s.writeOffset + Span(RecordsOf(s.gen + 1, entries)) <= c.mapSize
  {
    hide BatchBytes, SegmentBytes, WriteAll, Span, BatchItems, AppendToLast, Attempt;
    LoggedAttempt(s, entries, fault);
  }

  /** A commit stopped in its WAL half, in one of the two ways. */
  lemma AttemptInWal(s: Store, entries: seq<Item>, stopAt: nat, fault: Fault)
    requires s.wal != [] && Commits(entries) && stopAt < |entries| + 2
    ensures var r, items := Rotate(s, BatchBytes(entries)), BatchItems(s.gen + 1, s.writeOffset, entries);
            Attempt(s, entries, stopAt, fault) ==
            Store(s.mem, s.platter, Grow(s.mapSize, s.writeOffset + Span(RecordsOf(s.gen + 1, entries))),
                  AppendToLast(r.wal, items[..stopAt] + Left(items[stopAt], fault)),
                  r.walOffset + SegmentBytes(items[..stopAt]), s.writeOffset, s.gen)
  {
    hide BatchBytes, SegmentBytes, Grow, WriteAll, Span, BatchItems, AppendToLast, CommitUpTo;
    var items := BatchItems(s.gen + 1, s.writeOffset, entries);
    CommitInWal(s, entries, stopAt, if fault.Partial? then fault.bytes else 0);
    if fault.Unsynced? {
      assert items[..stopAt] + [items[stopAt]] == items[..stopAt + 1];
      assert items[..stopAt + 1] + [] == items[..stopAt + 1];
      assert items[..|items|] == items;
    }
  }

  /** A commit stopped in its data half. */
  lemma AttemptInData(s: Store, recs: seq<Record>, entries: seq<Item>, stopAt: nat, fault: Fault)
    requires s.wal != [] && Commits(entries) && stopAt >= |entries| + 2
    ensures var c, d := Attempt(s, entries, |entries| + 2, fault), CommitUpTo(s, entries, stopAt, 0);
            var all, n := RecordsOf(s.gen + 1, entries), Materialised(entries, stopAt);
            && Attempt(s, entries, stopAt, fault) == d
            && d.mem == WriteAll(s.mem, s.writeOffset, all[..n]) && d.mapSize == c.mapSize
            && d.wal == c.wal && d.walOffset == c.walOffset && d.writeOffset == s.writeOffset + Span(all[..n])
            && d.gen == (if n > 0 then s.gen + 1 else s.gen)
            && (stopAt < Steps(entries) ==> d.platter == s.platter)
            && (stopAt >= Steps(entries) ==> recs + all[..n] == recs + all)
  {
    hide BatchBytes, SegmentBytes, Grow, WriteAll, Span, BatchItems, AppendToLast, CommitUpTo;
    CommitInData(s, entries, stopAt, if fault.Partial? then fault.bytes else 0);
    CommitInData(s, entries, stopAt, 0);
    LoggedAttempt(s, entries, fault);
  }

  /** A commit stopped in its WAL half. */
  lemma CommitInWal(s: Store, entries: seq<Item>, stopAt: nat, torn: nat)
    requires s.wal != [] && Commits(entries) && stopAt < |entries| + 2
    ensures var r, items := Rotate(s, BatchBytes(entries)), BatchItems(s.gen + 1, s.writeOffset, entries);
            CommitUpTo(s, entries, stopAt, torn) ==
            Store(s.mem, s.platter, Grow(s.mapSize, s.writeOffset + Span(RecordsOf(s.gen + 1, entries))),
                  AppendToLast(r.wal, items[..stopAt] + if torn > 0 then [Torn(torn)] else []),
                  r.walOffset + SegmentBytes(items[..stopAt]), s.writeOffset, s.gen)
  {
    hide BatchBytes, SegmentBytes, Grow, WriteAll, Span, BatchItems, AppendToLast;
    var items := BatchItems(s.gen + 1, s.writeOffset, entries);
    assert items[..stopAt] + [] == items[..stopAt];
    assert RecordsOf(s.gen + 1, entries)[..0] == [];
    NothingWritten(s.mem, s.writeOffset);
  }

  /** A commit stopped after its COMMIT record. */
  lemma CommitInData(s: Store, entries: seq<Item>, stopAt: nat, torn: nat)
    requires s.wal != [] && Commits(entries) && stopAt >= |entries| + 2
    ensures var r, items := Rotate(s, BatchBytes(entries)), BatchItems(s.gen + 1, s.writeOffset, entries);
            var all, n := RecordsOf(s.gen + 1, entries), Materialised(entries, stopAt);
            var mem := WriteAll(s.mem, s.writeOffset, all[..n]);
            CommitUpTo(s, entries, stopAt, torn) ==
            Store(mem, if stopAt >= Steps(entries) then mem else s.platter, Grow(s.mapSize, s.writeOffset + Span(all)),
                  AppendToLast(r.wal, items[..|items|] + []), r.walOffset + SegmentBytes(items[..|items|]),
                  s.writeOffset + Span(all[..n]), if n > 0 then s.gen + 1 else s.gen)
  {
    hide BatchBytes, SegmentBytes, Grow, WriteAll, Span, BatchItems, AppendToLast;
    var items := BatchItems(s.gen + 1, s.writeOffset, entries);
    assert items[..|items|] == items && items + [] == items;
  }

  /** A finished commit: what its store and its scan are. */
  lemma FinishedCommit(s: Store, recs: seq<Record>, entries: seq<Item>, stopAt: nat, torn: nat)
    requires Quiescent(s, recs) && ValidEntries(entries) && Commits(entries) && stopAt >= Steps(entries)
    ensures var c, log := CommitUpTo(s, entries, stopAt, torn), recs + RecordsOf(s.gen + 1, entries);
            && Quiescent(c, log)
            && Scan(c.mem, DATA_START, c.writeOffset) == log
            && RecordsOf(s.gen + 1, entries)[..Materialised(entries, stopAt)] == RecordsOf(s.gen + 1, entries)
  {
    hide BatchBytes, SegmentBytes, Grow, WriteAll, Span, Place, Scan, VisibleAll;
    assert CommitUpTo(s, entries, stopAt, torn) == CommitUpTo(s, entries, Steps(entries), torn);
    CompletedCommit(s, recs, entries, torn);
    QuiescentLog(CommitUpTo(s, entries, stopAt, torn), recs + RecordsOf(s.gen + 1, entries));
  }
}
