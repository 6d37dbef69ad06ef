/**
  Compaction of QRXDB (qrx-core/src/qrxdb.c, qrxdb_compact): what it keeps within
  a session, and what renumbering generations and keeping the old WAL cost
  afterwards.
 */
module QrxdbCompact {
  import opened QrxdbKeys
  import opened QrxdbMerkle
  import opened QrxdbLog
  import opened QrxdbWal
  import opened QrxdbStore
  import opened QrxdbCrash
  import opened QrxdbRuns
  import opened QrxdbReads

  /** Live items become records of generation 1, 2, ... in key order. */
  function Renumber(items: seq<Item>): (recs: seq<Record>)
    ensures |recs| == |items|
    ensures forall i :: 0 <= i < |items| ==> recs[i] == Record(items[i].key, items[i].value, i + 1)
  {
    seq(|items|, i requires 0 <= i < |items| => Record(items[i].key, items[i].value, i + 1))
  }

  /** The compacted log of the records visible at a generation. */
  function CompactLog(recs: seq<Record>, gen: nat): seq<Record> {
    Renumber(Sort(LiveItems(UpTo(recs, gen))))
  }

  /** qrxdb_compact: a new data file, the same generation, the same WAL. */
  function Compact(s: Store): Store
    requires s.wal != []
  {
    var log := CompactLog(LogOf(s), s.gen);
    var disk, end := Place(DATA_START, log), DATA_START + Span(log);
    Store(disk, disk, Grow(DEFAULT_MAP_SIZE, end), s.wal, SegmentBytes(s.wal[|s.wal| - 1]), end, s.gen)
  }

  // ----- what a compacted log holds -----

  lemma ListsInit(items: seq<Item>, m: map<Bytes, Bytes>)
    requires Lists(items, m) && items != []
    ensures var n, last := |items| - 1, items[|items| - 1];
            && Lists(items[..n], m - {last.key})
            && last.key in m && (m - {last.key})[last.key := last.value] == m
  {
    var n, last := |items| - 1, items[|items| - 1];
    var rest := m - {last.key};
    assert items == items[..n] + [last];
    forall k | k in rest ensures Item(k, rest[k]) in items[..n] { assert Item(k, m[k]) in items; }
  }

  lemma {:induction false} LatestOfDistinct(items: seq<Item>, recs: seq<Record>, m: map<Bytes, Bytes>)
    requires |recs| == |items| && Lists(items, m)
    requires forall i :: 0 <= i < |items| ==> recs[i].key == items[i].key && recs[i].value == items[i].value
    ensures Latest(recs) == m
  {
    hide Lists;
    if items == [] {
      NothingListed(m);
    } else {
      var n, last := |items| - 1, items[|items| - 1];
      ListsInit(items, m);
      LatestOfDistinct(items[..n], recs[..n], m - {last.key});
    }
  }

  lemma NoTombstones(recs: seq<Record>)
    ensures forall i :: 0 <= i < |Sort(LiveItems(recs))| ==> Sort(LiveItems(recs))[i].value != TOMBSTONE
  {
    hide Less;
    LiveItemsList(recs);
    SortLists(LiveItems(recs), Live(recs));
  }

  /** The compacted log has one record per live key and the live map of what was visible. */
  lemma CompactLogLive(recs: seq<Record>, gen: nat)
    ensures Latest(CompactLog(recs, gen)) == Live(CompactLog(recs, gen)) == Live(UpTo(recs, gen))
    ensures |CompactLog(recs, gen)| == |Live(UpTo(recs, gen))|
  {
    hide LiveItems, Sort, UpTo, StrictlySorted, Latest;
    var seen := UpTo(recs, gen);
    var items := Sort(LiveItems(seen));
    LiveItemsList(seen);
    SortLists(LiveItems(seen), Live(seen));
    LatestOfDistinct(items, Renumber(items), Live(seen));
    NoTombstones(seen);
    ListLength(items, Live(seen));
  }

  lemma {:induction false} ListLength(items: seq<Item>, m: map<Bytes, Bytes>)
    requires Lists(items, m)
    ensures |items| == |m|
  {
    hide Lists;
    if items == [] {
      NothingListed(m);
    } else {
      var n, last := |items| - 1, items[|items| - 1];
      ListsInit(items, m);
      ListLength(items[..n], m - {last.key});
      assert m.Keys == (m - {last.key}).Keys + {last.key};
    }
  }

  /** Compaction keeps the live map and the state root of every store reached without compaction. */
  lemma CompactKeepsMapAndRoot(evs: seq<Event>)
    requires AdmissibleRun(evs)
    ensures Run(evs).Some?
    ensures var s := Run(evs).value;
            var before, after := LogOf(s), CompactLog(LogOf(s), s.gen);
            && LogOf(Compact(s)) == after
            && Live(after) == Live(before)
            && RootOf(after) == RootOf(before)
  {
    hide Run, AdmissibleRun, CommittedBatches, HistoryLog, LogOf, CompactLog, Live, RootOf, UpTo, Place, Span, Verifies;
    RunLog(evs);
    var s, h := Run(evs).value, CommittedBatches(evs);
    HistoryGens(h);
    UpToAll(HistoryLog(h), |h|);
    CompactLogLive(LogOf(s), s.gen);
    SameRootIffSameLiveMap(LogOf(s), CompactLog(LogOf(s), s.gen));
    assert AllWithinLimits(HistoryLog(h)) by {
      RunCarriesHistory(evs);
      CarriesMeans(s, h);
      assert Quiescent(s, HistoryLog(h));
    }
    CompactWithinLimits(LogOf(s), s.gen);
    CompactedReads(s);
  }

  lemma CompactWithinLimits(recs: seq<Record>, gen: nat)
    requires AllWithinLimits(recs)
    ensures AllWithinLimits(CompactLog(recs, gen))
  {
    hide Less, StrictlySorted, Sort, LiveItems, UpTo;
    var seen := UpTo(recs, gen);
    var items := Sort(LiveItems(seen));
    LiveItemsList(seen);
    SortLists(LiveItems(seen), Live(seen));
    UpToIsPart(recs, gen);
    forall i | 0 <= i < |items| ensures WithinLimits(Renumber(items)[i]) {
      LatestFromLog(seen, items[i].key);
    }
  }

  lemma {:induction false} UpToIsPart(recs: seq<Record>, gen: nat)
    ensures forall r :: r in UpTo(recs, gen) ==> r in recs
  {
    if recs != [] {
      UpToIsPart(recs[..|recs| - 1], gen);
      assert recs == recs[..|recs| - 1] + [recs[|recs| - 1]];
    }
  }

  /** The latest value of a key is the value of some record of that key. */
  lemma {:induction false} LatestFromLog(recs: seq<Record>, k: Bytes)
    requires k in Latest(recs)
    ensures exists r :: r in recs && r.key == k && r.value == Latest(recs)[k]
  {
    var last := recs[|recs| - 1];
    assert last in recs;
    if k != last.key {
      LatestFromLog(recs[..|recs| - 1], k);
    }
  }

  lemma CompactedReads(s: Store)
    requires s.wal != [] && AllWithinLimits(CompactLog(LogOf(s), s.gen))
    ensures LogOf(Compact(s)) == CompactLog(LogOf(s), s.gen)
  {
    hide CompactLog, Place, Span, Scan;
    var log := CompactLog(LogOf(s), s.gen);
    ScanPlaced(log, DATA_START + Span(log));
  }

  // ----- renumbered generations -----

  lemma {:induction false} UpToRenumbered(items: seq<Item>, g: nat)
    ensures UpTo(Renumber(items), g) == Renumber(items)[..if g < |items| then g else |items|]
  {
    var recs := Renumber(items);
    if items != [] {
      var n := |items| - 1;
      assert recs[..n] == Renumber(items[..n]);
      UpToRenumbered(items[..n], g);
      assert recs == recs[..n] + [recs[n]];
      if g < |items| { assert recs[..n][..if g < n then g else n] == recs[..g]; }
    }
  }

  /**
    After compaction the records carry generations 1 to the number of live keys
    while the database keeps its own generation, so qrxdb_verify accepts exactly
    when the two happen to be equal.
   */
  lemma VerifyAfterCompactIff(s: Store)
    requires s.wal != [] && AllWithinLimits(CompactLog(LogOf(s), s.gen))
    ensures Verifies(Compact(s), RootOf(LogOf(Compact(s)))) <==> |Live(UpTo(LogOf(s), s.gen))| == s.gen
  {
    hide LiveItems, Sort, UpTo, Place, Span, RootOf, Live;
    CompactedReads(s);
    CompactLogLive(LogOf(s), s.gen);
  }

  /** A transaction begun right after compaction, and a second compaction, see only the first gen keys. */
  lemma SeenAfterCompact(s: Store)
    requires s.wal != [] && AllWithinLimits(CompactLog(LogOf(s), s.gen))
    ensures var c, log := Compact(s), CompactLog(LogOf(s), s.gen);
            UpTo(LogOf(c), c.gen) == log[..if s.gen < |log| then s.gen else |log|]
  {
    hide LiveItems, Sort, UpTo, Place, Span;
    CompactedReads(s);
    UpToRenumbered(Sort(LiveItems(UpTo(LogOf(s), s.gen))), s.gen);
  }

  /** Compacting twice in a row keeps the live map exactly when there are no more live keys than generations. */
  lemma CompactTwiceIff(s: Store)
    requires s.wal != [] && AllWithinLimits(CompactLog(LogOf(s), s.gen))
    ensures var c := Compact(s);
            Live(CompactLog(LogOf(c), c.gen)) == Live(LogOf(c)) <==> |Live(UpTo(LogOf(s), s.gen))| <= s.gen
  {
    hide UpTo, LogOf, CompactLog, Live, Latest;
    var c, log := Compact(s), CompactLog(LogOf(s), s.gen);
    SeenAfterCompact(s);
    CompactedReads(s);
    CompactLogLive(LogOf(c), c.gen);
    CompactLogLive(LogOf(s), s.gen);
    if |log| <= s.gen {
      assert log[..|log|] == log;
    } else {
      CompactPrefixSmaller(s, s.gen);
    }
  }

  /** Dropping records of a compacted log loses keys. */
  lemma CompactPrefixSmaller(s: Store, n: nat)
    requires s.wal != [] && n < |CompactLog(LogOf(s), s.gen)|
    ensures Live(CompactLog(LogOf(s), s.gen)[..n]) != Live(CompactLog(LogOf(s), s.gen))
  {
    hide LogOf, UpTo, LiveItems, Sort;
    var seen := UpTo(LogOf(s), s.gen);
    var items := Sort(LiveItems(seen));
    LiveItemsList(seen);
    SortLists(LiveItems(seen), Live(seen));
    CompactLogLive(LogOf(s), s.gen);
    var part := Renumber(items)[..n];
    KeysFromLog(part, items[n].key);
    assert items[n].key !in Latest(part);
    assert items[n].key in Live(seen);
  }

  lemma {:induction false} KeysFromLog(recs: seq<Record>, k: Bytes)
    requires forall i :: 0 <= i < |recs| ==> recs[i].key != k
    ensures k !in Latest(recs)
  {
    if recs != [] { KeysFromLog(recs[..|recs| - 1], k); }
  }

  // ----- two keys in one batch -----

  lemma TwoLive(k1: Bytes, v1: Bytes, k2: Bytes, v2: Bytes)
    requires k1 != k2 && v1 != TOMBSTONE && v2 != TOMBSTONE
    ensures var log := RecordsOf(1, [Item(k1, v1), Item(k2, v2)]);
            Live(log) == map[k1 := v1, k2 := v2] && |Live(log)| == 2
  {
    var log := RecordsOf(1, [Item(k1, v1), Item(k2, v2)]);
    assert log[..1] == [Record(k1, v1, 1)] && log[..1][..0] == [];
    assert Latest(log[..1]) == map[k1 := v1];
    assert Latest(log) == map[k1 := v1, k2 := v2];
    assert Live(log).Keys == {k1, k2};
  }

  /**
    The failing sides are reached by one commit of two keys: after compaction verify
    refuses the database, a new transaction sees one key only, and compacting again
    loses the other.
   */
  lemma CompactionFailsTwoKeys(k1: Bytes, v1: Bytes, k2: Bytes, v2: Bytes)
    requires k1 != k2 && v1 != TOMBSTONE && v2 != TOMBSTONE
    requires ValidEntry(Item(k1, v1)) && ValidEntry(Item(k2, v2)) && Commits([Item(k1, v1), Item(k2, v2)])
    ensures var evs := [Event.Commit([Item(k1, v1), Item(k2, v2)])];
            && AdmissibleRun(evs) && Run(evs).Some?
            && var c := Compact(Run(evs).value);
               && |Live(LogOf(c))| == 2
               && !Verifies(c, RootOf(LogOf(c)))
               && |UpTo(LogOf(c), c.gen)| == 1
               && Live(CompactLog(LogOf(c), c.gen)) != Live(LogOf(c))
  {
    hide LogOf, CompactLog, RootOf, Live, Verifies, HistoryLog, Carries, UpTo, CommitUpTo, BatchBytes;
    var e := [Item(k1, v1), Item(k2, v2)];
    var ev := Event.Commit(e);
    assert [ev][..0] == [];
    assert AdmissibleRun([]) && AdmissibleRun([ev]) by { RunCarriesHistory([]); }
    RunLog([ev]);
    assert CommittedBatches([ev]) == CommittedBatches([]) + [e] == [e];
    OneBatchLog(e);
    TwoLive(k1, v1, k2, v2);
    var s := Run([ev]).value;
    UpToAll(RecordsOf(1, e), 1);
    assert AllWithinLimits(RecordsOf(1, e));
    CompactWithinLimits(LogOf(s), s.gen);
    CompactKeepsMapAndRoot([ev]);
    CompactLogLive(LogOf(s), s.gen);
    VerifyAfterCompactIff(s);
    SeenAfterCompact(s);
    CompactTwiceIff(s);
  }

  lemma OneBatchLog(e: seq<Item>)
    ensures HistoryLog([e]) == RecordsOf(1, e)
  {
    assert [e][..0] == [] && [] + RecordsOf(1, e) == RecordsOf(1, e);
  }
}
