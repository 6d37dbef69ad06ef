/**
  Reads of QRXDB: indexed get, live prefix scan, and MVCC reads at a read
  transaction (qrx-core/src/qrxdb.c, qrxdb_get_view_at, qrxdb_scan_prefix,
  qrxdb_scan_prefix_at).
 */
module QrxdbReads {
  import opened QrxdbKeys
  import opened QrxdbMerkle
  import opened QrxdbLog
  import opened QrxdbStore
  import opened QrxdbCrash
  import opened QrxdbRuns

  /** QrxDBReadTxn: generation, write offset and state root at the moment it began. */
  datatype ReadTxn = ReadTxn(gen: nat, writeOffset: nat, root: Hash)

  /** Records of generation at most g. */
  function UpTo(recs: seq<Record>, g: nat): seq<Record> {
    if recs == [] then []
    else
      var init, r := UpTo(recs[..|recs| - 1], g), recs[|recs| - 1];
      if r.gen <= g then init + [r] else init
  }

  predicate HasPrefix(k: Bytes, p: Bytes) { |p| <= |k| && k[..|p|] == p }

  function WithPrefix(recs: seq<Record>, p: Bytes): seq<Record> {
    if recs == [] then []
    else
      var init, r := WithPrefix(recs[..|recs| - 1], p), recs[|recs| - 1];
      if HasPrefix(r.key, p) then init + [r] else init
  }

  function UnderPrefix(m: map<Bytes, Bytes>, p: Bytes): map<Bytes, Bytes> {
    map k | k in m && HasPrefix(k, p) :: m[k]
  }

  /** The records a read transaction sees in a data file. */
  function SnapshotLog(d: Disk, t: ReadTxn): seq<Record> {
    UpTo(Scan(d, DATA_START, t.writeOffset), t.gen)
  }

  /** The callback sequence of qrxdb_scan_prefix_at on the records it sees. */
  function OrderedScan(recs: seq<Record>, p: Bytes): seq<Item> {
    DropTombstones(Sort(Collect(WithPrefix(recs, p))))
  }

  /** qrxdb_scan_prefix calls back for this entry. */
  predicate Called(d: Disk, e: IndexEntry, p: Bytes) {
    HasPrefix(e.key, p) && e.offset in d && d[e.offset].value != TOMBSTONE
  }

  /** The callback sequence of qrxdb_scan_prefix: index order. */
  function IndexScan(d: Disk, ix: seq<IndexEntry>, p: Bytes): seq<Item> {
    if ix == [] then []
    else
      var init, e := IndexScan(d, ix[..|ix| - 1], p), ix[|ix| - 1];
      if Called(d, e, p) then init + [Item(e.key, d[e.offset].value)] else init
  }

  /** A callback's return code, given all calls so far with this one last; it may stop the scan. */
  type Callback = seq<Item> -> int

  /** The calls made of a list of items, up to the first nonzero return code, which is the result. */
  ghost predicate Delivered(items: seq<Item>, callback: Callback, calls: seq<Item>, rc: int) {
    && calls <= items
    && (rc == 0 ==> calls == items && WentOn(calls, callback))
    && (rc != 0 ==> calls != [] && callback(calls) == rc && WentOn(calls[..|calls| - 1], callback))
  }

  /** No callback asked to stop. */
  ghost predicate WentOn(calls: seq<Item>, callback: Callback) {
    calls == [] || (callback(calls) == 0 && WentOn(calls[..|calls| - 1], callback))
  }

  lemma {:induction false} IndexScanGrows(d: Disk, ix: seq<IndexEntry>, i: nat, p: Bytes)
    requires i <= |ix|
    ensures IndexScan(d, ix[..i], p) <= IndexScan(d, ix, p)
  {
    if i == |ix| {
      assert ix[..i] == ix;
    } else {
      assert ix[..|ix| - 1][..i] == ix[..i];
      IndexScanGrows(d, ix[..|ix| - 1], i, p);
    }
  }

  lemma {:induction false} PrefixLatest(recs: seq<Record>, p: Bytes)
    ensures Latest(WithPrefix(recs, p)) == UnderPrefix(Latest(recs), p)
  {
    if recs != [] {
      PrefixLatest(recs[..|recs| - 1], p);
      var init, r := WithPrefix(recs[..|recs| - 1], p), recs[|recs| - 1];
      assert (init + [r])[..|init|] == init;
    }
  }

  lemma {:induction false} DropKeepsOrder(s: seq<Item>)
    requires StrictlySorted(s)
    ensures StrictlySorted(DropTombstones(s))
    ensures forall x :: x in DropTombstones(s) ==> x in s
  {
    if s != [] {
      var init, last := s[..|s| - 1], s[|s| - 1];
      DropKeepsOrder(init);
      assert s == init + [last];
      assert forall i :: 0 <= i < |DropTombstones(init)| ==> DropTombstones(init)[i] in init;
    }
  }

  /** An ordered scan visits exactly the live keys under the prefix, in strictly increasing order. */
  lemma OrderedScanIsLive(recs: seq<Record>, p: Bytes)
    ensures StrictlySorted(OrderedScan(recs, p))
    ensures Lists(OrderedScan(recs, p), UnderPrefix(Live(recs), p))
  {
    hide Sort, Collect, WithPrefix, DropTombstones, StrictlySorted, Less;
    var sub := WithPrefix(recs, p);
    CollectLists(sub);
    SortLists(Collect(sub), Latest(sub));
    DropKeepsOrder(Sort(Collect(sub)));
    DropLists(Sort(Collect(sub)), Latest(sub));
    PrefixLatest(recs, p);
    assert LiveOnly(Latest(sub)) == UnderPrefix(Live(recs), p);
  }

  lemma DropLists(s: seq<Item>, m: map<Bytes, Bytes>)
    requires Lists(s, m)
    ensures Lists(DropTombstones(s), LiveOnly(m))
  {
    DropTombstonesKeeps(s);
    var t := DropTombstones(s);
    forall i | 0 <= i < |t| ensures t[i].key in LiveOnly(m) && LiveOnly(m)[t[i].key] == t[i].value {
      assert t[i] in s;
    }
    forall k | k in LiveOnly(m) ensures Item(k, LiveOnly(m)[k]) in t {
      assert Item(k, m[k]) in s;
    }
  }

  // ----- snapshot isolation -----

  lemma {:induction false} HistoryGens(h: seq<seq<Item>>)
    ensures forall i :: 0 <= i < |HistoryLog(h)| ==> 1 <= HistoryLog(h)[i].gen <= |h|
  {
    if h != [] { HistoryGens(h[..|h| - 1]); }
  }

  lemma {:induction false} UpToAll(recs: seq<Record>, g: nat)
    requires forall i :: 0 <= i < |recs| ==> recs[i].gen <= g
    ensures UpTo(recs, g) == recs
  {
    if recs != [] {
      UpToAll(recs[..|recs| - 1], g);
      assert recs == recs[..|recs| - 1] + [recs[|recs| - 1]];
    }
  }

  /** Later batches only append to the log. */
  lemma {:induction false} HistoryLogExtends(a: seq<seq<Item>>, b: seq<seq<Item>>)
    ensures HistoryLog(a) <= HistoryLog(a + b)
  {
    if b == [] {
      assert a + b == a;
    } else {
      var h := a + b;
      assert h[..|h| - 1] == a + b[..|b| - 1];
      HistoryLogExtends(a, b[..|b| - 1]);
    }
  }

  lemma {:induction false} CommittedAppend(a: seq<Event>, b: seq<Event>)
    ensures CommittedBatches(a + b) == CommittedBatches(a) + CommittedBatches(b)
  {
    if b == [] {
      assert a + b == a;
      assert CommittedBatches(a) + [] == CommittedBatches(a);
    } else {
      var evs := a + b;
      assert evs[..|evs| - 1] == a + b[..|b| - 1];
      CommittedAppend(a, b[..|b| - 1]);
    }
  }

  lemma {:induction false} AdmissiblePrefix(a: seq<Event>, b: seq<Event>)
    requires AdmissibleRun(a + b)
    ensures AdmissibleRun(a)
  {
    if b == [] {
      assert a + b == a;
    } else {
      var evs := a + b;
      assert evs[..|evs| - 1] == a + b[..|b| - 1];
      AdmissiblePrefix(a, b[..|b| - 1]);
    }
  }

  /**
    Snapshot isolation: a transaction begun after run a sees, after any further
    run b, exactly the log as it was when the transaction began.
   */
  lemma SnapshotIsolation(a: seq<Event>, b: seq<Event>)
    requires AdmissibleRun(a + b)
    ensures Run(a).Some? && Run(a + b).Some?
    ensures var s := Run(a).value;
            var t := ReadTxn(s.gen, s.writeOffset, RootOf(LogOf(s)));
            var seen := SnapshotLog(Run(a + b).value.mem, t);
            seen == LogOf(s) && RootOf(seen) == t.root
  {
    hide Run, CommittedBatches, AdmissibleRun, HistoryLog, Place, Span, LogOf, Scan, Carries, RootOf, Verifies;
    AdmissiblePrefix(a, b);
    RunLog(a);
    RunCarriesHistory(a + b);
    CarriesMeans(Run(a + b).value, CommittedBatches(a + b));
    CommittedAppend(a, b);
    var h := CommittedBatches(a);
    var old_, now := HistoryLog(h), HistoryLog(CommittedBatches(a + b));
    HistoryLogExtends(h, CommittedBatches(b));
    assert now == old_ + now[|old_|..];
    ScanOldPart(old_, now[|old_|..]);
    HistoryGens(h);
    UpToAll(old_, |h|);
  }

  /** Reading a longer log within the extent of its beginning yields that beginning. */
  lemma ScanOldPart(recs: seq<Record>, more: seq<Record>)
    requires AllWithinLimits(recs + more)
    ensures Scan(Place(DATA_START, recs + more), DATA_START, DATA_START + Span(recs)) == recs
  {
    HeldPrefix(recs, more);
    assert AllWithinLimits(recs) by { assert forall i :: 0 <= i < |recs| ==> recs[i] == (recs + more)[i]; }
    ScanExactly(Place(DATA_START, recs + more), DATA_START, recs);
  }

  /** Hence point reads and prefix scans of the transaction return the live map of that moment. */
  lemma SnapshotReads(a: seq<Event>, b: seq<Event>, k: Bytes, p: Bytes)
    requires AdmissibleRun(a + b)
    ensures Run(a).Some? && Run(a + b).Some?
    ensures var t := ReadTxn(Run(a).value.gen, Run(a).value.writeOffset, RootOf(LogOf(Run(a).value)));
            var seen, then_ := SnapshotLog(Run(a + b).value.mem, t), HistoryMap(CommittedBatches(a));
            && Lookup(Live(seen), k) == Lookup(then_, k)
            && Lists(OrderedScan(seen, p), UnderPrefix(then_, p))
            && StrictlySorted(OrderedScan(seen, p))
  {
    hide Run, CommittedBatches, AdmissibleRun, HistoryLog, LogOf, Live, HistoryMap, OrderedScan, SnapshotLog,
         UnderPrefix, Lists, StrictlySorted, RootOf;
    SnapshotIsolation(a, b);
    AdmissiblePrefix(a, b);
    RunLiveMap(a);
    OrderedScanIsLive(LogOf(Run(a).value), p);
  }

  // ----- the live prefix scan -----

  /** The item comes from an entry of the index. */
  ghost predicate FromIndex(d: Disk, ix: seq<IndexEntry>, p: Bytes, x: Item) {
    exists e :: e in ix && Called(d, e, p) && x == Item(e.key, d[e.offset].value)
  }

  lemma {:induction false} IndexScanItems(d: Disk, ix: seq<IndexEntry>, p: Bytes)
    requires forall i, j :: 0 <= i < j < |ix| ==> ix[i].key != ix[j].key
    ensures DistinctKeys(IndexScan(d, ix, p))
    ensures forall i :: 0 <= i < |IndexScan(d, ix, p)| ==> FromIndex(d, ix, p, IndexScan(d, ix, p)[i])
    ensures forall e :: e in ix && Called(d, e, p) ==> Item(e.key, d[e.offset].value) in IndexScan(d, ix, p)
  {
    hide HasPrefix;
    if ix != [] {
      var init, last := ix[..|ix| - 1], ix[|ix| - 1];
      assert ix == init + [last];
      IndexScanItems(d, init, p);
      var s := IndexScan(d, init, p);
      forall i | 0 <= i < |s| ensures s[i].key != last.key && FromIndex(d, ix, p, s[i]) {
        assert FromIndex(d, init, p, s[i]);
        var e :| e in init && Called(d, e, p) && s[i] == Item(e.key, d[e.offset].value);
        assert e in ix;
      }
    }
  }

  /** The entry's record is on disk and holds the latest value of its key. */
  ghost predicate Reads(d: Disk, recs: seq<Record>, e: IndexEntry) {
    e.offset in d && e.key in Latest(recs) && d[e.offset].value == Latest(recs)[e.key]
  }

  lemma EntriesRead(d: Disk, recs: seq<Record>)
    requires Holds(d, DATA_START, recs) && AllWithinLimits(recs)
    ensures forall e :: e in IndexOf(recs) ==> Reads(d, recs, e)
  {
    hide Span, Latest, Holds;
    IndexRefinesLog(recs);
    forall e | e in IndexOf(recs) ensures Reads(d, recs, e) { EntryReads(d, recs, e); }
  }

  /** The live prefix scan visits exactly the live keys under the prefix, each once. */
  lemma IndexScanIsLive(d: Disk, recs: seq<Record>, p: Bytes)
    requires Holds(d, DATA_START, recs) && AllWithinLimits(recs)
    ensures Lists(IndexScan(d, IndexOf(recs), p), UnderPrefix(Live(recs), p))
  {
    hide Span, Holds, IndexOf, IndexScan, Latest;
    var ix := IndexOf(recs);
    IndexRefinesLog(recs);
    EntriesRead(d, recs);
    IndexScanItems(d, ix, p);
    var s, m := IndexScan(d, ix, p), UnderPrefix(Live(recs), p);
    forall k | k in m ensures Item(k, m[k]) in s {
      var e := ix[FindEntry(ix, k)];
      assert e in ix && Reads(d, recs, e) && Called(d, e, p);
    }
    forall i | 0 <= i < |s| ensures s[i].key in m && m[s[i].key] == s[i].value {
      assert FromIndex(d, ix, p, s[i]);
      var e :| e in ix && Called(d, e, p) && s[i] == Item(e.key, d[e.offset].value);
      assert Reads(d, recs, e);
    }
  }
}
