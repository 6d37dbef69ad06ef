/**
  Runs of QRXDB in which compaction and a restart lose an update or the whole
  database (qrx-core/src/qrxdb.c:881-901).
 */
module QrxdbCompactLosses {
  import opened Wrappers
  import opened QrxdbKeys
  import opened QrxdbLog
  import opened QrxdbWal
  import opened QrxdbStore
  import opened QrxdbCrash
  import opened QrxdbRuns
  import opened QrxdbReads
  import opened QrxdbCompact
  import opened QrxdbCompactRecovery
  import opened QrxdbReplay
  import opened QrxdbCompactRestart

  // ----- a key that goes back -----

  /** The log after two puts of one key, and its compacted form. */
  lemma TwoPuts(k: Bytes, v1: Bytes, v2: Bytes)
    requires v2 != TOMBSTONE
    ensures HistoryLog([[Item(k, v1)]]) == [Record(k, v1, 1)]
    ensures HistoryLog([[Item(k, v1)], [Item(k, v2)]]) == [Record(k, v1, 1), Record(k, v2, 2)]
    ensures CompactLog([Record(k, v1, 1), Record(k, v2, 2)], 2) == [Record(k, v2, 1)]
  {
    TwoPutsLogged(k, v1, v2);
    TwoPutsCompacted(k, v1, v2);
  }

  lemma TwoPutsLogged(k: Bytes, v1: Bytes, v2: Bytes)
    ensures HistoryLog([[Item(k, v1)]]) == [Record(k, v1, 1)]
    ensures HistoryLog([[Item(k, v1)], [Item(k, v2)]]) == [Record(k, v1, 1), Record(k, v2, 2)]
  {
    var h1, h2 := [[Item(k, v1)]], [[Item(k, v1)], [Item(k, v2)]];
    assert h1[..0] == [] && h2[..1] == h1;
    assert HistoryLog(h1) == HistoryLog([]) + RecordsOf(1, [Item(k, v1)]);
    assert HistoryLog(h2) == HistoryLog(h1) + RecordsOf(2, [Item(k, v2)]);
  }

  lemma TwoPutsCompacted(k: Bytes, v1: Bytes, v2: Bytes)
    requires v2 != TOMBSTONE
    ensures CompactLog([Record(k, v1, 1), Record(k, v2, 2)], 2) == [Record(k, v2, 1)]
  {
    var recs := [Record(k, v1, 1), Record(k, v2, 2)];
    UpToAll(recs, 2);
    assert recs[..1] == [Record(k, v1, 1)] && recs[..1][..0] == [];
    assert Collect(recs[..1]) == Upsert([], k, v1) == [Item(k, v1)];
    assert Collect(recs) == Upsert([Item(k, v1)], k, v2) == [Item(k, v2)];
    assert [Item(k, v2)][..0] == [];
    assert LiveItems(recs) == DropTombstones([]) + [Item(k, v2)];
    assert [Item(k, v2)][1..] == [];
    assert Sort([Item(k, v2)]) == Insert(Item(k, v2), Sort([])) == [Item(k, v2)];
    assert UpTo(recs, 2) == recs;
    assert Sort(LiveItems(UpTo(recs, 2))) == [Item(k, v2)];
    assert Renumber([Item(k, v2)]) == [Record(k, v2, 1)];
  }

  /**
    A counterexample to durability across compaction, for every key and every two
    values of equal length: put v1, put v2, compact, put another key, restart; the
    key is back at v1.
   */
  lemma CompactionRevertsUpdate(k: Bytes, v1: Bytes, v2: Bytes, other: Item, kept: set<nat>)
    requires ValidEntry(Item(k, v1)) && ValidEntry(Item(k, v2)) && ValidEntry(other)
    requires |v1| == |v2| && v1 != v2 && v1 != TOMBSTONE && v2 != TOMBSTONE && other.key != k
    requires Commits([Item(k, v1)]) && Commits([Item(k, v2)]) && Commits([other])
    ensures var evs := [Event.Commit([Item(k, v1)]), Event.Commit([Item(k, v2)])];
            && AdmissibleRun(evs) && Run(evs).Some? && Lookup(Live(LogOf(Run(evs).value)), k) == Some(v2)
            && var r := Reopen(CompactedThen(Run(evs).value, [[other]]), kept);
               r.Some? && Lookup(Live(LogOf(r.value)), k) == Some(v1)
  {
    hide LogOf, Reopen, CompactedThen, HistoryLog, CompactLog, CommitUpTo, LaterLog, Restored, Latest, AdmissibleRun,
         Run, CleanWal, BatchBytes;
    var evs := [Event.Commit([Item(k, v1)]), Event.Commit([Item(k, v2)])];
    var first, last := Record(k, v1, 1), Record(other.key, other.value, 3);
    TwoCommits(k, v1, v2);
    TwoPuts(k, v1, v2);
    EqualLengthEqualSpan(k, v1, v2);
    LaterOne(2, [other]);
    RestartCleanWal(evs, [[other]], kept);
    FirstFits(first, Record(k, v2, 2), [last]);
    RunLog(evs);
    LatestOfTwo(first, Record(k, v2, 2));
    LatestOfTwo(first, last);
    assert RecordsOf(3, [other]) == [last] && [first] + [last] == [first, last];
  }

  lemma LaterOne(gen: nat, e: seq<Item>)
    ensures LaterLog(gen, [e]) == RecordsOf(gen + 1, e)
  {
    assert [e][..0] == [] && [] + RecordsOf(gen + 1, e) == RecordsOf(gen + 1, e);
  }

  lemma FirstFits(a: Record, b: Record, more: seq<Record>)
    ensures Restored([a, b], Span([a]), more) == [a] + more
  {
    hide Size;
    assert [a][1..] == [] && [a, b][1..] == [b];
    assert Size(b) > 0;
    assert Fitting([b], 0) == [];
    assert Fitting([a, b], Size(a)) == [a] + Fitting([b], 0);
  }

  lemma EqualLengthEqualSpan(k: Bytes, v1: Bytes, v2: Bytes)
    requires |v1| == |v2|
    ensures Span([Record(k, v2, 1)]) == Span([Record(k, v1, 1)])
  {
    assert [Record(k, v2, 1)][1..] == [] && [Record(k, v1, 1)][1..] == [];
  }

  lemma LatestOfTwo(a: Record, b: Record)
    ensures Latest([a, b]) == map[a.key := a.value][b.key := b.value]
  {
    assert [a, b][..1] == [a] && [a][..0] == [];
    assert Latest([a]) == Latest([])[a.key := a.value];
    assert Latest([a, b]) == Latest([a])[b.key := b.value];
  }

  lemma TwoCommits(k: Bytes, v1: Bytes, v2: Bytes)
    requires ValidEntry(Item(k, v1)) && ValidEntry(Item(k, v2))
    requires Commits([Item(k, v1)]) && Commits([Item(k, v2)])
    ensures var evs := [Event.Commit([Item(k, v1)]), Event.Commit([Item(k, v2)])];
            && AdmissibleRun(evs) && Run(evs).Some? && CleanWal(Run(evs).value.wal)
            && CommittedBatches(evs) == [[Item(k, v1)], [Item(k, v2)]]
  {
    hide CommitUpTo, Run, Clean, Target;
    var e1, e2 := Event.Commit([Item(k, v1)]), Event.Commit([Item(k, v2)]);
    EmptyRun();
    RunNext([], e1);
    assert [] + [e1] == [e1];
    EmptySegmentClean();
    CommitKeepsClean(EMPTY, [Item(k, v1)]);
    RunNext([e1], e2);
    assert [e1] + [e2] == [e1, e2];
    CommitKeepsClean(Run([e1]).value, [Item(k, v2)]);
  }

  lemma EmptyRun()
    ensures AdmissibleRun([]) && Run([]) == Some(EMPTY) && CommittedBatches([]) == [] && Shown([]) == []
  {
  }

  // ----- torn records and compaction -----

  /** A first commit goes to the one empty segment and fills it by the bytes it reserved. */
  lemma FirstCommit(e: seq<Item>)
    requires Commits(e)
    ensures Clean(Target(EMPTY, e))
    ensures var c := CommitUpTo(EMPTY, e, Steps(e), 0); c.wal != [] && c.walOffset == BatchBytes(e)
  {
    hide BatchBytes, WriteAll, Span, BatchItems;
    ReservationExact(1, DATA_START, e);
  }

  /**
    A commit, an attempt torn in its BEGIN record, a second commit of the same key into
    the same segment, compaction, restart: the second commit is gone, although both
    succeeded and nothing was committed since. Its transaction lies behind the torn
    record, and compaction discarded the data file that still held it.
   */
  lemma TornAttemptRevertsUpdate(k: Bytes, v1: Bytes, v2: Bytes, e: seq<Item>, kept: set<nat>)
    requires ValidEntry(Item(k, v1)) && ValidEntry(Item(k, v2)) && ValidEntries(e) && Commits(e)
    requires v1 != v2 && v1 != TOMBSTONE && v2 != TOMBSTONE
    requires BatchBytes([Item(k, v1)]) + BatchBytes(e) <= SEGMENT_SIZE
    requires BatchBytes([Item(k, v1)]) + BatchBytes([Item(k, v2)]) <= SEGMENT_SIZE
    ensures var evs := [Event.Commit([Item(k, v1)]), Event.Fail(e, 0, 5), Event.Commit([Item(k, v2)])];
            && AdmissibleRun(evs) && Run(evs).Some? && CommittedBatches(evs) == [[Item(k, v1)], [Item(k, v2)]]
            && var r := Reopen(Compact(Run(evs).value), kept);
               r.Some? && LogOf(r.value) == [Record(k, v1, 1)]
  {
    hide LogOf, Reopen, Compact, HistoryLog, CompactLog, CommitUpTo, AdmissibleRun, Run, BatchBytes, Shown, HistoryTxs,
         CommittedBatches, Live, HistoryMap;
    var evs := [Event.Commit([Item(k, v1)]), Event.Fail(e, 0, 5), Event.Commit([Item(k, v2)])];
    TornBetween([Item(k, v1)], e, [Item(k, v2)]);
    TwoPuts(k, v1, v2);
    assert CommittedBatches(evs)[..1] == [[Item(k, v1)]];
    RestartShowsFirst(evs, 1, kept);
  }

  lemma TornBetween(a: seq<Item>, e: seq<Item>, b: seq<Item>)
    requires ValidEntries(a) && ValidEntries(e) && ValidEntries(b) && Commits(a) && Commits(e) && Commits(b)
    requires BatchBytes(a) + BatchBytes(e) <= SEGMENT_SIZE && BatchBytes(a) + BatchBytes(b) <= SEGMENT_SIZE
    ensures var evs := [Event.Commit(a), Event.Fail(e, 0, 5), Event.Commit(b)];
            && AdmissibleRun(evs) && Run(evs).Some? && CommittedBatches(evs) == [a, b] && Shown(evs) == HistoryTxs([a])
  {
    hide CommitUpTo, Run, Clean, Target, BatchBytes, NextTx;
    var c1, f, c2 := Event.Commit(a), Event.Fail(e, 0, 5), Event.Commit(b);
    EmptyRun();
    FirstCommit(a);
    RunNext([], c1);
    assert [] + [c1] == [c1];
    RunNext([c1], f);
    assert [c1] + [f] == [c1, f];
    TornHides(Run([c1]).value, e, b);
    RunNext([c1, f], c2);
    assert [c1, f] + [c2] == [c1, f, c2];
    HistoryTxsSnoc([], a);
    assert [] + [a] == [a] && HistoryTxs([]) == [];
  }

  /**
    A torn attempt, a commit behind it, and a commit that opens the next segment: when
    compaction leaves less than the first of the two batches took, the database does
    not open any more. The visible second transaction begins behind the end of the file.
   */
  lemma TornAttemptRefusesRestart(e: seq<Item>, a: seq<Item>, b: seq<Item>, kept: set<nat>)
    requires ValidEntries(a) && ValidEntries(e) && ValidEntries(b) && Commits(a) && Commits(e) && Commits(b)
    requires BatchBytes(a) + BatchBytes(b) > SEGMENT_SIZE
    requires Span(CompactLog(HistoryLog([a, b]), 2)) < Span(RecordsOf(1, a))
    ensures var evs := [Event.Fail(e, 0, 5), Event.Commit(a), Event.Commit(b)];
            && AdmissibleRun(evs) && Run(evs).Some? && CommittedBatches(evs) == [a, b]
            && Reopen(Compact(Run(evs).value), kept).None?
  {
    hide Reopen, Compact, HistoryLog, CompactLog, CommitUpTo, AdmissibleRun, Run, BatchBytes, Shown, CommittedBatches,
         Span, LogOf, TxOf, ReplayedTx, RecordsOf;
    var evs := [Event.Fail(e, 0, 5), Event.Commit(a), Event.Commit(b)];
    var short := CompactLog(HistoryLog([a, b]), 2);
    TornThenRotated(e, a, b);
    RestartReplays(evs, [], kept);
    OneBatchLog(a);
    var tx := NextTx([a], b);
    assert short + [] == short && [tx] + [] == [tx];
    assert Replayed(WholeFile(short), [tx][..0]) == Some(WholeFile(short));
    TxOfPlanned(2, DATA_START + Span(HistoryLog([a])), b);
    TxStarts(2, DATA_START + Span(HistoryLog([a])), b);
    ReplayedBehind(WholeFile(short), tx);
  }

  lemma TornThenRotated(e: seq<Item>, a: seq<Item>, b: seq<Item>)
    requires ValidEntries(a) && ValidEntries(e) && ValidEntries(b) && Commits(a) && Commits(e) && Commits(b)
    requires BatchBytes(a) + BatchBytes(b) > SEGMENT_SIZE
    ensures var evs := [Event.Fail(e, 0, 5), Event.Commit(a), Event.Commit(b)];
            && AdmissibleRun(evs) && Run(evs).Some? && CommittedBatches(evs) == [a, b] && Shown(evs) == [NextTx([a], b)]
  {
    hide CommitUpTo, Run, Clean, Target, BatchBytes, NextTx;
    var f, c1, c2 := Event.Fail(e, 0, 5), Event.Commit(a), Event.Commit(b);
    EmptyRun();
    RunNext([], f);
    assert [] + [f] == [f];
    TornHides(EMPTY, e, a);
    RunNext([f], c1);
    assert [f] + [c1] == [f, c1];
    assert CommittedBatches([f]) == [] && CommittedBatches([f, c1]) == [a];
    RotatedClean(Run([f]).value, a, b);
    RunNext([f, c1], c2);
    assert [f, c1] + [c2] == [f, c1, c2];
  }

  /** A batch that no longer fits behind another goes to a new segment. */
  lemma RotatedClean(s: Store, a: seq<Item>, b: seq<Item>)
    requires s.wal != [] && s.walOffset == 0 && Commits(a) && BatchBytes(a) + BatchBytes(b) > SEGMENT_SIZE
    ensures var c := CommitUpTo(s, a, Steps(a), 0); c.wal != [] && Clean(Target(c, b))
  {
    hide BatchBytes, WriteAll, Span, BatchItems;
    ReservationExact(s.gen + 1, s.writeOffset, a);
  }
}
