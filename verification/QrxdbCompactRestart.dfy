/**
  Restarting after a compaction (qrx-core/src/qrxdb.c:881-901) and any number of
  later commits: what the log and the live map are then, and when they are right.
 */
module QrxdbCompactRestart {
  import opened Wrappers
  import opened QrxdbKeys
  import opened QrxdbLog
  import opened QrxdbWal
  import opened QrxdbStore
  import opened QrxdbCrash
  import opened QrxdbRuns
  import opened QrxdbReads
  import opened QrxdbCompact
  import opened QrxdbCompactRecovery
  import opened QrxdbReplay

  // ----- compaction and later commits -----

  ghost predicate AllCommit(es: seq<seq<Item>>) {
    forall i :: 0 <= i < |es| ==> ValidEntries(es[i]) && Commits(es[i])
  }

  /** The store after compaction and uninterrupted commits of these batches. */
  function CompactedThen(s: Store, es: seq<seq<Item>>): (c: Store)
    requires s.wal != []
    ensures c.wal != []
  {
    if es == [] then Compact(s)
    else
      var e := es[|es| - 1];
      CommitUpTo(CompactedThen(s, es[..|es| - 1]), e, Steps(e), 0)
  }

  /** The records of batches committed at a generation. */
  function LaterLog(gen: nat, es: seq<seq<Item>>): seq<Record> {
    if es == [] then [] else LaterLog(gen, es[..|es| - 1]) + RecordsOf(gen + |es|, es[|es| - 1])
  }

  /** Their WAL transactions, back to back from an offset. */
  function LaterTxs(gen: nat, off: nat, es: seq<seq<Item>>): seq<CommittedTx> {
    if es == [] then []
    else
      var before := es[..|es| - 1];
      LaterTxs(gen, off, before) + [TxOf(gen + |es|, off + Span(LaterLog(gen, before)), es[|es| - 1])]
  }

  /** Those of the later batches that replay can see. */
  ghost function LaterShown(s: Store, es: seq<seq<Item>>): seq<CommittedTx>
    requires s.wal != []
  {
    if es == [] then []
    else
      var before, e := es[..|es| - 1], es[|es| - 1];
      var c := CompactedThen(s, before);
      if Clean(Target(c, e)) then LaterShown(s, before) + [TxOf(c.gen + 1, c.writeOffset, e)] else LaterShown(s, before)
  }

  /** Data file: compacted log and batches. WAL: what it showed before, then the batches it shows. */
  ghost predicate FilesOf(c: Store, gen: nat, short: seq<Record>, es: seq<seq<Item>>, txs: seq<CommittedTx>) {
    var log := short + LaterLog(gen, es);
    && c.wal != [] && WalKeysOk(c.wal) && VisibleAll(c.wal) == txs
    && c.mem == c.platter == Place(DATA_START, log) && AllWithinLimits(log)
    && c.writeOffset == DATA_START + Span(log) <= c.mapSize && c.gen == gen + |es|
  }

  lemma {:induction false} FilesAfterCompact(s: Store, h: seq<seq<Item>>, es: seq<seq<Item>>)
    requires Carries(s, h) && AllCommit(es)
    ensures FilesOf(CompactedThen(s, es), |h|, CompactLog(HistoryLog(h), |h|), es,
                    VisibleAll(s.wal) + LaterShown(s, es))
  {
    hide Place, Span, WriteAll, VisibleAll, SegmentBytes, BatchBytes, HistoryLog, CompactLog, CommitUpTo, LogOf,
         CleanWal, Clean, TxOf;
    var short, shown := CompactLog(HistoryLog(h), |h|), VisibleAll(s.wal);
    if es == [] {
      QuiescentLog(s, HistoryLog(h));
      CompactWithinLimits(HistoryLog(h), |h|);
      assert short + [] == short && shown + [] == shown;
    } else {
      var before, e := es[..|es| - 1], es[|es| - 1];
      FilesAfterCompact(s, h, before);
      var c, txs := CompactedThen(s, before), shown + LaterShown(s, before);
      FilesNext(c, |h|, short, before, txs, e);
      assert before + [e] == es;
      if Clean(Target(c, e)) { assert txs + [TxOf(c.gen + 1, c.writeOffset, e)] == shown + LaterShown(s, es); }
    }
  }

  lemma FilesNext(k: Store, gen: nat, short: seq<Record>, es: seq<seq<Item>>, txs: seq<CommittedTx>, e: seq<Item>)
    requires FilesOf(k, gen, short, es, txs) && ValidEntries(e) && Commits(e)
    ensures FilesOf(CommitUpTo(k, e, Steps(e), 0), gen, short, es + [e],
                    if Clean(Target(k, e)) then txs + [TxOf(k.gen + 1, k.writeOffset, e)] else txs)
  {
    hide Place, Span, WriteAll, VisibleAll, SegmentBytes, BatchBytes, Clean, Target, TxOf, WalAfter, CommitUpTo,
         LaterLog, WalKeysOk;
    WalStays(k, e);
    var log, more := short + LaterLog(gen, es), es + [e];
    CommitOnPlaced(k, log, e);
    CommittedWal(k, e, Steps(e), 0);
    LaterSnoc(gen, DATA_START + Span(short), es, e);
    assert log + RecordsOf(k.gen + 1, e) == short + LaterLog(gen, more);
    assert txs + [] == txs;
  }

  lemma WalStays(k: Store, e: seq<Item>)
    requires k.wal != []
    ensures WalAfter(k, e, Steps(e), 0) != []
  {
  }

  lemma LaterSnoc(gen: nat, off: nat, es: seq<seq<Item>>, e: seq<Item>)
    ensures LaterLog(gen, es + [e]) == LaterLog(gen, es) + RecordsOf(gen + |es| + 1, e)
    ensures LaterTxs(gen, off, es + [e])
         == LaterTxs(gen, off, es) + [TxOf(gen + |es| + 1, off + Span(LaterLog(gen, es)), e)]
  {
    hide TxOf, Span;
    assert (es + [e])[..|es|] == es;
  }

  /** Batches that follow a history where its log ends are simply more history. */
  lemma LaterIsHistory(h: seq<seq<Item>>, es: seq<seq<Item>>)
    ensures HistoryLog(h + es) == HistoryLog(h) + LaterLog(|h|, es)
    ensures HistoryTxs(h + es) == HistoryTxs(h) + LaterTxs(|h|, DATA_START + Span(HistoryLog(h)), es)
  {
    LaterIsLog(h, es);
    LaterIsTxs(h, es);
  }

  lemma {:induction false} LaterIsLog(h: seq<seq<Item>>, es: seq<seq<Item>>)
    ensures HistoryLog(h + es) == HistoryLog(h) + LaterLog(|h|, es)
  {
    hide HistoryLog, RecordsOf;
    if es == [] {
      assert h + es == h;
    } else {
      var before, e := es[..|es| - 1], es[|es| - 1];
      LaterIsLog(h, before);
      assert h + es == (h + before) + [e];
      HistoryLogSnoc(h + before, e);
    }
  }

  lemma {:induction false} LaterIsTxs(h: seq<seq<Item>>, es: seq<seq<Item>>)
    ensures HistoryTxs(h + es) == HistoryTxs(h) + LaterTxs(|h|, DATA_START + Span(HistoryLog(h)), es)
  {
    hide TxOf, Span, HistoryLog, HistoryTxs, LaterLog;
    if es == [] {
      assert h + es == h;
    } else {
      var before, e := es[..|es| - 1], es[|es| - 1];
      LaterIsTxs(h, before);
      LaterIsLog(h, before);
      assert h + es == (h + before) + [e];
      HistoryTxsSnoc(h + before, e);
      SpanAppend(HistoryLog(h), LaterLog(|h|, before));
    }
  }

  lemma NothingLater(gen: nat)
    ensures LaterLog(gen, []) == [] && Span(LaterLog(gen, [])) == 0
  {
  }

  // ----- the transactions a restart meets -----

  /** Transactions of rising generations between two, one behind the other, ending here at the latest. */
  ghost predicate InOrder(txs: seq<CommittedTx>, low: nat, high: nat, end: nat) {
    && Rising(txs, low) && Spaced(txs)
    && forall i :: 0 <= i < |txs| ==> txs[i].gen <= high && txs[i].end <= end
  }

  lemma InOrderSnoc(txs: seq<CommittedTx>, low: nat, high: nat, end: nat, e: seq<Item>, last: nat)
    requires InOrder(txs, low, high, end) && low <= high && DATA_START <= end
    requires e != [] && ValidEntries(e) && last == end + Span(RecordsOf(high + 1, e))
    ensures InOrder(txs + [TxOf(high + 1, end, e)], low, high + 1, last)
    ensures InOrder(txs, low, high + 1, last)
  {
    hide Span, Planned, TxOf;
    TxOfPlanned(high + 1, end, e);
    var tx := TxOf(high + 1, end, e);
    assert tx.gen == high + 1 && tx.begin == end by { TxStarts(high + 1, end, e); }
  }

  lemma {:induction false} ShownInOrder(evs: seq<Event>)
    requires AdmissibleRun(evs)
    ensures var h := CommittedBatches(evs);
            InOrder(Shown(evs), 0, |h|, DATA_START + Span(HistoryLog(h)))
  {
    hide Run, HistoryLog, Span, TxOf, InOrder, Clean, Target, BatchBytes;
    if evs == [] {
      NoneInOrder(0, DATA_START + Span(HistoryLog([])));
    } else {
      var init, last := evs[..|evs| - 1], evs[|evs| - 1];
      var h := CommittedBatches(init);
      ShownInOrder(init);
      if Committed(last) == [] {
        assert h + [] == h;
      } else {
        HistoryLogSnoc(h, last.entries);
        SpanAppend(HistoryLog(h), RecordsOf(|h| + 1, last.entries));
        InOrderSnoc(Shown(init), 0, |h|, DATA_START + Span(HistoryLog(h)), last.entries,
                    DATA_START + Span(HistoryLog(h + [last.entries])));
      }
    }
  }

  lemma NoneInOrder(gen: nat, end: nat)
    ensures InOrder([], gen, gen, end)
  {
  }

  lemma {:induction false} LaterInOrder(s: Store, h: seq<seq<Item>>, es: seq<seq<Item>>)
    requires Carries(s, h) && AllCommit(es)
    ensures InOrder(LaterShown(s, es), |h|, |h| + |es|, CompactedThen(s, es).writeOffset)
  {
    hide Carries, HistoryLog, Span, TxOf, InOrder, Clean, Target, BatchBytes, FilesOf, CommitUpTo, Compact, CompactLog,
         VisibleAll;
    CarriesMeans(s, h);
    if es == [] {
      NoneInOrder(|h|, CompactedThen(s, es).writeOffset);
    } else {
      var before, e := es[..|es| - 1], es[|es| - 1];
      LaterInOrder(s, h, before);
      FilesAfterCompact(s, h, before);
      FilesAfterCompact(s, h, es);
      var c, short := CompactedThen(s, before), CompactLog(HistoryLog(h), |h|);
      assert before + [e] == es;
      LaterOffsets(c, CompactedThen(s, es), |h|, short, before, e,
                   VisibleAll(s.wal) + LaterShown(s, before), VisibleAll(s.wal) + LaterShown(s, es));
      InOrderSnoc(LaterShown(s, before), |h|, |h| + |before|, c.writeOffset, e, CompactedThen(s, es).writeOffset);
    }
  }

  lemma LaterOffsets(c: Store, d: Store, gen: nat, short: seq<Record>, es: seq<seq<Item>>, e: seq<Item>,
                     txs: seq<CommittedTx>, more: seq<CommittedTx>)
    requires FilesOf(c, gen, short, es, txs) && FilesOf(d, gen, short, es + [e], more)
    ensures c.gen == gen + |es| && DATA_START <= c.writeOffset
    ensures d.writeOffset == c.writeOffset + Span(RecordsOf(gen + |es| + 1, e))
  {
    hide Place, Span, VisibleAll, LaterLog, TxOf;
    LaterSnoc(gen, DATA_START, es, e);
    SpanAppend(short, LaterLog(gen, es));
    SpanAppend(short, LaterLog(gen, es + [e]));
    SpanAppend(LaterLog(gen, es), RecordsOf(gen + |es| + 1, e));
  }

  lemma InOrderJoins(a: seq<CommittedTx>, b: seq<CommittedTx>, low: nat, mid: nat, high: nat, end: nat, last: nat)
    requires InOrder(a, low, mid, end) && InOrder(b, mid, high, last) && low <= mid
    ensures Rising(a + b, low)
  {
    hide Planned;
  }

  // ----- the restart -----

  /** The data file before the restart. */
  function FileBefore(h: seq<seq<Item>>, es: seq<seq<Item>>): seq<Record> {
    CompactLog(HistoryLog(h), |h|) + LaterLog(|h|, es)
  }

  /** Reopening is replaying what the WAL shows over the log of the data file. */
  lemma RestartReplays(evs: seq<Event>, es: seq<seq<Item>>, kept: set<nat>)
    requires AdmissibleRun(evs) && AllCommit(es)
    ensures Run(evs).Some?
    ensures var s, file := Run(evs).value, FileBefore(CommittedBatches(evs), es);
            var r := Reopen(CompactedThen(s, es), kept);
            match Replayed(WholeFile(file), Shown(evs) + LaterShown(s, es))
            case None => r.None?
            case Some(q) => r.Some? && LogOf(r.value) == q.log
  {
    hide Run, CommittedBatches, AdmissibleRun, HistoryLog, CompactLog, LaterLog, FileBefore, Place, Span, Recover,
         ApplyAll, Scan, UpTo, FilesOf, BatchBytes, Carries, InOrder, Rising, ReadsAs, Replayed, Surviving, Shown,
         VisibleAll, CompactedThen, LaterShown, ImageOf;
    RunCarriesHistory(evs);
    RunShows(evs);
    var s, h := Run(evs).value, CommittedBatches(evs);
    CarriesMeans(s, h);
    FilesAfterCompact(s, h, es);
    ShownInOrder(evs);
    LaterInOrder(s, h, es);
    var c, txs := CompactedThen(s, es), Shown(evs) + LaterShown(s, es);
    InOrderJoins(Shown(evs), LaterShown(s, es), 0, |h|, |h| + |es|, DATA_START + Span(HistoryLog(h)), c.writeOffset);
    FilesReplay(c, h, es, txs, kept);
  }

  lemma FilesReplay(c: Store, h: seq<seq<Item>>, es: seq<seq<Item>>, txs: seq<CommittedTx>, kept: set<nat>)
    requires FilesOf(c, |h|, CompactLog(HistoryLog(h), |h|), es, txs) && Rising(txs, 0)
    ensures var r := Reopen(c, kept);
            match Replayed(WholeFile(FileBefore(h, es)), txs)
            case None => r.None?
            case Some(q) => r.Some? && LogOf(r.value) == q.log
  {
    hide Place, Span, Surviving, HistoryLog, CompactLog, LaterLog, ApplyAll, ImageOf, Recover, Scan, VisibleAll, Rising,
         ReadsAs, Replayed;
    var log := FileBefore(h, es);
    SyncedSurvives(log, kept);
    RecoverIsReplay(log, c.mapSize, c.wal);
    PlacedReadsAs(log, c.mapSize);
    var im := ImageOf(log, c.mapSize);
    ReplayAllTxs(im, WholeFile(log), txs);
    if Replayed(WholeFile(log), txs).Some? {
      ReadsLog(ApplyAll(im, txs).value, Replayed(WholeFile(log), txs).value,
               if txs == [] then 0 else txs[|txs| - 1].gen);
    }
  }

  /** The WAL of before compaction spliced into the data file, then that of the later batches. */
  function Restarted(file: seq<Record>, shown: seq<CommittedTx>, later: seq<CommittedTx>): Option<Readout> {
    match Spliced(WholeFile(file), shown)
    case None => None
    case Some(q) => Spliced(q, later)
  }

  /**
    What a restart makes of a compacted store, after any run, torn records in the WAL
    or not, and any number of later commits: it is refused, or presents the data file
    with the visible transactions spliced in.
   */
  lemma RestartAfterCompact(evs: seq<Event>, es: seq<seq<Item>>, kept: set<nat>)
    requires AdmissibleRun(evs) && AllCommit(es)
    ensures Run(evs).Some?
    ensures var s, file := Run(evs).value, FileBefore(CommittedBatches(evs), es);
            var r := Reopen(CompactedThen(s, es), kept);
            match Restarted(file, Shown(evs), LaterShown(s, es))
            case None => r.None?
            case Some(q) => r.Some? && LogOf(r.value) == q.log
  {
    hide Run, CommittedBatches, AdmissibleRun, HistoryLog, FileBefore, Span, LogOf, Reopen, Shown, CompactedThen,
         LaterShown, Replayed, Spliced, Planned, Carries, AllCommit;
    RestartReplays(evs, es, kept);
    RunCarriesHistory(evs);
    var s, h := Run(evs).value, CommittedBatches(evs);
    CarriesMeans(s, h);
    var file, shown, later := FileBefore(h, es), Shown(evs), LaterShown(s, es);
    ShownInOrder(evs);
    LaterInOrder(s, h, es);
    ReplayedAppend(WholeFile(file), shown, later);
    SplicedIs(WholeFile(file), shown);
    if Spliced(WholeFile(file), shown).Some? {
      SplicedFits(WholeFile(file), shown);
      SplicedIs(Spliced(WholeFile(file), shown).value, later);
    }
  }

  // ----- a WAL that shows the first batches -----

  /** Replaying a history keeps a file that begins with its log and puts its log in place of any other. */
  lemma {:induction false} ReplayedHistory(file: seq<Record>, h: seq<seq<Item>>)
    requires ValidHistory(h)
    ensures Replayed(WholeFile(file), HistoryTxs(h))
         == Some(WholeFile(if HistoryLog(h) <= file then file else HistoryLog(h)))
  {
    hide Span, TxOf, RecordsOf, ReplayedTx;
    if h != [] {
      var init, e := h[..|h| - 1], h[|h| - 1];
      ReplayedHistory(file, init);
      var log := if HistoryLog(init) <= file then file else HistoryLog(init);
      ReplayedNext(log, HistoryLog(init), |h|, e);
    }
  }

  /**
    A restart directly after compaction when the WAL shows the first m batches: the
    compacted log stays if it begins with theirs, else only those m batches are back.
   */
  lemma RestartShowsFirst(evs: seq<Event>, m: nat, kept: set<nat>)
    requires AdmissibleRun(evs) && m <= |CommittedBatches(evs)|
    requires Shown(evs) == HistoryTxs(CommittedBatches(evs)[..m])
    ensures Run(evs).Some?
    ensures var h := CommittedBatches(evs);
            var r := Reopen(Compact(Run(evs).value), kept);
            var short, old_ := CompactLog(HistoryLog(h), |h|), HistoryLog(h[..m]);
            && r.Some? && LogOf(r.value) == (if old_ <= short then short else old_)
            && (Live(LogOf(r.value)) == HistoryMap(h) <==> old_ <= short || HistoryMap(h[..m]) == HistoryMap(h))
  {
    hide Run, CommittedBatches, AdmissibleRun, HistoryLog, CompactLog, LogOf, Reopen, Shown, Live, HistoryMap,
         HistoryTxs, Compact, Replayed, UpTo, Span, Verifies, RootOf;
    var h := CommittedBatches(evs);
    var short := CompactLog(HistoryLog(h), |h|);
    RestartReplays(evs, [], kept);
    assert Shown(evs) + [] == Shown(evs) && short + [] == short;
    CommittedValid(evs);
    ReplayedHistory(short, h[..m]);
    HistoryLive(h[..m]);
    CompactIsRight(h);
  }

  lemma CompactIsRight(h: seq<seq<Item>>)
    ensures Live(CompactLog(HistoryLog(h), |h|)) == HistoryMap(h)
  {
    hide Live, HistoryMap, UpTo, HistoryLog, CompactLog;
    HistoryGens(h);
    UpToAll(HistoryLog(h), |h|);
    CompactLogLive(HistoryLog(h), |h|);
    HistoryLive(h);
  }

  // ----- a WAL without torn records -----

  /** A run whose WAL holds no torn record, and batches to commit after compaction. */
  ghost predicate Compactable(evs: seq<Event>, es: seq<seq<Item>>) {
    AdmissibleRun(evs) && AllCommit(es) && Run(evs).Some? && CleanWal(Run(evs).value.wal)
  }

  lemma {:induction false} LaterAllShown(s: Store, h: seq<seq<Item>>, es: seq<seq<Item>>)
    requires Carries(s, h) && CleanWal(s.wal) && AllCommit(es)
    ensures CleanWal(CompactedThen(s, es).wal)
    ensures LaterShown(s, es) == LaterTxs(|h|, DATA_START + Span(CompactLog(HistoryLog(h), |h|)), es)
  {
    hide Carries, HistoryLog, Span, TxOf, CleanWal, Clean, Target, BatchBytes, FilesOf, CommitUpTo, CompactLog, LogOf,
         Place, SegmentBytes, LaterLog, VisibleAll;
    CarriesMeans(s, h);
    if es != [] {
      var before, e := es[..|es| - 1], es[|es| - 1];
      LaterAllShown(s, h, before);
      var c, short := CompactedThen(s, before), CompactLog(HistoryLog(h), |h|);
      FilesAfterCompact(s, h, before);
      LaterStarts(c, |h|, short, before, VisibleAll(s.wal) + LaterShown(s, before));
      CommitKeepsClean(c, e);
      CleanTarget(c, e);
    }
  }

  lemma LaterStarts(c: Store, gen: nat, short: seq<Record>, es: seq<seq<Item>>, txs: seq<CommittedTx>)
    requires FilesOf(c, gen, short, es, txs)
    ensures c.gen == gen + |es| && c.writeOffset == DATA_START + Span(short) + Span(LaterLog(gen, es))
  {
    hide Place, Span, VisibleAll, LaterLog;
    SpanAppend(short, LaterLog(gen, es));
  }

  /** The history up to where the compacted log ended, and what was committed since only if a record ended there. */
  function Restored(log: seq<Record>, room: nat, more: seq<Record>): seq<Record> {
    var keep := Fitting(log, room);
    if Span(keep) == room then keep + more else keep
  }

  lemma {:induction false} LaterRecords(gen: nat, off: nat, es: seq<seq<Item>>)
    requires AllCommit(es) && DATA_START <= off
    ensures var txs := LaterTxs(gen, off, es);
            && |txs| == |es| && AllRecords(txs) == LaterLog(gen, es) && Adjacent(txs)
            && (forall i :: 0 <= i < |txs| ==> Planned(txs[i]))
            && (es != [] ==> txs[0].begin == off && txs[0].gen == gen + 1
                             && txs[|txs| - 1].end == off + Span(LaterLog(gen, es)))
  {
    hide Span, TxOf, TxRecords, Planned, BatchBytes, RecordsOf, Adjacent;
    if es == [] {
      NoneAdjacent();
    } else {
      var before, e := es[..|es| - 1], es[|es| - 1];
      var init, begin := LaterTxs(gen, off, before), off + Span(LaterLog(gen, before));
      LaterRecords(gen, off, before);
      NothingLater(gen);
      TxOfPlanned(gen + |es|, begin, e);
      TxStarts(gen + |es|, begin, e);
      SpanAppend(LaterLog(gen, before), RecordsOf(gen + |es|, e));
      var txs := init + [TxOf(gen + |es|, begin, e)];
      assert txs[..|txs| - 1] == init;
      if before == [] { OneAdjacent(txs); } else { AdjacentInit(txs); }
    }
  }

  lemma NoneAdjacent()
    ensures Adjacent([])
  {
  }

  /** Batches that begin inside a log without records of theirs cut it there. */
  lemma LaterCuts(log: seq<Record>, room: nat, gen: nat, es: seq<seq<Item>>)
    requires AllCommit(es) && es != [] && room <= Span(log)
    requires forall i :: 0 <= i < |log| ==> log[i].gen <= gen
    ensures var q := Replayed(WholeFile(log), LaterTxs(gen, DATA_START + room, es));
            q.Some? && q.value.log == Restored(log, room, LaterLog(gen, es))
  {
    hide Span, Planned, TxOf, LaterTxs, LaterLog, TxRecords, Adjacent, AllCommit, Fitting, AllRecords, Replayed;
    var txs := LaterTxs(gen, DATA_START + room, es);
    LaterRecords(gen, DATA_START + room, es);
    NewerNotOnLog(log, gen, txs[0]);
    assert Spaced(txs) by { AdjacentSpaced(txs); }
    ReplayedRun(WholeFile(log), txs);
  }

  lemma NewerNotOnLog(log: seq<Record>, gen: nat, tx: CommittedTx)
    requires Planned(tx) && tx.gen > gen && forall i :: 0 <= i < |log| ==> log[i].gen <= gen
    ensures !OnLog(log, tx)
  {
    hide Planned, TxRecords, Kept, Flush;
    PlannedMeans(tx);
    var rest := log[|Kept(log, tx)|..];
    assert rest == [] || rest[0].gen <= gen;
  }

  lemma AdjacentSpaced(txs: seq<CommittedTx>)
    requires Adjacent(txs)
    ensures Spaced(txs)
  {
  }

  /** The log before, the compacted one and later batches: what replaying them all leaves. */
  lemma HistoryThenLater(h: seq<seq<Item>>, short: seq<Record>, es: seq<seq<Item>>)
    requires ValidHistory(h) && AllCommit(es) && Span(short) <= Span(HistoryLog(h))
    ensures var q := Replayed(WholeFile(short + LaterLog(|h|, es)),
                              HistoryTxs(h) + LaterTxs(|h|, DATA_START + Span(short), es));
            q.Some? && q.value.log ==
                       if es == [] then HistoryLog(h) else Restored(HistoryLog(h), Span(short), LaterLog(|h|, es))
  {
    hide Span, HistoryLog, HistoryTxs, LaterTxs, LaterLog, Replayed, Restored, BatchBytes;
    var log, more, file := HistoryLog(h), LaterLog(|h|, es), short + LaterLog(|h|, es);
    HistoryGens(h);
    LaterIsHistory(h, es);
    SpanAppend(short, more);
    SpanAppend(log, more);
    NothingLater(|h|);
    if es == [] || Span(short) == Span(log) {
      assert ValidHistory(h + es);
      ReplayedHistory(file, h + es);
      if HistoryLog(h + es) <= file { SamePrefix(HistoryLog(h + es), file); }
      NoLaterTxs(|h|);
      if es == [] { assert h + es == h && HistoryTxs(h) + [] == HistoryTxs(h); } else { RestoredWhole(log, more); }
    } else {
      ReplayedHistory(file, h);
      ReplayedAppend(WholeFile(file), HistoryTxs(h), LaterTxs(|h|, DATA_START + Span(short), es));
      LaterGen(|h|, es);
      NotInside(log, short, more, |h|);
      LaterCuts(log, Span(short), |h|, es);
    }
  }

  lemma NoLaterTxs(gen: nat)
    ensures forall off :: LaterTxs(gen, off, []) == []
  {
  }

  lemma RestoredWhole(log: seq<Record>, more: seq<Record>)
    ensures Restored(log, Span(log), more) == log + more
  {
    FittingEnds(log, Span(log));
  }

  /** A leading part at least as long is the whole. */
  lemma SamePrefix(a: seq<Record>, b: seq<Record>)
    requires a <= b && Span(a) >= Span(b)
    ensures a == b
  {
    hide Span;
    var rest := b[|a|..];
    assert b == a + rest;
    SpanAppend(a, rest);
    if rest != [] { PositiveSpan(rest); }
  }

  lemma LaterGen(gen: nat, es: seq<seq<Item>>)
    requires AllCommit(es) && es != []
    ensures LaterLog(gen, es) != [] && LaterLog(gen, es)[0].gen > gen
  {
    hide BatchBytes;
    var before := es[..|es| - 1];
    if before != [] { LaterGen(gen, before); }
  }

  /** A log of old records that is longer than the compacted one is not how the data file begins. */
  lemma NotInside(log: seq<Record>, short: seq<Record>, more: seq<Record>, gen: nat)
    requires Span(short) < Span(log) && more != [] && more[0].gen > gen
    requires forall i :: 0 <= i < |log| ==> log[i].gen <= gen
    ensures !(log <= short + more)
  {
    hide Span;
    var file := short + more;
    if |log| > |short| {
      assert file[|short|] == more[0];
    } else if log <= file {
      assert short[..|log|] == file[..|log|];
      assert short == log + short[|log|..];
      SpanAppend(log, short[|log|..]);
    }
  }

  /**
    The outcome without torn records in the WAL. With no later commit, the whole old
    history is back. Otherwise the old history is back up to the last record that ends
    within the length of the compacted log, and the later batches are there exactly
    when that record ends at that length.
   */
  lemma RestartCleanWal(evs: seq<Event>, es: seq<seq<Item>>, kept: set<nat>)
    requires Compactable(evs, es)
    ensures var s, h := Run(evs).value, CommittedBatches(evs);
            var r, log := Reopen(CompactedThen(s, es), kept), HistoryLog(h);
            && r.Some?
            && LogOf(r.value) ==
               if es == [] then log else Restored(log, Span(CompactLog(log, |h|)), LaterLog(|h|, es))
  {
    hide Run, CommittedBatches, AdmissibleRun, HistoryLog, HistoryTxs, CompactLog, CompactedThen, LaterLog, LaterTxs,
         Span, UpTo, BatchBytes, CleanWal, Carries, Shown, LaterShown, VisibleAll, Reopen, LogOf, Restored, Replayed;
    var s, h := Run(evs).value, CommittedBatches(evs);
    RunCarriesHistory(evs);
    RunWalIsHistory(evs);
    RunShows(evs);
    CommittedValid(evs);
    HistoryGens(h);
    UpToAll(HistoryLog(h), |h|);
    CompactNotLonger(HistoryLog(h), |h|);
    LaterAllShown(s, h, es);
    RestartReplays(evs, es, kept);
    HistoryThenLater(h, CompactLog(HistoryLog(h), |h|), es);
  }

  // ----- when the restart is right -----

  /** Every key the lost records write, unless written again behind them, already had the value they leave it. */
  ghost predicate NothingLost(keep: seq<Record>, lost: seq<Record>, after: seq<Record>) {
    forall k :: k in Latest(lost) && k !in Latest(after) ==> Lookup(Live(keep), k) == Lookup(Live(lost), k)
  }

  /** Leaving records out of a log keeps its live map exactly when nothing is lost with them. */
  lemma LostRecordsIff(keep: seq<Record>, lost: seq<Record>, after: seq<Record>)
    ensures Live(keep + after) == Live(keep + lost + after) <==> NothingLost(keep, lost, after)
  {
    hide Latest;
    LatestAppend(keep, after);
    LatestAppend(keep, lost);
    LatestAppend(keep + lost, after);
    var l, r := Live(keep + after), Live(keep + lost + after);
    if l == r {
      forall k | k in Latest(lost) && k !in Latest(after) ensures Lookup(Live(keep), k) == Lookup(Live(lost), k) {
        assert Lookup(l, k) == Lookup(r, k);
      }
    }
    if NothingLost(keep, lost, after) {
      forall k ensures Lookup(l, k) == Lookup(r, k) {
        if k in Latest(lost) && k !in Latest(after) { assert Lookup(Live(keep), k) == Lookup(Live(lost), k); }
      }
      SameLookups(l, r);
    }
  }

  lemma SameLookups(a: map<Bytes, Bytes>, b: map<Bytes, Bytes>)
    requires forall k :: Lookup(a, k) == Lookup(b, k)
    ensures a == b
  {
    forall k ensures (k in a <==> k in b) && (k in a ==> a[k] == b[k]) {
      assert Lookup(a, k) == Lookup(b, k);
    }
  }

  /** What the restart leaves out of the history and the later batches changes nothing. */
  ghost predicate Harmless(log: seq<Record>, room: nat, more: seq<Record>) {
    var keep := Fitting(log, room);
    var rest := log[|keep|..];
    if Span(keep) == room then NothingLost(keep, rest, more) else NothingLost(keep, rest + more, [])
  }

  lemma RestoredLiveIff(log: seq<Record>, room: nat, more: seq<Record>)
    ensures Live(Restored(log, room, more)) == Live(log + more) <==> Harmless(log, room, more)
  {
    hide Live, NothingLost, Span;
    var keep := Fitting(log, room);
    var rest := log[|keep|..];
    assert log == keep + rest;
    if Span(keep) == room {
      LostRecordsIff(keep, rest, more);
    } else {
      LostRecordsIff(keep, rest + more, []);
      assert keep + [] == keep && keep + (rest + more) + [] == log + more;
    }
  }

  /** What a key holds after records behind a log. */
  function ValueAfter(keep: seq<Record>, more: seq<Record>, k: Bytes): Option<Bytes> {
    if k in Latest(more) then Lookup(Live(more), k) else Lookup(Live(keep), k)
  }

  /** Every key that one of two continuations of a log writes holds the same after both. */
  ghost predicate SameEffect(keep: seq<Record>, a: seq<Record>, b: seq<Record>) {
    forall k :: k in Latest(a) || k in Latest(b) ==> ValueAfter(keep, a, k) == ValueAfter(keep, b, k)
  }

  lemma LookupAfter(keep: seq<Record>, more: seq<Record>, k: Bytes)
    ensures Lookup(Live(keep + more), k) == ValueAfter(keep, more, k)
  {
    hide Latest;
    LatestAppend(keep, more);
  }

  /** Two continuations of a log give one live map exactly when they have the same effect. */
  lemma SameEffectIff(keep: seq<Record>, a: seq<Record>, b: seq<Record>)
    ensures Live(keep + a) == Live(keep + b) <==> SameEffect(keep, a, b)
  {
    hide Live;
    forall k
      ensures Lookup(Live(keep + a), k) == ValueAfter(keep, a, k) && Lookup(Live(keep + b), k) == ValueAfter(keep, b, k)
    {
      LookupAfter(keep, a, k);
      LookupAfter(keep, b, k);
    }
    if SameEffect(keep, a, b) { SameLookups(Live(keep + a), Live(keep + b)); }
  }

  /** How many leading records two logs share. */
  function Shared(a: seq<Record>, b: seq<Record>): (n: nat)
    ensures n <= |a| && n <= |b| && a[..n] == b[..n]
  {
    if a == [] || b == [] || a[0] != b[0] then 0 else 1 + Shared(a[1..], b[1..])
  }

  /** Behind what they share, the two logs have the same effect. */
  ghost predicate Unharmed(file: seq<Record>, log: seq<Record>) {
    var n := Shared(file, log);
    SameEffect(file[..n], file[n..], log[n..])
  }

  lemma UnharmedIff(file: seq<Record>, log: seq<Record>)
    ensures Live(log) == Live(file) <==> Unharmed(file, log)
  {
    hide Live, SameEffect;
    var n := Shared(file, log);
    assert file == file[..n] + file[n..] && log == file[..n] + log[n..];
    SameEffectIff(file[..n], file[n..], log[n..]);
  }

  /** Until the restart the data file is right. */
  lemma FileIsRight(h: seq<seq<Item>>, es: seq<seq<Item>>)
    ensures Live(FileBefore(h, es)) == HistoryMap(h + es)
  {
    hide HistoryMap, HistoryLog, CompactLog, LaterLog, Latest, HistoryTxs, LaterTxs, UpTo;
    var log, short, more := HistoryLog(h), CompactLog(HistoryLog(h), |h|), LaterLog(|h|, es);
    HistoryGens(h);
    UpToAll(log, |h|);
    CompactLogLive(log, |h|);
    LaterIsHistory(h, es);
    HistoryLive(h + es);
    LatestAppend(log, more);
    LatestAppend(short, more);
  }

  /**
    Exactly when a restart after compaction presents the right live map, after any run,
    torn records in the WAL or not, and any number of later commits: it is not refused,
    and what is spliced in has the effect of what it replaces, as told from the data
    file and the visible transactions before the restart.
   */
  lemma RestartKeepsMapIff(evs: seq<Event>, es: seq<seq<Item>>, kept: set<nat>)
    requires AdmissibleRun(evs) && AllCommit(es)
    ensures Run(evs).Some?
    ensures var s, h := Run(evs).value, CommittedBatches(evs);
            var r, file := Reopen(CompactedThen(s, es), kept), FileBefore(h, es);
            var q := Restarted(file, Shown(evs), LaterShown(s, es));
            r.Some? && Live(LogOf(r.value)) == HistoryMap(h + es) <==> q.Some? && Unharmed(file, q.value.log)
  {
    hide Run, CommittedBatches, AdmissibleRun, CompactedThen, LogOf, Live, HistoryMap, Reopen, AllCommit, FileBefore,
         Restarted, Shown, LaterShown, Unharmed, HistoryLog;
    RestartAfterCompact(evs, es, kept);
    var s, h := Run(evs).value, CommittedBatches(evs);
    var file, q := FileBefore(h, es), Restarted(FileBefore(h, es), Shown(evs), LaterShown(s, es));
    FileIsRight(h, es);
    if q.Some? { UnharmedIff(file, q.value.log); }
  }

  /** The visible transactions are all in the file, or those that are not fit in and leave the same behind them. */
  ghost predicate Fits(file: seq<Record>, txs: seq<CommittedTx>) {
    var n := Leading(file, txs);
    n == |txs| ||
    (var keep, rest := Kept(file, txs[n]), txs[n..];
     && txs[n].begin <= DATA_START + Span(file) && Adjacent(rest)
     && SameEffect(keep, file[|keep|..], if Flush(file, txs[n]) then AllRecords(rest) else []))
  }

  /** A restart directly after compaction is right exactly when the visible transactions fit the compacted log. */
  lemma RestartDirectlyIff(evs: seq<Event>, kept: set<nat>)
    requires AdmissibleRun(evs)
    ensures Run(evs).Some?
    ensures var h := CommittedBatches(evs);
            var r := Reopen(Compact(Run(evs).value), kept);
            r.Some? && Live(LogOf(r.value)) == HistoryMap(h) <==> Fits(CompactLog(HistoryLog(h), |h|), Shown(evs))
  {
    hide Run, CommittedBatches, AdmissibleRun, HistoryLog, CompactLog, LogOf, Reopen, Shown, Live, HistoryMap, Compact,
         Spliced, Span, Fits;
    RestartAfterCompact(evs, [], kept);
    var h := CommittedBatches(evs);
    var short := CompactLog(HistoryLog(h), |h|);
    assert short + [] == short;
    CompactIsRight(h);
    FitsIff(short, Shown(evs));
    if Spliced(WholeFile(short), Shown(evs)).Some? { SplicedNone(Spliced(WholeFile(short), Shown(evs)).value); }
  }

  lemma SplicedNone(r: Readout)
    ensures Spliced(r, []) == Some(r)
  {
  }

  lemma FitsIff(file: seq<Record>, txs: seq<CommittedTx>)
    ensures var q := Spliced(WholeFile(file), txs);
            q.Some? && Live(q.value.log) == Live(file) <==> Fits(file, txs)
  {
    hide Live, SameEffect, Adjacent, AllRecords, Flush, Kept, OnLog;
    var n := Leading(file, txs);
    if n < |txs| {
      var keep := Kept(file, txs[n]);
      var put := if Flush(file, txs[n]) then AllRecords(txs[n..]) else [];
      assert file == keep + file[|keep|..] && keep + [] == keep;
      SameEffectIff(keep, file[|keep|..], put);
    }
  }

  /**
    The condition without torn records in the WAL: nothing was committed since, or what
    falls behind the end of the compacted log, told from the log before compaction and
    the batches, changes nothing.
   */
  lemma RestartCleanMapIff(evs: seq<Event>, es: seq<seq<Item>>, kept: set<nat>)
    requires Compactable(evs, es)
    ensures var s, h := Run(evs).value, CommittedBatches(evs);
            var r, log := Reopen(CompactedThen(s, es), kept), HistoryLog(h);
            && r.Some?
            && (Live(LogOf(r.value)) == HistoryMap(h + es) <==>
                es == [] || Harmless(log, Span(CompactLog(log, |h|)), LaterLog(|h|, es)))
  {
    hide Run, CommittedBatches, AdmissibleRun, HistoryLog, CompactLog, CompactedThen, LaterLog, LaterTxs, Span, LogOf,
         Live, HistoryMap, Reopen, Restored, Harmless, HistoryTxs, AllCommit, CleanWal;
    var h := CommittedBatches(evs);
    var log := HistoryLog(h);
    RestartCleanWal(evs, es, kept);
    RestoredLiveIff(log, Span(CompactLog(log, |h|)), LaterLog(|h|, es));
    LaterIsHistory(h, es);
    HistoryLive(h + es);
    if es == [] {
      NothingLater(|h|);
      assert log + [] == log;
    }
  }

  /** Without torn records the log is right exactly when nothing was committed since or compaction removed nothing. */
  lemma RestartKeepsLogIff(evs: seq<Event>, es: seq<seq<Item>>, kept: set<nat>)
    requires Compactable(evs, es)
    ensures var s, h := Run(evs).value, CommittedBatches(evs);
            var r, log := Reopen(CompactedThen(s, es), kept), HistoryLog(h);
            && r.Some?
            && (LogOf(r.value) == HistoryLog(h + es) <==> es == [] || Span(CompactLog(log, |h|)) == Span(log))
  {
    hide Run, CommittedBatches, AdmissibleRun, HistoryLog, CompactLog, CompactedThen, LaterLog, LaterTxs, Span, Size,
         LogOf, Reopen, HistoryTxs, AllCommit, CleanWal, UpTo;
    var h := CommittedBatches(evs);
    var log := HistoryLog(h);
    var room, more := Span(CompactLog(log, |h|)), LaterLog(|h|, es);
    RestartCleanWal(evs, es, kept);
    LaterIsHistory(h, es);
    HistoryGens(h);
    UpToAll(log, |h|);
    CompactNotLonger(log, |h|);
    FittingEnds(log, room);
    if es == [] {
      NothingLater(|h|);
      assert log + [] == log;
    } else if room < Span(log) {
      assert |Restored(log, room, more)| < |log + more|;
    }
  }
}
