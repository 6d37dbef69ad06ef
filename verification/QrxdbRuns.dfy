/**
  Whole runs of a QRXDB store: commits, attempts that fail before COMMIT,
  crashes at any step and restarts, in any order (qrx-core/src/qrxdb.c).
 */
module QrxdbRuns {
  import opened Wrappers
  import opened QrxdbKeys
  import opened QrxdbLog
  import opened QrxdbWal
  import opened QrxdbStore
  import opened QrxdbCrash

  datatype Event =
    | Commit(entries: seq<Item>)
    | Fail(entries: seq<Item>, stopAt: nat, torn: nat)                   // error return, the session goes on
    | Crash(entries: seq<Item>, stopAt: nat, torn: nat, kept: set<nat>)  // death during commit, then reopen
    | Restart(kept: set<nat>)                                            // death while idle, then reopen

  function Exec(s: Store, ev: Event): Option<Store>
    requires s.wal != []
  {
    match ev
    case Commit(e) => Some(CommitUpTo(s, e, Steps(e), 0))
    case Fail(e, n, torn) => Some(CommitUpTo(s, e, n, torn))
    case Crash(e, n, torn, kept) => Reopen(CommitUpTo(s, e, n, torn), kept)
    case Restart(kept) => Reopen(s, kept)
  }

  /** The batches of a run whose COMMIT record was written. */
  function Committed(ev: Event): seq<seq<Item>> {
    match ev
    case Commit(e) => if Commits(e) then [e] else []
    case Crash(e, n, _, _) => if Commits(e) && n >= |e| + 2 then [e] else []
    case _ => []
  }

  /**
    Batches hold what qrxdb_batch_put lets in; a failed attempt stopped before
    COMMIT; a crash after COMMIT hits a segment without a torn record (exactly
    then commit is crash atomic, see AtomicIffSegmentClean).
   */
  ghost predicate Admissible(s: Store, ev: Event)
    requires s.wal != []
  {
    match ev
    case Commit(e) => ValidEntries(e)
    case Fail(e, n, _) => ValidEntries(e) && n < |e| + 2
    case Crash(e, n, _, _) => ValidEntries(e) && (n >= |e| + 2 ==> Clean(Target(s, e)))
    case Restart(_) => true
  }

  /** The log of a history: batch number i carries generation i, counted from 1. */
  function HistoryLog(h: seq<seq<Item>>): seq<Record> {
    if h == [] then [] else HistoryLog(h[..|h| - 1]) + RecordsOf(|h|, h[|h| - 1])
  }

  /** The WAL transaction of a batch that follows a history. */
  function NextTx(h: seq<seq<Item>>, e: seq<Item>): CommittedTx {
    TxOf(|h| + 1, DATA_START + Span(HistoryLog(h)), e)
  }

  /** The WAL transactions of a history, back to back from DATA_START. */
  function HistoryTxs(h: seq<seq<Item>>): seq<CommittedTx> {
    if h == [] then [] else HistoryTxs(h[..|h| - 1]) + [NextTx(h[..|h| - 1], h[|h| - 1])]
  }

  ghost predicate CleanWal(wal: Wal) {
    forall i :: 0 <= i < |wal| ==> Clean(wal[i])
  }

  /** The store carries exactly this history. */
  ghost predicate Carries(s: Store, h: seq<seq<Item>>) {
    && Quiescent(s, HistoryLog(h))
    && s.gen == |h|
    && (CleanWal(s.wal) ==> VisibleAll(s.wal) == HistoryTxs(h))
  }

  lemma HistoryLogSnoc(h: seq<seq<Item>>, e: seq<Item>)
    ensures HistoryLog(h + [e]) == HistoryLog(h) + RecordsOf(|h| + 1, e)
  {
    var g := h + [e];
    assert g[..|g| - 1] == h && g[|g| - 1] == e;
  }

  lemma HistoryTxsSnoc(h: seq<seq<Item>>, e: seq<Item>)
    ensures HistoryTxs(h + [e]) == HistoryTxs(h) + [NextTx(h, e)]
  {
    hide NextTx;
    var g := h + [e];
    assert g[..|g| - 1] == h && g[|g| - 1] == e;
  }

  /** A torn record, once on file, stays; no operation makes a segment clean again. */
  lemma CleanBefore(s: Store, entries: seq<Item>, n: nat, torn: nat)
    requires s.wal != [] && CleanWal(WalAfter(s, entries, n, torn))
    ensures CleanWal(s.wal) && Clean(Target(s, entries))
  {
    var r, w := Rotate(s, BatchBytes(entries)).wal, WalAfter(s, entries, n, torn);
    var out := Written(s.gen + 1, s.writeOffset, entries, n, torn);
    forall i | 0 <= i < |r| ensures Clean(r[i]) {
      if i == |r| - 1 {
        assert w[i] == r[i] + out;
        assert forall j :: 0 <= j < |r[i]| ==> r[i][j] == w[i][j];
      } else {
        assert w[i] == r[i];
      }
    }
    forall i | 0 <= i < |s.wal| ensures Clean(s.wal[i]) { assert s.wal[i] == r[i]; }
  }

  /** One more committed batch. */
  lemma CarriesMore(s: Store, h: seq<seq<Item>>, e: seq<Item>, c: Store, n: nat, torn: nat)
    requires Carries(s, h) && ValidEntries(e) && Commits(e) && n >= |e| + 2
    requires Quiescent(c, HistoryLog(h) + RecordsOf(|h| + 1, e)) && c.wal == WalAfter(s, e, n, torn)
    ensures Carries(c, h + [e])
  {
    HistoryLogSnoc(h, e);
    HistoryTxsSnoc(h, e);
    BatchWithinLimits(HistoryLog(h), |h| + 1, e);
    CommittedWal(s, e, n, torn);
    if CleanWal(c.wal) { CleanBefore(s, e, n, torn); }
  }

  /** No committed batch more. */
  lemma CarriesSame(s: Store, h: seq<seq<Item>>, e: seq<Item>, c: Store, n: nat, torn: nat)
    requires Carries(s, h) && ValidEntries(e) && n < |e| + 2
    requires Quiescent(c, HistoryLog(h)) && c.wal == WalAfter(s, e, n, torn)
    ensures Carries(c, h)
  {
    AbandonedWal(s, e, n, torn);
    if CleanWal(c.wal) { CleanBefore(s, e, n, torn); }
  }

  /** Every event takes a store carrying a history to one carrying the history it should. */
  lemma StepCarries(s: Store, h: seq<seq<Item>>, ev: Event)
    requires Carries(s, h) && Admissible(s, ev)
    ensures Exec(s, ev).Some? && Carries(Exec(s, ev).value, h + Committed(ev))
  {
    hide Quiescent, Carries;
    assert Quiescent(s, HistoryLog(h)) && s.gen == |h| && s.wal != [] by { CarriesMeans(s, h); }
    assert h + [] == h;
    match ev
    case Restart(kept) => RestartCarries(s, h, kept);
    case Commit(e) =>
      if Commits(e) {
        CompletedCommit(s, HistoryLog(h), e, 0);
        CarriesMore(s, h, e, Exec(s, ev).value, Steps(e), 0);
      }
    case Fail(e, n, torn) =>
      if Commits(e) {
        AbandonedAttempt(s, HistoryLog(h), e, n, torn);
        CarriesSame(s, h, e, Exec(s, ev).value, n, torn);
      }
    case Crash(e, n, torn, kept) =>
      if !Commits(e) {
        RestartCarries(s, h, kept);
      } else {
        CrashCarries(s, h, e, n, torn, kept);
      }
  }

  lemma CarriesMeans(s: Store, h: seq<seq<Item>>)
    requires Carries(s, h)
    ensures Quiescent(s, HistoryLog(h)) && s.gen == |h| && s.wal != []
  {
  }

  lemma RestartCarries(s: Store, h: seq<seq<Item>>, kept: set<nat>)
    requires Carries(s, h)
    ensures Reopen(s, kept).Some? && Carries(Reopen(s, kept).value, h)
  {
    hide HistoryLog, HistoryTxs, Reopen, VisibleAll, Place, Span;
    ReopenIdle(s, HistoryLog(h), kept);
  }

  lemma CrashCarries(s: Store, h: seq<seq<Item>>, e: seq<Item>, n: nat, torn: nat, kept: set<nat>)
    requires Carries(s, h) && ValidEntries(e) && Commits(e)
    requires n >= |e| + 2 ==> Clean(Target(s, e))
    ensures var r := Reopen(CommitUpTo(s, e, n, torn), kept);
            r.Some? && Carries(r.value, if n >= |e| + 2 then h + [e] else h)
  {
    hide Quiescent, HistoryLog, HistoryTxs, VisibleAll, Place, Span, Recover, WriteAll, Surviving;
    CarriesMeans(s, h);
    var log, c := HistoryLog(h), CommitUpTo(s, e, n, torn);
    if n < |e| + 2 {
      AbandonedAttempt(s, log, e, n, torn);
      ReopenIdle(c, log, kept);
      CarriesSame(s, h, e, c, n, torn);
      RestartCarries(c, h, kept);
    } else {
      CrashAtomicity(s, log, e, n, torn, kept);
      CarriesMore(s, h, e, Reopen(c, kept).value, n, torn);
    }
  }

  // ----- whole runs -----

  /** The store after a run from the empty database, None if some reopening failed. */
  function Run(evs: seq<Event>): (r: Option<Store>)
    ensures r.Some? ==> r.value.wal != []
  {
    if evs == [] then Some(EMPTY)
    else
      match Run(evs[..|evs| - 1])
      case None => None
      case Some(s) =>
        match Exec(s, evs[|evs| - 1])
        case None => None
        case Some(t) => if t.wal == [] then None else Some(t)
  }

  function CommittedBatches(evs: seq<Event>): seq<seq<Item>> {
    if evs == [] then [] else CommittedBatches(evs[..|evs| - 1]) + Committed(evs[|evs| - 1])
  }

  ghost predicate AdmissibleRun(evs: seq<Event>) {
    evs == [] ||
    (AdmissibleRun(evs[..|evs| - 1]) && Run(evs[..|evs| - 1]).Some?
     && Admissible(Run(evs[..|evs| - 1]).value, evs[|evs| - 1]))
  }

  /**
    Durability over whole runs: every reopening succeeds, and the store carries
    exactly the batches whose COMMIT record was written, in order.
   */
  lemma {:induction false} RunCarriesHistory(evs: seq<Event>)
    requires AdmissibleRun(evs)
    ensures Run(evs).Some? && Carries(Run(evs).value, CommittedBatches(evs))
  {
    if evs == [] {
      EmptyIsQuiescent();
      assert VisibleAll([[]]) == Visible([], NO_TX) + VisibleAll([]);
    } else {
      var init, last := evs[..|evs| - 1], evs[|evs| - 1];
      RunCarriesHistory(init);
      StepCarries(Run(init).value, CommittedBatches(init), last);
    }
  }

  /** The readable consequence: log, generation and offsets of the store after a run. */
  lemma RunLog(evs: seq<Event>)
    requires AdmissibleRun(evs)
    ensures Run(evs).Some?
    ensures var s, log := Run(evs).value, HistoryLog(CommittedBatches(evs));
            && LogOf(s) == log
            && s.gen == |CommittedBatches(evs)|
            && s.writeOffset == DATA_START + Span(log)
            && Verifies(s, RootOf(log))
  {
    RunCarriesHistory(evs);
    CarriesMeans(Run(evs).value, CommittedBatches(evs));
    QuiescentLog(Run(evs).value, HistoryLog(CommittedBatches(evs)));
  }

  /** Without torn records the WAL, read in order, is exactly the committed history. */
  lemma RunWalIsHistory(evs: seq<Event>)
    requires AdmissibleRun(evs)
    ensures Run(evs).Some?
    ensures CleanWal(Run(evs).value.wal) ==> VisibleAll(Run(evs).value.wal) == HistoryTxs(CommittedBatches(evs))
  {
    RunCarriesHistory(evs);
  }

  // ----- what of a run the WAL shows -----

  /** The transactions of a run that replay can see: those committed into a segment without a torn record. */
  ghost function Shown(evs: seq<Event>): seq<CommittedTx> {
    if evs == [] then []
    else
      var init, last := evs[..|evs| - 1], evs[|evs| - 1];
      if Run(init).Some? && Committed(last) != [] && Clean(Target(Run(init).value, last.entries))
      then Shown(init) + [NextTx(CommittedBatches(init), last.entries)]
      else Shown(init)
  }

  lemma ShownStep(s: Store, h: seq<seq<Item>>, ev: Event)
    requires Carries(s, h) && Admissible(s, ev)
    ensures var r, shown := Exec(s, ev), VisibleAll(s.wal);
            r.Some? && VisibleAll(r.value.wal) ==
                       if Committed(ev) != [] && Clean(Target(s, ev.entries))
                       then shown + [NextTx(h, ev.entries)] else shown
  {
    hide Carries, Quiescent, VisibleAll, HistoryLog, Span, WriteAll, Recover, TxOf, WalAfter, Clean, Target;
    StepCarries(s, h, ev);
    CarriesKeys(s, h);
    match ev
    case Restart(kept) =>
    case Commit(e) => if Commits(e) { CommittedWal(s, e, Steps(e), 0); }
    case Fail(e, n, torn) => if Commits(e) { AbandonedWal(s, e, n, torn); }
    case Crash(e, n, torn, kept) =>
      if Commits(e) {
        if n < |e| + 2 { AbandonedWal(s, e, n, torn); } else { CommittedWal(s, e, n, torn); }
      }
  }

  lemma CarriesKeys(s: Store, h: seq<seq<Item>>)
    requires Carries(s, h)
    ensures s.wal != [] && WalKeysOk(s.wal) && s.gen == |h| && s.writeOffset == DATA_START + Span(HistoryLog(h))
  {
  }

  /** What replay sees after a run, torn records or not. */
  lemma {:induction false} RunShows(evs: seq<Event>)
    requires AdmissibleRun(evs)
    ensures Run(evs).Some? && VisibleAll(Run(evs).value.wal) == Shown(evs)
  {
    hide Carries, Exec, Admissible;
    RunCarriesHistory(evs);
    if evs == [] {
      assert VisibleAll([[]]) == Visible([], NO_TX) + VisibleAll([]);
    } else {
      var init, last := evs[..|evs| - 1], evs[|evs| - 1];
      RunCarriesHistory(init);
      RunShows(init);
      ShownStep(Run(init).value, CommittedBatches(init), last);
    }
  }

  /** A second recovery changes nothing. */
  lemma SecondRecoveryChangesNothing(evs: seq<Event>, kept: set<nat>, kept2: set<nat>)
    requires AdmissibleRun(evs)
    ensures Run(evs).Some? && Reopen(Run(evs).value, kept).Some?
    ensures Reopen(Reopen(Run(evs).value, kept).value, kept2) == Reopen(Run(evs).value, kept)
  {
    hide Reopen, Run, Carries, HistoryLog, Place, Span, SegmentBytes;
    RunCarriesHistory(evs);
    var s, log := Run(evs).value, HistoryLog(CommittedBatches(evs));
    CarriesMeans(s, CommittedBatches(evs));
    ReopenIdle(s, log, kept);
    ReopenIdle(Reopen(s, kept).value, log, kept2);
  }

  /** One event more. */
  lemma RunNext(evs: seq<Event>, ev: Event)
    requires AdmissibleRun(evs) && Run(evs).Some? && Admissible(Run(evs).value, ev)
    ensures var s, more := Run(evs).value, evs + [ev];
            && AdmissibleRun(more) && Exec(s, ev).Some? && Run(more) == Exec(s, ev)
            && CommittedBatches(more) == CommittedBatches(evs) + Committed(ev)
            && Shown(more) == if Committed(ev) != [] && Clean(Target(s, ev.entries))
                              then Shown(evs) + [NextTx(CommittedBatches(evs), ev.entries)] else Shown(evs)
  {
    hide Exec, Carries, Admissible, Clean, Target, NextTx;
    var more := evs + [ev];
    assert more[..|more| - 1] == evs && more[|more| - 1] == ev;
    RunCarriesHistory(more);
  }

  // ----- a run after which commits are not atomic -----

  /**
    The failing side of AtomicIffSegmentClean is reached at once: a first attempt torn
    five bytes into its BEGIN record, then a commit that is cut off after its COMMIT
    record and before any data record reaches the disk; the committed batch is gone.
   */
  lemma TornAttemptLosesBatch(e: seq<Item>, next: seq<Item>)
    requires ValidEntries(e) && Commits(e) && ValidEntries(next) && Commits(next)
    ensures var evs, stopAt := [Event.Fail(e, 0, 5)], |next| + 2 + |next|;
            && AdmissibleRun(evs) && Run(evs).Some?
            && var s := Run(evs).value;
               && CommittedLog(s, [], next, stopAt) == RecordsOf(1, next) != []
               && RecoversTo(s, next, stopAt, 0, {}, [])
  {
    hide BatchBytes, RecoversTo, Carries, CommitUpTo;
    var ev := Event.Fail(e, 0, 5);
    assert [ev][..0] == [];
    assert AdmissibleRun([]) && AdmissibleRun([ev]) by { RunCarriesHistory([]); }
    RunCarriesHistory([ev]);
    var s := Run([ev]).value;
    assert CommittedBatches([ev]) == CommittedBatches([]) + [] == [] && HistoryLog([]) == [];
    CarriesMeans(s, []);
    TornHides(EMPTY, e, next);
    TornSegmentExposesPart(s, [], next, 0);
    var all := RecordsOf(1, next);
    assert [] + all[..0] == [] && [] + all == all;
    assert Place(DATA_START, []).Keys == {};
  }

  /** An attempt torn in its BEGIN record hides what is committed behind it in the same segment. */
  lemma TornHides(s: Store, e: seq<Item>, next: seq<Item>)
    requires s.wal != [] && Commits(e) && !MustRotate(s, BatchBytes(e)) && !MustRotate(s, BatchBytes(next))
    ensures var c := CommitUpTo(s, e, 0, 5);
            c.wal != [] && c.walOffset == s.walOffset && !Clean(Target(c, next))
  {
    hide BatchBytes, WriteAll, Span, BatchItems;
    var c, last := CommitUpTo(s, e, 0, 5), s.wal[|s.wal| - 1];
    assert BatchItems(s.gen + 1, s.writeOffset, e)[..0] == [];
    assert Written(s.gen + 1, s.writeOffset, e, 0, 5) == [Torn(5)] && Written(s.gen + 1, s.writeOffset, e, 0, 0) == [];
    assert Target(c, next) == last + [Torn(5)];
    assert Target(c, next)[|last|] == Torn(5);
  }

  // ----- the live map as a dictionary -----

  /** A batch applied to a dictionary: puts and deletes in order. */
  function Applied(m: map<Bytes, Bytes>, entries: seq<Item>): map<Bytes, Bytes> {
    if entries == [] then m
    else
      var n, e := Applied(m, entries[..|entries| - 1]), entries[|entries| - 1];
      if e.value == TOMBSTONE then n - {e.key} else n[e.key := e.value]
  }

  function HistoryMap(h: seq<seq<Item>>): map<Bytes, Bytes> {
    if h == [] then map[] else Applied(HistoryMap(h[..|h| - 1]), h[|h| - 1])
  }

  lemma {:induction false} BatchAppliesToMap(recs: seq<Record>, gen: nat, entries: seq<Item>)
    ensures Live(recs + RecordsOf(gen, entries)) == Applied(Live(recs), entries)
  {
    if entries == [] {
      assert recs + RecordsOf(gen, entries) == recs;
    } else {
      var init, e := entries[..|entries| - 1], entries[|entries| - 1];
      var log := recs + RecordsOf(gen, entries);
      assert log[..|log| - 1] == recs + RecordsOf(gen, init);
      assert log[|log| - 1] == Record(e.key, e.value, gen);
      BatchAppliesToMap(recs, gen, init);
    }
  }

  /** After every run the live map is the committed batches applied in order to the empty dictionary. */
  lemma {:induction false} HistoryLive(h: seq<seq<Item>>)
    ensures Live(HistoryLog(h)) == HistoryMap(h)
  {
    if h != [] {
      HistoryLive(h[..|h| - 1]);
      BatchAppliesToMap(HistoryLog(h[..|h| - 1]), |h|, h[|h| - 1]);
    }
  }

  lemma RunLiveMap(evs: seq<Event>)
    requires AdmissibleRun(evs)
    ensures Run(evs).Some? && Live(LogOf(Run(evs).value)) == HistoryMap(CommittedBatches(evs))
  {
    RunLog(evs);
    HistoryLive(CommittedBatches(evs));
  }
}
