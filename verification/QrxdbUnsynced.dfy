/**
  A WAL record that is whole on file although its sync reported an error
  (qrx-core/src/qrxdb.c:303-325): the attempt fails, but replay can see the record.
 */
module QrxdbUnsynced {
  import opened Wrappers
  import opened QrxdbKeys
  import opened QrxdbLog
  import opened QrxdbWal
  import opened QrxdbStore
  import opened QrxdbRecovery
  import opened QrxdbCrash
  import opened QrxdbCompactRecovery
  import opened QrxdbReplay

  /** An error while a WAL record is written: some bytes of it reached the file, or all did and the sync failed. */
  datatype Fault = Partial(bytes: nat) | Unsynced

  /** A commit stopped before step stopAt, with the record of that step unsynced if it is one of the WAL. */
  function Attempt(s: Store, entries: seq<Item>, stopAt: nat, f: Fault): Store
    requires s.wal != []
  {
    match f
    case Partial(torn) => CommitUpTo(s, entries, stopAt, torn)
    case Unsynced =>
      var c := CommitUpTo(s, entries, stopAt, 0);
      if Commits(entries) && stopAt < |entries| + 2 then c.(wal := WalAfter(s, entries, stopAt + 1, 0)) else c
  }

  /** The attempt whose COMMIT record is the unsynced one: it fails, and may yet be committed. */
  function InDoubt(s: Store, entries: seq<Item>): Store
    requires s.wal != []
  {
    Attempt(s, entries, |entries| + 1, Unsynced)
  }

  /** Before COMMIT an unsynced record changes nothing. */
  lemma UnsyncedEarly(s: Store, recs: seq<Record>, entries: seq<Item>, stopAt: nat)
    requires Quiescent(s, recs) && ValidEntries(entries) && Commits(entries) && stopAt < |entries| + 1
    ensures Quiescent(Attempt(s, entries, stopAt, Unsynced), recs)
  {
    hide Place, Span, WriteAll, VisibleAll, SegmentBytes, BatchBytes, WalAfter;
    WalStaysAfter(s, entries, stopAt + 1, 0);
    AbandonedAttempt(s, recs, entries, stopAt, 0);
    AbandonedWal(s, entries, stopAt, 0);
    AbandonedWal(s, entries, stopAt + 1, 0);
  }

  /** The files of an attempt in doubt: the old log, and the whole batch in the WAL. */
  lemma InDoubtFiles(s: Store, recs: seq<Record>, entries: seq<Item>)
    requires Quiescent(s, recs) && ValidEntries(entries) && Commits(entries)
    ensures var k, shown := InDoubt(s, entries), VisibleAll(s.wal);
            && k.wal != [] && WalKeysOk(k.wal)
            && k.mem == k.platter == Place(DATA_START, recs)
            && k.writeOffset == DATA_START + Span(recs) && k.gen == s.gen
            && DATA_START + Span(recs + RecordsOf(s.gen + 1, entries)) <= k.mapSize
            && VisibleAll(k.wal) ==
               shown + if Clean(Target(s, entries)) then [TxOf(s.gen + 1, s.writeOffset, entries)] else []
  {
    hide Place, Span, WriteAll, VisibleAll, SegmentBytes, BatchBytes, Clean, Target, TxOf, WalAfter;
    WalStaysAfter(s, entries, |entries| + 2, 0);
    CommittedWal(s, entries, |entries| + 2, 0);
    SpanAppend(recs, RecordsOf(s.gen + 1, entries));
    assert RecordsOf(s.gen + 1, entries)[..0] == [];
    NothingPlaced(s.mem, s.writeOffset);
  }

  lemma NothingPlaced(d: Disk, off: nat)
    ensures WriteAll(d, off, []) == d && Span([]) == 0
  {
  }

  /** The failed commit is there after the next start exactly when its segment holds no torn record. */
  lemma InDoubtRestarts(s: Store, recs: seq<Record>, entries: seq<Item>, kept: set<nat>)
    requires Quiescent(s, recs) && ValidEntries(entries) && Commits(entries)
    ensures var r := Reopen(InDoubt(s, entries), kept);
            && r.Some?
            && LogOf(r.value) == if Clean(Target(s, entries)) then recs + RecordsOf(s.gen + 1, entries) else recs
  {
    hide Place, Span, VisibleAll, Clean, Target, TxOf, Recover, Scan, Surviving, InDoubt, AllApplied;
    var k, all := InDoubt(s, entries), RecordsOf(s.gen + 1, entries);
    InDoubtFiles(s, recs, entries);
    SyncedSurvives(recs, kept);
    BatchWithinLimits(recs, s.gen + 1, entries);
    SpanAppend(recs, all);
    if Clean(Target(s, entries)) {
      PlaceIsBetween(recs, all);
      RecoverRedoes(k.mem, recs, s.gen + 1, entries, k.mapSize, k.wal, VisibleAll(s.wal));
      ScanPlaced(recs + all, DATA_START + Span(recs + all));
    } else {
      assert VisibleAll(s.wal) + [] == VisibleAll(s.wal);
      RecoverPlaced(recs, k.mapSize, k.wal);
      ScanPlaced(recs, DATA_START + Span(recs));
    }
  }

  // ----- another commit of the same generation -----

  /** A leading part, but not the whole. */
  predicate Shorter(b: seq<Item>, a: seq<Item>) { b < a }

  lemma RecordsPrefix(gen: nat, a: seq<Item>, b: seq<Item>)
    ensures RecordsOf(gen, a) <= RecordsOf(gen, b) <==> a <= b
  {
    var ra, rb := RecordsOf(gen, a), RecordsOf(gen, b);
    if ra <= rb {
      forall i | 0 <= i < |a| ensures a[i] == b[i] { assert ra[i] == rb[i]; }
    }
  }

  /** A segment that was clean is clean after the attempt, and so is a new one. */
  lemma CleanAfterInDoubt(s: Store, a: seq<Item>, b: seq<Item>)
    requires s.wal != [] && Commits(a) && Clean(Target(s, a))
    ensures InDoubt(s, a).wal != [] && Clean(Target(InDoubt(s, a), b))
  {
    hide BatchBytes, WriteAll, Span, BatchItems, SegmentBytes, Clean;
    BatchItemsClean(s.gen + 1, s.writeOffset, a);
    CleanAppend(Target(s, a), BatchItems(s.gen + 1, s.writeOffset, a));
    EmptySegmentClean();
  }

  lemma CleanAppend(x: Segment, y: Segment)
    requires Clean(x) && Clean(y)
    ensures Clean(x + y)
  {
  }

  /** Replaying both transactions over the log of the second. */
  lemma ReplayBoth(recs: seq<Record>, gen: nat, a: seq<Item>, b: seq<Item>, im: Image)
    requires a != [] && b != [] && ValidEntries(a) && ValidEntries(b) && gen > 0
    requires ReadsAs(im, WholeFile(recs + RecordsOf(gen, b)), 0)
    ensures var off := DATA_START + Span(recs);
            var r := ApplyAll(im, [TxOf(gen, off, a), TxOf(gen, off, b)]);
            r.Some? && ReadsAs(r.value, WholeFile(recs + RecordsOf(gen, if Shorter(b, a) then a else b)), 0)
  {
    hide ReadsAs, Planned, TxOf, ApplyTx, Span, ReplayedTx, RecordsOf;
    var ra, rb, off := RecordsOf(gen, a), RecordsOf(gen, b), DATA_START + Span(recs);
    var ta, tb := TxOf(gen, off, a), TxOf(gen, off, b);
    ReplayOne(im, recs + rb, recs, gen, a);
    var mid := ApplyTx(im, ta).value;
    var log := if recs + ra <= recs + rb then recs + rb else recs + ra;
    ReplayOne(mid, log, recs, gen, b);
    assert [ta, tb][1..] == [tb];
    ApplyOne(mid, tb);
    BehindPrefix(recs, ra, rb);
    BehindPrefix(recs, rb, ra);
    RecordsPrefix(gen, a, b);
    RecordsPrefix(gen, b, a);
    assert b <= a && a <= b ==> a == b;
  }

  lemma ReplayOne(im: Image, log: seq<Record>, part: seq<Record>, gen: nat, e: seq<Item>)
    requires ReadsAs(im, WholeFile(log), 0) && part <= log && e != [] && ValidEntries(e) && gen > 0
    ensures var r, more := ApplyTx(im, TxOf(gen, DATA_START + Span(part), e)), part + RecordsOf(gen, e);
            r.Some? && ReadsAs(r.value, WholeFile(if more <= log then log else more), 0)
  {
    hide ReadsAs, Planned, TxOf, ApplyTx, Span, ReplayedTx, RecordsOf;
    var off, more := DATA_START + Span(part), part + RecordsOf(gen, e);
    TxOfPlanned(gen, off, e);
    TxStarts(gen, off, e);
    ReplayedNext(log, part, gen, e);
    ReplayTx(im, WholeFile(log), 0, TxOf(gen, off, e));
    WholeReadsAs(ApplyTx(im, TxOf(gen, off, e)).value, if more <= log then log else more, gen);
  }

  /**
    An attempt in doubt, then a commit that succeeds under the same generation, then a
    restart: the second batch is there and nothing of the first, if and only if the
    second is not a proper leading part of a first that replay can see; in that case
    the first batch takes its place, and the puts of a failed attempt are exposed.
   */
  lemma InDoubtThenCommit(s: Store, recs: seq<Record>, a: seq<Item>, b: seq<Item>, kept: set<nat>)
    requires Quiescent(s, recs) && ValidEntries(a) && Commits(a) && ValidEntries(b) && Commits(b)
    ensures InDoubt(s, a).wal != []
    ensures var d := CommitUpTo(InDoubt(s, a), b, Steps(b), 0);
            var ra, rb := RecordsOf(s.gen + 1, a), RecordsOf(s.gen + 1, b);
            && d.wal != [] && LogOf(d) == recs + rb
            && var r, leaks := Reopen(d, kept), Clean(Target(s, a)) && Shorter(b, a);
               && r.Some? && LogOf(r.value) == (recs + if leaks then ra else rb)
               && (LogOf(r.value) == recs + rb <==> !leaks)
  {
    hide Place, Span, VisibleAll, Clean, Target, TxOf, Recover, Scan, Surviving, InDoubt, AllApplied, CommitUpTo,
         WalAfter, ApplyAll, ReadsAs, ImageOf, BatchBytes, Shorter;
    var gen, k := s.gen + 1, InDoubt(s, a);
    var log, leaks := recs + RecordsOf(gen, b), Clean(Target(s, a)) && Shorter(b, a);
    InDoubtFiles(s, recs, a);
    WalStaysAfter(k, b, Steps(b), 0);
    CommitOnPlaced(k, recs, b);
    CommittedWal(k, b, Steps(b), 0);
    if Clean(Target(s, a)) { CleanAfterInDoubt(s, a, b); }
    var d := CommitUpTo(k, b, Steps(b), 0);
    ScanPlaced(log, d.writeOffset);
    SyncedSurvives(log, kept);
    RecoverIsReplay(log, d.mapSize, d.wal);
    PlacedReadsAs(log, d.mapSize);
    var im := ImageOf(log, d.mapSize);
    SkipsOld(recs, RecordsOf(gen, b), d.mapSize, VisibleAll(s.wal));
    var tail := (if Clean(Target(s, a)) then [TxOf(gen, s.writeOffset, a)] else [])
              + (if Clean(Target(k, b)) then [TxOf(gen, s.writeOffset, b)] else []);
    assert VisibleAll(d.wal) == VisibleAll(s.wal) + tail;
    ApplyAllAppend(im, VisibleAll(s.wal), tail);
    ReplayTail(recs, gen, a, b, im, Clean(Target(s, a)), Clean(Target(k, b)));
    var out := ApplyAll(im, tail).value;
    ReadsLog(out, WholeFile(recs + RecordsOf(gen, if leaks then a else b)), 0);
    ShorterDiffers(recs, gen, a, b);
  }

  lemma SkipsOld(recs: seq<Record>, more: seq<Record>, mapSize: nat, txs: seq<CommittedTx>)
    requires AllWithinLimits(recs) && AllApplied(recs, txs)
    ensures ApplyAll(ImageOf(recs + more, mapSize), txs) == Some(ImageOf(recs + more, mapSize))
  {
    hide Place, Span, Holds, AllApplied;
    HeldPrefix(recs, more);
    SpanAppend(recs, more);
    ReplaySkips(ImageOf(recs + more, mapSize), recs, txs);
  }

  lemma ReplayTail(recs: seq<Record>, gen: nat, a: seq<Item>, b: seq<Item>, im: Image, seenA: bool, seenB: bool)
    requires a != [] && b != [] && ValidEntries(a) && ValidEntries(b) && gen > 0 && (seenA ==> seenB)
    requires ReadsAs(im, WholeFile(recs + RecordsOf(gen, b)), 0)
    ensures var off := DATA_START + Span(recs);
            var r := ApplyAll(im, (if seenA then [TxOf(gen, off, a)] else [])
                                + (if seenB then [TxOf(gen, off, b)] else []));
            r.Some? && ReadsAs(r.value, WholeFile(recs + RecordsOf(gen, if seenA && Shorter(b, a) then a else b)), 0)
  {
    hide ReadsAs, TxOf, ApplyTx, Span, RecordsOf;
    var off := DATA_START + Span(recs);
    var ta, tb := TxOf(gen, off, a), TxOf(gen, off, b);
    if seenA {
      assert [ta] + [tb] == [ta, tb];
      ReplayBoth(recs, gen, a, b, im);
    } else if seenB {
      assert [] + [tb] == [tb];
      ApplyOne(im, tb);
      ReplayOne(im, recs + RecordsOf(gen, b), recs, gen, b);
    } else {
      assert ApplyAll(im, []) == Some(im);
    }
  }

  lemma ShorterDiffers(recs: seq<Record>, gen: nat, a: seq<Item>, b: seq<Item>)
    ensures Shorter(b, a) ==> recs + RecordsOf(gen, a) != recs + RecordsOf(gen, b)
  {
    assert |recs + RecordsOf(gen, a)| == |recs| + |a|;
  }
}
