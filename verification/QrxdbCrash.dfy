/**
  Crash atomicity of one commit, and the exact condition under which QRXDB has
  it (qrx-core/src/qrxdb.c, qrxdb_batch_commit and qrxdb_recover).
 */
module QrxdbCrash {
  import opened Wrappers
  import opened QrxdbKeys
  import opened QrxdbLog
  import opened QrxdbWal
  import opened QrxdbStore
  import opened QrxdbRecovery

  /** The WAL segment a commit of these entries writes to. */
  function Target(s: Store, entries: seq<Item>): Segment
    requires s.wal != []
  {
    var w := Rotate(s, BatchBytes(entries)).wal;
    w[|w| - 1]
  }

  /** The log that must survive a commit stopped before step stopAt. */
  function CommittedLog(s: Store, recs: seq<Record>, entries: seq<Item>, stopAt: nat): seq<Record> {
    if stopAt >= |entries| + 2 then recs + RecordsOf(s.gen + 1, entries) else recs
  }

  /** Death before step stopAt with the given records on disk, then reopening, presents this log. */
  ghost predicate RecoversTo(s: Store, entries: seq<Item>, stopAt: nat, torn: nat, kept: set<nat>, log: seq<Record>)
    requires s.wal != []
  {
    var r := Reopen(CommitUpTo(s, entries, stopAt, torn), kept);
    r.Some? && LogOf(r.value) == log
  }

  // ----- the WAL after a commit attempt -----

  lemma RotateVisible(s: Store, bytes: nat)
    requires s.wal != []
    ensures VisibleAll(Rotate(s, bytes).wal) == VisibleAll(s.wal)
    ensures WalKeysOk(s.wal) ==> WalKeysOk(Rotate(s, bytes).wal)
  {
    VisibleAllAppend(s.wal, []);
  }

  lemma AppendVisible(wal: Wal, items: Segment)
    requires wal != []
    ensures var last := wal[|wal| - 1];
            && (Clean(last) ==>
                 VisibleAll(AppendToLast(wal, items)) == VisibleAll(wal) + Visible(items, OpenAfter(last, NO_TX)))
            && (!Clean(last) ==> VisibleAll(AppendToLast(wal, items)) == VisibleAll(wal))
  {
    var init, last := wal[..|wal| - 1], wal[|wal| - 1];
    assert wal == init + [last];
    assert AppendToLast(wal, items) == init + [last + items];
    VisibleAllAppend(init, last);
    VisibleAllAppend(init, last + items);
    VisibleAppend(last, items, NO_TX);
  }

  lemma AppendKeysOk(wal: Wal, items: Segment)
    requires wal != [] && WalKeysOk(wal) && NoEmptyKeys(items)
    ensures WalKeysOk(AppendToLast(wal, items))
  {
  }

  lemma BatchKeysOk(gen: nat, begin: nat, entries: seq<Item>)
    requires ValidEntries(entries)
    ensures NoEmptyKeys(BatchItems(gen, begin, entries))
  {
  }

  /** An attempt without its COMMIT record adds nothing replay can see. */
  lemma AbandonedWal(s: Store, entries: seq<Item>, n: nat, torn: nat)
    requires s.wal != [] && WalKeysOk(s.wal) && ValidEntries(entries)
    requires n < |entries| + 2
    ensures VisibleAll(WalAfter(s, entries, n, torn)) == VisibleAll(s.wal)
    ensures WalKeysOk(WalAfter(s, entries, n, torn))
  {
    hide VisibleAll, Visible, BatchBytes, Span;
    var r, out := Rotate(s, BatchBytes(entries)), Written(s.gen + 1, s.writeOffset, entries, n, torn);
    RotateVisible(s, BatchBytes(entries));
    AppendVisible(r.wal, out);
    assert NoEmptyKeys(out) by { BatchKeysOk(s.gen + 1, s.writeOffset, entries); }
    AppendKeysOk(r.wal, out);
    CutBatchInvisible(s.gen + 1, s.writeOffset, entries, n, torn, OpenAfter(Target(s, entries), NO_TX));
    assert VisibleAll(r.wal) + [] == VisibleAll(r.wal);
  }

  lemma CutBatchInvisible(gen: nat, begin: nat, entries: seq<Item>, n: nat, torn: nat, cur: OpenTx)
    requires n < |entries| + 2
    ensures Visible(Written(gen, begin, entries, n, torn), cur) == []
  {
    var part := BatchItems(gen, begin, entries)[..n];
    var tail: Segment := if torn > 0 then [Torn(torn)] else [];
    PartialBatchInvisible(gen, begin, entries, n, cur);
    BatchItemsClean(gen, begin, entries);
    VisibleAppend(part, tail, cur);
    assert Visible(tail, OpenAfter(part, cur)) == [];
  }

  /** A finished attempt adds exactly its own transaction, unless a torn record hides it. */
  lemma CommittedWal(s: Store, entries: seq<Item>, n: nat, torn: nat)
    requires s.wal != [] && WalKeysOk(s.wal) && ValidEntries(entries)
    requires n >= |entries| + 2
    ensures WalKeysOk(WalAfter(s, entries, n, torn))
    ensures VisibleAll(WalAfter(s, entries, n, torn)) ==
            VisibleAll(s.wal) + if Clean(Target(s, entries)) then [TxOf(s.gen + 1, s.writeOffset, entries)] else []
  {
    var r, items := Rotate(s, BatchBytes(entries)), BatchItems(s.gen + 1, s.writeOffset, entries);
    RotateVisible(s, BatchBytes(entries));
    AppendVisible(r.wal, items);
    assert NoEmptyKeys(items) by { BatchKeysOk(s.gen + 1, s.writeOffset, entries); }
    AppendKeysOk(r.wal, items);
    WholeBatchVisible(s.gen + 1, s.writeOffset, entries, OpenAfter(Target(s, entries), NO_TX));
  }

  // ----- the data file after a commit attempt -----

  /** Writing leading records of a batch onto a quiescent file extends its layout. */
  lemma MaterialisedPrefix(recs: seq<Record>, more: seq<Record>)
    ensures WriteAll(Place(DATA_START, recs), DATA_START + Span(recs), more) == Place(DATA_START, recs + more)
  {
    if more == [] {
      assert recs + more == recs;
    } else {
      SurvivingIsBetween(recs, more, {});
      PlaceIsBetween(recs, more);
      RewriteBatch(Place(DATA_START, recs), recs, more);
    }
  }

  lemma PlaceIsBetween(recs: seq<Record>, more: seq<Record>)
    ensures Between(Place(DATA_START, recs), recs, more)
  {
    forall o | o in Place(DATA_START, recs)
      ensures o in Place(DATA_START, recs + more) && Place(DATA_START, recs)[o] == Place(DATA_START, recs + more)[o]
    {
      PlacePrefix(recs, more, o);
    }
  }

  /** Power loss with nothing unsynced loses nothing. */
  lemma SyncedSurvives(recs: seq<Record>, kept: set<nat>)
    ensures Surviving(Place(DATA_START, recs), Place(DATA_START, recs), kept) == Place(DATA_START, recs)
  {
    assert recs + [] == recs;
    SurvivingIsBetween(recs, [], kept);
  }

  lemma ScanPlaced(recs: seq<Record>, limit: nat)
    requires AllWithinLimits(recs) && DATA_START + Span(recs) <= limit
    ensures Scan(Place(DATA_START, recs), DATA_START, limit) == recs
  {
    assert recs + [] == recs;
    PlaceIsBetween(recs, []);
    ScanStops(Place(DATA_START, recs), recs, [], limit);
  }

  lemma QuiescentLog(s: Store, recs: seq<Record>)
    requires Quiescent(s, recs)
    ensures LogOf(s) == recs
  {
    ScanPlaced(recs, s.writeOffset);
  }

  lemma BatchWithinLimits(recs: seq<Record>, gen: nat, entries: seq<Item>)
    requires AllWithinLimits(recs) && ValidEntries(entries)
    ensures AllWithinLimits(recs + RecordsOf(gen, entries))
    ensures entries != [] ==> LastGen(recs + RecordsOf(gen, entries)) == gen
  {
  }

  lemma AllAppliedGrows(recs: seq<Record>, more: seq<Record>, txs: seq<CommittedTx>)
    requires AllApplied(recs, txs)
    ensures AllApplied(recs + more, txs)
  {
    forall i | 0 <= i < |txs| ensures AppliedIn(recs + more, txs[i]) { AppliedInGrows(recs, more, txs[i]); }
  }

  // ----- outcomes of one attempt -----

  /** Reopening an idle store gives back the same store. */
  lemma ReopenIdle(s: Store, recs: seq<Record>, kept: set<nat>)
    requires Quiescent(s, recs)
    ensures Reopen(s, kept) == Some(s.(walOffset := SegmentBytes(s.wal[|s.wal| - 1])))
  {
    assert Surviving(s.platter, s.mem, kept) == s.mem by { SyncedSurvives(recs, kept); }
    RecoverPlaced(recs, s.mapSize, s.wal);
  }

  /** Recovery of a laid-out log that replay agrees with changes nothing. */
  lemma RecoverPlaced(recs: seq<Record>, mapSize: nat, wal: Wal)
    requires AllWithinLimits(recs) && DATA_START + Span(recs) <= mapSize
    requires WalAgrees(wal, recs)
    ensures Recover(Place(DATA_START, recs), mapSize, wal) ==
            Some(Image(Place(DATA_START, recs), mapSize, DATA_START + Span(recs), LastGen(recs)))
  {
    assert recs + [] == recs;
    ScanPlaced(recs, mapSize);
    PlaceHolds(DATA_START, recs);
    RecoverKeeps(Place(DATA_START, recs), recs, [], mapSize, wal);
  }

  /** An attempt that fails before its COMMIT record leaves the log as it was. */
  lemma AbandonedAttempt(s: Store, recs: seq<Record>, entries: seq<Item>, n: nat, torn: nat)
    requires Quiescent(s, recs) && ValidEntries(entries) && Commits(entries)
    requires n < |entries| + 2
    ensures Quiescent(CommitUpTo(s, entries, n, torn), recs)
  {
    AbandonedWal(s, entries, n, torn);
    assert RecordsOf(s.gen + 1, entries)[..0] == [];
  }

  /** An uninterrupted commit appends the whole batch, whether or not replay could see it. */
  lemma CompletedCommit(s: Store, recs: seq<Record>, entries: seq<Item>, torn: nat)
    requires Quiescent(s, recs) && ValidEntries(entries) && Commits(entries)
    ensures Quiescent(CommitUpTo(s, entries, Steps(entries), torn), recs + RecordsOf(s.gen + 1, entries))
  {
    hide Place, Span, WriteAll, VisibleAll, SegmentBytes, BatchBytes;
    var all := RecordsOf(s.gen + 1, entries);
    var c := CommitUpTo(s, entries, Steps(entries), torn);
    CommittedWal(s, entries, Steps(entries), torn);
    SpanAppend(recs, all);
    assert c.mem == c.platter == Place(DATA_START, recs + all) && c.writeOffset == DATA_START + Span(recs + all) by {
      assert all[..|entries|] == all;
      MaterialisedPrefix(recs, all);
    }
    BatchWithinLimits(recs, s.gen + 1, entries);
    CommittedWalAgrees(s, recs, entries);
  }

  lemma CommittedWalAgrees(s: Store, recs: seq<Record>, entries: seq<Item>)
    requires Quiescent(s, recs) && ValidEntries(entries) && Commits(entries)
    ensures AllApplied(recs + RecordsOf(s.gen + 1, entries), VisibleAll(s.wal))
    ensures AllApplied(recs + RecordsOf(s.gen + 1, entries),
                       VisibleAll(s.wal) + [TxOf(s.gen + 1, s.writeOffset, entries)])
  {
    AllAppliedGrows(recs, RecordsOf(s.gen + 1, entries), VisibleAll(s.wal));
    TxIsApplied(recs, s.gen + 1, entries);
  }

  /** The file a crash after COMMIT leaves: the old log and any part of the batch. */
  lemma CrashedFile(s: Store, recs: seq<Record>, entries: seq<Item>, stopAt: nat, torn: nat, kept: set<nat>)
    requires Quiescent(s, recs) && ValidEntries(entries) && Commits(entries)
    requires stopAt >= |entries| + 2
    ensures var c := CommitUpTo(s, entries, stopAt, torn);
            Between(Surviving(c.platter, c.mem, kept), recs, RecordsOf(s.gen + 1, entries))
  {
    hide Place, Span, WriteAll, VisibleAll, SegmentBytes, BatchBytes, Surviving;
    var all := RecordsOf(s.gen + 1, entries);
    var c := CommitUpTo(s, entries, stopAt, torn);
    var n := Materialised(entries, stopAt);
    assert c.mem == Place(DATA_START, recs + all[..n]) by { MaterialisedPrefix(recs, all[..n]); }
    if stopAt > |entries| + 2 + |entries| {
      assert c.platter == c.mem;
      assert all[..n] == all;
      SyncedSurvives(recs + all, kept);
      FullIsBetween(recs, all);
    } else {
      assert c.platter == Place(DATA_START, recs);
      PartSurvives(recs, all, n, kept);
    }
  }

  lemma PartSurvives(recs: seq<Record>, more: seq<Record>, n: nat, kept: set<nat>)
    requires n <= |more|
    ensures Between(Surviving(Place(DATA_START, recs), Place(DATA_START, recs + more[..n]), kept), recs, more)
  {
    SurvivingIsBetween(recs, more[..n], kept);
    assert more == more[..n] + more[n..];
    BetweenWidens(Surviving(Place(DATA_START, recs), Place(DATA_START, recs + more[..n]), kept),
                  recs, more[..n], more[n..]);
  }

  lemma FullIsBetween(recs: seq<Record>, more: seq<Record>)
    ensures Between(Place(DATA_START, recs + more), recs, more)
  {
    forall o | o in Place(DATA_START, recs) ensures o in Place(DATA_START, recs + more) { PlacePrefix(recs, more, o); }
  }

  /**
    Crash atomicity.  Stop a commit before any step, let any of its data records
    be on disk, and reopen: the log is the old one, or the old one with the whole
    batch, the latter exactly when the COMMIT record was written.
   */
  lemma CrashAtomicity(s: Store, recs: seq<Record>, entries: seq<Item>, stopAt: nat, torn: nat, kept: set<nat>)
    requires Quiescent(s, recs) && ValidEntries(entries) && Commits(entries)
    requires Clean(Target(s, entries))
    ensures Reopen(CommitUpTo(s, entries, stopAt, torn), kept).Some?
    ensures Quiescent(Reopen(CommitUpTo(s, entries, stopAt, torn), kept).value, CommittedLog(s, recs, entries, stopAt))
  {
    hide Place, Span, WriteAll, VisibleAll, SegmentBytes, BatchBytes, Surviving, Recover;
    if stopAt < |entries| + 2 {
      AbandonedAttempt(s, recs, entries, stopAt, torn);
      ReopenIdle(CommitUpTo(s, entries, stopAt, torn), recs, kept);
    } else {
      CrashAfterCommit(s, recs, entries, stopAt, torn, kept);
    }
  }

  lemma CrashAfterCommit(s: Store, recs: seq<Record>, entries: seq<Item>, stopAt: nat, torn: nat, kept: set<nat>)
    requires Quiescent(s, recs) && ValidEntries(entries) && Commits(entries)
    requires Clean(Target(s, entries)) && stopAt >= |entries| + 2
    ensures Reopen(CommitUpTo(s, entries, stopAt, torn), kept).Some?
    ensures Quiescent(Reopen(CommitUpTo(s, entries, stopAt, torn), kept).value, recs + RecordsOf(s.gen + 1, entries))
  {
    hide Place, Span, WriteAll, VisibleAll, SegmentBytes, BatchBytes, Recover, Surviving;
    var c, all := CommitUpTo(s, entries, stopAt, torn), RecordsOf(s.gen + 1, entries);
    SpanAppend(recs, all);
    CommittedWal(s, entries, stopAt, torn);
    CrashedFile(s, recs, entries, stopAt, torn, kept);
    RecoverRedoes(Surviving(c.platter, c.mem, kept), recs, s.gen + 1, entries, c.mapSize, c.wal, VisibleAll(s.wal));
    BatchWithinLimits(recs, s.gen + 1, entries);
    CommittedWalAgrees(s, recs, entries);
  }

  // ----- a crash inside recovery itself -----

  lemma SurvivingBetween(d: Disk, mem: Disk, recs: seq<Record>, more: seq<Record>, kept: set<nat>)
    requires Between(d, recs, more) && Between(mem, recs, more)
    ensures Between(Surviving(d, mem, kept), recs, more)
  {
    forall o | o in Place(DATA_START, recs) ensures o in Surviving(d, mem, kept) {
      forall q | q in kept && q in mem ensures Apart(mem, q, d, o) {
        PlaceApart(DATA_START, recs + more, o, q);
      }
    }
  }

  /** Rewriting leading records of the batch keeps the file between the two logs. */
  lemma RewritePartBetween(d: Disk, recs: seq<Record>, more: seq<Record>, j: nat)
    requires Between(d, recs, more) && j <= |more|
    ensures Between(WriteAll(d, DATA_START + Span(recs), more[..j]), recs, more)
  {
    if j > 0 {
      var end, part := DATA_START + Span(recs), more[..j];
      WriteAllIs(d, end, part);
      assert recs + more == (recs + part) + more[j..];
      forall o | o in Place(end, part)
        ensures o in Place(DATA_START, recs + more) && Place(end, part)[o] == Place(DATA_START, recs + more)[o]
      {
        PlaceAppend(DATA_START, recs, part);
        PlacePrefix(recs + part, more[j..], o);
      }
      forall o | o in Place(DATA_START, recs) ensures o in Cut(d, end, end + Span(part)) {
        PlacePrefix(recs, more, o);
        PlaceBounds(DATA_START, recs);
      }
    } else {
      assert more[..0] == [];
    }
  }

  /**
    Power may also fail while recovery rewrites the batch: with any of its writes
    on disk, the next recovery still yields the old log and the whole batch.
   */
  lemma CrashDuringRecovery(d: Disk, recs: seq<Record>, gen: nat, entries: seq<Item>, mapSize: nat, wal: Wal,
                            before: seq<CommittedTx>, j: nat, kept: set<nat>)
    requires entries != [] && ValidEntries(entries) && AllWithinLimits(recs)
    requires Between(d, recs, RecordsOf(gen, entries))
    requires DATA_START + Span(recs + RecordsOf(gen, entries)) <= mapSize
    requires WalKeysOk(wal) && AllApplied(recs, before)
    requires VisibleAll(wal) == before + [TxOf(gen, DATA_START + Span(recs), entries)]
    requires j <= |entries|
    ensures var torn := Surviving(d, WriteAll(d, DATA_START + Span(recs), RecordsOf(gen, entries)[..j]), kept);
            Recover(torn, mapSize, wal).Some? && Redone(Recover(torn, mapSize, wal).value, recs, gen, entries)
  {
    hide Between, WriteAll, Surviving, Recover, Place, Span;
    var all := RecordsOf(gen, entries);
    var mem := WriteAll(d, DATA_START + Span(recs), all[..j]);
    RewritePartBetween(d, recs, all, j);
    SurvivingBetween(d, mem, recs, all, kept);
    RecoverRedoes(Surviving(d, mem, kept), recs, gen, entries, mapSize, wal, before);
  }

  // ----- a torn record earlier in the segment -----

  /** The first j records of the batch arrived, nothing else did. */
  lemma PrefixSurvives(recs: seq<Record>, more: seq<Record>, j: nat)
    requires j <= |more|
    ensures Surviving(Place(DATA_START, recs), Place(DATA_START, recs + more), Place(DATA_START, recs + more[..j]).Keys)
            == Place(DATA_START, recs + more[..j])
  {
    var part, rest := recs + more[..j], more[j..];
    assert recs + more == part + rest;
    var p, m, k := Place(DATA_START, recs), Place(DATA_START, recs + more), Place(DATA_START, part);
    SurvivingIsBetween(recs, more, k.Keys);
    var d := Surviving(p, m, k.Keys);
    forall o ensures o in d <==> o in k {
      if o in k { PlacePrefix(part, rest, o); }
      if o in p { PlacePrefix(recs, more[..j], o); }
    }
    forall o | o in k ensures d[o] == k[o] { PlacePrefix(part, rest, o); }
  }

  /**
    When a torn record precedes the batch in its segment, a crash after COMMIT
    loses the batch or exposes any leading part of it.
   */
  lemma TornSegmentExposesPart(s: Store, recs: seq<Record>, entries: seq<Item>, j: nat)
    requires Quiescent(s, recs) && ValidEntries(entries) && Commits(entries)
    requires !Clean(Target(s, entries)) && j <= |entries|
    ensures RecoversTo(s, entries, |entries| + 2 + |entries|, 0,
                       Place(DATA_START, recs + RecordsOf(s.gen + 1, entries)[..j]).Keys,
                       recs + RecordsOf(s.gen + 1, entries)[..j])
  {
    hide Place, Span, CommitUpTo, Surviving, Recover, Scan, Clean, LastGen;
    var all := RecordsOf(s.gen + 1, entries);
    var c := CommitUpTo(s, entries, |entries| + 2 + |entries|, 0);
    BatchWithinLimits(recs, s.gen + 1, entries);
    PartFits(recs, all, j);
    TornCrash(s, recs, entries, j);
    RecoverPart(recs, all[..j], c.mapSize, c.wal);
    ScanPlaced(recs + all[..j], DATA_START + Span(recs + all[..j]));
  }

  lemma TornCrash(s: Store, recs: seq<Record>, entries: seq<Item>, j: nat)
    requires Quiescent(s, recs) && ValidEntries(entries) && Commits(entries)
    requires !Clean(Target(s, entries)) && j <= |entries|
    ensures var c := CommitUpTo(s, entries, |entries| + 2 + |entries|, 0);
            var all := RecordsOf(s.gen + 1, entries);
            && Surviving(c.platter, c.mem, Place(DATA_START, recs + all[..j]).Keys)
               == Place(DATA_START, recs + all[..j])
            && c.mapSize >= DATA_START + Span(recs + all)
            && WalAgrees(c.wal, recs)
  {
    hide Place, Span, WriteAll, VisibleAll, SegmentBytes, BatchBytes, Surviving, Clean;
    var all := RecordsOf(s.gen + 1, entries);
    assert all[..|entries|] == all;
    MaterialisedPrefix(recs, all);
    PrefixSurvives(recs, all, j);
    SpanAppend(recs, all);
    CommittedWal(s, entries, |entries| + 2 + |entries|, 0);
  }

  /** Recovery of a file with records replay knows nothing about keeps them. */
  lemma RecoverPart(recs: seq<Record>, part: seq<Record>, mapSize: nat, wal: Wal)
    requires AllWithinLimits(recs) && AllWithinLimits(recs + part)
    requires DATA_START + Span(recs + part) <= mapSize
    requires WalAgrees(wal, recs)
    ensures Recover(Place(DATA_START, recs + part), mapSize, wal)
            == Some(Image(Place(DATA_START, recs + part), mapSize,
                          DATA_START + Span(recs + part), LastGen(recs + part)))
  {
    ScanPlaced(recs + part, mapSize);
    HeldPrefix(recs, part);
    RecoverKeeps(Place(DATA_START, recs + part), recs, part, mapSize, wal);
  }

  lemma PartFits(recs: seq<Record>, more: seq<Record>, j: nat)
    requires AllWithinLimits(recs + more) && j <= |more|
    ensures AllWithinLimits(recs) && AllWithinLimits(recs + more[..j])
    ensures Span(recs + more[..j]) <= Span(recs + more)
  {
    var log := recs + more;
    assert recs == log[..|recs|] && recs + more[..j] == log[..|recs| + j];
    if j < |more| { ShortOfEnd(recs, more, j); } else { assert more[..j] == more; }
  }

  lemma HeldPrefix(recs: seq<Record>, more: seq<Record>)
    ensures Holds(Place(DATA_START, recs + more), DATA_START, recs)
  {
    FullIsBetween(recs, more);
    BetweenHolds(Place(DATA_START, recs + more), recs, more);
  }

  // ----- the outcome in any segment -----

  /**
    The log a crash leaves: without torn records before it the batch is there as a whole
    exactly when its COMMIT record was written; behind a torn record only those of its
    leading data records that reached the disk are.
   */
  ghost function CrashLog(s: Store, recs: seq<Record>, entries: seq<Item>, stopAt: nat, torn: nat, kept: set<nat>)
    : seq<Record>
    requires s.wal != []
  {
    var c, all := CommitUpTo(s, entries, stopAt, torn), RecordsOf(s.gen + 1, entries);
    if stopAt < |entries| + 2 || Clean(Target(s, entries)) then CommittedLog(s, recs, entries, stopAt)
    else recs + all[..Arrived(Surviving(c.platter, c.mem, kept), DATA_START + Span(recs), all)]
  }

  /** What a crash at any step leaves, whatever its segment holds. */
  lemma CrashOutcome(s: Store, recs: seq<Record>, entries: seq<Item>, stopAt: nat, torn: nat, kept: set<nat>)
    requires Quiescent(s, recs) && ValidEntries(entries) && Commits(entries)
    ensures RecoversTo(s, entries, stopAt, torn, kept, CrashLog(s, recs, entries, stopAt, torn, kept))
  {
    hide Quiescent, CommitUpTo, Reopen, Clean, LogOf, Target;
    QuiescentWal(s, recs);
    CommitKeepsWal(s, entries, stopAt, torn);
    if Clean(Target(s, entries)) {
      CrashAtomicity(s, recs, entries, stopAt, torn, kept);
      QuiescentLog(Reopen(CommitUpTo(s, entries, stopAt, torn), kept).value, CommittedLog(s, recs, entries, stopAt));
    } else if stopAt < |entries| + 2 {
      var c := CommitUpTo(s, entries, stopAt, torn);
      AbandonedAttempt(s, recs, entries, stopAt, torn);
      QuiescentWal(c, recs);
      ReopenIdle(c, recs, kept);
      QuiescentReopened(c, recs);
    } else {
      TornOutcome(s, recs, entries, stopAt, torn, kept);
    }
  }

  lemma CommitKeepsWal(s: Store, entries: seq<Item>, stopAt: nat, torn: nat)
    requires s.wal != []
    ensures CommitUpTo(s, entries, stopAt, torn).wal != []
  {
    hide WriteAll, Span, BatchBytes, SegmentBytes;
  }

  lemma QuiescentWal(s: Store, recs: seq<Record>)
    requires Quiescent(s, recs)
    ensures s.wal != []
  {
  }

  lemma QuiescentReopened(s: Store, recs: seq<Record>)
    requires Quiescent(s, recs)
    ensures LogOf(s.(walOffset := SegmentBytes(s.wal[|s.wal| - 1]))) == recs
  {
    QuiescentLog(s, recs);
  }

  lemma WalStaysAfter(s: Store, entries: seq<Item>, stopAt: nat, torn: nat)
    requires s.wal != []
    ensures WalAfter(s, entries, stopAt, torn) != []
  {
  }

  lemma TornOutcome(s: Store, recs: seq<Record>, entries: seq<Item>, stopAt: nat, torn: nat, kept: set<nat>)
    requires Quiescent(s, recs) && ValidEntries(entries) && Commits(entries)
    requires stopAt >= |entries| + 2 && !Clean(Target(s, entries))
    ensures var c, all := CommitUpTo(s, entries, stopAt, torn), RecordsOf(s.gen + 1, entries);
            var j := Arrived(Surviving(c.platter, c.mem, kept), DATA_START + Span(recs), all);
            var r := Reopen(c, kept);
            r.Some? && LogOf(r.value) == recs + all[..j]
  {
    hide Place, Span, WriteAll, VisibleAll, SegmentBytes, BatchBytes, Surviving, Recover, Scan, Arrived, Clean, Target,
         Between, WalAfter;
    var c, all := CommitUpTo(s, entries, stopAt, torn), RecordsOf(s.gen + 1, entries);
    var d := Surviving(c.platter, c.mem, kept);
    SpanAppend(recs, all);
    assert VisibleAll(s.wal) + [] == VisibleAll(s.wal);
    WalStaysAfter(s, entries, stopAt, torn);
    BatchWithinLimits(recs, s.gen + 1, entries);
    CommittedWal(s, entries, stopAt, torn);
    CrashedFile(s, recs, entries, stopAt, torn, kept);
    TornRecover(d, recs, all, c.mapSize, c.wal);
  }

  lemma TornRecover(d: Disk, recs: seq<Record>, more: seq<Record>, mapSize: nat, wal: Wal)
    requires Between(d, recs, more) && AllWithinLimits(recs) && AllWithinLimits(recs + more)
    requires DATA_START + Span(recs + more) <= mapSize && WalAgrees(wal, recs)
    ensures var log := recs + more[..Arrived(d, DATA_START + Span(recs), more)];
            var r := Recover(d, mapSize, wal);
            && r.Some? && r.value.disk == d && r.value.writeOffset == DATA_START + Span(log)
            && Scan(d, DATA_START, DATA_START + Span(log)) == log
  {
    hide Between, Span, Scan, Recover, Place, Arrived, WalAgrees;
    ScanBetween(d, recs, more, mapSize);
    BetweenHolds(d, recs, more);
    RecoverFound(d, recs, more[..Arrived(d, DATA_START + Span(recs), more)], mapSize, wal);
  }

  /** Recovery of a file in which replay knows only the first part of what the scan finds. */
  lemma RecoverFound(d: Disk, recs: seq<Record>, found: seq<Record>, mapSize: nat, wal: Wal)
    requires Holds(d, DATA_START, recs) && AllWithinLimits(recs) && WalAgrees(wal, recs)
    requires Scan(d, DATA_START, mapSize) == recs + found
    ensures var log, r := recs + found, Recover(d, mapSize, wal);
            && r.Some? && r.value.disk == d && r.value.writeOffset == DATA_START + Span(log)
            && Scan(d, DATA_START, DATA_START + Span(log)) == log
  {
    hide Span, Scan, Recover, Holds, WalAgrees;
    RecoverKeeps(d, recs, found, mapSize, wal);
    ScanIsHeld(d, DATA_START, mapSize);
    ScanExactly(d, DATA_START, recs + found);
  }

  // ----- an error while the batch is written to the data file -----

  /** The batch as recovery within the process leaves it: whole, or behind a torn record only what was written. */
  ghost function FinishedLog(s: Store, recs: seq<Record>, entries: seq<Item>, stopAt: nat): seq<Record>
    requires s.wal != []
  {
    var all := RecordsOf(s.gen + 1, entries);
    recs + if Clean(Target(s, entries)) then all else all[..Materialised(entries, stopAt)]
  }

  /** The store after qrxdb_recover within the process. */
  function Recovered(c: Store): Option<Store> {
    match Recover(c.mem, c.mapSize, c.wal)
    case None => None
    case Some(im) => Some(Store(im.disk, im.disk, im.mapSize, c.wal, c.walOffset, im.writeOffset, im.gen))
  }

  lemma RecoveredInPlace(s: Store, recs: seq<Record>, entries: seq<Item>, stopAt: nat)
    requires Quiescent(s, recs) && ValidEntries(entries) && Commits(entries) && stopAt >= |entries| + 2
    ensures var r := Recovered(CommitUpTo(s, entries, stopAt, 0));
            r.Some? && Quiescent(r.value, FinishedLog(s, recs, entries, stopAt))
  {
    hide Place, Span, VisibleAll, Recover, Clean, Target, WalAgrees, CommitUpTo, WalAfter, AllApplied, TxOf, BatchBytes;
    QuiescentWal(s, recs);
    var c, all := CommitUpTo(s, entries, stopAt, 0), RecordsOf(s.gen + 1, entries);
    var n := Materialised(entries, stopAt);
    FilesBehindCommit(s, recs, entries, stopAt);
    BatchWithinLimits(recs, s.gen + 1, entries);
    WalAgreesAfter(s, recs, entries, stopAt, n);
    if Clean(Target(s, entries)) {
      PartIsBetween(recs, all, n);
      RecoverRedoes(c.mem, recs, s.gen + 1, entries, c.mapSize, c.wal, VisibleAll(s.wal));
    } else {
      PartFits(recs, all, n);
      RecoverPart(recs, all[..n], c.mapSize, c.wal);
    }
  }

  lemma FilesBehindCommit(s: Store, recs: seq<Record>, entries: seq<Item>, stopAt: nat)
    requires Quiescent(s, recs) && Commits(entries) && stopAt >= |entries| + 2
    ensures s.wal != []
    ensures var c, all := CommitUpTo(s, entries, stopAt, 0), RecordsOf(s.gen + 1, entries);
            && c.mem == Place(DATA_START, recs + all[..Materialised(entries, stopAt)])
            && DATA_START + Span(recs + all) <= c.mapSize && c.wal == WalAfter(s, entries, stopAt, 0)
  {
    hide Place, Span, WriteAll, SegmentBytes, BatchBytes, WalAgrees, WalAfter;
    QuiescentWal(s, recs);
    var all := RecordsOf(s.gen + 1, entries);
    SpanAppend(recs, all);
    MaterialisedPrefix(recs, all[..Materialised(entries, stopAt)]);
  }

  lemma PartIsBetween(recs: seq<Record>, more: seq<Record>, n: nat)
    requires n <= |more|
    ensures Between(Place(DATA_START, recs + more[..n]), recs, more)
  {
    FullIsBetween(recs, more[..n]);
    assert more == more[..n] + more[n..];
    BetweenWidens(Place(DATA_START, recs + more[..n]), recs, more[..n], more[n..]);
  }

  /** What replay sees after COMMIT agrees with the batch if it is seen, and with every part of it if it is not. */
  lemma WalAgreesAfter(s: Store, recs: seq<Record>, entries: seq<Item>, stopAt: nat, n: nat)
    requires Quiescent(s, recs) && ValidEntries(entries) && Commits(entries) && stopAt >= |entries| + 2
    requires n <= |entries|
    ensures var wal, all := WalAfter(s, entries, stopAt, 0), RecordsOf(s.gen + 1, entries);
            if Clean(Target(s, entries))
            then && WalAgrees(wal, recs + all) && WalKeysOk(wal) && AllApplied(recs, VisibleAll(s.wal))
                 && VisibleAll(wal) == VisibleAll(s.wal) + [TxOf(s.gen + 1, s.writeOffset, entries)]
            else WalAgrees(wal, recs) && WalAgrees(wal, recs + all[..n])
  {
    hide Place, Span, VisibleAll, SegmentBytes, BatchBytes, Clean, Target, TxOf, AllApplied, WalKeysOk, BatchItems;
    CommittedWal(s, entries, stopAt, 0);
    CommittedWalAgrees(s, recs, entries);
    AllAppliedGrows(recs, RecordsOf(s.gen + 1, entries)[..n], VisibleAll(s.wal));
    assert VisibleAll(s.wal) + [] == VisibleAll(s.wal);
  }

  /**
    Exactly when a commit is crash atomic: its WAL segment, after the reservation,
    holds no torn record.  qrxdb_init appends behind a torn tail without cutting
    it off, so an earlier crash in the middle of a WAL record breaks it.
   */
  lemma AtomicIffSegmentClean(s: Store, recs: seq<Record>, entries: seq<Item>)
    requires Quiescent(s, recs) && ValidEntries(entries) && Commits(entries)
    ensures Clean(Target(s, entries)) <==>
            forall stopAt: nat, torn: nat, kept: set<nat> ::
              RecoversTo(s, entries, stopAt, torn, kept, CommittedLog(s, recs, entries, stopAt))
  {
    if Clean(Target(s, entries)) {
      forall stopAt: nat, torn: nat, kept: set<nat>
        ensures RecoversTo(s, entries, stopAt, torn, kept, CommittedLog(s, recs, entries, stopAt))
      {
        CrashAtomicity(s, recs, entries, stopAt, torn, kept);
        QuiescentLog(Reopen(CommitUpTo(s, entries, stopAt, torn), kept).value, CommittedLog(s, recs, entries, stopAt));
      }
    } else {
      var all, stopAt := RecordsOf(s.gen + 1, entries), |entries| + 2 + |entries|;
      TornSegmentExposesPart(s, recs, entries, 0);
      var kept := Place(DATA_START, recs + all[..0]).Keys;
      assert recs + all[..0] != CommittedLog(s, recs, entries, stopAt);
      assert !RecoversTo(s, entries, stopAt, 0, kept, CommittedLog(s, recs, entries, stopAt));
    }
  }
}
