/**
  Reopening after compaction: compaction moves offsets but the WAL keeps the old
  ones (qrx-core/src/qrxdb.c:881-901), so replay meets transactions that no
  longer match the data file.
 */
module QrxdbCompactRecovery {
  import opened QrxdbKeys
  import opened QrxdbLog
  import opened QrxdbWal
  import opened QrxdbStore
  import opened QrxdbRecovery
  import opened QrxdbCrash
  import opened QrxdbRuns
  import opened QrxdbReads
  import opened QrxdbCompact

  ghost predicate ValidHistory(h: seq<seq<Item>>) {
    forall i :: 0 <= i < |h| ==> h[i] != [] && ValidEntries(h[i])
  }

  lemma {:induction false} CommittedValid(evs: seq<Event>)
    requires AdmissibleRun(evs)
    ensures ValidHistory(CommittedBatches(evs))
  {
    if evs != [] { CommittedValid(evs[..|evs| - 1]); }
  }

  // ----- replaying a whole history over any data file -----

  lemma {:induction false} MatchedPutsHold(im: Image, off: nat, gen: nat, entries: seq<Item>)
    requires AllMatch(im, PutsOf(off, entries), gen)
    ensures Holds(im.disk, off, RecordsOf(gen, entries))
    decreases entries
  {
    hide AllMatch, Matches, Size;
    if entries != [] {
      var all, puts := RecordsOf(gen, entries), PutsOf(off, entries);
      assert all[1..] == RecordsOf(gen, entries[1..]);
      AllMatchSplit(im, puts, gen);
      SizeIgnoresGen(all[0], Record(entries[0].key, entries[0].value, 0));
      assert puts[1..] == PutsOf(off + Size(all[0]), entries[1..]);
      MatchedPutsHold(im, off + Size(all[0]), gen, entries[1..]);
    }
  }

  lemma AllMatchSplit(im: Image, puts: seq<WalPut>, gen: nat)
    requires puts != [] && AllMatch(im, puts, gen)
    ensures puts[0].off in im.disk && im.disk[puts[0].off] == Record(puts[0].key, puts[0].value, gen)
    ensures AllMatch(im, puts[1..], gen)
  {
    assert Matches(im, puts[0], gen);
  }

  lemma SizeIgnoresGen(a: Record, b: Record)
    requires a.key == b.key && a.value == b.value
    ensures Size(a) == Size(b)
  {
  }

  /** Rewriting a run of records behind a held log keeps the log. */
  lemma RewriteKeepsLog(d: Disk, recs: seq<Record>, more: seq<Record>)
    requires Holds(d, DATA_START, recs) && more != []
    ensures Holds(WriteAll(d, DATA_START + Span(recs), more), DATA_START, recs + more)
  {
    var end := DATA_START + Span(recs);
    var e := WriteAll(d, end, more);
    HoldsAppend(e, DATA_START, recs, more);
    WrittenIsHeld(d, end, more);
    WriteBehindKeeps(d, DATA_START, recs, end, more);
  }

  lemma WrittenIsHeld(d: Disk, at: nat, more: seq<Record>)
    requires more != []
    ensures Holds(WriteAll(d, at, more), at, more)
  {
    WriteAllIs(d, at, more);
    HoldsIffPlaced(WriteAll(d, at, more), at, more);
  }

  /** Records written behind a held log do not disturb it. */
  lemma WriteBehindKeeps(d: Disk, off: nat, recs: seq<Record>, at: nat, more: seq<Record>)
    requires Holds(d, off, recs) && off + Span(recs) <= at && more != []
    ensures Holds(WriteAll(d, at, more), off, recs)
  {
    var e := WriteAll(d, at, more);
    WriteAllIs(d, at, more);
    HoldsIffPlaced(d, off, recs);
    HoldsIffPlaced(e, off, recs);
    PlaceBounds(off, recs);
    PlaceBounds(at, more);
  }

  /** The image holds the log and its write offset is not before the end of it. */
  ghost predicate Covers(im: Image, recs: seq<Record>) {
    Holds(im.disk, DATA_START, recs) && DATA_START + Span(recs) <= im.writeOffset
  }

  /** One transaction that continues a covered log: afterwards it is covered too. */
  lemma ReplayNext(im: Image, recs: seq<Record>, gen: nat, entries: seq<Item>)
    requires Covers(im, recs) && entries != [] && ValidEntries(entries)
    ensures var r, log := ApplyTx(im, TxOf(gen, DATA_START + Span(recs), entries)), recs + RecordsOf(gen, entries);
            && r.Some? && Covers(r.value, log)
            && (r.value == im || r.value.writeOffset == DATA_START + Span(log))
  {
    hide Span, Holds, PutsOf, WriteAll, Matches;
    var tx, all := TxOf(gen, DATA_START + Span(recs), entries), RecordsOf(gen, entries);
    SpanAppend(recs, all);
    if FullyApplied(im, tx) {
      MatchedPutsHold(im, tx.begin, gen, entries);
      HoldsAppend(im.disk, DATA_START, recs, all);
    } else {
      PutsWritten(im.(writeOffset := tx.begin, gen := if gen > 0 then gen - 1 else 0), gen, entries);
      RewriteKeepsLog(im.disk, recs, all);
    }
  }

  /** Replaying the transactions of a history reproduces its log over whatever the data file held. */
  lemma {:induction false} ReplayHistory(im: Image, h: seq<seq<Item>>)
    requires ValidHistory(h) && DATA_START <= im.writeOffset
    ensures var r := ApplyAll(im, HistoryTxs(h));
            && r.Some? && Covers(r.value, HistoryLog(h))
            && (r.value == im || r.value.writeOffset == DATA_START + Span(HistoryLog(h)))
  {
    hide Span, Holds, TxOf, ApplyTx, RecordsOf;
    if h == [] {
      EmptyCovered(im);
    } else {
      var init, e := h[..|h| - 1], h[|h| - 1];
      ReplayHistory(im, init);
      var im1 := ApplyAll(im, HistoryTxs(init)).value;
      ReplayNext(im1, HistoryLog(init), |init| + 1, e);
      ApplyAllAppend(im, HistoryTxs(init), [NextTx(init, e)]);
      ApplyOne(im1, NextTx(init, e));
      ReplayNextMoves(im, im1, HistoryLog(init), |init| + 1, e);
    }
  }

  lemma EmptyCovered(im: Image)
    requires DATA_START <= im.writeOffset
    ensures Covers(im, HistoryLog([]))
  {
  }

  lemma ApplyOne(im: Image, tx: CommittedTx)
    ensures ApplyAll(im, [tx]) == ApplyTx(im, tx)
  {
    assert [tx][1..] == [];
  }

  /** Once the write offset sits at the end of the log, the next transaction is written, not skipped. */
  lemma ReplayNextMoves(im: Image, im1: Image, recs: seq<Record>, gen: nat, entries: seq<Item>)
    requires im1 == im || im1.writeOffset == DATA_START + Span(recs)
    requires Covers(im1, recs) && entries != [] && ValidEntries(entries)
    ensures var r := ApplyTx(im1, TxOf(gen, DATA_START + Span(recs), entries));
            r.Some? && (r.value == im || r.value.writeOffset == DATA_START + Span(recs + RecordsOf(gen, entries)))
  {
    hide Holds, PutsOf, Matches;
    var all := RecordsOf(gen, entries);
    ReplayNext(im1, recs, gen, entries);
    SpanAppend(recs, all);
  }

  // ----- compaction never grows the log -----

  /** Some record of the log has this key and value. */
  ghost predicate InLog(recs: seq<Record>, x: Record) {
    exists r :: r in recs && r.key == x.key && r.value == x.value
  }

  lemma {:induction false} SpanOfPart(part: seq<Record>, recs: seq<Record>)
    requires forall i, j :: 0 <= i < j < |part| ==> part[i].key != part[j].key
    requires forall i :: 0 <= i < |part| ==> InLog(recs, part[i])
    ensures Span(part) <= Span(recs)
    decreases recs
  {
    hide Size;
    assert part == [] || InLog(recs, part[0]);
    if recs != [] {
      if i: nat :| i < |part| && part[i].key == recs[0].key && part[i].value == recs[0].value {
        var rest := part[..i] + part[i + 1..];
        SpanWithout(part, i);
        forall j | 0 <= j < |rest| ensures InLog(recs[1..], rest[j]) {
          assert rest[j] == part[if j < i then j else j + 1];
          InTail(recs, rest[j]);
        }
        SpanOfPart(rest, recs[1..]);
        SizeIgnoresGen(part[i], recs[0]);
      } else {
        forall j | 0 <= j < |part| ensures InLog(recs[1..], part[j]) { InTail(recs, part[j]); }
        SpanOfPart(part, recs[1..]);
      }
    }
  }

  lemma InTail(recs: seq<Record>, x: Record)
    requires recs != [] && InLog(recs, x)
    requires recs[0].key != x.key || recs[0].value != x.value
    ensures InLog(recs[1..], x)
  {
    var r :| r in recs && r.key == x.key && r.value == x.value;
    assert r in recs[1..];
  }

  lemma SpanWithout(recs: seq<Record>, i: nat)
    requires i < |recs|
    ensures Span(recs) == Span(recs[..i] + recs[i + 1..]) + Size(recs[i])
  {
    hide Size, Span;
    assert recs == recs[..i] + [recs[i]] + recs[i + 1..];
    SpanAround(recs[..i], recs[i], recs[i + 1..]);
  }

  lemma SpanAround(a: seq<Record>, r: Record, b: seq<Record>)
    ensures Span(a + [r] + b) == Span(a + b) + Size(r)
  {
    hide Size, Span;
    SpanAppend(a + [r], b);
    SpanAppend(a, [r]);
    SpanAppend(a, b);
    SpanOne(r);
  }

  lemma SpanOne(r: Record)
    ensures Span([r]) == Size(r)
  {
    hide Size;
    assert [r][1..] == [];
  }

  lemma CompactNotLonger(recs: seq<Record>, gen: nat)
    requires UpTo(recs, gen) == recs
    ensures Span(CompactLog(recs, gen)) <= Span(recs)
  {
    hide Span, Sort, LiveItems, StrictlySorted, UpTo;
    var items := Sort(LiveItems(recs));
    LiveItemsList(recs);
    SortLists(LiveItems(recs), Live(recs));
    var part := Renumber(items);
    forall i | 0 <= i < |part| ensures InLog(recs, part[i]) {
      LatestFromLog(recs, items[i].key);
    }
    SpanOfPart(part, recs);
  }

  // ----- the files after compaction -----

  lemma CleanTarget(s: Store, e: seq<Item>)
    requires s.wal != [] && CleanWal(s.wal)
    ensures Clean(Target(s, e))
  {
  }

  /** An uninterrupted commit on any laid-out data file. */
  lemma CommitOnPlaced(k: Store, recs: seq<Record>, e: seq<Item>)
    requires k.wal != [] && k.mem == Place(DATA_START, recs) && k.writeOffset == DATA_START + Span(recs)
    requires ValidEntries(e) && Commits(e) && AllWithinLimits(recs)
    ensures var c, log := CommitUpTo(k, e, Steps(e), 0), recs + RecordsOf(k.gen + 1, e);
            && c.mem == c.platter == Place(DATA_START, log)
            && AllWithinLimits(log)
            && c.writeOffset == DATA_START + Span(log) <= c.mapSize && c.gen == k.gen + 1
            && c.wal == WalAfter(k, e, Steps(e), 0)
  {
    hide Place, Span, WriteAll, WalAfter, SegmentBytes, BatchBytes;
    var batch := RecordsOf(k.gen + 1, e);
    assert batch[..|e|] == batch;
    MaterialisedPrefix(recs, batch);
    SpanAppend(recs, batch);
    BatchWithinLimits(recs, k.gen + 1, e);
  }

  /** The image recovery starts from when the data file holds just this log. */
  function ImageOf(log: seq<Record>, mapSize: nat): Image {
    Image(Place(DATA_START, log), mapSize, DATA_START + Span(log), LastGen(log))
  }

  lemma RecoverIsReplay(log: seq<Record>, mapSize: nat, wal: Wal)
    requires AllWithinLimits(log) && DATA_START + Span(log) <= mapSize && WalKeysOk(wal)
    ensures Recover(Place(DATA_START, log), mapSize, wal) == ApplyAll(ImageOf(log, mapSize), VisibleAll(wal))
  {
    hide Place, Span, ApplyAll, VisibleAll;
    ScanPlaced(log, mapSize);
    ReplayAllIsApplyVisible(TailImage(Place(DATA_START, log), mapSize), wal);
  }

  lemma EmptySegmentClean()
    ensures Clean([])
  {
  }

  lemma AppendKeepsClean(wal: Wal, items: Segment)
    requires wal != [] && CleanWal(wal) && Clean(items)
    ensures CleanWal(AppendToLast(wal, items))
  {
  }

  /** An uninterrupted commit leaves no torn record. */
  lemma CommitKeepsClean(s: Store, e: seq<Item>)
    requires s.wal != [] && CleanWal(s.wal) && Commits(e)
    ensures CleanWal(CommitUpTo(s, e, Steps(e), 0).wal)
  {
    hide BatchBytes, WriteAll, Span, SegmentBytes, Grow, BatchItems, Clean;
    BatchItemsClean(s.gen + 1, s.writeOffset, e);
    var bytes, items := BatchBytes(e), BatchItems(s.gen + 1, s.writeOffset, e);
    AppendKeepsClean(Rotate(s, bytes).wal, items) by { EmptySegmentClean(); }
  }
}
