/**
  Crash atomicity of qrxdb_batch_commit and exactness of qrxdb_recover
  (qrx-core/src/qrxdb.c), for every crash point and every set of data records
  that had reached the disk.
 */
module QrxdbRecovery {
  import opened Wrappers
  import opened QrxdbKeys
  import opened QrxdbLog
  import opened QrxdbWal
  import opened QrxdbStore

  // ----- replay over a disk that already holds the log -----

  lemma AppliedIsFully(im: Image, recs: seq<Record>, tx: CommittedTx)
    requires Holds(im.disk, DATA_START, recs) && AllWithinLimits(recs)
    requires DATA_START + Span(recs) <= im.writeOffset
    requires AppliedIn(recs, tx)
    ensures FullyApplied(im, tx)
  {
    HoldsIffPlaced(im.disk, DATA_START, recs);
    PlaceBounds(DATA_START, recs);
    forall i | 0 <= i < |tx.puts| ensures Matches(im, tx.puts[i], tx.gen) {
      PlacedWithinLimits(DATA_START, recs, tx.puts[i].off);
    }
  }

  lemma {:induction false} PlacedWithinLimits(off: nat, recs: seq<Record>, o: nat)
    requires AllWithinLimits(recs) && o in Place(off, recs)
    ensures WithinLimits(Place(off, recs)[o])
    decreases recs
  {
    if o != off { PlacedWithinLimits(off + Size(recs[0]), recs[1..], o); }
  }

  /** Transactions already in the log are skipped by replay. */
  lemma {:induction false} ReplaySkips(im: Image, recs: seq<Record>, txs: seq<CommittedTx>)
    requires Holds(im.disk, DATA_START, recs) && AllWithinLimits(recs)
    requires DATA_START + Span(recs) <= im.writeOffset
    requires AllApplied(recs, txs)
    ensures ApplyAll(im, txs) == Some(im)
  {
    if txs != [] {
      AppliedIsFully(im, recs, txs[0]);
      ReplaySkips(im, recs, txs[1..]);
    }
  }

  lemma {:induction false} PlaceHolds(off: nat, recs: seq<Record>)
    ensures Holds(Place(off, recs), off, recs)
  {
    HoldsIffPlaced(Place(off, recs), off, recs);
  }

  // ----- what the tail scan finds -----

  /** How many leading records of more reached the disk. */
  ghost function Arrived(d: Disk, off: nat, more: seq<Record>): (j: nat)
    ensures j <= |more|
    decreases more
  {
    if more == [] || off !in d then 0 else 1 + Arrived(d, off + Size(more[0]), more[1..])
  }

  lemma {:induction false} BetweenShift(d: Disk, recs: seq<Record>, more: seq<Record>)
    requires Between(d, recs, more) && more != [] && DATA_START + Span(recs) in d
    ensures Between(d, recs + [more[0]], more[1..])
    ensures Span(recs + [more[0]]) == Span(recs) + Size(more[0])
  {
    assert (recs + [more[0]]) + more[1..] == recs + more;
    SpanAppend(recs, [more[0]]);
    assert [more[0]][1..] == [];
    PlaceAppend(DATA_START, recs, [more[0]]);
    assert Place(DATA_START + Span(recs), [more[0]]) == map[DATA_START + Span(recs) := more[0]];
  }

  /** The tail scan returns the log and j records of the batch; all of them only from the full disk. */
  ghost predicate Found(d: Disk, recs: seq<Record>, more: seq<Record>, limit: nat, j: nat) {
    && j <= |more|
    && Scan(d, DATA_START, limit) == recs + more[..j]
    && (j == |more| ==> d == Place(DATA_START, recs + more))
  }

  lemma FoundShift(d: Disk, recs: seq<Record>, more: seq<Record>, limit: nat, j: nat)
    requires more != [] && Found(d, recs + [more[0]], more[1..], limit, j)
    ensures Found(d, recs, more, limit, j + 1)
  {
    assert (recs + [more[0]]) + more[1..] == recs + more;
    assert (recs + [more[0]]) + more[1..][..j] == recs + more[..j + 1];
  }

  /** The tail scan of a crashed file returns the old log and the leading run of the batch that arrived. */
  lemma {:induction false} ScanBetween(d: Disk, recs: seq<Record>, more: seq<Record>, limit: nat)
    requires Between(d, recs, more) && AllWithinLimits(recs + more)
    requires DATA_START + Span(recs + more) <= limit
    ensures Found(d, recs, more, limit, Arrived(d, DATA_START + Span(recs), more))
    decreases more
  {
    hide Scan, Place;
    var end := DATA_START + Span(recs);
    if more != [] && end in d {
      BetweenShift(d, recs, more);
      assert (recs + [more[0]]) + more[1..] == recs + more;
      ScanBetween(d, recs + [more[0]], more[1..], limit);
      FoundShift(d, recs, more, limit, Arrived(d, end + Size(more[0]), more[1..]));
    } else {
      ScanStops(d, recs, more, limit);
      assert more[..0] == [] && recs + [] == recs;
      assert Arrived(d, end, more) == 0;
    }
  }

  lemma ScanStops(d: Disk, recs: seq<Record>, more: seq<Record>, limit: nat)
    requires Between(d, recs, more) && AllWithinLimits(recs + more)
    requires DATA_START + Span(recs + more) <= limit
    requires more == [] || DATA_START + Span(recs) !in d
    ensures Scan(d, DATA_START, limit) == recs
    ensures more == [] ==> d == Place(DATA_START, recs)
  {
    BetweenHolds(d, recs, more);
    SpanAppend(recs, more);
    assert AllWithinLimits(recs) by {
      assert forall i :: 0 <= i < |recs| ==> recs[i] == (recs + more)[i];
    }
    if more == [] {
      assert recs + more == recs;
      EndNotPlaced(recs);
      assert d == Place(DATA_START, recs);
    }
    ScanHeld(d, DATA_START, recs, limit);
    assert recs + [] == recs;
  }

  lemma EndNotPlaced(recs: seq<Record>)
    ensures DATA_START + Span(recs) !in Place(DATA_START, recs)
  {
    PlaceBounds(DATA_START, recs);
  }

  lemma BetweenHolds(d: Disk, recs: seq<Record>, more: seq<Record>)
    requires Between(d, recs, more)
    ensures Holds(d, DATA_START, recs)
  {
    HoldsIffPlaced(d, DATA_START, recs);
    forall o | o in Place(DATA_START, recs) ensures o in d && d[o] == Place(DATA_START, recs)[o] {
      PlacePrefix(recs, more, o);
    }
  }

  // ----- redoing one batch -----

  lemma {:induction false} PutsWritten(im: Image, gen: nat, entries: seq<Item>)
    requires ValidEntries(entries)
    ensures WritePuts(im, gen, PutsOf(im.writeOffset, entries)).Some?
    ensures var out := WritePuts(im, gen, PutsOf(im.writeOffset, entries)).value;
            && out.disk == WriteAll(im.disk, im.writeOffset, RecordsOf(gen, entries))
            && out.writeOffset == im.writeOffset + Span(RecordsOf(gen, entries))
            && out.gen == (if entries == [] then im.gen else gen)
            && out.mapSize >= im.mapSize
            && (entries != [] ==> out.mapSize >= out.writeOffset)
    decreases entries
  {
    if entries != [] {
      var r := Record(entries[0].key, entries[0].value, gen);
      assert Size(r) == Size(Record(entries[0].key, entries[0].value, 0));
      assert RecordsOf(gen, entries)[1..] == RecordsOf(gen, entries[1..]);
      PutsWritten(WriteRecord(im, r), gen, entries[1..]);
    }
  }

  /** Overwriting a partly arrived batch yields the whole laid-out log. */
  lemma RewriteBatch(d: Disk, recs: seq<Record>, more: seq<Record>)
    requires Between(d, recs, more) && more != []
    ensures WriteAll(d, DATA_START + Span(recs), more) == Place(DATA_START, recs + more)
  {
    hide Place, Span, WriteAll, Cut, Between;
    var end := DATA_START + Span(recs);
    WriteAllIs(d, end, more);
    PlaceAppend(DATA_START, recs, more);
    CutBetween(d, recs, more);
  }

  lemma CutBetween(d: Disk, recs: seq<Record>, more: seq<Record>)
    requires Between(d, recs, more)
    ensures Cut(d, DATA_START + Span(recs), DATA_START + Span(recs) + Span(more)) == Place(DATA_START, recs)
  {
    hide Span;
    var end, p := DATA_START + Span(recs), Place(DATA_START, recs);
    PlaceBounds(DATA_START, recs);
    PlaceAppend(DATA_START, recs, more);
    PlaceBounds(end, more);
    var c := Cut(d, end, end + Span(more));
    forall o ensures o in c <==> o in p {
      if o in p { PlacePrefix(recs, more, o); }
    }
    forall o | o in p ensures c[o] == p[o] { PlacePrefix(recs, more, o); }
  }

  lemma TxIsApplied(recs: seq<Record>, gen: nat, entries: seq<Item>)
    requires entries != []
    ensures AppliedIn(recs + RecordsOf(gen, entries), TxOf(gen, DATA_START + Span(recs), entries))
  {
    hide Place, Span, PutsOf, AllPlaced;
    SpanAppend(recs, RecordsOf(gen, entries));
    PutsPlaced(recs, gen, entries);
  }

  lemma {:induction false} PutsPlaced(recs: seq<Record>, gen: nat, entries: seq<Item>)
    ensures AllPlaced(recs + RecordsOf(gen, entries), PutsOf(DATA_START + Span(recs), entries), gen)
    decreases entries
  {
    hide Place, Align8;
    if entries != [] {
      var r := Record(entries[0].key, entries[0].value, gen);
      var all, puts := RecordsOf(gen, entries), PutsOf(DATA_START + Span(recs), entries);
      assert all[1..] == RecordsOf(gen, entries[1..]);
      assert (recs + [r]) + all[1..] == recs + all;
      assert Span(recs + [r]) == Span(recs) + Size(r) by { SpanAppend(recs, [r]); assert [r][1..] == []; }
      PutsPlaced(recs + [r], gen, entries[1..]);
      FirstPlaced(recs, all);
      assert puts[1..] == PutsOf(DATA_START + Span(recs + [r]), entries[1..]);
    }
  }

  lemma FirstPlaced(recs: seq<Record>, more: seq<Record>)
    requires more != []
    ensures DATA_START + Span(recs) in Place(DATA_START, recs + more)
    ensures Place(DATA_START, recs + more)[DATA_START + Span(recs)] == more[0]
  {
    PlaceAppend(DATA_START, recs, more);
    assert Place(DATA_START + Span(recs), more)[DATA_START + Span(recs)] == more[0];
  }

  lemma AppliedInGrows(recs: seq<Record>, more: seq<Record>, tx: CommittedTx)
    requires AppliedIn(recs, tx)
    ensures AppliedIn(recs + more, tx)
  {
    SpanAppend(recs, more);
    forall i | 0 <= i < |tx.puts| ensures PutPlaced(recs + more, tx.puts[i], tx.gen) {
      PlacePrefix(recs, more, tx.puts[i].off);
    }
  }

  // ----- recovery of a data file with and without a committed batch -----

  /** Without a visible unfinished batch, recovery keeps exactly the log the scan finds. */
  lemma RecoverKeeps(d: Disk, recs: seq<Record>, found: seq<Record>, mapSize: nat, wal: Wal)
    requires Holds(d, DATA_START, recs) && AllWithinLimits(recs)
    requires WalAgrees(wal, recs)
    requires Scan(d, DATA_START, mapSize) == recs + found
    ensures Recover(d, mapSize, wal) ==
            Some(Image(d, mapSize, DATA_START + Span(recs + found), LastGen(recs + found)))
  {
    SpanAppend(recs, found);
    ReplayAllIsApplyVisible(TailImage(d, mapSize), wal);
    ReplaySkips(TailImage(d, mapSize), recs, VisibleAll(wal));
  }

  /** The image holds the log and the whole batch. */
  ghost predicate Redone(im: Image, recs: seq<Record>, gen: nat, entries: seq<Item>) {
    var log := recs + RecordsOf(gen, entries);
    && im.disk == Place(DATA_START, log)
    && im.writeOffset == DATA_START + Span(log) <= im.mapSize
    && im.gen == gen
  }

  /** A fully arrived batch is left as it is. */
  lemma RedoComplete(im: Image, recs: seq<Record>, gen: nat, entries: seq<Item>)
    requires entries != [] && ValidEntries(entries) && AllWithinLimits(recs)
    requires Redone(im, recs, gen, entries)
    ensures ApplyTx(im, TxOf(gen, DATA_START + Span(recs), entries)) == Some(im)
  {
    hide Place, Span, Holds, FullyApplied;
    var all := RecordsOf(gen, entries);
    TxIsApplied(recs, gen, entries);
    PlaceHolds(DATA_START, recs + all);
    AppliedIsFully(im, recs + all, TxOf(gen, DATA_START + Span(recs), entries));
  }

  /** A partly arrived batch is rewound and written again as a whole. */
  lemma RedoPartial(im: Image, recs: seq<Record>, gen: nat, entries: seq<Item>)
    requires entries != [] && ValidEntries(entries)
    requires Between(im.disk, recs, RecordsOf(gen, entries))
    requires DATA_START + Span(recs) <= im.writeOffset < DATA_START + Span(recs + RecordsOf(gen, entries))
    ensures ApplyTx(im, TxOf(gen, DATA_START + Span(recs), entries)).Some?
    ensures Redone(ApplyTx(im, TxOf(gen, DATA_START + Span(recs), entries)).value, recs, gen, entries)
  {
    hide Span, Place, PutsOf, WriteAll, WritePuts, Between;
    var tx := TxOf(gen, DATA_START + Span(recs), entries);
    SpanAppend(recs, RecordsOf(gen, entries));
    assert !FullyApplied(im, tx);
    PutsWritten(im.(writeOffset := tx.begin, gen := if gen > 0 then gen - 1 else 0), gen, entries);
    RewriteBatch(im.disk, recs, RecordsOf(gen, entries));
  }

  /** Redoing the last visible transaction from any partial state gives the full log. */
  lemma RedoBatch(d: Disk, recs: seq<Record>, gen: nat, entries: seq<Item>, mapSize: nat)
    requires entries != [] && ValidEntries(entries) && AllWithinLimits(recs)
    requires Between(d, recs, RecordsOf(gen, entries))
    requires DATA_START + Span(recs + RecordsOf(gen, entries)) <= mapSize
    ensures TailImage(d, mapSize).writeOffset >= DATA_START + Span(recs)
    ensures ApplyTx(TailImage(d, mapSize), TxOf(gen, DATA_START + Span(recs), entries)).Some?
    ensures Redone(ApplyTx(TailImage(d, mapSize), TxOf(gen, DATA_START + Span(recs), entries)).value,
                   recs, gen, entries)
  {
    hide Place, Span, Scan, Arrived, ApplyTx, TxOf;
    var all := RecordsOf(gen, entries);
    var found := Arrived(d, DATA_START + Span(recs), all);
    ScanBetween(d, recs, all, mapSize);
    SpanAppend(recs, all[..found]);
    if found == |entries| {
      assert all[..found] == all;
      RedoComplete(TailImage(d, mapSize), recs, gen, entries);
    } else {
      ShortOfEnd(recs, all, found);
      RedoPartial(TailImage(d, mapSize), recs, gen, entries);
    }
  }

  lemma ShortOfEnd(recs: seq<Record>, more: seq<Record>, n: nat)
    requires n < |more|
    ensures Span(recs + more[..n]) < Span(recs + more)
  {
    SpanAppend(recs, more);
    SpanAppend(recs, more[..n]);
    assert more == more[..n] + more[n..];
    SpanAppend(more[..n], more[n..]);
  }

  /** With the batch as last visible transaction, recovery yields the old log and the whole batch. */
  lemma RecoverRedoes(d: Disk, recs: seq<Record>, gen: nat, entries: seq<Item>,
                      mapSize: nat, wal: Wal, before: seq<CommittedTx>)
    requires entries != [] && ValidEntries(entries) && AllWithinLimits(recs)
    requires Between(d, recs, RecordsOf(gen, entries))
    requires DATA_START + Span(recs + RecordsOf(gen, entries)) <= mapSize
    requires WalKeysOk(wal)
    requires AllApplied(recs, before)
    requires VisibleAll(wal) == before + [TxOf(gen, DATA_START + Span(recs), entries)]
    ensures Recover(d, mapSize, wal).Some?
    ensures Redone(Recover(d, mapSize, wal).value, recs, gen, entries)
  {
    hide Span, Place, Scan, TxOf, Visible, FullyApplied, ApplyTx;
    var tx, im := TxOf(gen, DATA_START + Span(recs), entries), TailImage(d, mapSize);
    RedoBatch(d, recs, gen, entries, mapSize);
    BetweenHolds(d, recs, RecordsOf(gen, entries));
    ReplayAllIsApplyVisible(im, wal);
    ReplaySkips(im, recs, before);
    ApplyAllAppend(im, before, [tx]);
    assert [tx][1..] == [];
  }
}
