/**
  What replaying WAL transactions makes of a data file (qrx-core/src/qrxdb.c:462-546),
  told on logs instead of bytes: a transaction that is already in the log is skipped,
  any other one cuts the log where it begins.
 */
module QrxdbReplay {
  import opened Wrappers
  import opened QrxdbKeys
  import opened QrxdbLog
  import opened QrxdbWal
  import opened QrxdbStore
  import opened QrxdbRecovery
  import opened QrxdbCompactRecovery

  // ----- a log cut short -----

  /** The records of the log that end within this many bytes. */
  function Fitting(recs: seq<Record>, room: nat): (keep: seq<Record>)
    ensures keep <= recs
  {
    if recs == [] || Size(recs[0]) > room then []
    else [recs[0]] + Fitting(recs[1..], room - Size(recs[0]))
  }

  lemma {:induction false} FittingEnds(recs: seq<Record>, room: nat)
    ensures Span(Fitting(recs, room)) <= room
    ensures var n := |Fitting(recs, room)|; n < |recs| ==> room < Span(Fitting(recs, room)) + Size(recs[n])
    ensures room < Span(recs) ==> |Fitting(recs, room)| < |recs|
    ensures room >= Span(recs) ==> Fitting(recs, room) == recs
  {
    hide Size;
    if recs != [] && Size(recs[0]) <= room {
      FittingEnds(recs[1..], room - Size(recs[0]));
      assert Fitting(recs, room)[1..] == Fitting(recs[1..], room - Size(recs[0]));
    }
  }

  lemma {:induction false} FittingPrefix(keep: seq<Record>, more: seq<Record>)
    ensures Fitting(keep + more, Span(keep)) == keep
  {
    hide Size;
    var recs := keep + more;
    if keep == [] {
      assert recs == [] || Size(recs[0]) > 0;
    } else {
      assert recs[1..] == keep[1..] + more;
      FittingPrefix(keep[1..], more);
    }
  }

  // ----- replay on logs -----

  /** What readers see of a data file, and where it is written on; a hole may lie between. */
  datatype Readout = Readout(log: seq<Record>, end: nat)

  function WholeFile(log: seq<Record>): Readout { Readout(log, DATA_START + Span(log)) }

  function BatchOf(tx: CommittedTx): (e: seq<Item>)
    ensures |e| == |tx.puts|
  {
    seq(|tx.puts|, i requires 0 <= i < |tx.puts| => Item(tx.puts[i].key, tx.puts[i].value))
  }

  function TxRecords(tx: CommittedTx): seq<Record> { RecordsOf(tx.gen, BatchOf(tx)) }

  /** A transaction as qrxdb_batch_commit writes it. */
  ghost predicate Planned(tx: CommittedTx) {
    && tx.puts != [] && ValidEntries(BatchOf(tx)) && DATA_START <= tx.begin
    && tx == TxOf(tx.gen, tx.begin, BatchOf(tx))
  }

  lemma TxOfPlanned(gen: nat, begin: nat, e: seq<Item>)
    requires e != [] && ValidEntries(e) && DATA_START <= begin
    ensures var tx := TxOf(gen, begin, e);
            Planned(tx) && TxRecords(tx) == RecordsOf(gen, e) && tx.end == begin + Span(RecordsOf(gen, e))
  {
    hide Span, PutsOf;
    assert BatchOf(TxOf(gen, begin, e)) == e;
  }

  /** The bytes of the file before the transaction. */
  function Before(tx: CommittedTx): nat { if tx.begin >= DATA_START then tx.begin - DATA_START else 0 }

  function Kept(log: seq<Record>, tx: CommittedTx): (keep: seq<Record>)
    ensures keep <= log
  {
    Fitting(log, Before(tx))
  }

  /** A record of the log, or its start, ends where the transaction begins. */
  predicate Flush(log: seq<Record>, tx: CommittedTx) { Span(Kept(log, tx)) == Before(tx) }

  /** The records of the transaction are in the log, at its offsets. */
  predicate OnLog(log: seq<Record>, tx: CommittedTx) {
    Flush(log, tx) && TxRecords(tx) <= log[|Kept(log, tx)|..]
  }

  /** The log is cut where the records begin; readers see them only if nothing is broken there. */
  function Overwritten(log: seq<Record>, tx: CommittedTx, recs: seq<Record>): Readout {
    Readout(if Flush(log, tx) then Kept(log, tx) + recs else Kept(log, tx), tx.begin + Span(recs))
  }

  /** One transaction: skipped, refused or written. */
  function ReplayedTx(r: Readout, tx: CommittedTx): Option<Readout> {
    if OnLog(r.log, tx) then Some(r)
    else if tx.begin > r.end then None
    else Some(Overwritten(r.log, tx, TxRecords(tx)))
  }

  function Replayed(r: Readout, txs: seq<CommittedTx>): Option<Readout> {
    if txs == [] then Some(r)
    else
      match Replayed(r, txs[..|txs| - 1])
      case None => None
      case Some(q) => ReplayedTx(q, txs[|txs| - 1])
  }

  lemma {:induction false} ReplayedAppend(r: Readout, a: seq<CommittedTx>, b: seq<CommittedTx>)
    ensures Replayed(r, a + b) ==
            match Replayed(r, a) case None => None case Some(q) => Replayed(q, b)
  {
    hide ReplayedTx;
    if b == [] {
      assert a + b == a;
    } else {
      assert (a + b)[..|a + b| - 1] == a + b[..|b| - 1];
      ReplayedAppend(r, a, b[..|b| - 1]);
    }
  }

  // ----- replay on files is replay on logs -----

  ghost predicate NoOverlap(d: Disk) {
    forall p, q :: p in d && q in d && p < q ==> p + Size(d[p]) <= q
  }

  lemma {:induction false} PlaceNoOverlap(off: nat, recs: seq<Record>)
    ensures NoOverlap(Place(off, recs))
    decreases recs
  {
    if recs != [] {
      PlaceNoOverlap(off + Size(recs[0]), recs[1..]);
      PlaceBounds(off + Size(recs[0]), recs[1..]);
    }
  }

  lemma WriteNoOverlap(d: Disk, off: nat, r: Record)
    requires NoOverlap(d)
    ensures NoOverlap(Write(d, off, r))
  {
  }

  lemma {:induction false} WriteAllNoOverlap(d: Disk, off: nat, recs: seq<Record>)
    requires NoOverlap(d)
    ensures NoOverlap(WriteAll(d, off, recs))
    decreases recs
  {
    hide NoOverlap, Write, Size;
    if recs != [] {
      WriteNoOverlap(d, off, recs[0]);
      WriteAllNoOverlap(Write(d, off, recs[0]), off + Size(recs[0]), recs[1..]);
    }
  }

  /** Behind a hole there are only records of transactions already replayed. */
  ghost predicate OldBehind(d: Disk, from: nat, to: nat, gen: nat) {
    forall o :: o in d && from <= o < to ==> d[o].gen <= gen
  }

  /** The image reads as r after transactions up to this generation. */
  ghost predicate ReadsAs(im: Image, r: Readout, gen: nat) {
    var end := DATA_START + Span(r.log);
    && end <= r.end == im.writeOffset && (end < r.end ==> end !in im.disk)
    && Holds(im.disk, DATA_START, r.log) && AllWithinLimits(r.log)
    && NoOverlap(im.disk) && OldBehind(im.disk, end, r.end, gen)
  }

  lemma PlacedReadsAs(log: seq<Record>, mapSize: nat)
    requires AllWithinLimits(log)
    ensures ReadsAs(ImageOf(log, mapSize), WholeFile(log), 0)
  {
    hide Place, Span, Holds, NoOverlap;
    PlaceHolds(DATA_START, log);
    PlaceNoOverlap(DATA_START, log);
  }

  /** Readers stop at the hole. */
  lemma ReadsLog(im: Image, r: Readout, gen: nat)
    requires ReadsAs(im, r, gen)
    ensures Scan(im.disk, DATA_START, im.writeOffset) == r.log
  {
    hide Holds, Span, NoOverlap, OldBehind;
    ScanHeld(im.disk, DATA_START, r.log, im.writeOffset);
    assert r.log + [] == r.log;
  }

  /** Where the first record lies that does not fit, and that nothing lies inside it. */
  lemma RecordAtCut(d: Disk, log: seq<Record>, keep: seq<Record>, begin: nat)
    requires Holds(d, DATA_START, log) && NoOverlap(d) && keep <= log && |keep| < |log|
    requires DATA_START + Span(keep) <= begin < DATA_START + Span(keep) + Size(log[|keep|])
    ensures var end := DATA_START + Span(keep);
            && end in d && d[end] == log[|keep|]
            && begin < DATA_START + Span(log)
            && forall o :: o in d && end <= o <= begin ==> o == end
  {
    hide Holds, Span, Size, NoOverlap;
    HeldAt(d, DATA_START, log, |keep|);
    assert log[..|keep|] == keep;
    NothingInside(d, DATA_START + Span(keep));
  }

  lemma NothingInside(d: Disk, p: nat)
    requires NoOverlap(d) && p in d
    ensures forall o :: o in d && p <= o < p + Size(d[p]) ==> o == p
  {
    hide Size;
  }

  lemma KeptHeld(d: Disk, log: seq<Record>, keep: seq<Record>)
    requires Holds(d, DATA_START, log) && keep <= log
    ensures Holds(d, DATA_START, keep) && Holds(d, DATA_START + Span(keep), log[|keep|..])
    ensures Span(keep) + Span(log[|keep|..]) == Span(log)
  {
    hide Holds, Span;
    assert log == keep + log[|keep|..];
    HoldsAppend(d, DATA_START, keep, log[|keep|..]);
    SpanAppend(keep, log[|keep|..]);
  }

  /** Records held from one place are the same records, unless they reach behind the first log. */
  lemma {:induction false} HeldTwice(d: Disk, off: nat, a: seq<Record>, b: seq<Record>, limit: nat, gen: nat)
    requires Holds(d, off, a) && Holds(d, off, b) && OldBehind(d, off + Span(a), limit, gen)
    requires off + Span(b) <= limit && forall i :: 0 <= i < |b| ==> b[i].gen > gen
    ensures b <= a
    decreases b
  {
    hide Size, OldBehind;
    if b != [] {
      PositiveSpan(b);
      if a == [] {
        OldAt(d, off + Span(a), limit, gen, off);
      } else {
        HeldTwice(d, off + Size(a[0]), a[1..], b[1..], limit, gen);
      }
    }
  }

  lemma OldAt(d: Disk, from: nat, to: nat, gen: nat, o: nat)
    requires OldBehind(d, from, to, gen) && o in d && from <= o < to
    ensures d[o].gen <= gen
  {
  }

  lemma PositiveSpan(recs: seq<Record>)
    requires recs != []
    ensures Span(recs) > 0
  {
  }

  /** Held records match their puts. */
  lemma {:induction false} HeldPutsMatch(im: Image, off: nat, gen: nat, entries: seq<Item>)
    requires Holds(im.disk, off, RecordsOf(gen, entries)) && ValidEntries(entries) && off > 0
    requires off + Span(RecordsOf(gen, entries)) <= im.writeOffset
    ensures AllMatch(im, PutsOf(off, entries), gen)
    decreases entries
  {
    hide Size;
    if entries != [] {
      var all, puts := RecordsOf(gen, entries), PutsOf(off, entries);
      assert all[1..] == RecordsOf(gen, entries[1..]);
      SizeIgnoresGen(all[0], Record(entries[0].key, entries[0].value, 0));
      assert puts[1..] == PutsOf(off + Size(all[0]), entries[1..]);
      HeldPutsMatch(im, off + Size(all[0]), gen, entries[1..]);
      FirstMatches(im, off, all[0], all[1..]);
      assert forall i :: 0 < i < |puts| ==> puts[i] == puts[1..][i - 1];
    }
  }

  lemma FirstMatches(im: Image, off: nat, r: Record, more: seq<Record>)
    requires off in im.disk && im.disk[off] == r && WithinLimits(r) && off > 0
    requires off + Size(r) + Span(more) <= im.writeOffset
    ensures Matches(im, WalPut(r.key, r.value, off), r.gen)
  {
  }

  /** Replay skips a transaction exactly when it is in the log. */
  lemma SkippedIff(im: Image, r: Readout, gen: nat, tx: CommittedTx)
    requires ReadsAs(im, r, gen) && Planned(tx) && gen < tx.gen
    ensures FullyApplied(im, tx) <==> OnLog(r.log, tx)
  {
    hide ReadsAs, Planned, Span, Holds, AllMatch, PutsOf, TxRecords;
    var e, recs, keep := BatchOf(tx), TxRecords(tx), Kept(r.log, tx);
    PlannedMeans(tx);
    ReadsMeans(im, r, gen);
    KeptHeld(im.disk, r.log, keep);
    if FullyApplied(im, tx) {
      MatchedPutsHold(im, tx.begin, tx.gen, e);
      AppliedIsFlush(im, r, gen, tx);
      HeldTwice(im.disk, tx.begin, r.log[|keep|..], recs, im.writeOffset, gen);
    }
    if OnLog(r.log, tx) {
      var rest := r.log[|keep|..];
      assert rest == recs + rest[|recs|..];
      HoldsAppend(im.disk, tx.begin, recs, rest[|recs|..]);
      SpanAppend(recs, rest[|recs|..]);
      HeldPutsMatch(im, tx.begin, tx.gen, e);
    }
  }

  lemma PlannedMeans(tx: CommittedTx)
    requires Planned(tx)
    ensures TxRecords(tx) == RecordsOf(tx.gen, BatchOf(tx)) != [] && BatchOf(tx) != []
    ensures ValidEntries(BatchOf(tx)) && tx.begin == DATA_START + Before(tx)
    ensures tx.puts == PutsOf(tx.begin, BatchOf(tx)) && tx.end == tx.begin + Span(TxRecords(tx))
    ensures tx == TxOf(tx.gen, tx.begin, BatchOf(tx))
    ensures forall i :: 0 <= i < |TxRecords(tx)| ==> TxRecords(tx)[i].gen == tx.gen
    ensures AllWithinLimits(TxRecords(tx))
  {
    hide Span, PutsOf;
  }

  lemma ReadsMeans(im: Image, r: Readout, gen: nat)
    requires ReadsAs(im, r, gen)
    ensures DATA_START + Span(r.log) <= r.end == im.writeOffset
    ensures Holds(im.disk, DATA_START, r.log) && AllWithinLimits(r.log)
    ensures NoOverlap(im.disk) && OldBehind(im.disk, DATA_START + Span(r.log), im.writeOffset, gen)
  {
    hide Span, Holds, OldBehind, NoOverlap;
  }

  /** A transaction whose first record is on file begins at a record of the log. */
  lemma AppliedIsFlush(im: Image, r: Readout, gen: nat, tx: CommittedTx)
    requires ReadsAs(im, r, gen) && Planned(tx) && gen < tx.gen
    requires Holds(im.disk, tx.begin, TxRecords(tx)) && tx.end <= im.writeOffset
    ensures Flush(r.log, tx)
  {
    hide ReadsAs, Planned, Span, Size, OldBehind, TxRecords, NoOverlap;
    var keep, first := Kept(r.log, tx), TxRecords(tx);
    PlannedMeans(tx);
    ReadsMeans(im, r, gen);
    FittingEnds(r.log, Before(tx));
    PositiveSpan(first);
    assert tx.begin in im.disk && im.disk[tx.begin].gen == tx.gen;
    if Before(tx) >= Span(r.log) {
      OldAt(im.disk, DATA_START + Span(r.log), im.writeOffset, gen, tx.begin);
    } else {
      RecordAtCut(im.disk, r.log, keep, tx.begin);
    }
  }

  /** A transaction that is not skipped and begins within the file is written there. */
  lemma WrittenAnew(im: Image, tx: CommittedTx)
    requires Planned(tx) && tx.begin <= im.writeOffset && !FullyApplied(im, tx)
    ensures var r := ApplyTx(im, tx);
            && r.Some? && r.value.disk == WriteAll(im.disk, tx.begin, TxRecords(tx))
            && r.value.writeOffset == tx.begin + Span(TxRecords(tx))
  {
    hide WriteAll, Span, Size, WritePuts, FullyApplied;
    PutsWritten(im.(writeOffset := tx.begin, gen := if tx.gen > 0 then tx.gen - 1 else 0), tx.gen, BatchOf(tx));
  }

  lemma NotWrittenBelow(d: Disk, at: nat, more: seq<Record>, o: nat)
    requires o < at && more != [] && (o in d ==> o + Size(d[o]) > at)
    ensures o !in WriteAll(d, at, more)
  {
    hide Size, Span;
    WriteAllIs(d, at, more);
    NotPlacedBelow(at, more, o);
  }

  /** Nothing whole lies between the last kept record and the transaction, except records already replayed. */
  lemma BehindKept(im: Image, r: Readout, gen: nat, tx: CommittedTx)
    requires ReadsAs(im, r, gen) && Planned(tx) && tx.begin <= im.writeOffset && !Flush(r.log, tx)
    ensures var end := DATA_START + Span(Kept(r.log, tx));
            && end < tx.begin && (end in im.disk ==> end + Size(im.disk[end]) > tx.begin)
            && forall o :: o in im.disk && end < o < tx.begin ==> im.disk[o].gen <= gen
  {
    hide Holds, Span, Size, NoOverlap;
    var keep := Kept(r.log, tx);
    FittingEnds(r.log, Before(tx));
    if |keep| < |r.log| { RecordAtCut(im.disk, r.log, keep, tx.begin); }
  }

  /** Writing records keeps older ones below old, and the written ones are of their generation. */
  lemma WrittenOld(d: Disk, at: nat, more: seq<Record>, from: nat, gen: nat, now: nat)
    requires more != [] && gen <= now && from < at && from !in WriteAll(d, at, more)
    requires forall o :: o in d && from < o < at ==> d[o].gen <= gen
    requires forall i :: 0 <= i < |more| ==> more[i].gen == now
    ensures OldBehind(WriteAll(d, at, more), from, at + Span(more), now)
  {
    hide Size, Span;
    WriteAllIs(d, at, more);
    PlacedGens(at, more, now);
  }

  lemma {:induction false} PlacedGens(off: nat, recs: seq<Record>, gen: nat)
    requires forall i :: 0 <= i < |recs| ==> recs[i].gen == gen
    ensures forall o :: o in Place(off, recs) ==> Place(off, recs)[o].gen == gen
    decreases recs
  {
    if recs != [] { PlacedGens(off + Size(recs[0]), recs[1..], gen); }
  }

  lemma WrittenReads(im: Image, r: Readout, gen: nat, tx: CommittedTx, out: Image)
    requires ReadsAs(im, r, gen) && Planned(tx) && tx.begin <= im.writeOffset && gen < tx.gen
    requires out.disk == WriteAll(im.disk, tx.begin, TxRecords(tx)) && out.writeOffset == tx.begin + Span(TxRecords(tx))
    ensures ReadsAs(out, Overwritten(r.log, tx, TxRecords(tx)), tx.gen)
  {
    hide Planned, Holds, Span, NoOverlap, WriteAll, OldBehind, TxRecords, Size;
    var keep, recs := Kept(r.log, tx), TxRecords(tx);
    var end := DATA_START + Span(keep);
    PlannedMeans(tx);
    FittingEnds(r.log, Before(tx));
    KeptHeld(im.disk, r.log, keep);
    WriteAllNoOverlap(im.disk, tx.begin, recs);
    WriteBehindKeeps(im.disk, DATA_START, keep, tx.begin, recs);
    assert AllWithinLimits(keep);
    if Flush(r.log, tx) {
      WrittenIsHeld(im.disk, tx.begin, recs);
      HoldsAppend(out.disk, DATA_START, keep, recs);
      SpanAppend(keep, recs);
      NothingBehind(out.disk, out.writeOffset, tx.gen);
    } else {
      BehindKept(im, r, gen, tx);
      NotWrittenBelow(im.disk, tx.begin, recs, end);
      WrittenOld(im.disk, tx.begin, recs, end, gen, tx.gen);
    }
  }

  lemma NothingBehind(d: Disk, at: nat, gen: nat)
    ensures OldBehind(d, at, at, gen)
  {
  }

  /** One transaction on a file is that transaction on its log. */
  lemma ReplayTx(im: Image, r: Readout, gen: nat, tx: CommittedTx)
    requires ReadsAs(im, r, gen) && Planned(tx) && gen < tx.gen
    ensures match ReplayedTx(r, tx)
            case None => ApplyTx(im, tx).None?
            case Some(q) => ApplyTx(im, tx).Some? && ReadsAs(ApplyTx(im, tx).value, q, tx.gen)
  {
    hide Planned, Holds, Span, NoOverlap, FullyApplied, OnLog, WritePuts, Overwritten;
    PlannedMeans(tx);
    SkippedIff(im, r, gen, tx);
    if !OnLog(r.log, tx) && tx.begin <= r.end {
      WrittenAnew(im, tx);
      WrittenReads(im, r, gen, tx, ApplyTx(im, tx).value);
    }
  }

  /** Transactions of rising generations, all above this one. */
  ghost predicate Rising(txs: seq<CommittedTx>, gen: nat) {
    && (forall i :: 0 <= i < |txs| ==> Planned(txs[i]) && txs[i].gen > gen)
    && forall i, j :: 0 <= i < j < |txs| ==> txs[i].gen < txs[j].gen
  }

  /** Replay of a file is replay of its log: the same failures, the same log. */
  lemma {:induction false} ReplayAllTxs(im: Image, r: Readout, txs: seq<CommittedTx>)
    requires ReadsAs(im, r, 0) && Rising(txs, 0)
    ensures var g := if txs == [] then 0 else txs[|txs| - 1].gen;
            match Replayed(r, txs)
            case None => ApplyAll(im, txs).None?
            case Some(q) => ApplyAll(im, txs).Some? && ReadsAs(ApplyAll(im, txs).value, q, g)
  {
    hide ReadsAs, Planned, ReplayedTx, ApplyTx;
    if txs != [] {
      var init, last := txs[..|txs| - 1], txs[|txs| - 1];
      assert txs == init + [last];
      ReplayAllTxs(im, r, init);
      ApplyAllAppend(im, init, [last]);
      if Replayed(r, init).Some? {
        var im1, g := ApplyAll(im, init).value, if init == [] then 0 else init[|init| - 1].gen;
        ApplyOne(im1, last);
        ReplayTx(im1, Replayed(r, init).value, g, last);
      }
    }
  }

  // ----- transactions one behind the other -----

  /** No transaction begins before the one in front of it ends. */
  predicate Spaced(txs: seq<CommittedTx>) {
    forall i :: 0 < i < |txs| ==> txs[i - 1].end <= txs[i].begin
  }

  predicate Adjacent(txs: seq<CommittedTx>) {
    forall i :: 0 < i < |txs| ==> txs[i - 1].end == txs[i].begin
  }

  function AllRecords(txs: seq<CommittedTx>): seq<Record> {
    if txs == [] then [] else AllRecords(txs[..|txs| - 1]) + TxRecords(txs[|txs| - 1])
  }

  /** How many leading transactions are in the log. */
  function Leading(log: seq<Record>, txs: seq<CommittedTx>): (n: nat)
    ensures n <= |txs|
    ensures forall i :: 0 <= i < n ==> OnLog(log, txs[i])
    ensures n < |txs| ==> !OnLog(log, txs[n])
  {
    if txs == [] || !OnLog(log, txs[0]) then 0 else 1 + Leading(log, txs[1..])
  }

  /**
    Spaced transactions at once: those leading ones that are in the log change nothing;
    the first that is not must begin within the file and cuts the log there; all others
    must follow without a gap.
   */
  function Spliced(r: Readout, txs: seq<CommittedTx>): Option<Readout> {
    var n := Leading(r.log, txs);
    if n == |txs| then Some(r)
    else if txs[n].begin > r.end || !Adjacent(txs[n..]) then None
    else Some(Overwritten(r.log, txs[n], AllRecords(txs[n..])))
  }

  lemma {:induction false} ReplayedSkips(r: Readout, txs: seq<CommittedTx>)
    requires forall i :: 0 <= i < |txs| ==> OnLog(r.log, txs[i])
    ensures Replayed(r, txs) == Some(r)
  {
    hide OnLog;
    if txs != [] { ReplayedSkips(r, txs[..|txs| - 1]); }
  }

  /** Behind a cut, a transaction is written on exactly when it begins where the file ends. */
  lemma ReplayedBehind(q: Readout, tx: CommittedTx)
    requires Planned(tx) && DATA_START + Span(q.log) <= q.end <= tx.begin
    ensures q.end < tx.begin ==> ReplayedTx(q, tx).None?
    ensures q.end == tx.begin ==>
              ReplayedTx(q, tx) ==
              Some(Readout(if DATA_START + Span(q.log) == q.end then q.log + TxRecords(tx) else q.log, tx.end))
  {
    hide Planned, TxRecords, Span;
    PlannedMeans(tx);
    FittingEnds(q.log, Before(tx));
    assert q.log[|q.log|..] == [];
  }

  lemma {:induction false} ReplayedRun(r: Readout, txs: seq<CommittedTx>)
    requires txs != [] && Spaced(txs) && forall i :: 0 <= i < |txs| ==> Planned(txs[i])
    requires !OnLog(r.log, txs[0]) && txs[0].begin <= r.end
    ensures Replayed(r, txs) == if Adjacent(txs) then Some(Overwritten(r.log, txs[0], AllRecords(txs))) else None
    ensures Adjacent(txs) ==> txs[|txs| - 1].end == txs[0].begin + Span(AllRecords(txs))
    ensures AllRecords(txs) != []
  {
    hide Planned, TxRecords, Span, OnLog, Spaced, Adjacent, Overwritten;
    var init, last := txs[..|txs| - 1], txs[|txs| - 1];
    PlannedMeans(last);
    if init == [] {
      assert [] + TxRecords(last) == TxRecords(last);
      assert Replayed(r, []) == Some(r);
      OneAdjacent(txs);
    } else {
      SpacedInit(txs);
      AdjacentInit(txs);
      ReplayedRun(r, init);
      if Adjacent(init) {
        WrittenOn(r.log, txs[0], AllRecords(init), last);
        SpanAppend(AllRecords(init), TxRecords(last));
      }
    }
  }

  /** One more transaction behind a cut. */
  lemma WrittenOn(log: seq<Record>, first: CommittedTx, recs: seq<Record>, tx: CommittedTx)
    requires Planned(first) && Planned(tx) && recs != [] && first.begin + Span(recs) <= tx.begin
    ensures ReplayedTx(Overwritten(log, first, recs), tx) ==
            if first.begin + Span(recs) == tx.begin then Some(Overwritten(log, first, recs + TxRecords(tx))) else None
  {
    hide Planned, TxRecords, Span, ReplayedTx, Overwritten, Flush;
    PlannedMeans(tx);
    CutNotLonger(log, first, recs);
    ReplayedBehind(Overwritten(log, first, recs), tx);
    OverwrittenMore(log, first, recs, TxRecords(tx));
  }

  lemma OverwrittenMore(log: seq<Record>, tx: CommittedTx, recs: seq<Record>, more: seq<Record>)
    ensures var q := Overwritten(log, tx, recs);
            Overwritten(log, tx, recs + more)
            == Readout(if Flush(log, tx) then q.log + more else q.log, q.end + Span(more))
  {
    hide Span, Kept, Flush;
    SpanAppend(recs, more);
    assert Kept(log, tx) + recs + more == Kept(log, tx) + (recs + more);
  }

  lemma OneAdjacent(txs: seq<CommittedTx>)
    requires |txs| == 1
    ensures Adjacent(txs)
  {
  }

  lemma SpacedInit(txs: seq<CommittedTx>)
    requires |txs| > 1 && Spaced(txs)
    ensures Spaced(txs[..|txs| - 1]) && txs[|txs| - 2].end <= txs[|txs| - 1].begin
  {
  }

  lemma AdjacentInit(txs: seq<CommittedTx>)
    requires |txs| > 1
    ensures Adjacent(txs) <==> Adjacent(txs[..|txs| - 1]) && txs[|txs| - 2].end == txs[|txs| - 1].begin
  {
    var init := txs[..|txs| - 1];
    assert forall i :: 0 <= i < |init| ==> init[i] == txs[i];
  }

  lemma CutNotLonger(log: seq<Record>, tx: CommittedTx, recs: seq<Record>)
    requires Planned(tx) && recs != []
    ensures var q := Overwritten(log, tx, recs);
            && DATA_START + Span(q.log) <= q.end == tx.begin + Span(recs)
            && (DATA_START + Span(q.log) == q.end <==> Flush(log, tx))
  {
    hide Planned, Span;
    PlannedMeans(tx);
    FittingEnds(log, Before(tx));
    SpanAppend(Kept(log, tx), recs);
    PositiveSpan(recs);
  }

  /** Replaying spaced transactions is splicing them in. */
  lemma SplicedIs(r: Readout, txs: seq<CommittedTx>)
    requires Spaced(txs) && DATA_START + Span(r.log) <= r.end && forall i :: 0 <= i < |txs| ==> Planned(txs[i])
    ensures Replayed(r, txs) == Spliced(r, txs)
  {
    hide Planned, OnLog, Overwritten, AllRecords;
    var n := Leading(r.log, txs);
    var done, rest := txs[..n], txs[n..];
    assert txs == done + rest;
    ReplayedSkips(r, done);
    ReplayedAppend(r, done, rest);
    if rest != [] {
      assert Spaced(rest);
      if rest[0].begin <= r.end { ReplayedRun(r, rest); } else { ReplayedRefused(r, rest); }
    }
  }

  lemma SplicedFits(r: Readout, txs: seq<CommittedTx>)
    requires DATA_START + Span(r.log) <= r.end && forall i :: 0 <= i < |txs| ==> Planned(txs[i])
    requires Spliced(r, txs).Some?
    ensures DATA_START + Span(Spliced(r, txs).value.log) <= Spliced(r, txs).value.end
  {
    hide Planned, OnLog, Overwritten, TxRecords, Adjacent;
    var n := Leading(r.log, txs);
    if n < |txs| {
      PlannedMeans(txs[|txs| - 1]);
      assert txs[n..][|txs[n..]| - 1] == txs[|txs| - 1];
      CutNotLonger(r.log, txs[n], AllRecords(txs[n..]));
    }
  }

  lemma {:induction false} ReplayedRefused(r: Readout, txs: seq<CommittedTx>)
    requires txs != [] && !OnLog(r.log, txs[0]) && txs[0].begin > r.end
    ensures Replayed(r, txs).None?
  {
    hide OnLog;
    if |txs| > 1 { ReplayedRefused(r, txs[..|txs| - 1]); }
    assert Replayed(r, []) == Some(r);
  }

  lemma TxStarts(gen: nat, begin: nat, e: seq<Item>)
    ensures TxOf(gen, begin, e).gen == gen && TxOf(gen, begin, e).begin == begin
  {
  }

  lemma BehindPrefix(recs: seq<Record>, x: seq<Record>, y: seq<Record>)
    ensures recs + x <= recs + y <==> x <= y
  {
    var a, b := recs + x, recs + y;
    if a <= b {
      forall i | 0 <= i < |x| ensures x[i] == y[i] { assert a[|recs| + i] == b[|recs| + i]; }
    }
  }

  lemma KeptIs(log: seq<Record>, part: seq<Record>, tx: CommittedTx)
    requires part <= log && tx.begin == DATA_START + Span(part)
    ensures Kept(log, tx) == part && Flush(log, tx)
  {
    hide Span, Fitting;
    assert log == part + log[|part|..];
    FittingPrefix(part, log[|part|..]);
  }

  /** A transaction that begins where a leading part of the log ends. */
  lemma ReplayedNext(log: seq<Record>, part: seq<Record>, gen: nat, e: seq<Item>)
    requires part <= log && e != [] && ValidEntries(e)
    ensures ReplayedTx(WholeFile(log), TxOf(gen, DATA_START + Span(part), e))
         == Some(WholeFile(if part + RecordsOf(gen, e) <= log then log else part + RecordsOf(gen, e)))
  {
    hide Span, TxOf, TxRecords, Kept, Flush, RecordsOf, Planned, ReplayedTx;
    var tx, rest := TxOf(gen, DATA_START + Span(part), e), log[|part|..];
    TxOfPlanned(gen, DATA_START + Span(part), e);
    TxStarts(gen, DATA_START + Span(part), e);
    assert log == part + rest;
    ReplayedAt(part, rest, tx);
    BehindPrefix(part, RecordsOf(gen, e), rest);
  }

  lemma ReplayedAt(part: seq<Record>, rest: seq<Record>, tx: CommittedTx)
    requires tx.begin == DATA_START + Span(part)
    ensures ReplayedTx(WholeFile(part + rest), tx)
         == Some(WholeFile(part + if TxRecords(tx) <= rest then rest else TxRecords(tx)))
  {
    hide Span, TxRecords, OnLog, Overwritten;
    OnLogAt(part, rest, tx);
    OverwrittenAt(part, rest, tx);
    SpanAppend(part, rest);
  }

  lemma OnLogAt(part: seq<Record>, rest: seq<Record>, tx: CommittedTx)
    requires tx.begin == DATA_START + Span(part)
    ensures OnLog(part + rest, tx) <==> TxRecords(tx) <= rest
  {
    hide Span, TxRecords, Kept, Flush;
    KeptIs(part + rest, part, tx);
    assert (part + rest)[|part|..] == rest;
  }

  lemma OverwrittenAt(part: seq<Record>, rest: seq<Record>, tx: CommittedTx)
    requires tx.begin == DATA_START + Span(part)
    ensures Overwritten(part + rest, tx, TxRecords(tx)) == WholeFile(part + TxRecords(tx))
  {
    hide Span, TxRecords, Kept, Flush;
    KeptIs(part + rest, part, tx);
    SpanAppend(part, TxRecords(tx));
  }

  /** Without a hole it does not matter which transactions came before. */
  lemma WholeReadsAs(im: Image, log: seq<Record>, gen: nat)
    requires ReadsAs(im, WholeFile(log), gen)
    ensures ReadsAs(im, WholeFile(log), 0)
  {
    hide Span, Holds, NoOverlap;
  }
}
