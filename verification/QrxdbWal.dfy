/**
  The segmented write-ahead log of QRXDB (qrx-core/src/qrxdb.c): its records,
  replay of committed transactions, and recovery of the data file.
 */
module QrxdbWal {
  import opened Wrappers
  import opened QrxdbKeys
  import opened QrxdbLog

  const WAL_HEADER: nat := 40                      // sizeof(QrxDBWalHeader)
  const SEGMENT_SIZE: nat := 64 * 1024 * 1024
  const DEFAULT_MAP_SIZE: nat := 64 * 1024 * 1024

  /** A record of a WAL file; Torn stands for bytes that fail the length, magic or CRC check. */
  datatype WalItem =
    | Begin(gen: nat, off: nat)
    | Put(gen: nat, off: nat, key: Bytes, value: Bytes)
    | Commit(gen: nat, off: nat)
    | Torn(bytes: nat)

  type Segment = seq<WalItem>
  type Wal = seq<Segment>

  datatype WalPut = WalPut(key: Bytes, value: Bytes, off: nat)
  datatype OpenTx = OpenTx(gen: nat, begin: nat, puts: seq<WalPut>)
  datatype CommittedTx = CommittedTx(gen: nat, begin: nat, puts: seq<WalPut>, end: nat)

  const NO_TX: OpenTx := OpenTx(0, 0, [])

  /** The mapped data file with the fields replay updates. */
  datatype Image = Image(disk: Disk, mapSize: nat, writeOffset: nat, gen: nat)

  function WalSize(item: WalItem): nat {
    match item
    case Put(_, _, k, v) => WAL_HEADER + |k| + |v|
    case Torn(n) => n
    case _ => WAL_HEADER
  }

  function SegmentBytes(s: Segment): nat {
    if s == [] then 0 else WalSize(s[0]) + SegmentBytes(s[1..])
  }

  /** qrxdb_ensure_space: double the map until it reaches end. */
  function Grow(mapSize: nat, end: nat): (n: nat)
    ensures n >= mapSize && n >= end
    decreases if mapSize == 0 then 1 else 0, if end > mapSize then end - mapSize else 0
  {
    if end <= mapSize then mapSize
    else if mapSize == 0 then Grow(DEFAULT_MAP_SIZE, end)
    else Grow(2 * mapSize, end)
  }

  /** write_data_record on the image. */
  function WriteRecord(im: Image, r: Record): Image {
    Image(Write(im.disk, im.writeOffset, r),
          Grow(im.mapSize, im.writeOffset + Size(r)),
          im.writeOffset + Size(r), r.gen)
  }

  /** wal_put_matches. */
  predicate Matches(im: Image, p: WalPut, gen: nat) {
    && 0 < p.off < im.writeOffset
    && Readable(im.disk, p.off, im.writeOffset)
    && im.disk[p.off] == Record(p.key, p.value, gen)
  }

  predicate AllMatch(im: Image, puts: seq<WalPut>, gen: nat) {
    forall i :: 0 <= i < |puts| ==> Matches(im, puts[i], gen)
  }

  /** wal_txn_fully_applied on a committed transaction with at least one put. */
  predicate FullyApplied(im: Image, tx: CommittedTx) {
    if tx.begin == 0 then tx.gen <= im.gen
    else
      && (tx.end == 0 || tx.end <= im.writeOffset)
      && AllMatch(im, tx.puts, tx.gen)
  }

  /** The write loop of wal_apply_txn_if_needed; None when an offset or a size does not fit. */
  function WritePuts(im: Image, gen: nat, puts: seq<WalPut>): Option<Image>
    decreases puts
  {
    if puts == [] then Some(im)
    else
      var r := Record(puts[0].key, puts[0].value, gen);
      if !WithinLimits(r) || (puts[0].off != 0 && puts[0].off != im.writeOffset) then None
      else WritePuts(WriteRecord(im, r), gen, puts[1..])
  }

  /** wal_apply_txn_if_needed. */
  function ApplyTx(im: Image, tx: CommittedTx): Option<Image> {
    if tx.puts == [] || FullyApplied(im, tx) then Some(im)
    else if tx.begin > 0 then
      if tx.begin < DATA_START || tx.begin > im.writeOffset then None
      else WritePuts(im.(writeOffset := tx.begin, gen := if tx.gen > 0 then tx.gen - 1 else 0), tx.gen, tx.puts)
    else WritePuts(im, tx.gen, tx.puts)
  }

  function ApplyAll(im: Image, txs: seq<CommittedTx>): Option<Image>
    decreases txs
  {
    if txs == [] then Some(im)
    else
      match ApplyTx(im, txs[0])
      case None => None
      case Some(next) => ApplyAll(next, txs[1..])
  }

  /** wal_replay_file from a given point of the file with a given open transaction. */
  function ReplaySegment(im: Image, s: Segment, cur: OpenTx): Option<Image>
    decreases s
  {
    if s == [] then Some(im)
    else
      match s[0]
      case Torn(_) => Some(im)
      case Begin(g, o) => ReplaySegment(im, s[1..], OpenTx(g, o, []))
      case Put(g, o, k, v) =>
        if g != cur.gen then ReplaySegment(im, s[1..], cur)
        else if k == [] then None
        else ReplaySegment(im, s[1..], cur.(puts := cur.puts + [WalPut(k, v, o)]))
      case Commit(g, o) =>
        if g != cur.gen then ReplaySegment(im, s[1..], cur)
        else
          match ApplyTx(im, CommittedTx(g, cur.begin, cur.puts, o))
          case None => None
          case Some(next) => ReplaySegment(next, s[1..], NO_TX)
  }

  /** wal_replay_all: the segments in increasing number. */
  function ReplayAll(im: Image, wal: Wal): Option<Image>
    decreases wal
  {
    if wal == [] then Some(im)
    else
      match ReplaySegment(im, wal[0], NO_TX)
      case None => None
      case Some(next) => ReplayAll(next, wal[1..])
  }

  /** scan_valid_tail over the whole map. */
  function TailImage(disk: Disk, mapSize: nat): Image {
    var recs := Scan(disk, DATA_START, mapSize);
    Image(disk, mapSize, DATA_START + Span(recs), LastGen(recs))
  }

  /** qrxdb_recover: the data file it leaves, None when it reports failure. */
  function Recover(disk: Disk, mapSize: nat, wal: Wal): Option<Image> {
    ReplayAll(TailImage(disk, mapSize), wal)
  }

  // ----- which transactions replay sees -----

  /** Committed transactions replay meets before the first torn record. */
  function Visible(s: Segment, cur: OpenTx): seq<CommittedTx>
    decreases s
  {
    if s == [] then []
    else
      match s[0]
      case Torn(_) => []
      case Begin(g, o) => Visible(s[1..], OpenTx(g, o, []))
      case Put(g, o, k, v) =>
        Visible(s[1..], if g == cur.gen then cur.(puts := cur.puts + [WalPut(k, v, o)]) else cur)
      case Commit(g, o) =>
        if g == cur.gen then [CommittedTx(g, cur.begin, cur.puts, o)] + Visible(s[1..], NO_TX)
        else Visible(s[1..], cur)
  }

  function VisibleAll(wal: Wal): seq<CommittedTx>
    decreases wal
  {
    if wal == [] then [] else Visible(wal[0], NO_TX) + VisibleAll(wal[1..])
  }

  ghost predicate NoEmptyKeys(s: Segment) {
    forall i :: 0 <= i < |s| && s[i].Put? ==> s[i].key != []
  }

  ghost predicate WalKeysOk(wal: Wal) {
    forall i :: 0 <= i < |wal| ==> NoEmptyKeys(wal[i])
  }

  ghost predicate Clean(s: Segment) {
    forall i :: 0 <= i < |s| ==> !s[i].Torn?
  }

  lemma {:induction false} ApplyAllAppend(im: Image, a: seq<CommittedTx>, b: seq<CommittedTx>)
    ensures ApplyAll(im, a + b) ==
            match ApplyAll(im, a) case None => None case Some(next) => ApplyAll(next, b)
    decreases a
  {
    if a == [] {
      assert a + b == b;
    } else {
      assert (a + b)[1..] == a[1..] + b;
      match ApplyTx(im, a[0])
      case None =>
      case Some(next) => ApplyAllAppend(next, a[1..], b);
    }
  }

  /** Replaying a file is applying its visible transactions in order. */
  lemma {:induction false} ReplayIsApplyVisible(im: Image, s: Segment, cur: OpenTx)
    requires NoEmptyKeys(s)
    ensures ReplaySegment(im, s, cur) == ApplyAll(im, Visible(s, cur))
    decreases s
  {
    if s != [] {
      match s[0]
      case Torn(_) =>
      case Begin(g, o) => ReplayIsApplyVisible(im, s[1..], OpenTx(g, o, []));
      case Put(g, o, k, v) =>
        ReplayIsApplyVisible(im, s[1..], if g == cur.gen then cur.(puts := cur.puts + [WalPut(k, v, o)]) else cur);
      case Commit(g, o) =>
        if g != cur.gen {
          ReplayIsApplyVisible(im, s[1..], cur);
        } else {
          var tx := CommittedTx(g, cur.begin, cur.puts, o);
          assert Visible(s, cur)[1..] == Visible(s[1..], NO_TX);
          match ApplyTx(im, tx)
          case None =>
          case Some(next) => ReplayIsApplyVisible(next, s[1..], NO_TX);
        }
    }
  }

  lemma {:induction false} ReplayAllIsApplyVisible(im: Image, wal: Wal)
    requires WalKeysOk(wal)
    ensures ReplayAll(im, wal) == ApplyAll(im, VisibleAll(wal))
    decreases wal
  {
    if wal != [] {
      ReplayIsApplyVisible(im, wal[0], NO_TX);
      ApplyAllAppend(im, Visible(wal[0], NO_TX), VisibleAll(wal[1..]));
      match ReplaySegment(im, wal[0], NO_TX)
      case None =>
      case Some(next) => ReplayAllIsApplyVisible(next, wal[1..]);
    }
  }

  /** The transaction left open after a clean stretch of a file. */
  function OpenAfter(s: Segment, cur: OpenTx): OpenTx
    decreases s
  {
    if s == [] then cur
    else
      match s[0]
      case Torn(_) => OpenAfter(s[1..], cur)
      case Begin(g, o) => OpenAfter(s[1..], OpenTx(g, o, []))
      case Put(g, o, k, v) =>
        OpenAfter(s[1..], if g == cur.gen then cur.(puts := cur.puts + [WalPut(k, v, o)]) else cur)
      case Commit(g, o) => OpenAfter(s[1..], if g == cur.gen then NO_TX else cur)
  }

  /** What follows a clean stretch is read with its open transaction; what follows a torn one is never read. */
  lemma {:induction false} VisibleAppend(a: Segment, b: Segment, cur: OpenTx)
    ensures Clean(a) ==> Visible(a + b, cur) == Visible(a, cur) + Visible(b, OpenAfter(a, cur))
    ensures !Clean(a) ==> Visible(a + b, cur) == Visible(a, cur)
    decreases a
  {
    if a == [] {
      assert a + b == b;
      assert [] + Visible(b, cur) == Visible(b, cur);
    } else if !a[0].Torn? {
      assert (a + b)[1..] == a[1..] + b;
      assert Clean(a) <==> Clean(a[1..]) by { assert a == [a[0]] + a[1..]; }
      match a[0]
      case Begin(g, o) => VisibleAppend(a[1..], b, OpenTx(g, o, []));
      case Put(g, o, k, v) =>
        VisibleAppend(a[1..], b, if g == cur.gen then cur.(puts := cur.puts + [WalPut(k, v, o)]) else cur);
      case Commit(g, o) => VisibleAppend(a[1..], b, if g == cur.gen then NO_TX else cur);
    }
  }

  lemma {:induction false} VisibleAllAppend(a: Wal, s: Segment)
    ensures VisibleAll(a + [s]) == VisibleAll(a) + Visible(s, NO_TX)
    decreases a
  {
    if a == [] {
      assert a + [s] == [s];
      assert VisibleAll([s]) == Visible(s, NO_TX) + VisibleAll([]);
    } else {
      assert (a + [s])[1..] == a[1..] + [s];
      VisibleAllAppend(a[1..], s);
    }
  }

  // ----- the WAL records of one batch -----

  function RecordsOf(gen: nat, entries: seq<Item>): (recs: seq<Record>)
    ensures |recs| == |entries|
    ensures forall i :: 0 <= i < |entries| ==> recs[i] == Record(entries[i].key, entries[i].value, gen)
  {
    seq(|entries|, i requires 0 <= i < |entries| => Record(entries[i].key, entries[i].value, gen))
  }

  /** The puts of a batch with the offsets qrxdb_batch_put plans for them. */
  function PutsOf(off: nat, entries: seq<Item>): (puts: seq<WalPut>)
    ensures |puts| == |entries|
    ensures forall i :: 0 <= i < |puts| ==> puts[i].key == entries[i].key && puts[i].value == entries[i].value
    decreases entries
  {
    if entries == [] then []
    else
      [WalPut(entries[0].key, entries[0].value, off)]
      + PutsOf(off + Size(Record(entries[0].key, entries[0].value, 0)), entries[1..])
  }

  function PutItems(gen: nat, puts: seq<WalPut>): (s: Segment)
    ensures |s| == |puts|
    ensures forall i :: 0 <= i < |puts| ==> s[i] == Put(gen, puts[i].off, puts[i].key, puts[i].value)
  {
    seq(|puts|, i requires 0 <= i < |puts| => Put(gen, puts[i].off, puts[i].key, puts[i].value))
  }

  /** BEGIN, the PUTs and COMMIT, as qrxdb_batch_commit writes them. */
  function BatchItems(gen: nat, begin: nat, entries: seq<Item>): (s: Segment)
    ensures |s| == |entries| + 2
  {
    [Begin(gen, begin)] + PutItems(gen, PutsOf(begin, entries))
    + [Commit(gen, begin + Span(RecordsOf(gen, entries)))]
  }

  function TxOf(gen: nat, begin: nat, entries: seq<Item>): CommittedTx {
    CommittedTx(gen, begin, PutsOf(begin, entries), begin + Span(RecordsOf(gen, entries)))
  }

  /** Puts of the open generation accumulate in order. */
  lemma {:induction false} PutItemsOpen(gen: nat, puts: seq<WalPut>, cur: OpenTx)
    requires cur.gen == gen
    ensures Visible(PutItems(gen, puts), cur) == []
    ensures OpenAfter(PutItems(gen, puts), cur) == cur.(puts := cur.puts + puts)
    decreases puts
  {
    if puts == [] {
      assert cur.puts + puts == cur.puts;
    } else {
      var s := PutItems(gen, puts);
      assert s[1..] == PutItems(gen, puts[1..]);
      var cur1 := cur.(puts := cur.puts + [puts[0]]);
      PutItemsOpen(gen, puts[1..], cur1);
      assert cur1.puts + puts[1..] == cur.puts + puts;
      assert puts[0] == WalPut(s[0].key, s[0].value, s[0].off);
    }
  }

  lemma BatchItemsClean(gen: nat, begin: nat, entries: seq<Item>)
    ensures Clean(BatchItems(gen, begin, entries))
  {
  }

  /** A whole batch is one visible transaction, whatever abandoned puts precede it in the file. */
  lemma WholeBatchVisible(gen: nat, begin: nat, entries: seq<Item>, cur: OpenTx)
    ensures Visible(BatchItems(gen, begin, entries), cur) == [TxOf(gen, begin, entries)]
  {
    var puts := PutsOf(begin, entries);
    var body, last := PutItems(gen, puts), [Commit(gen, begin + Span(RecordsOf(gen, entries)))];
    var tx0 := OpenTx(gen, begin, []);
    assert BatchItems(gen, begin, entries)[1..] == body + last;
    PutItemsOpen(gen, puts, tx0);
    VisibleAppend(body, last, tx0);
    assert [] + puts == puts;
    assert last[1..] == [];
    assert Visible(last, tx0.(puts := puts)) == [TxOf(gen, begin, entries)] + Visible([], NO_TX);
  }

  /** A batch cut off before its COMMIT record is no transaction at all. */
  lemma PartialBatchInvisible(gen: nat, begin: nat, entries: seq<Item>, n: nat, cur: OpenTx)
    requires n < |entries| + 2
    ensures Visible(BatchItems(gen, begin, entries)[..n], cur) == []
  {
    if n > 0 {
      var puts := PutsOf(begin, entries);
      var s := BatchItems(gen, begin, entries)[..n];
      assert s[1..] == PutItems(gen, puts[..n - 1]);
      PutItemsOpen(gen, puts[..n - 1], OpenTx(gen, begin, []));
    }
  }
}
