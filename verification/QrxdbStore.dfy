/**
  One QRXDB store as a value: the mapped file, what of it has reached the disk,
  the WAL, and the header fields.  Commit is a sequence of small durable steps
  that may be cut short before any of them; Reopen is process death followed by
  qrxdb_init (qrx-core/src/qrxdb.c).
 */
module QrxdbStore {
  import opened Wrappers
  import opened QrxdbKeys
  import opened QrxdbMerkle
  import opened QrxdbLog
  import opened QrxdbWal

  datatype Store = Store(
    mem: Disk,          // the mapped data file as the process sees it
    platter: Disk,      // the data file as of the last successful sync
    mapSize: nat,
    wal: Wal,           // WAL segments 1, 2, ...; the last one is current
    walOffset: nat,     // wal_segment_offset
    writeOffset: nat,
    gen: nat)

  /** A freshly created database. */
  const EMPTY: Store := Store(map[], map[], DEFAULT_MAP_SIZE, [[]], 0, DATA_START, 0)

  predicate ValidEntry(e: Item) { 0 < |e.key| <= MAX_KEY_SIZE && |e.value| <= MAX_VALUE_SIZE }

  ghost predicate ValidEntries(entries: seq<Item>) {
    forall i :: 0 <= i < |entries| ==> ValidEntry(entries[i])
  }

  /** The bytes qrxdb_batch_commit reserves in the WAL. */
  function PutBytes(entries: seq<Item>): nat {
    if entries == [] then 0 else WAL_HEADER + |entries[0].key| + |entries[0].value| + PutBytes(entries[1..])
  }

  function BatchBytes(entries: seq<Item>): nat { 2 * WAL_HEADER + PutBytes(entries) }

  lemma {:induction false} SegmentBytesSnoc(s: Segment, item: WalItem)
    ensures SegmentBytes(s + [item]) == SegmentBytes(s) + WalSize(item)
  {
    if s == [] {
      assert s + [item] == [item] && [item][1..] == [];
    } else {
      assert (s + [item])[1..] == s[1..] + [item];
      SegmentBytesSnoc(s[1..], item);
    }
  }

  lemma {:induction false} PutItemsBytes(gen: nat, off: nat, entries: seq<Item>)
    ensures SegmentBytes(PutItems(gen, PutsOf(off, entries))) == PutBytes(entries)
    decreases entries
  {
    if entries != [] {
      var next := off + Size(Record(entries[0].key, entries[0].value, 0));
      var puts := PutsOf(off, entries);
      assert puts[1..] == PutsOf(next, entries[1..]);
      assert PutItems(gen, puts)[1..] == PutItems(gen, puts[1..]);
      PutItemsBytes(gen, next, entries[1..]);
    }
  }

  /** The reservation is exact: a batch's WAL records take BatchBytes bytes. */
  lemma ReservationExact(gen: nat, begin: nat, entries: seq<Item>)
    ensures SegmentBytes(BatchItems(gen, begin, entries)) == BatchBytes(entries)
  {
    hide Span, PutsOf;
    var body, last := PutItems(gen, PutsOf(begin, entries)), WalItem.Commit(gen, begin + Span(RecordsOf(gen, entries)));
    PutItemsBytes(gen, begin, entries);
    SegmentBytesSnoc([Begin(gen, begin)] + body, last);
    assert ([Begin(gen, begin)] + body)[1..] == body;
  }

  /** wal_rotate_if_needed. */
  predicate MustRotate(s: Store, bytes: nat) { s.walOffset + bytes > SEGMENT_SIZE }

  function Rotate(s: Store, bytes: nat): Store {
    if MustRotate(s, bytes) then s.(wal := s.wal + [[]], walOffset := 0) else s
  }

  function AppendToLast(wal: Wal, items: Segment): Wal
    requires wal != []
  {
    wal[|wal| - 1 := wal[|wal| - 1] + items]
  }

  predicate Commits(entries: seq<Item>) { entries != [] && BatchBytes(entries) <= SEGMENT_SIZE }

  /** Number of durable steps of a commit: WAL records, data records, sync. */
  function Steps(entries: seq<Item>): nat { |entries| + 2 + |entries| + 1 }

  /** Data records materialised before step stopAt. */
  function Materialised(entries: seq<Item>, stopAt: nat): (n: nat)
    ensures n <= |entries|
  {
    if stopAt < |entries| + 2 then 0
    else if stopAt - (|entries| + 2) < |entries| then stopAt - (|entries| + 2)
    else |entries|
  }

  /** WAL records on file before step stopAt; torn bytes of the next one may follow. */
  function Written(gen: nat, begin: nat, entries: seq<Item>, stopAt: nat, torn: nat): Segment {
    var items := BatchItems(gen, begin, entries);
    if stopAt >= |items| then items
    else items[..stopAt] + if torn > 0 then [Torn(torn)] else []
  }

  function WalAfter(s: Store, entries: seq<Item>, stopAt: nat, torn: nat): Wal
    requires s.wal != []
  {
    AppendToLast(Rotate(s, BatchBytes(entries)).wal, Written(s.gen + 1, s.writeOffset, entries, stopAt, torn))
  }

  /**
    qrxdb_batch_commit on a batch opened on this very store, stopped before step
    stopAt (0 is BEGIN, |entries| + 1 is COMMIT, then one step per data record,
    then the final sync).
   */
  function CommitUpTo(s: Store, entries: seq<Item>, stopAt: nat, torn: nat): Store
    requires s.wal != []
  {
    if !Commits(entries) then s
    else
      var all, n := RecordsOf(s.gen + 1, entries), Materialised(entries, stopAt);
      var mem := WriteAll(s.mem, s.writeOffset, all[..n]);
      Store(mem,
            if stopAt >= Steps(entries) then mem else s.platter,
            Grow(s.mapSize, s.writeOffset + Span(all)),
            WalAfter(s, entries, stopAt, torn),
            Rotate(s, BatchBytes(entries)).walOffset
              + SegmentBytes(Written(s.gen + 1, s.writeOffset, entries, stopAt, 0)),
            s.writeOffset + Span(all[..n]),
            if n > 0 then s.gen + 1 else s.gen)
  }

  predicate Apart(a: Disk, p: nat, b: Disk, o: nat)
    requires p in a && o in b
  {
    p == o || p + Size(a[p]) <= o || o + Size(b[o]) <= p
  }

  /** The file after power loss: of the records written since the last sync, those in kept arrived. */
  function Surviving(platter: Disk, mem: Disk, kept: set<nat>): Disk {
    (map o | o in platter && (forall p :: p in kept && p in mem ==> Apart(mem, p, platter, o)) :: platter[o])
    + (map o | o in mem && o in kept :: mem[o])
  }

  /** Process death with the given records on disk, then qrxdb_init; None when it reports failure. */
  function Reopen(s: Store, kept: set<nat>): Option<Store>
    requires s.wal != []
  {
    match Recover(Surviving(s.platter, s.mem, kept), s.mapSize, s.wal)
    case None => None
    case Some(im) =>
      Some(Store(im.disk, im.disk, im.mapSize, s.wal, SegmentBytes(s.wal[|s.wal| - 1]), im.writeOffset, im.gen))
  }

  /** The log a store presents to readers. */
  function LogOf(s: Store): seq<Record> { Scan(s.mem, DATA_START, s.writeOffset) }

  /** qrxdb_verify, with the root recorded by the caller. */
  predicate Verifies(s: Store, root: Hash) {
    && DATA_START + Span(LogOf(s)) == s.writeOffset
    && LastGen(LogOf(s)) == s.gen
    && RootOf(LogOf(s)) == root
  }

  // ----- invariant between operations -----

  /** The put lies in the log at the offset the WAL names. */
  ghost predicate PutPlaced(recs: seq<Record>, p: WalPut, gen: nat) {
    && p.off in Place(DATA_START, recs)
    && Place(DATA_START, recs)[p.off] == Record(p.key, p.value, gen)
  }

  ghost predicate AllPlaced(recs: seq<Record>, puts: seq<WalPut>, gen: nat) {
    forall i :: 0 <= i < |puts| ==> PutPlaced(recs, puts[i], gen)
  }

  /** Every put of the transaction lies in the log. */
  ghost predicate AppliedIn(recs: seq<Record>, tx: CommittedTx) {
    && tx.puts != [] && tx.begin > 0
    && tx.end <= DATA_START + Span(recs)
    && AllPlaced(recs, tx.puts, tx.gen)
  }

  ghost predicate AllApplied(recs: seq<Record>, txs: seq<CommittedTx>) {
    forall i :: 0 <= i < |txs| ==> AppliedIn(recs, txs[i])
  }

  /** Every transaction replay can see is already in the log. */
  ghost predicate WalAgrees(wal: Wal, recs: seq<Record>) {
    wal != [] && WalKeysOk(wal) && AllApplied(recs, VisibleAll(wal))
  }

  /** No operation is in flight and the log on disk is exactly recs. */
  ghost predicate Quiescent(s: Store, recs: seq<Record>) {
    && s.mem == s.platter == Place(DATA_START, recs)
    && s.writeOffset == DATA_START + Span(recs) <= s.mapSize
    && s.gen == LastGen(recs)
    && AllWithinLimits(recs)
    && WalAgrees(s.wal, recs)
  }

  lemma EmptyIsQuiescent()
    ensures Quiescent(EMPTY, [])
  {
    assert VisibleAll([[]]) == Visible([], NO_TX) + VisibleAll([]);
  }

  // ----- the disk between two logs -----

  /** d holds all of recs, possibly some of more behind it, and nothing else. */
  ghost predicate Between(d: Disk, recs: seq<Record>, more: seq<Record>) {
    && (forall o :: o in Place(DATA_START, recs) ==> o in d)
    && (forall o :: o in d ==> o in Place(DATA_START, recs + more) && d[o] == Place(DATA_START, recs + more)[o])
  }

  lemma {:induction false} PlaceApart(off: nat, recs: seq<Record>, o: nat, p: nat)
    requires o in Place(off, recs) && p in Place(off, recs)
    ensures Apart(Place(off, recs), p, Place(off, recs), o)
    decreases recs
  {
    var next := off + Size(recs[0]);
    PlaceBounds(next, recs[1..]);
    if o != off && p != off { PlaceApart(next, recs[1..], o, p); }
  }

  lemma PlacePrefix(recs: seq<Record>, more: seq<Record>, o: nat)
    requires o in Place(DATA_START, recs)
    ensures o in Place(DATA_START, recs + more)
    ensures Place(DATA_START, recs + more)[o] == Place(DATA_START, recs)[o]
    ensures o < DATA_START + Span(recs)
  {
    PlaceAppend(DATA_START, recs, more);
    PlaceBounds(DATA_START, recs);
    NotPlacedBelow(DATA_START + Span(recs), more, o);
  }

  /** Losing power while a batch is being written leaves the old log and some of the batch. */
  lemma SurvivingIsBetween(recs: seq<Record>, more: seq<Record>, kept: set<nat>)
    ensures Between(Surviving(Place(DATA_START, recs), Place(DATA_START, recs + more), kept), recs, more)
  {
    var p, m := Place(DATA_START, recs), Place(DATA_START, recs + more);
    forall o | o in p ensures o in Surviving(p, m, kept) {
      PlacePrefix(recs, more, o);
      forall q | q in kept && q in m ensures Apart(m, q, p, o) {
        PlaceApart(DATA_START, recs + more, o, q);
      }
    }
    forall o | o in Surviving(p, m, kept) ensures o in m && Surviving(p, m, kept)[o] == m[o] {
      if o in p { PlacePrefix(recs, more, o); }
    }
  }

  /** Persisting more of the same batch keeps the disk between the same two logs. */
  lemma BetweenWidens(d: Disk, recs: seq<Record>, a: seq<Record>, b: seq<Record>)
    requires Between(d, recs, a)
    ensures Between(d, recs, a + b)
  {
    assert recs + (a + b) == (recs + a) + b;
    forall o | o in d ensures o in Place(DATA_START, recs + (a + b)) && d[o] == Place(DATA_START, recs + (a + b))[o] {
      PlacePrefix(recs + a, b, o);
    }
  }
}
