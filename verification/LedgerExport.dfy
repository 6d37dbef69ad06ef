/**
  The ledger exporter (qrx-core/tools/qrx-complete-ledger-export.py): many reads of
  a database that another process keeps committing to, and the retry loops that
  only let a bundle out when all of them saw one state.
 */
module LedgerExport {

  import opened Wrappers

  // ----- what is read -----

  /** A journal line of an address; identity is the transaction id, or a hash of the line. */
  datatype Entry = Entry(identity: string, sender: string, recipient: string, eventType: string, stated: string)

  /** A line of a listing: its id, the two parties that may own it, and the rest. */
  datatype Brief = Brief(id: string, first: string, second: string, body: string)

  /** The status of a row: it may name the parties anew. */
  datatype Detail = Detail(first: Option<string>, second: Option<string>, body: string)

  const NO_DETAIL: Detail := Detail(None, None, "")

  datatype Period = Period(start: int, end: int)

  /** One database state; journal lines are asked for by address and period. */
  datatype State = State(generation: nat, root: string, journal: map<(string, Option<Period>), seq<Entry>>,
                         orders: seq<Brief>, orderDetail: map<string, Detail>,
                         trades: map<Option<(nat, nat)>, seq<Brief>>,
                         swaps: seq<Brief>, swapDetail: map<string, Detail>)

  datatype BlockTime = BlockTime(height: nat, timestamp: int)

  /** Everything another process may change between two reads. */
  datatype World = World(db: State, blockTimes: seq<BlockTime>)

  datatype Transaction = Transaction(entry: Entry, address: string, direction: string)

  /** A listed row updated by its status. */
  datatype Row = Row(id: string, first: string, second: string, body: string, detail: string)

  datatype Data = Data(transactions: seq<Transaction>, orders: seq<Row>, trades: seq<Row>, swaps: seq<Row>)

  datatype Meta = Meta(generation: nat, root: string, addresses: nat)

  datatype Listing = Orders | Swaps | Trades(heights: Option<(nat, nat)>)

  /** Commits number their states upward, so a generation names its state. */
  ghost predicate Timeline(worlds: seq<World>) {
    forall i, j :: 0 <= i <= j < |worlds| ==>
      && worlds[i].db.generation <= worlds[j].db.generation
      && (worlds[i].db.generation == worlds[j].db.generation ==> worlds[i].db == worlds[j].db)
  }

  // ----- one state, read at leisure -----

  function JournalOf(s: State, address: string, period: Option<Period>): seq<Entry> {
    if (address, period) in s.journal then s.journal[(address, period)] else []
  }

  function Direction(e: Entry, owned: seq<string>): string {
    if e.sender in owned && e.recipient in owned then "INTERNAL"
    else if e.sender in owned then "OUT"
    else if e.recipient in owned then "IN"
    else if e.stated != "" then e.stated
    else e.eventType
  }

  predicate Seen(rows: seq<Transaction>, identity: string) {
    exists i :: 0 <= i < |rows| && rows[i].entry.identity == identity
  }

  /** The rows of one address, skipping identities already collected. */
  function AddEntries(rows: seq<Transaction>, entries: seq<Entry>, address: string, owned: seq<string>)
    : seq<Transaction>
    decreases |entries|
  {
    if entries == [] then rows
    else
      var e := entries[0];
      AddEntries(if Seen(rows, e.identity) then rows else rows + [Transaction(e, address, Direction(e, owned))],
                 entries[1..], address, owned)
  }

  function AddAddresses(rows: seq<Transaction>, s: State, addresses: seq<string>, owned: seq<string>,
                        period: Option<Period>): seq<Transaction>
    decreases |addresses|
  {
    if addresses == [] then rows
    else
      var next := AddEntries(rows, JournalOf(s, addresses[0], period), addresses[0], owned);
      AddAddresses(next, s, addresses[1..], owned, period)
  }

  function Listed(s: State, l: Listing): seq<Brief> {
    match l
    case Orders => s.orders
    case Swaps => s.swaps
    case Trades(h) => if h in s.trades then s.trades[h] else []
  }

  function DetailOf(s: State, l: Listing, id: string): Detail {
    match l
    case Orders => if id in s.orderDetail then s.orderDetail[id] else NO_DETAIL
    case Swaps => if id in s.swapDetail then s.swapDetail[id] else NO_DETAIL
    case Trades(_) => NO_DETAIL
  }

  /** row.update(detail), the id kept. */
  function Merged(b: Brief, d: Detail): Row {
    Row(b.id, if d.first.Some? then d.first.value else b.first, if d.second.Some? then d.second.value else b.second,
        b.body, d.body)
  }

  function AllDetailed(s: State, l: Listing, briefs: seq<Brief>): seq<Row> {
    if briefs == [] then []
    else
      var b := briefs[|briefs| - 1];
      AllDetailed(s, l, briefs[..|briefs| - 1]) + [Merged(b, DetailOf(s, l, b.id))]
  }

  /** No row without an id, no id twice. */
  predicate Identified(briefs: seq<Brief>) {
    && (forall i :: 0 <= i < |briefs| ==> briefs[i].id != "")
    && forall i, j :: 0 <= i < j < |briefs| ==> briefs[i].id != briefs[j].id
  }

  function Detailed(s: State, l: Listing): Result<seq<Row>> {
    if Identified(Listed(s, l)) then Ok(AllDetailed(s, l, Listed(s, l))) else Refused("missing or duplicate id")
  }

  /** Rows of the wallet's own addresses. */
  function Own(rows: seq<Row>, owned: seq<string>): seq<Row> {
    if rows == [] then []
    else
      var n := |rows| - 1;
      Own(rows[..n], owned) + if rows[n].first in owned || rows[n].second in owned then [rows[n]] else []
  }

  // ----- which trades -----

  predicate Within(p: Period, t: BlockTime) { p.start <= t.timestamp < p.end }

  /** Lowest and highest block height stamped within the period. */
  function HeightRange(p: Period, times: seq<BlockTime>): (r: Option<(nat, nat)>)
    ensures r.None? <==> forall i :: 0 <= i < |times| ==> !Within(p, times[i])
    ensures r.Some? ==> forall i :: 0 <= i < |times| && Within(p, times[i]) ==>
              r.value.0 <= times[i].height <= r.value.1
    ensures r.Some? ==> exists i :: 0 <= i < |times| && Within(p, times[i]) && times[i].height == r.value.0
    ensures r.Some? ==> exists i :: 0 <= i < |times| && Within(p, times[i]) && times[i].height == r.value.1
  {
    if times == [] then None
    else
      var n := |times| - 1;
      var rest, t := HeightRange(p, times[..n]), times[n];
      if !Within(p, t) then rest
      else if rest.None? then Some((t.height, t.height))
      else Some((if t.height < rest.value.0 then t.height else rest.value.0,
                 if t.height > rest.value.1 then t.height else rest.value.1))
  }

  /** None: no block in the period, so no trade is asked for. */
  function TradeQuery(period: Option<Period>, times: seq<BlockTime>): Option<Listing> {
    if period.None? || times == [] then Some(Trades(None))
    else
      var range := HeightRange(period.value, times);
      if range.Some? then Some(Trades(range)) else None
  }

  /** The ledger of one database state. */
  function Ledger(s: State, addresses: seq<string>, period: Option<Period>, trades: Option<Listing>): Result<Data> {
    var orders := Detailed(s, Orders);
    if orders.Refused? then Refused(orders.reason) else
    var traded := if trades.Some? then Detailed(s, trades.value) else Ok([]);
    if traded.Refused? then Refused(traded.reason) else
    var swaps := Detailed(s, Swaps);
    if swaps.Refused? then Refused(swaps.reason) else
    Ok(Data(AddAddresses([], s, addresses, addresses, period),
            Own(orders.value, addresses), Own(traded.value, addresses), Own(swaps.value, addresses)))
  }

  // ----- the same ledger, read while the database moves -----

  class CoreBackend {
    const worlds: seq<World>
    var now: nat
    var script: seq<nat>         // how many commits come before each read

    ghost predicate Valid()
      reads this
    {
      Timeline(worlds) && now < |worlds|
    }

    ghost function Db(): State
      requires Valid()
      reads this
    {
      worlds[now].db
    }

    constructor (worlds: seq<World>, script: seq<nat>)
      requires Timeline(worlds) && worlds != []
      ensures Valid() && this.worlds == worlds && now == 0
    {
      this.worlds, this.script, now := worlds, script, 0;
    }

    /** Another process commits, or does not. */
    method Tick()
      requires Valid()
      modifies this
      ensures Valid() && now >= old(now)
    {
      if script != [] {
        now := if now + script[0] < |worlds| then now + script[0] else |worlds| - 1;
        script := script[1..];
      }
    }

    method Snapshot() returns (generation: nat, root: string)
      requires Valid()
      modifies this
      ensures Valid() && now >= old(now) && generation == Db().generation && root == Db().root
    {
      Tick();
      generation, root := worlds[now].db.generation, worlds[now].db.root;
    }

    method History(address: string, period: Option<Period>) returns (entries: seq<Entry>)
      requires Valid()
      modifies this
      ensures Valid() && now >= old(now) && entries == JournalOf(Db(), address, period)
    {
      Tick();
      entries := JournalOf(worlds[now].db, address, period);
    }

    method List(l: Listing) returns (briefs: seq<Brief>)
      requires Valid()
      modifies this
      ensures Valid() && now >= old(now) && briefs == Listed(Db(), l)
    {
      Tick();
      briefs := Listed(worlds[now].db, l);
    }

    method Status(l: Listing, id: string) returns (detail: Detail)
      requires Valid()
      modifies this
      ensures Valid() && now >= old(now) && detail == DetailOf(Db(), l, id)
    {
      Tick();
      detail := DetailOf(worlds[now].db, l, id);
    }

    method BlockTimes() returns (times: seq<BlockTime>)
      requires Valid()
      modifies this
      ensures Valid() && now >= old(now) && times == worlds[now].blockTimes
    {
      Tick();
      times := worlds[now].blockTimes;
    }
  }

  /** The database has not moved on between two moments. */
  ghost predicate Still(worlds: seq<World>, early: nat, late: nat) {
    early <= late < |worlds| && worlds[early].db.generation == worlds[late].db.generation
  }

  lemma StillBetween(worlds: seq<World>, early: nat, middle: nat, late: nat)
    requires Timeline(worlds) && early <= middle <= late && Still(worlds, early, late)
    ensures Still(worlds, early, middle) && Still(worlds, middle, late)
    ensures worlds[early].db == worlds[middle].db == worlds[late].db
  {
  }

  method CollectTransactions(core: CoreBackend, addresses: seq<string>, period: Option<Period>)
    returns (rows: seq<Transaction>)
    requires core.Valid()
    modifies core
    ensures core.Valid() && core.now >= old(core.now)
    ensures Still(core.worlds, old(core.now), core.now) ==>
              rows == AddAddresses([], core.Db(), addresses, addresses, period)
  {
    rows := [];
    ghost var start := core.now;
    for i := 0 to |addresses|
      invariant core.Valid() && core.now >= start
      invariant Still(core.worlds, start, core.now) ==>
                  AddAddresses(rows, core.Db(), addresses[i..], addresses, period)
                  == AddAddresses([], core.Db(), addresses, addresses, period)
    {
      ghost var before := core.now;
      var entries := core.History(addresses[i], period);
      ghost var base := rows;
      for k := 0 to |entries|
        invariant AddEntries(rows, entries[k..], addresses[i], addresses)
               == AddEntries(base, entries, addresses[i], addresses)
      {
        assert entries[k..][1..] == entries[k + 1..];
        var e := entries[k];
        if Seen(rows, e.identity) { continue; }
        rows := rows + [Transaction(e, addresses[i], Direction(e, addresses))];
      }
      assert entries[|entries|..] == [];
      assert addresses[i..][1..] == addresses[i + 1..];
      if Still(core.worlds, start, core.now) { StillBetween(core.worlds, start, before, core.now); }
    }
  }

  /** list-orders and the like, then one status call per row. */
  method CollectDetailed(core: CoreBackend, l: Listing) returns (r: Result<seq<Row>>)
    requires core.Valid()
    modifies core
    ensures core.Valid() && core.now >= old(core.now)
    ensures Still(core.worlds, old(core.now), core.now) ==> r == Detailed(core.Db(), l)
  {
    hide Merged, Listed;
    var briefs := core.List(l);
    ghost var listed := core.now;
    var rows := [];
    for i := 0 to |briefs|
      invariant core.Valid() && core.now >= listed
      invariant forall k :: 0 <= k < i ==> briefs[k].id != ""
      invariant Still(core.worlds, listed, core.now) ==> rows == AllDetailed(core.Db(), l, briefs[..i])
      invariant |rows| == i
    {
      if briefs[i].id == "" {
        return Refused("missing or duplicate id");
      }
      ghost var before := core.now;
      var detail := NO_DETAIL;
      if !l.Trades? { detail := core.Status(l, briefs[i].id); }
      rows := rows + [Merged(briefs[i], detail)];
      assert briefs[..i + 1][..i] == briefs[..i];
      if Still(core.worlds, listed, core.now) { StillBetween(core.worlds, listed, before, core.now); }
    }
    assert briefs[..|briefs|] == briefs;
    var unique := UniqueIds(briefs);
    if !unique { return Refused("missing or duplicate id"); }
    return Ok(rows);
  }

  method UniqueIds(briefs: seq<Brief>) returns (ok: bool)
    ensures ok <==> forall i, j :: 0 <= i < j < |briefs| ==> briefs[i].id != briefs[j].id
  {
    var seen := {};
    for i := 0 to |briefs|
      invariant forall k :: 0 <= k < i ==> briefs[k].id in seen
      invariant forall x :: x in seen ==> exists k :: 0 <= k < i && briefs[k].id == x
      invariant forall j, k :: 0 <= j < k < i ==> briefs[j].id != briefs[k].id
    {
      if briefs[i].id in seen { return false; }
      seen := seen + {briefs[i].id};
    }
    return true;
  }

  /** One attempt's reads, in order. */
  method CollectOnce(core: CoreBackend, addresses: seq<string>, period: Option<Period>, trades: Option<Listing>)
    returns (r: Result<Data>)
    requires core.Valid()
    modifies core
    ensures core.Valid() && core.now >= old(core.now)
    ensures Still(core.worlds, old(core.now), core.now) ==> r == Ledger(core.Db(), addresses, period, trades)
  {
    hide AddAddresses, Own, Detailed;
    ghost var t0 := core.now;
    var transactions := CollectTransactions(core, addresses, period);
    ghost var t1 := core.now;
    var orders := CollectDetailed(core, Orders);
    ghost var t2 := core.now;
    if Still(core.worlds, t0, t2) { StillBetween(core.worlds, t0, t1, t2); }
    if orders.Refused? { return Refused(orders.reason); }
    var traded := Ok([]);
    if trades.Some? { traded := CollectDetailed(core, trades.value); }
    ghost var t3 := core.now;
    if Still(core.worlds, t0, t3) { StillBetween(core.worlds, t0, t2, t3); }
    if traded.Refused? { return Refused(traded.reason); }
    var swaps := CollectDetailed(core, Swaps);
    if Still(core.worlds, t0, core.now) {
      StillBetween(core.worlds, t0, t1, core.now);
      StillBetween(core.worlds, t0, t2, core.now);
      StillBetween(core.worlds, t0, t3, core.now);
    }
    if swaps.Refused? { return Refused(swaps.reason); }
    return Ok(Data(transactions, Own(orders.value, addresses), Own(traded.value, addresses),
                   Own(swaps.value, addresses)));
  }

  /** The ledger and the state it is of: what a returned bundle claims about itself. */
  ghost predicate ReadFrom(s: State, data: Data, meta: Meta, addresses: seq<string>, period: Option<Period>,
                           trades: Option<Listing>) {
    && meta.generation == s.generation && meta.root == s.root && meta.addresses == |addresses|
    && Ledger(s, addresses, period, trades) == Ok(data)
  }

  /** collect_core_snapshot: whatever commits come in between, a result is the ledger of one state. */
  method CollectSnapshot(core: CoreBackend, addresses: seq<string>, attempts: nat, period: Option<Period>,
                         trades: Option<Listing>)
    returns (r: Result<(Data, Meta)>)
    requires core.Valid()
    modifies core
    ensures core.Valid() && core.now >= old(core.now)
    ensures r.Ok? ==> addresses != [] && ReadFrom(core.Db(), r.value.0, r.value.1, addresses, period, trades)
  {
    hide Ledger;
    for attempt := 0 to attempts
      invariant core.Valid() && core.now >= old(core.now)
    {
      var generation, root := core.Snapshot();
      ghost var t0 := core.now;
      if addresses == [] { return Refused("selected wallet contains no QRX addresses"); }
      var data := CollectOnce(core, addresses, period, trades);
      if data.Refused? { return Refused(data.reason); }
      ghost var t1 := core.now;
      var generation', root' := core.Snapshot();
      if generation == generation' && root == root' {
        StillBetween(core.worlds, t0, t1, core.now);
        return Ok((data.value, Meta(generation, root, |addresses|)));
      }
    }
    return Refused("QRX state changed during export");
  }

  /**
    The retry loop of the exporter: a bundle that is let out is the ledger of one
    database state, the recorded one, which is still current after the off-chain
    journals and the block times have been read and the latter found unchanged.
   */
  method Export(core: CoreBackend, addresses: seq<string>, period: Option<Period>)
    returns (r: Result<(Data, Meta)>, times: seq<BlockTime>)
    requires core.Valid()
    modifies core
    ensures core.Valid() && core.now >= old(core.now)
    ensures r.Ok? ==> ReadFrom(core.Db(), r.value.0, r.value.1, addresses, period, TradeQuery(period, times))
    ensures r.Ok? ==> exists i :: old(core.now) <= i <= core.now && core.worlds[i].blockTimes == times
  {
    hide Ledger;
    for attempt := 0 to 3
      invariant core.Valid() && core.now >= old(core.now)
    {
      times := core.BlockTimes();
      r := CollectSnapshot(core, addresses, 3, period, TradeQuery(period, times));
      if r.Refused? { return; }
      ghost var t0 := core.now;
      core.Tick();                       // the Kraken and arbitrage journals are read here
      var after := core.BlockTimes();
      var generation, root := core.Snapshot();
      if generation == r.value.1.generation && root == r.value.1.root && after == times {
        StillBetween(core.worlds, t0, t0, core.now);
        return;
      }
    }
    r, times := Refused("QRX state changed while off-chain journals were collected"), [];
  }

  // ----- the transactions of a ledger -----

  ghost predicate DistinctIdentities(rows: seq<Transaction>) {
    forall i, j :: 0 <= i < j < |rows| ==> rows[i].entry.identity != rows[j].entry.identity
  }

  lemma {:induction false} AddEntriesKeeps(rows: seq<Transaction>, entries: seq<Entry>,
                                           address: string, owned: seq<string>)
    requires DistinctIdentities(rows)
    ensures var r := AddEntries(rows, entries, address, owned);
            && DistinctIdentities(r) && rows <= r
            && forall e :: e in entries ==> Seen(r, e.identity)
    decreases |entries|
  {
    if entries != [] {
      var e := entries[0];
      var next := if Seen(rows, e.identity) then rows else rows + [Transaction(e, address, Direction(e, owned))];
      assert Seen(next, e.identity) by {
        if !Seen(rows, e.identity) { assert next[|rows|].entry.identity == e.identity; }
      }
      AddEntriesKeeps(next, entries[1..], address, owned);
      var r := AddEntries(next, entries[1..], address, owned);
      SeenLater(next, r, e.identity);
      forall x | x in entries ensures Seen(r, x.identity) {
        assert x == e || x in entries[1..];
      }
    }
  }

  lemma SeenLater(a: seq<Transaction>, b: seq<Transaction>, identity: string)
    requires a <= b && Seen(a, identity)
    ensures Seen(b, identity)
  {
    var i :| 0 <= i < |a| && a[i].entry.identity == identity;
    assert b[i] == a[i];
  }

  /** Every journal entry of every address is in the ledger, each identity exactly once. */
  lemma {:induction false} LedgerComplete(rows: seq<Transaction>, s: State, addresses: seq<string>, owned: seq<string>,
                                          period: Option<Period>)
    requires DistinctIdentities(rows)
    ensures var r := AddAddresses(rows, s, addresses, owned, period);
            && DistinctIdentities(r) && rows <= r
            && forall a, e :: a in addresses && e in JournalOf(s, a, period) ==> Seen(r, e.identity)
    decreases |addresses|
  {
    if addresses != [] {
      var head := addresses[0];
      var entries := JournalOf(s, head, period);
      var next := AddEntries(rows, entries, head, owned);
      AddEntriesKeeps(rows, entries, head, owned);
      LedgerComplete(next, s, addresses[1..], owned, period);
      var r := AddAddresses(next, s, addresses[1..], owned, period);
      forall a, e | a in addresses && e in JournalOf(s, a, period) ensures Seen(r, e.identity) {
        if a == head { SeenLater(next, r, e.identity); } else { assert a in addresses[1..]; }
      }
    }
  }
}
