/**
  The Kraken execution gateway (qrx-core/gateways/qrx-gateway-kraken.py): QRX
  chain, local journal and venue, driven by a polling loop that may die before
  any step, with venue replies that may be lost.

  The client order id, a hash of the QRX order id, is ideal: it names its order.
 */
module KrakenGateway {

  import opened Wrappers

  type Oid = string
  type Txid = string
  datatype ClientId = ClientId(oid: Oid)

  /** How a report names the venue side. */
  datatype VenueRef = NotSubmitted | RejectedByVenue | Order(txid: Txid)

  datatype ReportStatus = SUBMITTED | PARTIALLY_FILLED | FILLED | CANCELED | REJECTED

  /** A signed execution report; two of them are the same transaction only if all fields agree. */
  datatype Report = Report(oid: Oid, seqNo: nat, status: ReportStatus, filled: int, price: int, fee: int,
                           venue: VenueRef, expiry: nat)

  datatype VenueOrder = VenueOrder(txid: Txid, cl: ClientId)

  /** A row of the orders table; pendingSeq 0 means no pending report. */
  datatype Row = Row(cl: ClientId, txid: Option<Txid>, status: string, pendingSeq: nat, pendingTx: Option<Report>)

  /** A report at the moment it was signed, with what chain, venue and mempool were then. */
  datatype Signing = Signing(report: Report, chainSeq: nat, sentBefore: set<Report>, venueThen: seq<VenueOrder>)

  /** Everything that outlives the gateway process. */
  datatype World = World(
    chainSeq: map<Oid, nat>,         // execution_report_sequence on chain, absent means 0
    journal: map<Oid, Row>,
    venue: seq<VenueOrder>,          // every order the venue ever accepted
    sent: set<Report>,               // every report ever handed to the QRX mempool
    signings: seq<Signing>)

  const START: World := World(map[], map[], [], {}, [])

  function Seq(w: World, oid: Oid): nat { if oid in w.chainSeq then w.chainSeq[oid] else 0 }

  // ----- steps -----

  /** The chain includes a report it has been sent, if it carries the next sequence. */
  function Land(w: World, r: Report): World {
    if r in w.sent && r.seqNo == Seq(w, r.oid) + 1 then w.(chainSeq := w.chainSeq[r.oid := r.seqNo]) else w
  }

  function LandAll(w: World, rs: seq<Report>): World {
    if rs == [] then w else Land(LandAll(w, rs[..|rs| - 1]), rs[|rs| - 1])
  }

  function Accept(w: World, oid: Oid, txid: Txid): World {
    w.(venue := w.venue + [VenueOrder(txid, ClientId(oid))])
  }

  /** GatewayDB.upsert. */
  function Upserted(w: World, oid: Oid, txid: Option<Txid>, status: string): World {
    var row := if oid in w.journal
               then w.journal[oid].(cl := ClientId(oid), txid := if txid.Some? then txid else w.journal[oid].txid,
                                    status := status)
               else Row(ClientId(oid), txid, status, 0, None);
    w.(journal := w.journal[oid := row])
  }

  /** GatewayDB.set_pending_report. */
  function WithPending(w: World, oid: Oid, r: Report): World {
    if oid in w.journal
    then w.(journal := w.journal[oid := w.journal[oid].(pendingSeq := r.seqNo, pendingTx := Some(r))]) else w
  }

  /** GatewayDB.clear_pending_report. */
  function WithoutPending(w: World, oid: Oid): World {
    if oid in w.journal
    then w.(journal := w.journal[oid := w.journal[oid].(pendingSeq := 0, pendingTx := None)]) else w
  }

  function Send(w: World, r: Report): World { w.(sent := w.sent + {r}) }

  function Sign(w: World, r: Report): World {
    w.(signings := w.signings + [Signing(r, Seq(w, r.oid), w.sent, w.venue)])
  }

  // ----- what must hold in every reachable world -----

  predicate HasOrder(venue: seq<VenueOrder>, oid: Oid) {
    exists i :: 0 <= i < |venue| && venue[i].cl == ClientId(oid)
  }

  /** The venue never accepted two orders for one QRX order. */
  ghost predicate AtMostOneVenueOrder(w: World) {
    forall i, j :: 0 <= i < j < |w.venue| ==> w.venue[i].cl != w.venue[j].cl
  }

  /** No two different reports with one sequence of one order were ever sent. */
  ghost predicate OneReportPerSequence(w: World) {
    forall r, q :: r in w.sent && q in w.sent && r.oid == q.oid && r.seqNo == q.seqNo ==> r == q
  }

  /** A report was signed for the next sequence, with nothing outstanding, and tells the truth about the venue. */
  ghost predicate SoundSigning(s: Signing) {
    && s.report.seqNo == s.chainSeq + 1
    && (forall r :: r in s.sentBefore && r.oid == s.report.oid ==> r.seqNo <= s.chainSeq)
    && match s.report.venue
       case Order(t) => VenueOrder(t, ClientId(s.report.oid)) in s.venueThen
       case _ => !HasOrder(s.venueThen, s.report.oid)
  }

  ghost predicate SoundSignings(w: World) {
    forall i :: 0 <= i < |w.signings| ==> SoundSigning(w.signings[i])
  }

  /** A sent report has landed or is the one the journal keeps for resending. */
  ghost predicate SentAccounted(w: World) {
    forall r :: r in w.sent ==>
      r.seqNo <= Seq(w, r.oid) ||
      (r.oid in w.journal && w.journal[r.oid].pendingSeq == r.seqNo && w.journal[r.oid].pendingTx == Some(r))
  }

  /** The journal's pending report belongs to its order and is at most one ahead of the chain. */
  ghost predicate PendingSane(w: World) {
    forall oid :: oid in w.journal && w.journal[oid].pendingSeq > 0 ==>
      && w.journal[oid].pendingTx.Some?
      && w.journal[oid].pendingTx.value.oid == oid
      && w.journal[oid].pendingTx.value.seqNo == w.journal[oid].pendingSeq <= Seq(w, oid) + 1
      && (w.journal[oid].pendingSeq <= Seq(w, oid) ==> w.journal[oid].pendingTx.value in w.sent)
  }

  /** The journal names a venue order only if the venue has it. */
  ghost predicate JournalTruthful(w: World) {
    forall oid :: oid in w.journal && w.journal[oid].txid.Some? ==>
      VenueOrder(w.journal[oid].txid.value, ClientId(oid)) in w.venue
  }

  ghost predicate Safe(w: World) {
    && AtMostOneVenueOrder(w) && OneReportPerSequence(w) && SoundSignings(w)
    && SentAccounted(w) && PendingSane(w) && JournalTruthful(w)
  }

  /** Everything sent for the order has landed, and seqNo is what the chain says. */
  ghost predicate Settled(w: World, oid: Oid, seqNo: nat) {
    Seq(w, oid) == seqNo && forall r :: r in w.sent && r.oid == oid ==> r.seqNo <= seqNo
  }

  // ----- each step keeps Safe -----

  lemma LandSafe(w: World, r: Report)
    requires Safe(w)
    ensures Safe(Land(w, r))
    ensures forall oid, n :: Settled(w, oid, n) ==> Settled(Land(w, r), oid, n)
    ensures Seq(w, r.oid) <= Seq(Land(w, r), r.oid)
  {
  }

  lemma {:induction false} LandAllSafe(w: World, rs: seq<Report>)
    requires Safe(w)
    ensures Safe(LandAll(w, rs))
    ensures forall oid, n :: Settled(w, oid, n) ==> Settled(LandAll(w, rs), oid, n)
    ensures LandAll(w, rs).journal == w.journal && LandAll(w, rs).venue == w.venue
    ensures LandAll(w, rs).sent == w.sent && LandAll(w, rs).signings == w.signings
    ensures forall oid :: Seq(w, oid) <= Seq(LandAll(w, rs), oid)
  {
    if rs != [] {
      hide Safe, Settled;
      LandAllSafe(w, rs[..|rs| - 1]);
      LandSafe(LandAll(w, rs[..|rs| - 1]), rs[|rs| - 1]);
    }
  }

  /** Accepting an order keeps at most one per QRX order exactly when there was none: the guard of the lookup. */
  lemma AcceptUniqueIff(w: World, oid: Oid, txid: Txid)
    requires AtMostOneVenueOrder(w)
    ensures AtMostOneVenueOrder(Accept(w, oid, txid)) <==> !HasOrder(w.venue, oid)
  {
    var v := Accept(w, oid, txid);
    if HasOrder(w.venue, oid) {
      var i :| 0 <= i < |w.venue| && w.venue[i].cl == ClientId(oid);
      assert v.venue[i].cl == v.venue[|w.venue|].cl;
    }
  }

  lemma AcceptSafe(w: World, oid: Oid, txid: Txid)
    requires Safe(w) && !HasOrder(w.venue, oid)
    ensures Safe(Accept(w, oid, txid))
    ensures VenueOrder(txid, ClientId(oid)) in Accept(w, oid, txid).venue
    ensures forall n :: Settled(w, oid, n) ==> Settled(Accept(w, oid, txid), oid, n)
  {
    AcceptUniqueIff(w, oid, txid);
  }

  lemma UpsertSafe(w: World, oid: Oid, txid: Option<Txid>, status: string)
    requires Safe(w)
    requires txid.Some? ==> VenueOrder(txid.value, ClientId(oid)) in w.venue
    ensures Safe(Upserted(w, oid, txid, status))
    ensures forall n :: Settled(w, oid, n) ==> Settled(Upserted(w, oid, txid, status), oid, n)
  {
  }

  lemma SignSafe(w: World, r: Report)
    requires Safe(w) && r.seqNo > 0 && Settled(w, r.oid, r.seqNo - 1)
    requires match r.venue
             case Order(t) => VenueOrder(t, ClientId(r.oid)) in w.venue
             case _ => !HasOrder(w.venue, r.oid)
    ensures Safe(Sign(w, r))
  {
  }

  /** Recording the next report as pending forgets none that is still outstanding. */
  lemma PendingSafe(w: World, r: Report)
    requires Safe(w) && r.seqNo > 0 && Settled(w, r.oid, r.seqNo - 1) && r.oid in w.journal
    ensures Safe(WithPending(w, r.oid, r))
  {
  }

  /** Sending the pending report, for the first time or again, keeps one report per sequence. */
  lemma SendSafe(w: World, r: Report)
    requires Safe(w) && r.oid in w.journal
    requires w.journal[r.oid].pendingSeq == r.seqNo > 0 && w.journal[r.oid].pendingTx == Some(r)
    requires r in w.sent || forall q :: q in w.sent && q.oid == r.oid ==> q.seqNo < r.seqNo
    ensures Safe(Send(w, r))
  {
  }

  /** A pending report that is not on chain yet is the only one of its sequence, sent or not. */
  lemma PendingIsNext(w: World, oid: Oid)
    requires Safe(w) && oid in w.journal && w.journal[oid].pendingSeq > 0
    ensures var r := w.journal[oid].pendingTx;
            && r.Some? && r.value.oid == oid && r.value.seqNo == w.journal[oid].pendingSeq
            && (r.value in w.sent || forall q :: q in w.sent && q.oid == oid ==> q.seqNo < r.value.seqNo)
  {
  }

  /** With no pending report ahead of the chain, everything sent has landed. */
  lemma NothingOutstanding(w: World, oid: Oid)
    requires Safe(w) && (oid in w.journal ==> w.journal[oid].pendingSeq <= Seq(w, oid))
    ensures Settled(w, oid, Seq(w, oid))
  {
  }

  lemma ClearSafe(w: World, oid: Oid)
    requires Safe(w) && (oid in w.journal ==> w.journal[oid].pendingSeq <= Seq(w, oid))
    ensures Safe(WithoutPending(w, oid))
    ensures Settled(WithoutPending(w, oid), oid, Seq(w, oid))
  {
    NothingOutstanding(w, oid);
  }

  // ----- the gateway process -----

  /** What getorder returns, apart from the sequence, which is the chain's own. */
  datatype OrderView = OrderView(kind: string, venue: string, status: string, arbitrage: bool, tif: string,
                                 formats: bool)

  /** What QueryOrders returns. */
  datatype VenueView = VenueView(status: string, volExec: real, vol: real, fee: real, price: real, cost: real)

  /**
    The environment's choices at one step: reports that land before it, whether the
    process dies or the call fails, whether the other side acted nonetheless, and
    what it answers.
   */
  datatype Choice = Choice(
    landing: seq<Report>, dies: bool, fails: bool, acted: bool, definite: bool,
    order: OrderView, known: bool, view: VenueView, txid: Txid, height: nat)

  const TERMINAL: set<string> := {"filled", "rejected", "canceled"}
  const ATOMS: real := 100000000.0

  /** decimal_to_atoms: eight decimals, rounded towards zero. */
  function Atoms(v: real): int {
    if v >= 0.0 then (v * ATOMS).Floor else -((-v) * ATOMS).Floor
  }

  /** The report a venue state calls for. */
  function Desired(v: VenueView, qstatus: string): Option<ReportStatus> {
    if v.status == "canceled" || v.status == "expired" then Some(CANCELED)
    else if v.status == "closed" then Some(if v.vol > 0.0 && v.volExec >= v.vol then FILLED else CANCELED)
    else if v.volExec > 0.0 then Some(PARTIALLY_FILLED)
    else if qstatus == "pending_execution" then Some(SUBMITTED)
    else None
  }

  function AveragePrice(v: VenueView): real {
    if v.price <= 0.0 && v.volExec > 0.0 && v.cost > 0.0 then v.cost / v.volExec else v.price
  }

  /** How a call of handle_order ended; Stopped covers death and every raised error. */
  datatype Outcome = Ignored | Resent | Reported(report: Report) | NothingNew | Stopped

  class Gateway {
    var w: World
    var script: seq<Choice>          // the environment, one choice per step; when it ends the process is killed
    ghost var trouble: bool          // some step so far died, failed or was not answered

    /** Only reports landed since the old world. */
    twostate predicate OnlyLanded()
      reads this
    {
      && w.journal == old(w).journal && w.venue == old(w).venue
      && w.sent == old(w).sent && w.signings == old(w).signings
    }

    /** Nothing but rows, orders and reports of this QRX order changed, and at most one order and one report came. */
    twostate predicate OnlyAbout(oid: Oid)
      reads this
    {
      && w.journal - {oid} == old(w).journal - {oid}
      && old(w).venue <= w.venue && |w.venue| <= |old(w).venue| + 1
      && (w.venue != old(w).venue ==> !HasOrder(old(w).venue, oid) && w.venue[|old(w).venue|].cl == ClientId(oid))
      && old(w).sent <= w.sent
      && (forall r, q :: r in w.sent - old(w).sent && q in w.sent - old(w).sent ==> r.oid == oid && r == q)
    }

    constructor (script: seq<Choice>)
      ensures w == START && Safe(w) && this.script == script && !trouble
    {
      w, this.script, trouble := START, script, false;
    }

    /** One step of the outside world; alive is false when the process dies here. */
    method Step() returns (alive: bool, c: Choice)
      requires Safe(w)
      modifies this
      ensures Safe(w) && OnlyLanded()
      ensures forall oid, n :: Settled(old(w), oid, n) ==> Settled(w, oid, n)
      ensures trouble <==> old(trouble) || !alive || c.fails || !c.known
      ensures old(script) != [] ==> c == old(script)[0] && alive == !c.dies && script == old(script)[1..]
      ensures old(script) == [] ==> !alive && c == DEAD && script == []
      ensures w == LandAll(old(w), c.landing)
    {
      hide Safe, Settled;
      if script == [] {
        trouble := true;
        return false, DEAD;
      }
      c, script := script[0], script[1..];
      LandAllSafe(w, c.landing);
      w := LandAll(w, c.landing);
      alive := !c.dies;
      trouble := trouble || !alive || c.fails || !c.known;
    }

    /** KrakenClient.find_by_client_id: a truthful lookup over open and closed orders, and what it says of the order. */
    method FindByClientId(oid: Oid) returns (alive: bool, found: Option<Txid>, view: VenueView)
      requires Safe(w)
      modifies this
      ensures Safe(w) && OnlyLanded()
      ensures forall o, n :: Settled(old(w), o, n) ==> Settled(w, o, n)
      ensures alive ==> (found.Some? <==> HasOrder(w.venue, oid))
      ensures alive && found.Some? ==> VenueOrder(found.value, ClientId(oid)) in w.venue
      ensures alive ==> old(script) != [] && view == old(script)[0].view
      ensures (old(trouble) ==> trouble) && (!alive ==> trouble)
    {
      hide Safe, Settled, LandAll;
      var c := DEAD;
      found := None;
      alive, c := Step();
      view := c.view;
      if !alive || c.fails { return false, None, view; }
      for i := 0 to |w.venue|
        invariant forall j :: 0 <= j < i ==> w.venue[j].cl != ClientId(oid)
      {
        if w.venue[i].cl == ClientId(oid) {
          assert w.venue[i] == VenueOrder(w.venue[i].txid, ClientId(oid));
          return true, Some(w.venue[i].txid), view;
        }
      }
    }

    /** GatewayDB.upsert as one durable step. */
    method Upsert(oid: Oid, txid: Option<Txid>, status: string) returns (alive: bool)
      requires Safe(w) && (txid.Some? ==> VenueOrder(txid.value, ClientId(oid)) in w.venue)
      modifies this
      ensures Safe(w)
      ensures forall n :: Settled(old(w), oid, n) ==> Settled(w, oid, n)
      ensures w.venue == old(w).venue && w.sent == old(w).sent && w.signings == old(w).signings
      ensures w.journal == if alive then Upserted(old(w), oid, txid, status).journal else old(w).journal
      ensures (old(trouble) ==> trouble) && (!alive ==> trouble)
    {
      hide Safe, Settled, LandAll;
      var c := DEAD;
      alive, c := Step();
      if !alive { return; }
      UpsertSafe(w, oid, txid, status);
      w := Upserted(w, oid, txid, status);
    }

    /** GatewayDB.set_pending_report as one durable step. */
    method SetPending(r: Report) returns (alive: bool)
      requires Safe(w) && r.oid in w.journal && r.seqNo > 0 && Settled(w, r.oid, r.seqNo - 1)
      modifies this
      ensures Safe(w) && Settled(w, r.oid, r.seqNo - 1)
      ensures w.venue == old(w).venue && w.sent == old(w).sent && w.signings == old(w).signings
      ensures w.journal == if alive then WithPending(old(w), r.oid, r).journal else old(w).journal
      ensures (old(trouble) ==> trouble) && (!alive ==> trouble)
    {
      hide Safe, Settled, LandAll;
      var c := DEAD;
      alive, c := Step();
      if !alive { return; }
      PendingSafe(w, r);
      PendingKeeps(w, r, r.seqNo - 1);
      w := WithPending(w, r.oid, r);
    }

    /** QrxCli.send_signed of the pending report; done is false when the process died or saw an error, sent or not. */
    method SendSigned(r: Report) returns (done: bool)
      requires Safe(w) && r.oid in w.journal
      requires w.journal[r.oid].pendingSeq == r.seqNo > 0 && w.journal[r.oid].pendingTx == Some(r)
      requires r in w.sent || forall q :: q in w.sent && q.oid == r.oid ==> q.seqNo < r.seqNo
      modifies this
      ensures Safe(w) && w.venue == old(w).venue && w.signings == old(w).signings && w.journal == old(w).journal
      ensures w.sent == old(w).sent || w.sent == old(w).sent + {r}
      ensures done ==> w.sent == old(w).sent + {r}
      ensures (old(trouble) ==> trouble) && (!done ==> trouble)
    {
      hide Safe, Settled, LandAll;
      var alive, c := Step();
      if (!alive || c.fails) && !c.acted { return false; }
      SendSafe(w, r);
      w := Send(w, r);
      done := alive && !c.fails;
    }

    /**
      Gateway._emit_report: sign, journal, remember as pending, send; dying is
      possible before each.  When it gets through, the signed report for the next
      sequence is pending in the journal and handed to the mempool.
     */
    method EmitReport(oid: Oid, seqNo: nat, status: ReportStatus, filled: int, price: int, fee: int, ref: VenueRef)
      returns (out: Outcome)
      requires Safe(w) && Settled(w, oid, seqNo)
      requires match ref
               case Order(t) => VenueOrder(t, ClientId(oid)) in w.venue
               case _ => !HasOrder(w.venue, oid)
      modifies this
      ensures Safe(w) && OnlyAbout(oid) && w.venue == old(w).venue
      ensures old(trouble) ==> trouble
      ensures out.Stopped? || out.Reported?
      ensures out.Stopped? ==> trouble
      ensures out.Reported? ==>
                var r := out.report;
                && r.oid == oid && r.seqNo == seqNo + 1 && r.status == status && r.venue == ref
                && r.filled == filled && r.price == price && r.fee == fee
                && w.sent == old(w).sent + {r} && oid in w.journal && w.journal[oid].pendingTx == Some(r)
                && |w.signings| == |old(w).signings| + 1 && w.signings[|old(w).signings|].report == r
    {
      hide Safe, Settled, Seq, LandAll, HasOrder;
      var alive, c := Step();                                    // block_height
      if !alive || c.fails { return Stopped; }
      var r := Report(oid, seqNo + 1, status, filled, price, fee, ref, c.height + 100);
      alive, c := Step();                                        // create_signed_report
      if !alive || c.fails { return Stopped; }
      SignSafe(w, r);
      SignKeeps(w, r);
      w := Sign(w, r);
      alive := Upsert(oid, if ref.Order? then Some(ref.txid) else None, "reported");
      if !alive { return Stopped; }
      alive := SetPending(r);
      if !alive { return Stopped; }
      SettledBound(w, oid, seqNo);
      alive := SendSigned(r);
      out := if alive then Reported(r) else Stopped;
    }

    /** Gateway._flush_pending; busy when an earlier report has not landed yet, which is then sent again. */
    method FlushPending(oid: Oid, seqNo: nat) returns (alive: bool, busy: bool)
      requires Safe(w) && oid in w.journal
      requires w.journal[oid].pendingSeq > seqNo || Settled(w, oid, seqNo)
      modifies this
      ensures Safe(w) && OnlyAbout(oid) && w.venue == old(w).venue && w.signings == old(w).signings
      ensures (old(trouble) ==> trouble) && (!alive ==> trouble)
      ensures alive ==> (busy <==> old(w).journal[oid].pendingSeq > seqNo)
      ensures alive && busy ==>
                && old(w).journal[oid].pendingTx.Some?
                && w.sent == old(w).sent + {old(w).journal[oid].pendingTx.value} && w.journal == old(w).journal
      ensures alive && !busy ==>
                && Settled(w, oid, seqNo) && w.sent == old(w).sent
                && oid in w.journal && w.journal[oid].txid == old(w).journal[oid].txid && w.journal[oid].pendingSeq == 0
    {
      hide Safe, Settled, Seq, LandAll, HasOrder;
      var pending := w.journal[oid].pendingSeq;
      if pending == 0 { return true, false; }
      if seqNo >= pending {
        var c := DEAD;
        alive, c := Step();                                      // clear_pending_report
        if !alive { return false, false; }
        SettledMeans(w, oid, seqNo);
        ClearSafe(w, oid);
        w := WithoutPending(w, oid);
        return true, false;
      }
      PendingIsNext(w, oid);
      alive := SendSigned(w.journal[oid].pendingTx.value);
      busy := true;
    }

    /** Gateway._reconcile_venue_state. */
    method Reconcile(oid: Oid, seqNo: nat, status: string) returns (out: Outcome)
      requires Safe(w) && Settled(w, oid, seqNo) && oid in w.journal
      modifies this
      ensures Safe(w) && OnlyAbout(oid) && w.venue == old(w).venue
      ensures old(trouble) ==> trouble
      ensures out.Stopped? || out.Reported? || out.NothingNew?
      ensures out.Stopped? ==> trouble
      ensures out.Reported? ==> out.report in w.sent && out.report.oid == oid && out.report.seqNo == seqNo + 1
                                && out.report.venue.Order?
      ensures out.Reported? ==> ReportFits(old(script), status, out.report)
      ensures out.NothingNew? && (old(w).journal[oid].txid.Some? || HasOrder(old(w).venue, oid)) && !trouble ==>
                old(script) != [] && Desired(old(script)[0].view, status).None?
    {
      hide Safe, Settled, Seq, LandAll, HasOrder;
      var txid := w.journal[oid].txid;
      var alive, v := true, DEAD.view;
      if txid.Some? {
        JournalNamesOrder(w, oid);
        var reply := DEAD;
        alive, reply := Step();                                  // query_order
        if !alive || reply.fails { return Stopped; }
        if !reply.known { return NothingNew; }
        v := reply.view;
      } else {
        alive, txid, v := FindByClientId(oid);
        if !alive { return Stopped; }
        if txid.None? { return NothingNew; }
        alive := Upsert(oid, txid, "reconciled");
        if !alive { return Stopped; }
      }
      var desired := Desired(v, status);
      if desired.None? { return NothingNew; }
      var avg := AveragePrice(v);
      out := EmitReport(oid, seqNo, desired.value, Atoms(v.volExec), if avg > 0.0 then Atoms(avg) else 0, Atoms(v.fee),
                        Order(txid.value));
    }

    /** Gateway.handle_order. */
    method HandleOrder(oid: Oid) returns (out: Outcome)
      requires Safe(w)
      modifies this
      ensures Safe(w) && OnlyAbout(oid)
      ensures out.Stopped? ==> trouble
      ensures out.Ignored? ==> w.journal == old(w).journal && w.venue == old(w).venue && w.sent == old(w).sent
      ensures !trouble ==> (out.Ignored? <==> old(script) != [] && !Watched(old(script)[0].order))
      ensures out.Reported? ==> out.report in w.sent && out.report.oid == oid
      // an unanswered pending report is sent again and nothing else is done
      ensures out.Resent? ==>
                && oid in old(w).journal && old(w).journal[oid].pendingTx.Some?
                && w.sent == old(w).sent + {old(w).journal[oid].pendingTx.value} && w.venue == old(w).venue
      // a cancel of an order the venue never had is reported as such; a new order is placed and reported
      ensures !trouble && !HasOrder(old(w).venue, oid) && out.Reported? ==>
                old(script) != [] && var order := old(script)[0].order;
                if order.status == "cancel_pending"
                then out.report.status == CANCELED && out.report.venue == NotSubmitted && w.venue == old(w).venue
                else out.report.status == SUBMITTED && out.report.venue.Order?
                     && w.venue == old(w).venue + [VenueOrder(out.report.venue.txid, ClientId(oid))]
      ensures HasOrder(old(w).venue, oid) ==> w.venue == old(w).venue
    {
      hide Safe, Settled, HasOrder, LandAll;
      var alive, c := Step();                                    // getorder
      if !alive || c.fails { return Stopped; }
      var order, seqNo := c.order, Seq(w, oid);
      if !Watched(order) { return Ignored; }
      if !(oid in w.journal && w.journal[oid].pendingSeq > seqNo) { NothingOutstanding(w, oid); }
      if oid !in w.journal {
        alive := Upsert(oid, None, order.status);
        if !alive { return Stopped; }
      }
      var busy := false;
      alive, busy := FlushPending(oid, seqNo);
      if !alive { return Stopped; }
      if busy { return Resent; }
      if w.journal[oid].txid.Some? { JournalNamesOrder(w, oid); HasNamed(w.venue, oid, w.journal[oid].txid.value); }
      if order.status == "cancel_pending" {
        out := HandleCancel(oid, seqNo, order.status);
      } else if w.journal[oid].txid.Some? {
        out := Reconcile(oid, seqNo, order.status);
      } else {
        out := HandleNew(oid, seqNo, order);
      }
    }

    /** The cancel branch of handle_order. */
    method HandleCancel(oid: Oid, seqNo: nat, status: string) returns (out: Outcome)
      requires Safe(w) && Settled(w, oid, seqNo) && oid in w.journal
      modifies this
      ensures Safe(w) && OnlyAbout(oid) && w.venue == old(w).venue
      ensures old(trouble) ==> trouble
      ensures out.Stopped? || out.Reported? || out.NothingNew?
      ensures out.Stopped? ==> trouble
      ensures out.Reported? ==> out.report in w.sent && out.report.oid == oid && out.report.seqNo == seqNo + 1
      ensures out.Reported? && !HasOrder(old(w).venue, oid) ==>
                out.report.status == CANCELED && out.report.venue == NotSubmitted
    {
      hide Safe, Settled, Seq, LandAll, HasOrder;
      var txid, alive, c := w.journal[oid].txid, true, DEAD;
      if txid.None? {
        var ignored := DEAD.view;
        alive, txid, ignored := FindByClientId(oid);
        if !alive { return Stopped; }
        if txid.Some? {
          alive := Upsert(oid, txid, "cancel-reconcile");
          if !alive { return Stopped; }
        }
      } else {
        JournalNamesOrder(w, oid);
        HasNamed(w.venue, oid, txid.value);
      }
      if txid.Some? {
        alive, c := Step();                                      // cancel_order; a refusal is only logged
        if !alive { return Stopped; }
        out := Reconcile(oid, seqNo, status);
      } else {
        out := EmitReport(oid, seqNo, CANCELED, 0, 0, 0, NotSubmitted);
      }
    }

    /** The submitting branch of handle_order: look up first, then AddOrder. */
    method HandleNew(oid: Oid, seqNo: nat, order: OrderView) returns (out: Outcome)
      requires Safe(w) && Settled(w, oid, seqNo) && oid in w.journal
      modifies this
      ensures Safe(w) && OnlyAbout(oid)
      ensures old(trouble) ==> trouble
      ensures out.Stopped? || out.Reported? || out.NothingNew?
      ensures out.Stopped? ==> trouble
      ensures out.Reported? ==> out.report in w.sent && out.report.oid == oid && out.report.seqNo == seqNo + 1
      ensures HasOrder(old(w).venue, oid) ==> w.venue == old(w).venue
      ensures !trouble && !HasOrder(old(w).venue, oid) ==>
                if Placeable(order)
                then out.Reported? && out.report.status == SUBMITTED && out.report.venue.Order?
                     && w.venue == old(w).venue + [VenueOrder(out.report.venue.txid, ClientId(oid))]
                else out.NothingNew? && w.venue == old(w).venue
    {
      hide Safe, Settled, Seq, LandAll, HasOrder;
      var alive, txid, _ := FindByClientId(oid);
      if !alive { return Stopped; }
      if txid.Some? {
        alive := Upsert(oid, txid, "reconciled-before-add");
        if !alive { return Stopped; }
        out := Reconcile(oid, seqNo, order.status);
        return;
      }
      if !Placeable(order) { return NothingNew; }                // raised before anything was sent
      var c := DEAD;
      alive, c := Step();                                        // AddOrder
      if alive && c.fails && c.definite {
        out := EmitReport(oid, seqNo, REJECTED, 0, 0, 0, RejectedByVenue);
        return;
      }
      if (!alive || c.fails) && !c.acted { return Stopped; }     // never reached the venue
      AcceptSafe(w, oid, c.txid);
      w := Accept(w, oid, c.txid);
      if !alive || c.fails { return Stopped; }                   // accepted, but the reply was lost
      alive := Upsert(oid, Some(c.txid), "submitted");
      if !alive { return Stopped; }
      out := EmitReport(oid, seqNo, SUBMITTED, 0, 0, 0, Order(c.txid));
    }

    /** Any number of polling cycles and restarts over any orders. */
    method Run(oids: seq<Oid>) returns (outs: seq<Outcome>)
      requires Safe(w)
      modifies this
      ensures Safe(w) && |outs| == |oids|
      ensures forall i :: 0 <= i < |outs| && outs[i].Reported? ==>
                outs[i].report in w.sent && outs[i].report.oid == oids[i]
    {
      hide Safe;
      outs := [];
      for i := 0 to |oids|
        invariant Safe(w) && |outs| == i
        invariant forall j :: 0 <= j < i && outs[j].Reported? ==>
                    outs[j].report in w.sent && outs[j].report.oid == oids[j]
      {
        var out := HandleOrder(oids[i]);
        outs := outs + [out];
      }
    }
  }

  /** handle_order looks further into external KRAKEN orders that are not finished. */
  predicate Watched(order: OrderView) {
    order.kind == "external" && order.venue == "KRAKEN" && order.status !in TERMINAL
  }

  /** Formatting, the arbitrage rule and the time in force let the order be sent to the venue. */
  predicate Placeable(order: OrderView) {
    order.formats && (order.arbitrage ==> order.tif == "IOC") && order.tif in {"GTC", "GTD", "IOC", "FOK"}
  }

  /** The report says what the venue answered. */
  ghost predicate ReportFits(script: seq<Choice>, status: string, r: Report) {
    && script != []
    && Desired(script[0].view, status) == Some(r.status)
    && r.filled == Atoms(script[0].view.volExec) && r.fee == Atoms(script[0].view.fee)
  }

  lemma HasNamed(venue: seq<VenueOrder>, oid: Oid, t: Txid)
    requires VenueOrder(t, ClientId(oid)) in venue
    ensures HasOrder(venue, oid)
  {
  }

  const DEAD: Choice := Choice([], true, true, false, false, OrderView("", "", "", false, "", false), false,
                               VenueView("", 0.0, 0.0, 0.0, 0.0, 0.0), "", 0)

  lemma SignKeeps(w: World, r: Report)
    ensures forall oid, n :: Settled(w, oid, n) ==> Settled(Sign(w, r), oid, n)
    ensures Sign(w, r).venue == w.venue && Sign(w, r).journal == w.journal
  {
  }

  lemma PendingKeeps(w: World, r: Report, n: nat)
    requires r.oid in w.journal
    ensures Settled(w, r.oid, n) ==> Settled(WithPending(w, r.oid, r), r.oid, n)
    ensures WithPending(w, r.oid, r).journal[r.oid].pendingSeq == r.seqNo
    ensures WithPending(w, r.oid, r).journal[r.oid].pendingTx == Some(r)
    ensures r.oid in WithPending(w, r.oid, r).journal
  {
  }

  lemma SettledBound(w: World, oid: Oid, n: nat)
    requires Settled(w, oid, n)
    ensures forall q :: q in w.sent && q.oid == oid ==> q.seqNo < n + 1
  {
  }

  lemma SettledMeans(w: World, oid: Oid, n: nat)
    requires Settled(w, oid, n)
    ensures Seq(w, oid) == n
  {
  }

  lemma JournalNamesOrder(w: World, oid: Oid)
    requires Safe(w) && oid in w.journal && w.journal[oid].txid.Some?
    ensures VenueOrder(w.journal[oid].txid.value, ClientId(oid)) in w.venue
  {
  }
}
