/**
  The store of recorded arbitrage decisions (qrx-core/gateways/qrx-arbitrage-engine.py)
  whose live rows count against the limits of later evaluations.
 */
module OpportunityStore {

  import opened Wrappers
  import opened OrderBook
  import opened Arbitrage

  // ----- the store -----

  datatype Row = Row(id: Id, createdAt: int, updatedAt: int, state: State, decision: Decision,
                     approvedAt: Option<int>, hedge: Option<string>)

  datatype Event = Event(id: Id, timestamp: int, from: Option<State>, to: State, detail: string)

  /** The two tables. */
  datatype Db = Db(rows: seq<Row>, events: seq<Event>)

  const EMPTY: Db := Db([], [])

  ghost predicate DistinctIds(rows: seq<Row>) {
    forall i, j :: 0 <= i < j < |rows| ==> rows[i].id != rows[j].id
  }

  function Find(rows: seq<Row>, id: Id): (r: Option<nat>)
    ensures r.Some? ==> r.value < |rows| && rows[r.value].id == id
    ensures r.None? ==> forall i :: 0 <= i < |rows| ==> rows[i].id != id
  {
    if rows == [] then None
    else if rows[|rows| - 1].id == id then Some(|rows| - 1)
    else Find(rows[..|rows| - 1], id)
  }

  /** ArbitrageStore.record: insert, or replace state and decision keeping the creation time. */
  function Recorded(db: Db, d: Decision, now: int): Db {
    match Find(db.rows, d.id)
    case None =>
      Db(db.rows + [Row(d.id, now, now, d.state, d, None, None)],
         db.events + [Event(d.id, now, None, d.state, d.reason)])
    case Some(i) =>
      var was := db.rows[i];
      Db(db.rows[i := was.(updatedAt := now, state := d.state, decision := d)],
         if was.state == d.state then db.events
         else db.events + [Event(d.id, now, Some(was.state), d.state, d.reason)])
  }

  predicate Fresh(d: Decision, now: int) {
    now - d.bookTimestamp <= 60 && now - d.oracleTimestamp <= 300
  }

  predicate CanApprove(db: Db, id: Id, now: int) {
    var at := Find(db.rows, id);
    && at.Some?
    && db.rows[at.value].state == AWAITING_CONFIRMATION
    && db.rows[at.value].decision.liveReady
    && Fresh(db.rows[at.value].decision, now)
  }

  function Approved(db: Db, id: Id, now: int): Db
    requires CanApprove(db, id, now)
  {
    var i := Find(db.rows, id).value;
    Db(db.rows[i := db.rows[i].(state := APPROVED, updatedAt := now, approvedAt := Some(now))],
       db.events + [Event(id, now, Some(AWAITING_CONFIRMATION), APPROVED, "explicit wallet confirmation")])
  }

  predicate CanLink(db: Db, id: Id, hedge: string) {
    var at := Find(db.rows, id);
    && 0 < |hedge| <= 256
    && at.Some?
    && db.rows[at.value].state in {APPROVED, HEDGE_BROADCAST}
  }

  function Linked(db: Db, id: Id, hedge: string, now: int): Db
    requires CanLink(db, id, hedge)
  {
    var i := Find(db.rows, id).value;
    var was := db.rows[i];
    Db(db.rows[i := was.(state := HEDGE_BROADCAST, updatedAt := now, hedge := Some(hedge))],
       if was.state == HEDGE_BROADCAST then db.events
       else db.events + [Event(id, now, Some(was.state), HEDGE_BROADCAST, hedge)])
  }

  // ----- exposure -----

  datatype Measure = Btc | Eur

  function Amount(m: Measure, d: Decision): real {
    match m case Btc => d.quantityBtc case Eur => d.acquisitionEur
  }

  function Limit(m: Measure, c: Config): real {
    match m case Btc => c.maxDailyBtc case Eur => c.maxOpenEur
  }

  function Share(m: Measure, r: Row, cutoff: int): real {
    if r.createdAt >= cutoff && Live(r.state) then Amount(m, r.decision) else 0.0
  }

  /** ArbitrageStore.risk_totals. */
  function Exposure(m: Measure, rows: seq<Row>, cutoff: int, except: Option<Id>): real {
    if rows == [] then 0.0
    else
      var r := rows[|rows| - 1];
      Exposure(m, rows[..|rows| - 1], cutoff, except) + if Some(r.id) == except then 0.0 else Share(m, r, cutoff)
  }

  ghost predicate NoDebts(rows: seq<Row>) {
    forall i :: 0 <= i < |rows| ==> rows[i].decision.quantityBtc >= 0.0 && rows[i].decision.acquisitionEur >= 0.0
  }

  lemma {:induction false} ExposureAbsent(m: Measure, rows: seq<Row>, cutoff: int, id: Id)
    requires forall i :: 0 <= i < |rows| ==> rows[i].id != id
    ensures Exposure(m, rows, cutoff, Some(id)) == Exposure(m, rows, cutoff, None)
  {
    if rows != [] { ExposureAbsent(m, rows[..|rows| - 1], cutoff, id); }
  }

  /** Replacing one row replaces its share. */
  lemma {:induction false} ExposureUpdate(m: Measure, rows: seq<Row>, i: nat, r: Row, cutoff: int)
    requires DistinctIds(rows) && i < |rows| && r.id == rows[i].id
    ensures Exposure(m, rows[i := r], cutoff, None)
         == Exposure(m, rows, cutoff, Some(r.id)) + Share(m, r, cutoff)
  {
    var n := |rows| - 1;
    if i == n {
      assert rows[i := r][..n] == rows[..n];
      ExposureAbsent(m, rows[..n], cutoff, r.id);
    } else {
      assert rows[i := r][..n] == rows[..n][i := r];
      ExposureUpdate(m, rows[..n], i, r, cutoff);
    }
  }

  lemma {:induction false} LaterCutoff(m: Measure, rows: seq<Row>, early: int, late: int, except: Option<Id>)
    requires NoDebts(rows) && early <= late
    ensures Exposure(m, rows, late, except) <= Exposure(m, rows, early, except)
  {
    if rows != [] { LaterCutoff(m, rows[..|rows| - 1], early, late, except); }
  }

  // ----- runs -----

  ghost predicate WithinLimits(c: Config, rows: seq<Row>, now: int) {
    && Exposure(Btc, rows, now - DAY, None) <= c.maxDailyBtc
    && Exposure(Eur, rows, now - DAY, None) <= c.maxOpenEur
  }

  ghost predicate Sane(db: Db) { DistinctIds(db.rows) && NoDebts(db.rows) }

  datatype Action =
    | Consider(order: Order, book: Book, daily: real, open: real, at: int, stamp: int)
    | Confirmation(id: Id, stamp: int)
    | Broadcast(id: Id, hedge: string, stamp: int)

  /** evaluate_payload: totals without the row at hand, evaluate, record; an error records nothing. */
  function Considered(c: Config, db: Db, o: Order, b: Book, daily: real, open: real, now: int, stamp: int): Db {
    var id := IdOf(o, b);
    var result := Evaluate(c, o, b, now,
      daily + Exposure(Btc, db.rows, now - DAY, Some(id)), open + Exposure(Eur, db.rows, now - DAY, Some(id)));
    if result.Ok? then Recorded(db, result.value, stamp) else db
  }

  function Step(c: Config, db: Db, a: Action): Db {
    match a
    case Consider(o, b, daily, open, at, stamp) => Considered(c, db, o, b, daily, open, at, stamp)
    case Confirmation(id, stamp) => if CanApprove(db, id, stamp) then Approved(db, id, stamp) else db
    case Broadcast(id, hedge, stamp) => if CanLink(db, id, hedge) then Linked(db, id, hedge, stamp) else db
  }

  /** One clock that never runs back, non-negative caller totals, a book as it is read. */
  ghost predicate Admissible(a: Action, before: int) {
    && before <= a.stamp
    && (a.Consider? ==> before <= a.at <= a.stamp && a.daily >= 0.0 && a.open >= 0.0 && IsBook(a.book.bids))
  }

  lemma RecordedSane(db: Db, d: Decision, now: int)
    requires Sane(db) && d.quantityBtc >= 0.0 && d.acquisitionEur >= 0.0
    ensures Sane(Recorded(db, d, now))
  {
  }

  /** Recording replaces the share of the recorded id by at most the new amount. */
  lemma RecordedExposure(m: Measure, db: Db, d: Decision, now: int, cutoff: int)
    requires Sane(db) && d.quantityBtc >= 0.0 && d.acquisitionEur >= 0.0
    ensures Exposure(m, Recorded(db, d, now).rows, cutoff, None)
         <= Exposure(m, db.rows, cutoff, Some(d.id)) + if Live(d.state) then Amount(m, d) else 0.0
  {
    match Find(db.rows, d.id)
    case None =>
      ExposureAbsent(m, db.rows, cutoff, d.id);
      assert Recorded(db, d, now).rows[..|db.rows|] == db.rows;
    case Some(i) =>
      ExposureUpdate(m, db.rows, i, db.rows[i].(updatedAt := now, state := d.state, decision := d), cutoff);
  }

  /** Leaving a row out can only lower the total. */
  lemma ExceptionLowers(m: Measure, rows: seq<Row>, cutoff: int, id: Id)
    requires DistinctIds(rows) && NoDebts(rows)
    ensures Exposure(m, rows, cutoff, Some(id)) <= Exposure(m, rows, cutoff, None)
  {
    match Find(rows, id)
    case None => ExposureAbsent(m, rows, cutoff, id);
    case Some(i) =>
      ExposureUpdate(m, rows, i, rows[i], cutoff);
      assert rows[i := rows[i]] == rows;
  }

  lemma ConsiderMeasure(m: Measure, c: Config, db: Db, a: Action, before: int)
    requires Sane(db) && a.Consider? && Admissible(a, before)
    requires Exposure(m, db.rows, before - DAY, None) <= Limit(m, c)
    ensures Exposure(m, Step(c, db, a).rows, a.stamp - DAY, None) <= Limit(m, c)
  {
    hide Evaluate, Recorded, Exposure;
    var id := IdOf(a.order, a.book);
    var daily := a.daily + Exposure(Btc, db.rows, a.at - DAY, Some(id));
    var open := a.open + Exposure(Eur, db.rows, a.at - DAY, Some(id));
    LaterCutoff(m, db.rows, before - DAY, a.stamp - DAY, None);
    var result := Evaluate(c, a.order, a.book, a.at, daily, open);
    if result.Ok? {
      LiveDecisionFits(c, a.order, a.book, a.at, daily, open);
      RecordedExposure(m, db, result.value, a.stamp, a.stamp - DAY);
      LaterCutoff(m, db.rows, a.at - DAY, a.stamp - DAY, Some(id));
      ExceptionLowers(m, db.rows, a.stamp - DAY, id);
    }
  }

  /** Rows that change state without leaving or joining the counted ones keep the totals. */
  lemma SameShare(m: Measure, rows: seq<Row>, i: nat, r: Row, cutoff: int)
    requires DistinctIds(rows) && i < |rows| && r.id == rows[i].id
    requires Live(r.state) && Live(rows[i].state) && r.decision == rows[i].decision
    requires r.createdAt == rows[i].createdAt
    ensures Exposure(m, rows[i := r], cutoff, None) == Exposure(m, rows, cutoff, None)
  {
    ExposureUpdate(m, rows, i, r, cutoff);
    ExposureUpdate(m, rows, i, rows[i], cutoff);
    assert rows[i := rows[i]] == rows;
  }

  lemma StepSane(c: Config, db: Db, a: Action)
    requires Sane(db)
    ensures Sane(Step(c, db, a))
  {
    hide Evaluate;
    match a
    case Consider(o, b, daily, open, at, stamp) =>
      var id := IdOf(o, b);
      var day := daily + Exposure(Btc, db.rows, at - DAY, Some(id));
      var eur := open + Exposure(Eur, db.rows, at - DAY, Some(id));
      var result := Evaluate(c, o, b, at, day, eur);
      if result.Ok? {
        LiveDecisionFits(c, o, b, at, day, eur);
        RecordedSane(db, result.value, stamp);
      }
    case Confirmation(id, stamp) =>
    case Broadcast(id, hedge, stamp) =>
  }

  lemma StepMeasure(m: Measure, c: Config, db: Db, a: Action, before: int)
    requires Sane(db) && Admissible(a, before)
    requires Exposure(m, db.rows, before - DAY, None) <= Limit(m, c)
    ensures Exposure(m, Step(c, db, a).rows, a.stamp - DAY, None) <= Limit(m, c)
  {
    hide Exposure, Considered;
    LaterCutoff(m, db.rows, before - DAY, a.stamp - DAY, None);
    match a
    case Consider(_, _, _, _, _, _) => ConsiderMeasure(m, c, db, a, before);
    case Confirmation(id, stamp) =>
      if CanApprove(db, id, stamp) {
        var i := Find(db.rows, id).value;
        SameShare(m, db.rows, i, Approved(db, id, stamp).rows[i], a.stamp - DAY);
      }
    case Broadcast(id, hedge, stamp) =>
      if CanLink(db, id, hedge) {
        var i := Find(db.rows, id).value;
        SameShare(m, db.rows, i, Linked(db, id, hedge, stamp).rows[i], a.stamp - DAY);
      }
  }

  function Run(c: Config, actions: seq<Action>): Db {
    if actions == [] then EMPTY else Step(c, Run(c, actions[..|actions| - 1]), actions[|actions| - 1])
  }

  function Clock(actions: seq<Action>, start: int): int {
    if actions == [] then start else actions[|actions| - 1].stamp
  }

  ghost predicate AdmissibleRun(actions: seq<Action>, start: int) {
    actions != [] ==>
      && AdmissibleRun(actions[..|actions| - 1], start)
      && Admissible(actions[|actions| - 1], Clock(actions[..|actions| - 1], start))
  }

  lemma {:induction false} RunSane(c: Config, actions: seq<Action>)
    ensures Sane(Run(c, actions))
  {
    if actions != [] {
      hide Step;
      RunSane(c, actions[..|actions| - 1]);
      StepSane(c, Run(c, actions[..|actions| - 1]), actions[|actions| - 1]);
    }
  }

  lemma {:induction false} RunMeasure(m: Measure, c: Config, actions: seq<Action>, start: int)
    requires Limit(m, c) > 0.0 && AdmissibleRun(actions, start)
    ensures Exposure(m, Run(c, actions).rows, Clock(actions, start) - DAY, None) <= Limit(m, c)
  {
    hide Step;
    if actions != [] {
      var n := |actions| - 1;
      RunMeasure(m, c, actions[..n], start);
      RunSane(c, actions[..n]);
      StepMeasure(m, c, Run(c, actions[..n]), actions[n], Clock(actions[..n], start));
    }
  }

  /**
    Risk limits over every run of evaluate, approve and mark-broadcast: at any later
    moment the live opportunities of the last day stay within both limits.
   */
  lemma RunWithinLimits(c: Config, actions: seq<Action>, start: int, now: int)
    requires c.maxDailyBtc > 0.0 && c.maxOpenEur > 0.0
    requires AdmissibleRun(actions, start) && Clock(actions, start) <= now
    ensures WithinLimits(c, Run(c, actions).rows, now)
  {
    var rows := Run(c, actions).rows;
    hide Run, Exposure;
    RunSane(c, actions);
    RunMeasure(Btc, c, actions, start);
    RunMeasure(Eur, c, actions, start);
    LaterCutoff(Btc, rows, Clock(actions, start) - DAY, now - DAY, None);
    LaterCutoff(Eur, rows, Clock(actions, start) - DAY, now - DAY, None);
  }

  // ----- the event table -----

  function LastState(events: seq<Event>, id: Id): Option<State> {
    if events == [] then None
    else if events[|events| - 1].id == id then Some(events[|events| - 1].to)
    else LastState(events[..|events| - 1], id)
  }

  function StateOf(rows: seq<Row>, id: Id): Option<State> {
    var at := Find(rows, id);
    if at.Some? then Some(rows[at.value].state) else None
  }

  /** Each event continues where the previous one of its id ended. */
  ghost predicate Chained(events: seq<Event>) {
    forall k :: 0 <= k < |events| ==> events[k].from == LastState(events[..k], events[k].id)
  }

  ghost predicate Audited(db: Db) {
    && Chained(db.events)
    && forall id :: LastState(db.events, id) == StateOf(db.rows, id)
  }

  lemma {:induction false} FindOnly(rows: seq<Row>, i: nat)
    requires DistinctIds(rows) && i < |rows|
    ensures Find(rows, rows[i].id) == Some(i)
  {
  }

  lemma StateAfterUpdate(rows: seq<Row>, i: nat, r: Row, id: Id)
    requires DistinctIds(rows) && i < |rows| && r.id == rows[i].id
    ensures StateOf(rows[i := r], id) == if id == r.id then Some(r.state) else StateOf(rows, id)
  {
    var new_ := rows[i := r];
    assert DistinctIds(new_);
    if id == r.id {
      FindOnly(new_, i);
    } else if Find(rows, id).Some? {
      var j := Find(rows, id).value;
      FindOnly(new_, j);
      assert new_[j].id == id;
    } else {
      forall j | 0 <= j < |new_| ensures new_[j].id != id { }
      assert Find(new_, id).None?;
    }
  }

  lemma EventAppended(db: Db, rows: seq<Row>, e: Event)
    requires Audited(db) && e.from == LastState(db.events, e.id)
    requires forall id :: StateOf(rows, id) == if id == e.id then Some(e.to) else StateOf(db.rows, id)
    ensures Audited(Db(rows, db.events + [e]))
  {
    var events := db.events + [e];
    assert events[..|db.events|] == db.events;
    forall k | 0 <= k < |events| ensures events[k].from == LastState(events[..k], events[k].id) {
      if k < |db.events| { assert events[..k] == db.events[..k]; }
    }
  }

  lemma UpdateAudited(db: Db, i: nat, r: Row, e: Event)
    requires Sane(db) && Audited(db) && i < |db.rows| && r.id == db.rows[i].id == e.id
    requires e.from == Some(db.rows[i].state) && e.to == r.state
    ensures Audited(Db(db.rows[i := r], db.events + [e]))
    ensures r.state == db.rows[i].state ==> Audited(Db(db.rows[i := r], db.events))
  {
    forall id ensures StateOf(db.rows[i := r], id) == if id == r.id then Some(r.state) else StateOf(db.rows, id) {
      StateAfterUpdate(db.rows, i, r, id);
    }
    FindOnly(db.rows, i);
    assert StateOf(db.rows, r.id) == Some(db.rows[i].state);
    EventAppended(db, db.rows[i := r], e);
  }

  lemma RecordedAudited(db: Db, d: Decision, now: int)
    requires Sane(db) && Audited(db)
    ensures Audited(Recorded(db, d, now))
  {
    match Find(db.rows, d.id)
    case None =>
      var r := Row(d.id, now, now, d.state, d, None, None);
      assert (db.rows + [r])[..|db.rows|] == db.rows;
      assert StateOf(db.rows, d.id) == None;
      EventAppended(db, db.rows + [r], Event(d.id, now, None, d.state, d.reason));
    case Some(i) =>
      var was := db.rows[i];
      UpdateAudited(db, i, was.(updatedAt := now, state := d.state, decision := d),
        Event(d.id, now, Some(was.state), d.state, d.reason));
  }

  lemma ApprovedAudited(db: Db, id: Id, now: int)
    requires Sane(db) && Audited(db) && CanApprove(db, id, now)
    ensures Sane(Approved(db, id, now)) && Audited(Approved(db, id, now))
  {
    hide Audited;
    var i := Find(db.rows, id).value;
    UpdateAudited(db, i, db.rows[i].(state := APPROVED, updatedAt := now, approvedAt := Some(now)),
      Event(id, now, Some(AWAITING_CONFIRMATION), APPROVED, "explicit wallet confirmation"));
  }

  lemma LinkedAudited(db: Db, id: Id, hedge: string, now: int)
    requires Sane(db) && Audited(db) && CanLink(db, id, hedge)
    ensures Sane(Linked(db, id, hedge, now)) && Audited(Linked(db, id, hedge, now))
  {
    hide Audited;
    var i := Find(db.rows, id).value;
    var was := db.rows[i];
    UpdateAudited(db, i, was.(state := HEDGE_BROADCAST, updatedAt := now, hedge := Some(hedge)),
      Event(id, now, Some(was.state), HEDGE_BROADCAST, hedge));
  }

  /** Over every run the event table is a faithful history: it chains, and it ends in every row's state. */
  lemma {:induction false} RunAudited(c: Config, actions: seq<Action>)
    ensures Audited(Run(c, actions))
  {
    if actions != [] {
      var n := |actions| - 1;
      RunAudited(c, actions[..n]);
      RunSane(c, actions[..n]);
      StepAudited(c, Run(c, actions[..n]), actions[n]);
    }
  }

  lemma StepAudited(c: Config, db: Db, a: Action)
    requires Sane(db) && Audited(db)
    ensures Audited(Step(c, db, a))
  {
    hide Evaluate, Recorded, Exposure, Audited;
    match a
    case Consider(o, b, daily, open, at, stamp) =>
      var id := IdOf(o, b);
      var result := Evaluate(c, o, b, at, daily + Exposure(Btc, db.rows, at - DAY, Some(id)),
        open + Exposure(Eur, db.rows, at - DAY, Some(id)));
      if result.Ok? { RecordedAudited(db, result.value, stamp); }
    case Confirmation(id, stamp) =>
      if CanApprove(db, id, stamp) { ApprovedAudited(db, id, stamp); }
    case Broadcast(id, hedge, stamp) =>
      if CanLink(db, id, hedge) { LinkedAudited(db, id, hedge, stamp); }
  }

  // ----- the code -----

  class ArbitrageStore {
    var rows: seq<Row>
    var events: seq<Event>

    ghost predicate Valid()
      reads this
    {
      Sane(Tables()) && Audited(Tables())
    }

    ghost function Tables(): Db
      reads this
    {
      Db(rows, events)
    }

    constructor ()
      ensures Valid() && Tables() == EMPTY
    {
      rows, events := [], [];
    }

    method Lookup(id: Id) returns (at: Option<nat>)
      ensures at == Find(rows, id)
    {
      var i := |rows|;
      assert rows[..i] == rows;
      while i > 0
        invariant 0 <= i <= |rows|
        invariant Find(rows, id) == Find(rows[..i], id)
      {
        i := i - 1;
        assert rows[..i + 1][..i] == rows[..i];
        if rows[i].id == id { return Some(i); }
      }
      return None;
    }

    method Record(d: Decision, now: int)
      requires Valid() && d.quantityBtc >= 0.0 && d.acquisitionEur >= 0.0
      modifies this
      ensures Valid() && Tables() == Recorded(old(Tables()), d, now)
    {
      RecordedSane(Tables(), d, now);
      RecordedAudited(Tables(), d, now);
      var at := Lookup(d.id);
      var oldState := None;
      if at.Some? {
        oldState := Some(rows[at.value].state);
        rows := rows[at.value := rows[at.value].(updatedAt := now, state := d.state, decision := d)];
      } else {
        rows := rows + [Row(d.id, now, now, d.state, d, None, None)];
      }
      if oldState != Some(d.state) {
        events := events + [Event(d.id, now, oldState, d.state, d.reason)];
      }
    }

    method RiskTotals(now: int, exclude: Option<Id>) returns (daily: real, open: real)
      ensures daily == Exposure(Btc, rows, now - DAY, exclude)
      ensures open == Exposure(Eur, rows, now - DAY, exclude)
    {
      daily, open := 0.0, 0.0;
      var cutoff := now - DAY;
      for i := 0 to |rows|
        invariant daily == Exposure(Btc, rows[..i], cutoff, exclude)
        invariant open == Exposure(Eur, rows[..i], cutoff, exclude)
      {
        assert rows[..i + 1][..i] == rows[..i];
        var r := rows[i];
        if r.createdAt < cutoff || !Live(r.state) || Some(r.id) == exclude { continue; }
        daily, open := daily + r.decision.quantityBtc, open + r.decision.acquisitionEur;
      }
      assert rows[..|rows|] == rows;
    }

    method Approve(id: Id, now: int) returns (plan: Result<Hedge>)
      requires Valid()
      modifies this
      ensures Valid()
      ensures plan.Ok? <==> CanApprove(old(Tables()), id, now)
      ensures Tables() == if plan.Ok? then Approved(old(Tables()), id, now) else old(Tables())
      ensures plan.Ok? ==> plan.value == ExecutionPlan(old(rows)[Find(old(rows), id).value].decision)
    {
      ghost var db := Tables();
      if CanApprove(db, id, now) { ApprovedAudited(db, id, now); }
      var at := Lookup(id);
      if at.None? { return Refused("arbitrage opportunity not found"); }
      var i := at.value;
      if rows[i].state != AWAITING_CONFIRMATION { return Refused("cannot be approved from this state"); }
      if !rows[i].decision.liveReady { return Refused("opportunity is not live-ready"); }
      if !Fresh(rows[i].decision, now) { return Refused("evaluate and confirm again"); }
      rows := rows[i := rows[i].(state := APPROVED, updatedAt := now, approvedAt := Some(now))];
      events := events + [Event(id, now, Some(AWAITING_CONFIRMATION), APPROVED, "explicit wallet confirmation")];
      return Ok(ExecutionPlan(rows[i].decision));
    }

    method MarkBroadcast(id: Id, hedge: string, now: int) returns (ok: bool)
      requires Valid()
      modifies this
      ensures Valid()
      ensures ok <==> CanLink(old(Tables()), id, hedge)
      ensures Tables() == if ok then Linked(old(Tables()), id, hedge, now) else old(Tables())
    {
      ghost var db := Tables();
      if CanLink(db, id, hedge) { LinkedAudited(db, id, hedge, now); }
      if |hedge| == 0 || |hedge| > 256 { return false; }
      var at := Lookup(id);
      if at.None? { return false; }
      var i := at.value;
      var was := rows[i].state;
      if was != APPROVED && was != HEDGE_BROADCAST { return false; }
      rows := rows[i := rows[i].(state := HEDGE_BROADCAST, updatedAt := now, hedge := Some(hedge))];
      if was != HEDGE_BROADCAST {
        events := events + [Event(id, now, Some(was), HEDGE_BROADCAST, hedge)];
      }
      return true;
    }

    /** evaluate_payload, with the clock readings of the evaluation and of the record. */
    method EvaluatePayload(c: Config, o: Order, b: Book, daily: real, open: real, now: int, stamp: int)
      returns (r: Result<Decision>)
      requires Valid() && IsBook(b.bids)
      modifies this
      ensures Valid()
      ensures Tables() == Considered(c, old(Tables()), o, b, daily, open, now, stamp)
      ensures r.Ok? ==> r.value.id == IdOf(o, b) && StateOf(rows, IdOf(o, b)) == Some(r.value.state)
      ensures r.Refused? ==> unchanged(this)
    {
      hide Evaluate, Recorded, Exposure, Audited;
      ghost var db := Tables();
      var id := IdOf(o, b);
      var storedDaily, storedOpen := RiskTotals(now, Some(id));
      r := Assess(c, o, b, now, daily + storedDaily, open + storedOpen);
      if r.Ok? {
        LiveDecisionFits(c, o, b, now, daily + storedDaily, open + storedOpen);
        Record(r.value, stamp);
        RecordedState(db, r.value, stamp);
      }
    }
  }

  lemma RecordedState(db: Db, d: Decision, now: int)
    requires Sane(db)
    ensures StateOf(Recorded(db, d, now).rows, d.id) == Some(d.state)
  {
    match Find(db.rows, d.id)
    case None =>
    case Some(i) => StateAfterUpdate(db.rows, i, db.rows[i].(updatedAt := now, state := d.state, decision := d), d.id);
  }
}
