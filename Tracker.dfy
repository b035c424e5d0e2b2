/** The geofence state tracker: `evaluateGeofences` of backend/api.php as
    functions over the geofence_states and alerts tables. Backend.dfy runs
    it as a loop over the rows of the join and is proved to compute
    `EvalRows`; the properties of the tracker are proved here. */
module Tracker {
  import opened Wrappers
  import opened Text
  import opened Records

  /** One row of the join of consent_requests and geofences. */
  datatype Row = Row(
    consentId: nat,
    requesterUserId: nat,
    geofenceId: nat,
    name: string,
    centerLat: real,
    centerLng: real,
    radiusM: real,
    notifyOnEnter: bool,
    notifyOnExit: bool)

  function MakeRow(c: Consent, g: Geofence): Row {
    Row(c.id, c.requesterUserId, g.id, g.name, g.centerLat, g.centerLng, g.radiusM,
        g.notifyOnEnter, g.notifyOnExit)
  }

  /** The join's condition on the consent: `recipient_user_id = ?` and
      `status = "active"`. */
  predicate Tracks(c: Consent, trackedUserId: nat) {
    c.recipientUserId == Some(trackedUserId) && c.status == Active
  }

  /** The geofences of consent `c`, in table order. */
  function RowsFor(c: Consent, gs: seq<Geofence>): seq<Row> {
    if gs == [] then []
    else (if gs[0].consentId == c.id then [MakeRow(c, gs[0])] else []) + RowsFor(c, gs[1..])
  }

  /** The join of evaluateGeofences. The query has no ORDER BY; the model
      lists the rows consent by consent, in table order. */
  function JoinRows(cs: seq<Consent>, gs: seq<Geofence>, trackedUserId: nat): seq<Row> {
    if cs == [] then []
    else
      var head := if Tracks(cs[0], trackedUserId) then RowsFor(cs[0], gs) else [];
      head + JoinRows(cs[1..], gs, trackedUserId)
  }

  lemma {:induction false} RowsForMembers(c: Consent, gs: seq<Geofence>, r: Row)
    ensures r in RowsFor(c, gs) <==> exists j :: 0 <= j < |gs| && gs[j].consentId == c.id && r == MakeRow(c, gs[j])
  {
    if gs != [] {
      RowsForMembers(c, gs[1..], r);
      if r in RowsFor(c, gs[1..]) {
        var j :| 0 <= j < |gs[1..]| && gs[1..][j].consentId == c.id && r == MakeRow(c, gs[1..][j]);
        assert gs[j + 1] == gs[1..][j];
      }
      if exists j :: 0 <= j < |gs| && gs[j].consentId == c.id && r == MakeRow(c, gs[j]) {
        var j :| 0 <= j < |gs| && gs[j].consentId == c.id && r == MakeRow(c, gs[j]);
        if j > 0 {
          assert gs[1..][j - 1] == gs[j];
        }
      }
    }
  }

  /** A row is in the join exactly when it pairs a consent that tracks the
      reporting user with one of that consent's geofences. */
  lemma {:induction false} JoinRowsMembers(cs: seq<Consent>, gs: seq<Geofence>, trackedUserId: nat, r: Row)
    ensures r in JoinRows(cs, gs, trackedUserId) <==>
      exists i, j :: 0 <= i < |cs| && 0 <= j < |gs| && Tracks(cs[i], trackedUserId)
        && gs[j].consentId == cs[i].id && r == MakeRow(cs[i], gs[j])
  {
    if cs != [] {
      JoinRowsMembers(cs[1..], gs, trackedUserId, r);
      RowsForMembers(cs[0], gs, r);
      if r in JoinRows(cs[1..], gs, trackedUserId) {
        var i, j :| 0 <= i < |cs[1..]| && 0 <= j < |gs| && Tracks(cs[1..][i], trackedUserId)
          && gs[j].consentId == cs[1..][i].id && r == MakeRow(cs[1..][i], gs[j]);
        assert cs[i + 1] == cs[1..][i];
      }
      if exists i, j :: 0 <= i < |cs| && 0 <= j < |gs| && Tracks(cs[i], trackedUserId)
           && gs[j].consentId == cs[i].id && r == MakeRow(cs[i], gs[j]) {
        var i, j :| 0 <= i < |cs| && 0 <= j < |gs| && Tracks(cs[i], trackedUserId)
          && gs[j].consentId == cs[i].id && r == MakeRow(cs[i], gs[j]);
        if i > 0 {
          assert cs[1..][i - 1] == cs[i];
        }
      }
    }
  }

  // ---------------------------------------------------------------------
  // The join lists each (consent, geofence) pair once

  predicate RowBefore(a: Row, b: Row) {
    a.consentId < b.consentId || (a.consentId == b.consentId && a.geofenceId < b.geofenceId)
  }

  predicate RowsOrdered(rows: seq<Row>) {
    forall i, j :: 0 <= i < j < |rows| ==> RowBefore(rows[i], rows[j])
  }

  /** No two rows are for the same (consent, geofence) pair. */
  predicate RowsDistinct(rows: seq<Row>) {
    forall i, j :: 0 <= i < j < |rows| ==>
      (rows[i].consentId, rows[i].geofenceId) != (rows[j].consentId, rows[j].geofenceId)
  }

  lemma ConcatOrdered(a: seq<Row>, b: seq<Row>)
    requires RowsOrdered(a) && RowsOrdered(b)
    requires forall x, y :: x in a && y in b ==> RowBefore(x, y)
    ensures RowsOrdered(a + b)
  {
    forall i, j | 0 <= i < j < |a + b| ensures RowBefore((a + b)[i], (a + b)[j]) {
      if j < |a| {
        assert RowBefore(a[i], a[j]);
      } else if i >= |a| {
        assert RowBefore(b[i - |a|], b[j - |a|]);
      } else {
        assert (a + b)[i] in a && (a + b)[j] in b;
      }
    }
  }

  lemma {:induction false} RowsForOrdered(c: Consent, gs: seq<Geofence>)
    requires Increasing(GeofenceIds(gs))
    ensures RowsOrdered(RowsFor(c, gs))
    ensures forall r :: r in RowsFor(c, gs) ==> r.consentId == c.id
  {
    if gs != [] {
      var tail := gs[1..];
      assert GeofenceIds(tail) == GeofenceIds(gs)[1..];
      RowsForOrdered(c, tail);
      var head := if gs[0].consentId == c.id then [MakeRow(c, gs[0])] else [];
      forall x, y | x in head && y in RowsFor(c, tail) ensures RowBefore(x, y) {
        RowsForMembers(c, tail, y);
        var j :| 0 <= j < |tail| && tail[j].consentId == c.id && y == MakeRow(c, tail[j]);
        assert tail[j] == gs[j + 1];
      }
      ConcatOrdered(head, RowsFor(c, tail));
    }
  }

  /** With the ids of both tables increasing, the join is ordered by
      (consent id, geofence id), so it lists each pair once. */
  lemma {:induction false} JoinRowsOrdered(cs: seq<Consent>, gs: seq<Geofence>, trackedUserId: nat)
    requires Increasing(ConsentIds(cs)) && Increasing(GeofenceIds(gs))
    ensures RowsOrdered(JoinRows(cs, gs, trackedUserId))
    ensures RowsDistinct(JoinRows(cs, gs, trackedUserId))
  {
    if cs != [] {
      var tail := cs[1..];
      assert ConsentIds(tail) == ConsentIds(cs)[1..];
      JoinRowsOrdered(tail, gs, trackedUserId);
      RowsForOrdered(cs[0], gs);
      var head := if Tracks(cs[0], trackedUserId) then RowsFor(cs[0], gs) else [];
      forall x, y | x in head && y in JoinRows(tail, gs, trackedUserId) ensures RowBefore(x, y) {
        JoinRowsMembers(tail, gs, trackedUserId, y);
        var i, j :| 0 <= i < |tail| && 0 <= j < |gs| && Tracks(tail[i], trackedUserId)
          && gs[j].consentId == tail[i].id && y == MakeRow(tail[i], gs[j]);
        assert tail[i] == cs[i + 1];
      }
      ConcatOrdered(head, JoinRows(tail, gs, trackedUserId));
    }
    var rows := JoinRows(cs, gs, trackedUserId);
    forall i, j | 0 <= i < j < |rows|
      ensures (rows[i].consentId, rows[i].geofenceId) != (rows[j].consentId, rows[j].geofenceId)
    {
      assert RowBefore(rows[i], rows[j]);
    }
  }

  // ---------------------------------------------------------------------
  // Evaluating one row

  /** The tables evaluateGeofences reads and writes, and the id counter. */
  datatype Tables = Tables(states: seq<GeofenceState>, alerts: seq<Alert>, nextId: nat)

  /** The location report being evaluated. */
  datatype Report = Report(trackedUserId: nat, locationId: nat, lat: real, lng: real, at: Timestamp)

  /** The great-circle distance in metres between (lat1, lng1) and
      (lat2, lng2); the haversine formula itself is not modelled. */
  type Distance = (real, real, real, real) -> real

  /** `$distance <= radius_m`: the boundary counts as inside. */
  function InsideNow(row: Row, rep: Report, distance: Distance): bool {
    distance(rep.lat, rep.lng, row.centerLat, row.centerLng) <= row.radiusM
  }

  function Key(s: GeofenceState): (nat, nat, nat) {
    (s.consentId, s.geofenceId, s.trackedUserId)
  }

  /** At most one state row per (consent, geofence, tracked user). */
  predicate UniqueKeys(ss: seq<GeofenceState>) {
    forall i, j :: 0 <= i < j < |ss| ==> Key(ss[i]) != Key(ss[j])
  }

  predicate TablesValid(t: Tables) {
    IdsFresh(StateIds(t.states), t.nextId) && IdsFresh(AlertIds(t.alerts), t.nextId)
    && UniqueKeys(t.states)
  }

  /** The first state row with this key (the SELECT of evaluateGeofences). */
  function FindState(ss: seq<GeofenceState>, key: (nat, nat, nat)): (r: Option<nat>)
    ensures r.Some? ==> r.value < |ss| && Key(ss[r.value]) == key
    ensures r.Some? ==> forall k :: 0 <= k < r.value ==> Key(ss[k]) != key
    ensures r.None? <==> forall k :: 0 <= k < |ss| ==> Key(ss[k]) != key
  {
    if |ss| == 0 then None
    else if Key(ss[0]) == key then Some(0)
    else match FindState(ss[1..], key)
      case None => None
      case Some(k) => Some(k + 1)
  }

  /** The state recorded for a key, if any. */
  function StateOf(ss: seq<GeofenceState>, key: (nat, nat, nat)): Option<GeofenceState> {
    match FindState(ss, key)
    case None => None
    case Some(k) => Some(ss[k])
  }

  function RowKey(row: Row, rep: Report): (nat, nat, nat) {
    (row.consentId, row.geofenceId, rep.trackedUserId)
  }

  /** `sprintf('Tracked user %d %s geofence "%s"', ...)`. */
  function AlertMessage(trackedUserId: nat, entered: bool, name: string): string {
    "Tracked user " + NatToString(trackedUserId) + (if entered then " entered" else " exited")
      + " geofence \"" + name + "\""
  }

  /** Whether the geofence asks to be told about this transition. */
  function ShouldNotify(row: Row, insideNow: bool): bool {
    if insideNow then row.notifyOnEnter else row.notifyOnExit
  }

  /** One iteration of the foreach of evaluateGeofences. */
  function EvalRow(t: Tables, row: Row, rep: Report, distance: Distance): Tables {
    var insideNow := InsideNow(row, rep, distance);
    match FindState(t.states, RowKey(row, rep))
    case None =>
      // first observation: seed the state, no alert
      Tables(t.states + [GeofenceState(t.nextId, row.consentId, row.geofenceId, rep.trackedUserId,
                                       insideNow, rep.locationId, rep.at)],
             t.alerts, t.nextId + 1)
    case Some(k) =>
      var prior := t.states[k];
      var fire := prior.isInside != insideNow && ShouldNotify(row, insideNow);
      var alert := Alert(t.nextId, row.requesterUserId, row.consentId, row.geofenceId,
                         rep.trackedUserId, if insideNow then GeofenceEnter else GeofenceExit,
                         AlertMessage(rep.trackedUserId, insideNow, row.name), rep.at);
      Tables(t.states[k := prior.(isInside := insideNow, lastLocationId := rep.locationId,
                                  updatedAt := rep.at)],
             if fire then t.alerts + [alert] else t.alerts,
             if fire then t.nextId + 1 else t.nextId)
  }

  /** The whole foreach, row by row. */
  function EvalRows(rows: seq<Row>, t: Tables, rep: Report, distance: Distance): Tables {
    if rows == [] then t
    else EvalRow(EvalRows(rows[..|rows| - 1], t, rep, distance), rows[|rows| - 1], rep, distance)
  }

  // ---------------------------------------------------------------------
  // Properties of one step

  /** The first observation of a triple inserts exactly one state, holding
      the current classification and location, and emits no alert. */
  lemma FirstObservation(t: Tables, row: Row, rep: Report, distance: Distance)
    requires FindState(t.states, RowKey(row, rep)).None?
    ensures var t' := EvalRow(t, row, rep, distance);
      && t'.alerts == t.alerts
      && |t'.states| == |t.states| + 1 && t'.states[..|t.states|] == t.states
      && var s := t'.states[|t.states|];
        Key(s) == RowKey(row, rep) && s.isInside == InsideNow(row, rep, distance)
        && s.lastLocationId == rep.locationId
  {
  }

  /** A report that leaves the classification unchanged emits no alert and
      refreshes the state in place. */
  lemma NoTransition(t: Tables, row: Row, rep: Report, distance: Distance)
    requires FindState(t.states, RowKey(row, rep)).Some?
    requires t.states[FindState(t.states, RowKey(row, rep)).value].isInside == InsideNow(row, rep, distance)
    ensures var t' := EvalRow(t, row, rep, distance); var k := FindState(t.states, RowKey(row, rep)).value;
      && t'.alerts == t.alerts && t'.nextId == t.nextId
      && t'.states == t.states[k := t.states[k].(lastLocationId := rep.locationId, updatedAt := rep.at)]
  {
  }

  /** On a transition, an alert is appended exactly when the matching
      notify flag is set; it is an enter alert exactly when the point is now
      inside, and it goes to the consent's requester. The state is updated
      either way. */
  lemma Transition(t: Tables, row: Row, rep: Report, distance: Distance)
    requires FindState(t.states, RowKey(row, rep)).Some?
    requires t.states[FindState(t.states, RowKey(row, rep)).value].isInside != InsideNow(row, rep, distance)
    ensures var t' := EvalRow(t, row, rep, distance); var inside := InsideNow(row, rep, distance);
      var k := FindState(t.states, RowKey(row, rep)).value;
      && (|t'.alerts| == |t.alerts| + 1 <==> (if inside then row.notifyOnEnter else row.notifyOnExit))
      && (|t'.alerts| == |t.alerts| ==> t'.alerts == t.alerts)
      && t'.alerts[..|t.alerts|] == t.alerts
      && (|t'.alerts| > |t.alerts| ==>
            var a := t'.alerts[|t.alerts|];
            && (a.alertType == GeofenceEnter <==> inside)
            && a.userId == row.requesterUserId && a.consentId == row.consentId
            && a.geofenceId == row.geofenceId && a.trackedUserId == rep.trackedUserId
            && a.id == t.nextId)
      && t'.states == t.states[k := t.states[k].(isInside := inside, lastLocationId := rep.locationId,
                                                 updatedAt := rep.at)]
  {
  }

  /** A distance equal to the radius classifies the point as inside. */
  lemma BoundaryIsInside(row: Row, rep: Report, distance: Distance)
    requires distance(rep.lat, rep.lng, row.centerLat, row.centerLng) == row.radiusM
    ensures InsideNow(row, rep, distance)
  {
  }

  lemma FindStateAppend(ss: seq<GeofenceState>, x: GeofenceState, key: (nat, nat, nat))
    requires Key(x) != key
    ensures FindState(ss + [x], key) == FindState(ss, key)
  {
    var r1, r2 := FindState(ss + [x], key), FindState(ss, key);
    if r2.Some? {
      assert (ss + [x])[r2.value] == ss[r2.value];
    } else {
      forall k | 0 <= k < |ss + [x]| ensures Key((ss + [x])[k]) != key {
        if k < |ss| { assert (ss + [x])[k] == ss[k]; }
      }
    }
    if r1.Some? && r1.value < |ss| {
      assert (ss + [x])[r1.value] == ss[r1.value];
    }
  }

  lemma FindStateUpdate(ss: seq<GeofenceState>, k: nat, x: GeofenceState, key: (nat, nat, nat))
    requires k < |ss| && Key(x) == Key(ss[k]) && Key(x) != key
    ensures FindState(ss[k := x], key) == FindState(ss, key)
  {
    var r1, r2 := FindState(ss[k := x], key), FindState(ss, key);
    if r2.Some? {
      assert ss[k := x][r2.value] == ss[r2.value];
    }
    if r1.Some? {
      assert ss[k := x][r1.value] == ss[r1.value];
    }
  }

  /** One step touches only the state of its own triple. */
  lemma EvalRowFrame(t: Tables, row: Row, rep: Report, distance: Distance, key: (nat, nat, nat))
    requires key != RowKey(row, rep)
    ensures StateOf(EvalRow(t, row, rep, distance).states, key) == StateOf(t.states, key)
  {
    var t' := EvalRow(t, row, rep, distance);
    match FindState(t.states, RowKey(row, rep))
    case None =>
      var x := t'.states[|t.states|];
      assert t'.states == t.states + [x];
      FindStateAppend(t.states, x, key);
      var r := FindState(t.states, key);
      if r.Some? { assert t'.states[r.value] == t.states[r.value]; }
    case Some(k) =>
      var x := t'.states[k];
      assert t'.states == t.states[k := x];
      FindStateUpdate(t.states, k, x, key);
      var r := FindState(t.states, key);
      if r.Some? { assert r.value != k; }
  }

  /** After one step the state of its own triple holds the current
      classification and location. */
  lemma EvalRowSets(t: Tables, row: Row, rep: Report, distance: Distance)
    ensures var s := StateOf(EvalRow(t, row, rep, distance).states, RowKey(row, rep));
      s.Some? && s.value.isInside == InsideNow(row, rep, distance) && s.value.lastLocationId == rep.locationId
  {
    var key := RowKey(row, rep);
    var t' := EvalRow(t, row, rep, distance);
    match FindState(t.states, key)
    case None =>
      assert t'.states == t.states + [t'.states[|t.states|]];
      assert Key(t'.states[|t.states|]) == key;
      assert forall j :: 0 <= j < |t.states| ==> t'.states[j] == t.states[j];
    case Some(k) =>
      assert Key(t'.states[k]) == key;
      assert forall j :: 0 <= j < k ==> t'.states[j] == t.states[j];
  }

  /** One step keeps the tables valid and never lowers the counter. */
  lemma EvalRowValid(t: Tables, row: Row, rep: Report, distance: Distance)
    requires TablesValid(t)
    ensures TablesValid(EvalRow(t, row, rep, distance))
    ensures EvalRow(t, row, rep, distance).nextId >= t.nextId
  {
    var t' := EvalRow(t, row, rep, distance);
    var key := RowKey(row, rep);
    match FindState(t.states, key)
    case None =>
      var x := t'.states[|t.states|];
      assert t'.states == t.states + [x];
      assert StateIds(t'.states) == StateIds(t.states) + [t.nextId];
      AppendFresh(StateIds(t.states), t.nextId);
      FreshRaise(AlertIds(t.alerts), t.nextId, t'.nextId);
      forall i, j | 0 <= i < j < |t'.states| ensures Key(t'.states[i]) != Key(t'.states[j]) {
        if j < |t.states| {
          assert t'.states[i] == t.states[i] && t'.states[j] == t.states[j];
        } else {
          assert t'.states[i] == t.states[i];
        }
      }
    case Some(k) =>
      assert StateIds(t'.states) == StateIds(t.states);
      assert forall i :: 0 <= i < |t.states| ==> Key(t'.states[i]) == Key(t.states[i]);
      FreshRaise(StateIds(t.states), t.nextId, t'.nextId);
      if |t'.alerts| == |t.alerts| {
        assert t'.alerts == t.alerts;
      } else {
        assert AlertIds(t'.alerts) == AlertIds(t.alerts) + [t.nextId];
        AppendFresh(AlertIds(t.alerts), t.nextId);
      }
  }

  // ---------------------------------------------------------------------
  // Properties of the whole evaluation

  lemma {:induction false} EvalRowsValid(rows: seq<Row>, t: Tables, rep: Report, distance: Distance)
    requires TablesValid(t)
    ensures TablesValid(EvalRows(rows, t, rep, distance))
    ensures EvalRows(rows, t, rep, distance).nextId >= t.nextId
  {
    if rows != [] {
      EvalRowsValid(rows[..|rows| - 1], t, rep, distance);
      EvalRowValid(EvalRows(rows[..|rows| - 1], t, rep, distance), rows[|rows| - 1], rep, distance);
    }
  }

  /** After the evaluation, every evaluated triple's state holds the
      classification of this report and this report's location id. */
  lemma {:induction false} EvalRowsReflect(rows: seq<Row>, t: Tables, rep: Report, distance: Distance, i: nat)
    requires RowsDistinct(rows) && i < |rows|
    ensures var s := StateOf(EvalRows(rows, t, rep, distance).states, RowKey(rows[i], rep));
      s.Some? && s.value.isInside == InsideNow(rows[i], rep, distance)
      && s.value.lastLocationId == rep.locationId
  {
    var init := rows[..|rows| - 1];
    var prev := EvalRows(init, t, rep, distance);
    if i == |rows| - 1 {
      EvalRowSets(prev, rows[i], rep, distance);
    } else {
      assert RowsDistinct(init) by {
        forall a, b | 0 <= a < b < |init| ensures
          (init[a].consentId, init[a].geofenceId) != (init[b].consentId, init[b].geofenceId)
        {
          assert init[a] == rows[a] && init[b] == rows[b];
        }
      }
      assert init[i] == rows[i];
      EvalRowsReflect(init, t, rep, distance, i);
      EvalRowFrame(prev, rows[|rows| - 1], rep, distance, RowKey(rows[i], rep));
    }
  }

  /** The evaluation leaves the state of every triple it does not evaluate
      as it was; in particular those of other tracked users. */
  lemma {:induction false} EvalRowsFrame(rows: seq<Row>, t: Tables, rep: Report, distance: Distance,
                                         key: (nat, nat, nat))
    requires forall r :: r in rows ==> RowKey(r, rep) != key
    ensures StateOf(EvalRows(rows, t, rep, distance).states, key) == StateOf(t.states, key)
  {
    if rows != [] {
      var init := rows[..|rows| - 1];
      assert forall r :: r in init ==> r in rows;
      EvalRowsFrame(init, t, rep, distance, key);
      EvalRowFrame(EvalRows(init, t, rep, distance), rows[|rows| - 1], rep, distance, key);
    }
  }

  /** The evaluation only appends alerts, at most one per row; each is
      about the reporting user and a (consent, geofence) pair of some row,
      and goes to that row's requester. */
  lemma {:induction false} EvalRowsAlerts(rows: seq<Row>, t: Tables, rep: Report, distance: Distance)
    ensures var t' := EvalRows(rows, t, rep, distance);
      && |t.alerts| <= |t'.alerts| <= |t.alerts| + |rows|
      && t'.alerts[..|t.alerts|] == t.alerts
      && forall k :: |t.alerts| <= k < |t'.alerts| ==>
           t'.alerts[k].trackedUserId == rep.trackedUserId
           && exists r :: r in rows && t'.alerts[k].consentId == r.consentId
                && t'.alerts[k].geofenceId == r.geofenceId && t'.alerts[k].userId == r.requesterUserId
  {
    if rows != [] {
      var init := rows[..|rows| - 1];
      var last := rows[|rows| - 1];
      EvalRowsAlerts(init, t, rep, distance);
      var prev := EvalRows(init, t, rep, distance);
      var t' := EvalRow(prev, last, rep, distance);
      assert t'.alerts[..|prev.alerts|] == prev.alerts;
      forall k | |t.alerts| <= k < |t'.alerts| ensures
        t'.alerts[k].trackedUserId == rep.trackedUserId
        && exists r :: r in rows && t'.alerts[k].consentId == r.consentId
             && t'.alerts[k].geofenceId == r.geofenceId && t'.alerts[k].userId == r.requesterUserId
      {
        if k < |prev.alerts| {
          assert t'.alerts[k] == prev.alerts[k];
          var r :| r in init && prev.alerts[k].consentId == r.consentId
            && prev.alerts[k].geofenceId == r.geofenceId && prev.alerts[k].userId == r.requesterUserId;
          assert r in rows;
        } else {
          assert last in rows;
        }
      }
    }
  }

  // ---------------------------------------------------------------------
  // What one report touches

  /** The join produces a row for this (consent, geofence) pair. */
  predicate Evaluated(cs: seq<Consent>, gs: seq<Geofence>, trackedUserId: nat, consentId: nat, geofenceId: nat) {
    exists i, j :: 0 <= i < |cs| && 0 <= j < |gs| && Tracks(cs[i], trackedUserId)
      && gs[j].consentId == cs[i].id && cs[i].id == consentId && gs[j].id == geofenceId
  }

  /** Only the states of the reporting user under active consents and their
      geofences can change; every other state is left as it was. */
  lemma EvaluationScope(cs: seq<Consent>, gs: seq<Geofence>, t: Tables, rep: Report, distance: Distance,
                        key: (nat, nat, nat))
    requires key.2 != rep.trackedUserId || !Evaluated(cs, gs, rep.trackedUserId, key.0, key.1)
    ensures StateOf(EvalRows(JoinRows(cs, gs, rep.trackedUserId), t, rep, distance).states, key)
         == StateOf(t.states, key)
  {
    var rows := JoinRows(cs, gs, rep.trackedUserId);
    forall r | r in rows ensures RowKey(r, rep) != key {
      JoinRowsMembers(cs, gs, rep.trackedUserId, r);
    }
    EvalRowsFrame(rows, t, rep, distance, key);
  }

  /** The alert is about the reporting user and names an active consent
      whose recipient is that user, the consent's requester and one of the
      consent's geofences. */
  predicate AlertFromJoin(cs: seq<Consent>, gs: seq<Geofence>, trackedUserId: nat, a: Alert) {
    a.trackedUserId == trackedUserId &&
    exists i, j :: 0 <= i < |cs| && 0 <= j < |gs| && Tracks(cs[i], trackedUserId)
      && gs[j].consentId == cs[i].id
      && a.userId == cs[i].requesterUserId && a.consentId == cs[i].id && a.geofenceId == gs[j].id
  }

  /** Every alert a report raises goes to the requester of an active
      consent whose recipient is the reporting user. */
  lemma EvaluationAlerts(cs: seq<Consent>, gs: seq<Geofence>, t: Tables, rep: Report, distance: Distance)
    ensures var t' := EvalRows(JoinRows(cs, gs, rep.trackedUserId), t, rep, distance);
      forall k :: |t.alerts| <= k < |t'.alerts| ==> AlertFromJoin(cs, gs, rep.trackedUserId, t'.alerts[k])
  {
    var rows := JoinRows(cs, gs, rep.trackedUserId);
    var t' := EvalRows(rows, t, rep, distance);
    EvalRowsAlerts(rows, t, rep, distance);
    forall k | |t.alerts| <= k < |t'.alerts| ensures AlertFromJoin(cs, gs, rep.trackedUserId, t'.alerts[k]) {
      var r :| r in rows && t'.alerts[k].consentId == r.consentId
        && t'.alerts[k].geofenceId == r.geofenceId && t'.alerts[k].userId == r.requesterUserId;
      JoinRowsMembers(cs, gs, rep.trackedUserId, r);
    }
  }
}
