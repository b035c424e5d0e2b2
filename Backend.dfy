/** The PHP backend's state: the tables of backend/api.php held as
    sequences in one object, and the handlers that change them step by
    step. Each handler is proved against the decision functions of
    Ledger.dfy and the tracker functions of Tracker.dfy. */
module Backend {
  import opened Wrappers
  import opened Text
  import opened Helpers
  import opened Records
  import opened Ledger
  import opened Tracker
  import opened Feed

  class Store {
    var users: seq<User>
    var consents: seq<Consent>
    var geofences: seq<Geofence>
    var states: seq<GeofenceState>
    var locations: seq<Location>
    var alerts: seq<Alert>
    /** The auto-increment counter; every inserted row takes the next id. */
    var nextId: nat

    /** Ids are handed out in row order and never reused, and there is at
        most one geofence state per (consent, geofence, tracked user). */
    ghost predicate Valid()
      reads this
    {
      && IdsFresh(ConsentIds(consents), nextId)
      && IdsFresh(GeofenceIds(geofences), nextId)
      && IdsFresh(LocationIds(locations), nextId)
      && TablesValid(Tables(states, alerts, nextId))
    }

    constructor(users: seq<User>)
      ensures Valid()
      ensures this.users == users && consents == [] && geofences == [] && states == []
      ensures locations == [] && alerts == [] && nextId == 1
    {
      this.users := users;
      consents, geofences, states, locations, alerts := [], [], [], [], [];
      nextId := 1;
    }

    /** A larger counter keeps every table fresh. */
    lemma FreshAbove(ids: seq<nat>, lo: nat, hi: nat)
      requires IdsFresh(ids, lo) && lo <= hi
      ensures IdsFresh(ids, hi)
    {
    }

    // -------------------------------------------------------------------
    // POST /consents/request

    /** Inserts a pending consent for a valid request; the recipient is
        bound when a user with the normalised phone exists. */
    method RequestConsent(actorId: nat, recipientPhoneRaw: string, permissions: PermissionsField,
                          now: Timestamp) returns (r: Result<nat, Failure>)
      requires Valid()
      modifies this
      ensures Valid()
      ensures CheckConsentRequest(recipientPhoneRaw, permissions).Err? ==>
        r == Err(CheckConsentRequest(recipientPhoneRaw, permissions).error) && unchanged(this)
      ensures CheckConsentRequest(recipientPhoneRaw, permissions).Ok? ==>
        var (phone, perms) := CheckConsentRequest(recipientPhoneRaw, permissions).value;
        && r == Ok(old(nextId))
        && consents == old(consents) + [NewConsent(old(nextId), actorId, GetUserByPhone(users, phone),
                                                   phone, perms, now)]
        && nextId == old(nextId) + 1
      ensures users == old(users) && geofences == old(geofences) && states == old(states)
      ensures locations == old(locations) && alerts == old(alerts)
    {
      var check := CheckConsentRequest(recipientPhoneRaw, permissions);
      if check.Err? {
        return Err(check.error);
      }
      var (phone, perms) := check.value;
      var recipient := GetUserByPhone(users, phone);
      var id := nextId;
      consents := consents + [NewConsent(id, actorId, recipient, phone, perms, now)];
      nextId := nextId + 1;
      FreshAbove(GeofenceIds(geofences), id, nextId);
      FreshAbove(LocationIds(locations), id, nextId);
      FreshAbove(StateIds(states), id, nextId);
      FreshAbove(AlertIds(alerts), id, nextId);
      r := Ok(id);
    }

    // -------------------------------------------------------------------
    // POST /consents/{id}/respond

    /** Checks the action, then that the consent exists, then the
        authorisation of RespondDecision; on success rewrites the consent in
        place, whatever its prior status. */
    method RespondConsent(actor: Actor, consentId: nat, action: string, now: Timestamp)
      returns (r: Result<Status, Failure>)
      requires Valid()
      modifies this
      ensures Valid()
      ensures ParseAction(action).None? ==>
        r == Err(Failure(422, "action must be accept or decline")) && unchanged(this)
      ensures ParseAction(action).Some? && FindConsent(old(consents), consentId).None? ==>
        r == Err(Failure(404, "Consent not found")) && unchanged(this)
      ensures ParseAction(action).Some? && FindConsent(old(consents), consentId).Some? ==>
        var k := FindConsent(old(consents), consentId).value;
        match RespondDecision(old(consents)[k], actor, ParseAction(action).value, now)
        case Err(f) => r == Err(f) && unchanged(this)
        case Ok(c) => r == Ok(c.status) && consents == old(consents)[k := c]
      ensures users == old(users) && geofences == old(geofences) && states == old(states)
      ensures locations == old(locations) && alerts == old(alerts) && nextId == old(nextId)
    {
      var accept := ParseAction(action);
      if accept.None? {
        return Err(Failure(422, "action must be accept or decline"));
      }
      var found := FindConsent(consents, consentId);
      if found.None? {
        return Err(Failure(404, "Consent not found"));
      }
      var k := found.value;
      var decision := RespondDecision(consents[k], actor, accept.value, now);
      if decision.Err? {
        return Err(decision.error);
      }
      consents := consents[k := decision.value];
      assert ConsentIds(consents) == ConsentIds(old(consents));
      r := Ok(decision.value.status);
    }

    // -------------------------------------------------------------------
    // POST /consents/{id}/revoke

    /** Checks that the consent exists and that the actor is its requester;
        then sets it revoked, whatever its prior status. */
    method RevokeConsent(actor: Actor, consentId: nat, now: Timestamp) returns (r: Result<Status, Failure>)
      requires Valid()
      modifies this
      ensures Valid()
      ensures FindConsent(old(consents), consentId).None? ==>
        r == Err(Failure(404, "Consent not found")) && unchanged(this)
      ensures FindConsent(old(consents), consentId).Some? ==>
        var k := FindConsent(old(consents), consentId).value;
        match RevokeDecision(old(consents)[k], actor, now)
        case Err(f) => r == Err(f) && unchanged(this)
        case Ok(c) => r == Ok(Revoked) && consents == old(consents)[k := c]
      ensures users == old(users) && geofences == old(geofences) && states == old(states)
      ensures locations == old(locations) && alerts == old(alerts) && nextId == old(nextId)
    {
      var found := FindConsent(consents, consentId);
      if found.None? {
        return Err(Failure(404, "Consent not found"));
      }
      var k := found.value;
      var decision := RevokeDecision(consents[k], actor, now);
      if decision.Err? {
        return Err(decision.error);
      }
      consents := consents[k := decision.value];
      assert ConsentIds(consents) == ConsentIds(old(consents));
      r := Ok(Revoked);
    }

    // -------------------------------------------------------------------
    // POST /geofences

    /** Inserts a geofence on an active consent the actor requested. The
        notify flags are the values `boolField` read, defaulting to true. */
    method CreateGeofence(actorId: nat, consentId: int, nameRaw: string, lat: real, lng: real,
                          radiusM: real, notifyOnEnter: bool, notifyOnExit: bool, now: Timestamp)
      returns (r: Result<nat, Failure>)
      requires Valid()
      modifies this
      ensures Valid()
      ensures var check := CheckGeofence(old(consents), actorId, consentId, PhpTrim(nameRaw), lat, lng, radiusM);
        && (check.Err? ==> r == Err(check.error) && unchanged(this))
        && (check.Ok? ==>
              && r == Ok(old(nextId)) && nextId == old(nextId) + 1
              && geofences == old(geofences) + [Geofence(old(nextId), consentId as nat, PhpTrim(nameRaw),
                                                         lat, lng, radiusM, notifyOnEnter, notifyOnExit, now, now)])
      ensures users == old(users) && consents == old(consents) && states == old(states)
      ensures locations == old(locations) && alerts == old(alerts)
    {
      var name := PhpTrim(nameRaw);
      var check := CheckGeofence(consents, actorId, consentId, name, lat, lng, radiusM);
      if check.Err? {
        return Err(check.error);
      }
      var id := nextId;
      geofences := geofences + [Geofence(id, consentId as nat, name, lat, lng, radiusM,
                                         notifyOnEnter, notifyOnExit, now, now)];
      nextId := nextId + 1;
      FreshAbove(ConsentIds(consents), id, nextId);
      FreshAbove(LocationIds(locations), id, nextId);
      FreshAbove(StateIds(states), id, nextId);
      FreshAbove(AlertIds(alerts), id, nextId);
      r := Ok(id);
    }

    // -------------------------------------------------------------------
    // POST /location/update

    /** Stores a valid report and evaluates the reporter's geofences. */
    method RecordLocation(actorId: nat, lat: real, lng: real, accuracyM: Option<real>,
                          speedMps: Option<real>, battery: Option<int>, activity: Option<string>,
                          now: Timestamp, distance: Distance) returns (r: Result<nat, Failure>)
      requires Valid()
      modifies this
      ensures Valid()
      ensures CheckLocation(lat, lng, battery).Some? ==>
        r == Err(CheckLocation(lat, lng, battery).value) && unchanged(this)
      ensures CheckLocation(lat, lng, battery).None? ==>
        var id := old(nextId);
        var t := EvalRows(JoinRows(old(consents), old(geofences), actorId),
                          Tables(old(states), old(alerts), id + 1),
                          Report(actorId, id, lat, lng, now), distance);
        && r == Ok(id)
        && locations == old(locations) + [Location(id, actorId, lat, lng, accuracyM, speedMps, battery,
                                                   ActivityLabel(activity), now)]
        && states == t.states && alerts == t.alerts && nextId == t.nextId
      ensures users == old(users) && consents == old(consents) && geofences == old(geofences)
    {
      var activityStatus := ActivityLabel(activity);
      var failure := CheckLocation(lat, lng, battery);
      if failure.Some? {
        return Err(failure.value);
      }
      var id := nextId;
      locations := locations + [Location(id, actorId, lat, lng, accuracyM, speedMps, battery, activityStatus, now)];
      nextId := nextId + 1;
      assert LocationIds(locations) == LocationIds(old(locations)) + [id];
      AppendFresh(LocationIds(old(locations)), id);
      FreshAbove(ConsentIds(consents), id, nextId);
      FreshAbove(GeofenceIds(geofences), id, nextId);
      FreshAbove(StateIds(states), id, nextId);
      FreshAbove(AlertIds(alerts), id, nextId);
      ghost var start := Tables(states, alerts, nextId);
      assert start == Tables(old(states), old(alerts), id + 1);
      EvaluateGeofences(actorId, id, lat, lng, now, distance);
      r := Ok(id);
    }

    /** `evaluateGeofences`: the foreach over the join, one row at a time,
        computes EvalRows. */
    method EvaluateGeofences(trackedUserId: nat, locationId: nat, lat: real, lng: real,
                             now: Timestamp, distance: Distance)
      requires Valid()
      modifies this
      ensures Valid()
      ensures var t := EvalRows(JoinRows(consents, geofences, trackedUserId),
                                Tables(old(states), old(alerts), old(nextId)),
                                Report(trackedUserId, locationId, lat, lng, now), distance);
        states == t.states && alerts == t.alerts && nextId == t.nextId
      ensures users == old(users) && consents == old(consents) && geofences == old(geofences)
      ensures locations == old(locations)
    {
      var rows := JoinRows(consents, geofences, trackedUserId);
      if rows == [] {
        return;
      }
      ghost var start := Tables(states, alerts, nextId);
      var rep := Report(trackedUserId, locationId, lat, lng, now);
      var i := 0;
      while i < |rows|
        invariant 0 <= i <= |rows|
        invariant Tables(states, alerts, nextId) == EvalRows(rows[..i], start, rep, distance)
        invariant TablesValid(Tables(states, alerts, nextId)) && nextId >= old(nextId)
        invariant users == old(users) && consents == old(consents) && geofences == old(geofences)
        invariant locations == old(locations)
      {
        EvaluateRow(rows[i], rep, distance);
        assert rows[..i + 1][..i] == rows[..i];
        i := i + 1;
      }
      assert rows[..|rows|] == rows;
      FreshAbove(ConsentIds(consents), old(nextId), nextId);
      FreshAbove(GeofenceIds(geofences), old(nextId), nextId);
      FreshAbove(LocationIds(locations), old(nextId), nextId);
    }

    /** One iteration of the foreach: read the state of the row's triple,
        then insert it, or raise the alert the transition calls for and
        update it. */
    method EvaluateRow(row: Row, rep: Report, distance: Distance)
      requires TablesValid(Tables(states, alerts, nextId))
      modifies this
      ensures Tables(states, alerts, nextId) == EvalRow(old(Tables(states, alerts, nextId)), row, rep, distance)
      ensures TablesValid(Tables(states, alerts, nextId)) && nextId >= old(nextId)
      ensures users == old(users) && consents == old(consents) && geofences == old(geofences)
      ensures locations == old(locations)
    {
      ghost var before := Tables(states, alerts, nextId);
      EvalRowValid(before, row, rep, distance);
      var insideNow := distance(rep.lat, rep.lng, row.centerLat, row.centerLng) <= row.radiusM;
      var found := FindState(states, (row.consentId, row.geofenceId, rep.trackedUserId));
      if found.None? {
        states := states + [GeofenceState(nextId, row.consentId, row.geofenceId, rep.trackedUserId,
                                          insideNow, rep.locationId, rep.at)];
        nextId := nextId + 1;
        return;
      }
      var k := found.value;
      var prior := states[k];
      if prior.isInside != insideNow {
        var shouldNotify := if insideNow then row.notifyOnEnter else row.notifyOnExit;
        if shouldNotify {
          var message := AlertMessage(rep.trackedUserId, insideNow, row.name);
          alerts := alerts + [Alert(nextId, row.requesterUserId, row.consentId, row.geofenceId,
                                    rep.trackedUserId, if insideNow then GeofenceEnter else GeofenceExit,
                                    message, rep.at)];
          nextId := nextId + 1;
        }
      }
      states := states[k := prior.(isInside := insideNow, lastLocationId := rep.locationId, updatedAt := rep.at)];
    }

    // -------------------------------------------------------------------
    // GET /updates/poll

    /** Reads the two selections and advances each cursor over the ids
        returned. Changes nothing. */
    method Poll(actorId: nat, sinceAlertId: int, sinceLocationId: int)
      returns (polledAlerts: seq<Alert>, polledLocations: seq<LocationRow>, alertCursor: int, locationCursor: int)
      ensures polledAlerts == PollAlerts(alerts, actorId, sinceAlertId)
      ensures polledLocations == PollLocations(locations, consents, actorId, sinceLocationId)
      ensures alertCursor == MaxFrom(sinceAlertId, AlertIds(polledAlerts))
      ensures locationCursor == MaxFrom(sinceLocationId, RowIds(polledLocations))
    {
      polledAlerts := PollAlerts(alerts, actorId, sinceAlertId);
      polledLocations := PollLocations(locations, consents, actorId, sinceLocationId);
      alertCursor := AdvanceCursor(sinceAlertId, AlertIds(polledAlerts));
      locationCursor := AdvanceCursor(sinceLocationId, RowIds(polledLocations));
    }
  }
}
