/** The rows of the backend's tables (users, consent_requests, geofences,
    geofence_states, locations, alerts) and the failures its handlers
    answer with. Timestamps are opaque strings supplied by the caller. */
module Records {
  import opened Wrappers

  type Timestamp = string

  /** An HTTP failure: status code and error message. */
  datatype Failure = Failure(status: nat, message: string)

  /** The authenticated caller of a request: its user id and phone. */
  datatype Actor = Actor(id: nat, phone: string)

  datatype User = User(id: nat, name: string, phone: string)

  datatype Status = Pending | Active | Declined | Revoked

  datatype Consent = Consent(
    id: nat,
    requesterUserId: nat,
    recipientUserId: Option<nat>,   // NULL until the recipient is known
    recipientPhone: string,
    permissions: seq<string>,
    status: Status,
    requestedAt: Timestamp,
    acceptedAt: Option<Timestamp>,
    declinedAt: Option<Timestamp>,
    updatedAt: Timestamp)

  /** `(int) ($consent['recipient_user_id'] ?? 0)`: 0 stands for NULL. */
  function BoundRecipient(c: Consent): nat {
    c.recipientUserId.GetOr(0)
  }

  datatype Geofence = Geofence(
    id: nat,
    consentId: nat,
    name: string,
    centerLat: real,
    centerLng: real,
    radiusM: real,
    notifyOnEnter: bool,
    notifyOnExit: bool,
    createdAt: Timestamp,
    updatedAt: Timestamp)

  datatype GeofenceState = GeofenceState(
    id: nat,
    consentId: nat,
    geofenceId: nat,
    trackedUserId: nat,
    isInside: bool,
    lastLocationId: nat,
    updatedAt: Timestamp)

  datatype Location = Location(
    id: nat,
    userId: nat,
    lat: real,
    lng: real,
    accuracyM: Option<real>,
    speedMps: Option<real>,
    batteryPercent: Option<int>,
    activityStatus: string,
    createdAt: Timestamp)

  datatype AlertType = GeofenceEnter | GeofenceExit

  datatype Alert = Alert(
    id: nat,
    userId: nat,
    consentId: nat,
    geofenceId: nat,
    trackedUserId: nat,
    alertType: AlertType,
    message: string,
    createdAt: Timestamp)

  /** The ids of a table, in row order, are strictly increasing and all
      below the next id to be handed out. */
  predicate IdsFresh(ids: seq<nat>, nextId: nat) {
    Increasing(ids) && forall i :: 0 <= i < |ids| ==> ids[i] < nextId
  }

  predicate Increasing(ids: seq<nat>) {
    forall i, j :: 0 <= i < j < |ids| ==> ids[i] < ids[j]
  }

  /** Appending the next id keeps a table fresh for the following one. */
  lemma AppendFresh(ids: seq<nat>, id: nat)
    requires IdsFresh(ids, id)
    ensures IdsFresh(ids + [id], id + 1)
  {
  }

  /** A fresh table stays fresh when the counter moves up. */
  lemma FreshRaise(ids: seq<nat>, nextId: nat, later: nat)
    requires IdsFresh(ids, nextId) && nextId <= later
    ensures IdsFresh(ids, later)
  {
  }

  // The id column of each table. Dafny has no common supertype of these
  // record types to project over, so each table (and the feed's rows and
  // the mock's locations) has its own projection of the same shape.

  function ConsentIds(cs: seq<Consent>): (ids: seq<nat>)
    ensures |ids| == |cs| && forall i :: 0 <= i < |cs| ==> ids[i] == cs[i].id
  {
    seq(|cs|, i requires 0 <= i < |cs| => cs[i].id)
  }

  function GeofenceIds(gs: seq<Geofence>): (ids: seq<nat>)
    ensures |ids| == |gs| && forall i :: 0 <= i < |gs| ==> ids[i] == gs[i].id
  {
    seq(|gs|, i requires 0 <= i < |gs| => gs[i].id)
  }

  function StateIds(ss: seq<GeofenceState>): (ids: seq<nat>)
    ensures |ids| == |ss| && forall i :: 0 <= i < |ss| ==> ids[i] == ss[i].id
  {
    seq(|ss|, i requires 0 <= i < |ss| => ss[i].id)
  }

  function LocationIds(ls: seq<Location>): (ids: seq<nat>)
    ensures |ids| == |ls| && forall i :: 0 <= i < |ls| ==> ids[i] == ls[i].id
  {
    seq(|ls|, i requires 0 <= i < |ls| => ls[i].id)
  }

  function AlertIds(alerts: seq<Alert>): (ids: seq<nat>)
    ensures |ids| == |alerts| && forall i :: 0 <= i < |alerts| ==> ids[i] == alerts[i].id
  {
    seq(|alerts|, i requires 0 <= i < |alerts| => alerts[i].id)
  }

  /** `getUserByPhone`: the first user whose phone is `phone`. */
  function GetUserByPhone(users: seq<User>, phone: string): (r: Option<User>)
    ensures r.Some? ==> r.value in users && r.value.phone == phone
    ensures r.None? <==> forall u :: u in users ==> u.phone != phone
  {
    if users == [] then None
    else if users[0].phone == phone then Some(users[0])
    else GetUserByPhone(users[1..], phone)
  }

  /** The position of the consent with id `id`, if any. */
  function FindConsent(cs: seq<Consent>, id: nat): (r: Option<nat>)
    ensures r.Some? ==> r.value < |cs| && cs[r.value].id == id
    ensures r.Some? ==> forall k :: 0 <= k < r.value ==> cs[k].id != id
    ensures r.None? <==> forall k :: 0 <= k < |cs| ==> cs[k].id != id
  {
    if |cs| == 0 then None
    else if cs[0].id == id then Some(0)
    else match FindConsent(cs[1..], id)
      case None => None
      case Some(k) => Some(k + 1)
  }
}
