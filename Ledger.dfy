/** The decision rules of the consent and geofence handlers of
    backend/api.php: what each request is checked against, in the order the
    handler checks it, and the record it writes when every check passes. */
module Ledger {
  import opened Wrappers
  import opened Text
  import opened Helpers
  import opened Records

  // ---------------------------------------------------------------------
  // POST /consents/request

  /** The `permissions` member of the request body: absent (or null), some
      value that is not an array, or an array (a JSON object decodes to an
      array too; its values are kept in order). */
  datatype PermissionsField = Absent | NotAList | Items(values: seq<string>)

  /** `$input['permissions'] ?? ['location']` when it is acceptable. */
  function RequestedPermissions(p: PermissionsField): Option<seq<string>> {
    match p
    case Absent => Some(["location"])
    case NotAList => None
    case Items(vs) => if vs == [] then None else Some(vs)
  }

  /** Validation of a consent request: the permissions are checked first,
      then the normalised recipient phone. On success, the phone and the
      permissions to store. */
  function CheckConsentRequest(recipientPhoneRaw: string, permissions: PermissionsField)
    : (r: Result<(string, seq<string>), Failure>)
    ensures r.Ok? <==>
      RequestedPermissions(permissions).Some? && IsValidE164(NormalizePhone(recipientPhoneRaw))
    ensures RequestedPermissions(permissions).None? ==>
      r == Err(Failure(422, "permissions must be a non-empty array"))
    ensures RequestedPermissions(permissions).Some? && !IsValidE164(NormalizePhone(recipientPhoneRaw)) ==>
      r == Err(Failure(422, "recipient_phone must be valid E.164"))
    ensures r.Ok? ==> IsCanonical(r.value.0) && IsValidE164(r.value.0) && r.value.1 != []
    ensures r.Ok? && permissions.Absent? ==> r.value.1 == ["location"]
  {
    var phone := NormalizePhone(recipientPhoneRaw);
    match RequestedPermissions(permissions)
    case None => Err(Failure(422, "permissions must be a non-empty array"))
    case Some(perms) =>
      if !IsValidE164(phone) then Err(Failure(422, "recipient_phone must be valid E.164"))
      else Ok((phone, perms))
  }

  /** The row inserted by a successful request: pending, with the recipient
      bound when a user with that phone already exists. */
  function NewConsent(id: nat, requesterId: nat, recipient: Option<User>, phone: string,
                      permissions: seq<string>, now: Timestamp): (c: Consent)
    ensures c.status == Pending && c.id == id && c.requesterUserId == requesterId
    ensures c.recipientUserId == (if recipient.Some? then Some(recipient.value.id) else None)
    ensures c.acceptedAt.None? && c.declinedAt.None?
  {
    Consent(id, requesterId, if recipient.Some? then Some(recipient.value.id) else None,
            phone, permissions, Pending, now, None, None, now)
  }

  // ---------------------------------------------------------------------
  // POST /consents/{id}/respond

  /** `strtolower($action)` must be `accept` (Some(true)) or `decline`
      (Some(false)). */
  function ParseAction(raw: string): (r: Option<bool>)
    ensures r == Some(true) <==> ToLower(raw) == "accept"
    ensures r == Some(false) <==> ToLower(raw) == "decline"
  {
    var a := ToLower(raw);
    if a == "accept" then Some(true) else if a == "decline" then Some(false) else None
  }

  /** The authorisation and the write of the respond handler, for an
      existing consent. The prior status is not consulted. */
  function RespondDecision(c: Consent, actor: Actor, accept: bool, now: Timestamp)
    : (r: Result<Consent, Failure>)
    ensures r.Err? <==>
      (BoundRecipient(c) > 0 && BoundRecipient(c) != actor.id)
      || (BoundRecipient(c) == 0 && c.recipientPhone != actor.phone)
    ensures BoundRecipient(c) > 0 && BoundRecipient(c) != actor.id ==>
      r == Err(Failure(403, "Only the recipient can respond"))
    ensures BoundRecipient(c) == 0 && c.recipientPhone != actor.phone ==>
      r == Err(Failure(403, "Recipient phone mismatch"))
    // whoever may respond ends up as the bound recipient ...
    ensures r.Ok? ==> r.value.recipientUserId == Some(actor.id)
    // ... and an already-bound recipient is never replaced
    ensures r.Ok? && BoundRecipient(c) > 0 ==> r.value.recipientUserId == c.recipientUserId
    ensures r.Ok? ==> (r.value.status == Active <==> accept)
    ensures r.Ok? ==> (r.value.status == Declined <==> !accept)
    ensures r.Ok? ==> r.value.acceptedAt == (if accept then Some(now) else None)
    ensures r.Ok? ==> r.value.declinedAt == (if accept then None else Some(now))
    ensures r.Ok? ==> r.value.updatedAt == now
    ensures r.Ok? ==>
      && r.value.id == c.id && r.value.requesterUserId == c.requesterUserId
      && r.value.recipientPhone == c.recipientPhone && r.value.permissions == c.permissions
      && r.value.requestedAt == c.requestedAt
  {
    var recipientUserId := BoundRecipient(c);
    if recipientUserId > 0 && recipientUserId != actor.id then
      Err(Failure(403, "Only the recipient can respond"))
    else if recipientUserId == 0 && c.recipientPhone != actor.phone then
      Err(Failure(403, "Recipient phone mismatch"))
    else
      var assign := if recipientUserId == 0 then actor.id else recipientUserId;
      Ok(c.(recipientUserId := Some(assign),
            status := if accept then Active else Declined,
            acceptedAt := if accept then Some(now) else None,
            declinedAt := if accept then None else Some(now),
            updatedAt := now))
  }

  /** Responding does not depend on the consent's current status: a
      declined or revoked consent answers exactly as a pending one. */
  lemma RespondIgnoresStatus(c: Consent, prior: Status, actor: Actor, accept: bool, now: Timestamp)
    ensures RespondDecision(c.(status := prior), actor, accept, now)
         == RespondDecision(c, actor, accept, now)
  {
  }

  /** So the recipient of a revoked consent can make it active again. */
  lemma RevokedConsentCanBeReaccepted(c: Consent, actor: Actor, now: Timestamp)
    requires c.status == Revoked && c.recipientUserId == Some(actor.id) && actor.id > 0
    ensures RespondDecision(c, actor, true, now).Ok?
    ensures RespondDecision(c, actor, true, now).value.status == Active
  {
  }

  /** Declining after accepting clears accepted_at, and accepting after
      declining clears declined_at. */
  lemma RespondOverwritesStamps(c: Consent, actor: Actor, t1: Timestamp, t2: Timestamp)
    requires RespondDecision(c, actor, true, t1).Ok?
    ensures var accepted := RespondDecision(c, actor, true, t1).value;
      RespondDecision(accepted, actor, false, t2).Ok?
      && RespondDecision(accepted, actor, false, t2).value.acceptedAt.None?
      && RespondDecision(accepted, actor, false, t2).value.declinedAt == Some(t2)
  {
  }

  // ---------------------------------------------------------------------
  // POST /consents/{id}/revoke

  /** Only the requester may revoke; revoking always sets `revoked`. */
  function RevokeDecision(c: Consent, actor: Actor, now: Timestamp): (r: Result<Consent, Failure>)
    ensures r.Err? <==> c.requesterUserId != actor.id
    ensures r.Err? ==> r.error == Failure(403, "Only requester can revoke this consent")
    ensures r.Ok? ==> r.value.status == Revoked && r.value.updatedAt == now
    ensures r.Ok? ==> r.value.(status := c.status, updatedAt := c.updatedAt) == c
  {
    if c.requesterUserId != actor.id then Err(Failure(403, "Only requester can revoke this consent"))
    else Ok(c.(status := Revoked, updatedAt := now))
  }

  /** Revoking is idempotent: revoking a revoked consent succeeds again and
      changes nothing but the update stamp. */
  lemma RevokeIdempotent(c: Consent, actor: Actor, t1: Timestamp, t2: Timestamp)
    requires RevokeDecision(c, actor, t1).Ok?
    ensures var once := RevokeDecision(c, actor, t1).value;
      RevokeDecision(once, actor, t2) == Ok(once.(updatedAt := t2))
  {
  }

  // ---------------------------------------------------------------------
  // POST /geofences

  predicate ValidCoordinates(lat: real, lng: real) {
    !(lat < -90.0 || lat > 90.0 || lng < -180.0 || lng > 180.0)
  }

  /** `assertConsentOwnedByRequester`: the first consent with this id and
      this requester. */
  function FindOwnedConsent(cs: seq<Consent>, id: int, requesterId: nat): (r: Option<nat>)
    ensures r.Some? ==> r.value < |cs| && cs[r.value].id == id && cs[r.value].requesterUserId == requesterId
    ensures r.Some? ==> forall k :: 0 <= k < r.value ==> !(cs[k].id == id && cs[k].requesterUserId == requesterId)
    ensures r.None? <==> forall k :: 0 <= k < |cs| ==> !(cs[k].id == id && cs[k].requesterUserId == requesterId)
  {
    if |cs| == 0 then None
    else if cs[0].id == id && cs[0].requesterUserId == requesterId then Some(0)
    else match FindOwnedConsent(cs[1..], id, requesterId)
      case None => None
      case Some(k) => Some(k + 1)
  }

  /** Validation of a geofence creation, in the handler's order; on
      success, the position of the owning consent. `name` is already
      trimmed. */
  function CheckGeofence(cs: seq<Consent>, actorId: nat, consentId: int, name: string,
                         lat: real, lng: real, radiusM: real): (r: Result<nat, Failure>)
    ensures r.Ok? <==>
      && consentId > 0 && name != "" && radiusM > 0.0 && ValidCoordinates(lat, lng)
      && FindOwnedConsent(cs, consentId, actorId).Some?
      && cs[FindOwnedConsent(cs, consentId, actorId).value].status == Active
    ensures r.Ok? ==>
      && r.value < |cs| && cs[r.value].id == consentId
      && cs[r.value].requesterUserId == actorId && cs[r.value].status == Active
    ensures consentId <= 0 || name == "" || radiusM <= 0.0 ==>
      r == Err(Failure(422, "consent_id, name and radius_m are required"))
    ensures consentId > 0 && name != "" && radiusM > 0.0 && !ValidCoordinates(lat, lng) ==>
      r == Err(Failure(422, "Invalid latitude/longitude"))
    ensures r.Err? && r.error.status == 404 <==>
      consentId > 0 && name != "" && radiusM > 0.0 && ValidCoordinates(lat, lng)
      && FindOwnedConsent(cs, consentId, actorId).None?
    ensures (consentId > 0 && name != "" && radiusM > 0.0 && ValidCoordinates(lat, lng)
             && FindOwnedConsent(cs, consentId, actorId).None?) ==>
      r == Err(Failure(404, "Consent not found or not owned by requester"))
    ensures (consentId > 0 && name != "" && radiusM > 0.0 && ValidCoordinates(lat, lng)
             && FindOwnedConsent(cs, consentId, actorId).Some?
             && cs[FindOwnedConsent(cs, consentId, actorId).value].status != Active) ==>
      r == Err(Failure(409, "Consent must be active before adding geofences"))
  {
    if consentId <= 0 || name == "" || radiusM <= 0.0 then
      Err(Failure(422, "consent_id, name and radius_m are required"))
    else if !ValidCoordinates(lat, lng) then
      Err(Failure(422, "Invalid latitude/longitude"))
    else match FindOwnedConsent(cs, consentId, actorId)
      case None => Err(Failure(404, "Consent not found or not owned by requester"))
      case Some(k) =>
        if cs[k].status != Active then Err(Failure(409, "Consent must be active before adding geofences"))
        else Ok(k)
  }

  // ---------------------------------------------------------------------
  // POST /location/update and GET /tracking/live

  /** Validation of a location report: coordinates first, then the battery
      level when one is given. None when the report is accepted. */
  function CheckLocation(lat: real, lng: real, battery: Option<int>): (r: Option<Failure>)
    ensures r.None? <==> ValidCoordinates(lat, lng) && (battery.Some? ==> 0 <= battery.value <= 100)
    ensures !ValidCoordinates(lat, lng) ==> r == Some(Failure(422, "Invalid latitude/longitude"))
    ensures ValidCoordinates(lat, lng) && r.Some? ==>
      r == Some(Failure(422, "battery must be between 0 and 100"))
  {
    if !ValidCoordinates(lat, lng) then Some(Failure(422, "Invalid latitude/longitude"))
    else if battery.Some? && (battery.value < 0 || battery.value > 100) then
      Some(Failure(422, "battery must be between 0 and 100"))
    else None
  }

  /** `trim((string) ($input['activity'] ?? 'unknown'))`. */
  function ActivityLabel(raw: Option<string>): string {
    PhpTrim(raw.GetOr("unknown"))
  }

  /** The history limit of /tracking/live: 20 unless a value in 1..200 is
      given. */
  function HistoryLimit(raw: Option<int>): (r: int)
    ensures 1 <= r <= 200
    ensures raw.Some? && 1 <= raw.value <= 200 ==> r == raw.value
    ensures !(raw.Some? && 1 <= raw.value <= 200) ==> r == 20
  {
    var limit := raw.GetOr(20);
    if limit < 1 || limit > 200 then 20 else limit
  }
}
