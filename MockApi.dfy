/** The in-browser mock backend of api.js over the arrays database.js
    keeps in localStorage, held here as sequences. `Date.now()` (used both
    as the clock and as the id of every new row) and the ISO time stamp are
    parameters. */
module MockApi {
  import opened Wrappers
  import opened Text
  import Feed

  datatype MockUser = MockUser(id: nat, name: string, phone: string, password: string, createdAt: string)

  datatype MockConsent = MockConsent(
    id: nat,
    requesterUserId: nat,
    recipientPhone: string,
    relationship: string,
    permissions: seq<string>,
    status: string,
    createdAt: string,
    updatedAt: string)

  /** The location payload the page sends; the mock stores it as given. */
  datatype LocationData = LocationData(lat: real, lng: real, accuracy: Option<real>, speed: Option<real>,
                                       battery: Option<int>, activity: string)

  datatype MockLocation = MockLocation(id: nat, consentId: nat, userId: nat, data: LocationData, createdAt: string)

  // ---------------------------------------------------------------------
  // database.js lookups

  /** `findUserByPhone`: the first user with this phone. */
  function FindUserByPhone(users: seq<MockUser>, phone: string): (r: Option<MockUser>)
    ensures r.Some? ==> r.value in users && r.value.phone == phone
    ensures r.Some? ==> exists k :: 0 <= k < |users| && users[k] == r.value && forall j :: 0 <= j < k ==> users[j].phone != phone
    ensures r.None? <==> forall u :: u in users ==> u.phone != phone
  {
    if users == [] then None
    else if users[0].phone == phone then Some(users[0])
    else FindUserByPhone(users[1..], phone)
  }

  /** `findUserById`: the first user with this id. */
  function FindUserById(users: seq<MockUser>, id: int): (r: Option<MockUser>)
    ensures r.Some? ==> r.value in users && r.value.id == id
    ensures r.Some? ==> exists k :: 0 <= k < |users| && users[k] == r.value && forall j :: 0 <= j < k ==> users[j].id != id
    ensures r.None? <==> forall u :: u in users ==> u.id != id
  {
    if users == [] then None
    else if users[0].id == id then Some(users[0])
    else FindUserById(users[1..], id)
  }

  /** `consents.find(c => c.id === consentId)`: the first position. */
  function FindMockConsent(cs: seq<MockConsent>, id: int): (r: Option<nat>)
    ensures r.Some? ==> r.value < |cs| && cs[r.value].id == id
    ensures r.Some? ==> forall k :: 0 <= k < r.value ==> cs[k].id != id
    ensures r.None? <==> forall k :: 0 <= k < |cs| ==> cs[k].id != id
  {
    if |cs| == 0 then None
    else if cs[0].id == id then Some(0)
    else match FindMockConsent(cs[1..], id)
      case None => None
      case Some(k) => Some(k + 1)
  }

  // ---------------------------------------------------------------------
  // getConsents

  /** The consent as getConsents returns it, with the two display names. */
  datatype ConsentView = ConsentView(consent: MockConsent, requesterName: string, recipientName: string)

  /** The consents a user sees: those they requested and those sent to
      their phone. */
  predicate Concerns(c: MockConsent, user: MockUser) {
    c.requesterUserId == user.id || c.recipientPhone == user.phone
  }

  function Related(cs: seq<MockConsent>, user: MockUser): (r: seq<MockConsent>)
    ensures forall c :: c in r <==> c in cs && Concerns(c, user)
    ensures |r| <= |cs|
  {
    if cs == [] then []
    else (if Concerns(cs[0], user) then [cs[0]] else []) + Related(cs[1..], user)
  }

  /** `filter` keeps the stored order: the related consents of two runs
      of the table are those of each run, in turn. */
  lemma {:induction false} RelatedAppend(a: seq<MockConsent>, b: seq<MockConsent>, user: MockUser)
    ensures Related(a + b, user) == Related(a, user) + Related(b, user)
  {
    if a != [] {
      assert (a + b)[0] == a[0] && (a + b)[1..] == a[1..] + b;
      RelatedAppend(a[1..], b, user);
      var head := if Concerns(a[0], user) then [a[0]] else [];
      assert Related(a + b, user) == head + Related(a[1..] + b, user);
      assert Related(a, user) == head + Related(a[1..], user);
    } else {
      assert a + b == b;
    }
  }

  function View(users: seq<MockUser>, c: MockConsent): ConsentView {
    var requester := FindUserById(users, c.requesterUserId);
    var recipient := FindUserByPhone(users, c.recipientPhone);
    ConsentView(c, if requester.Some? then requester.value.name else "Unknown",
                if recipient.Some? then recipient.value.name else "Unknown")
  }

  /** `getConsents`: empty for an unknown user, otherwise exactly the
      consents that concern them, in stored order, with names. */
  function GetConsents(users: seq<MockUser>, cs: seq<MockConsent>, userId: int): (r: seq<ConsentView>)
    ensures FindUserById(users, userId).None? ==> r == []
    ensures FindUserById(users, userId).Some? ==>
      var user := FindUserById(users, userId).value;
      && (forall v :: v in r ==> v.consent in cs && Concerns(v.consent, user))
      && (forall c :: c in cs && Concerns(c, user) ==> exists v :: v in r && v.consent == c)
      && |r| == |Related(cs, user)|
      && (forall i :: 0 <= i < |r| ==> r[i] == View(users, Related(cs, user)[i]))
  {
    match FindUserById(users, userId)
    case None => []
    case Some(user) =>
      var related := Related(cs, user);
      var r := seq(|related|, i requires 0 <= i < |related| => View(users, related[i]));
      ViewsCover(users, related, r);
      r
  }

  /** Every consent of `related` is the consent of the view at its position. */
  lemma ViewsCover(users: seq<MockUser>, related: seq<MockConsent>, r: seq<ConsentView>)
    requires |r| == |related| && forall i :: 0 <= i < |related| ==> r[i].consent == related[i]
    ensures forall c :: c in related ==> exists v :: v in r && v.consent == c
  {
    forall c | c in related ensures exists v :: v in r && v.consent == c {
      var i :| 0 <= i < |related| && related[i] == c;
      assert r[i] in r;
    }
  }

  /** A name falls back to `Unknown` only when no user is found: by id
      for the requester, by phone for the recipient. */
  lemma ViewNames(users: seq<MockUser>, c: MockConsent)
    ensures FindUserById(users, c.requesterUserId).Some? ==>
      View(users, c).requesterName == FindUserById(users, c.requesterUserId).value.name
    ensures FindUserById(users, c.requesterUserId).None? ==> View(users, c).requesterName == "Unknown"
    ensures FindUserByPhone(users, c.recipientPhone).Some? ==>
      View(users, c).recipientName == FindUserByPhone(users, c.recipientPhone).value.name
    ensures FindUserByPhone(users, c.recipientPhone).None? ==> View(users, c).recipientName == "Unknown"
  {
  }

  // ---------------------------------------------------------------------
  // updateLocation

  /** The consents a report is recorded against: active, sent to the
      reporter's phone. */
  predicate Receives(c: MockConsent, user: MockUser) {
    c.recipientPhone == user.phone && c.status == "active"
  }

  function Targets(cs: seq<MockConsent>, user: MockUser): (r: seq<MockConsent>)
    ensures forall c :: c in r <==> c in cs && Receives(c, user)
    ensures |r| <= |cs|
  {
    if cs == [] then []
    else (if Receives(cs[0], user) then [cs[0]] else []) + Targets(cs[1..], user)
  }

  /** `filter` keeps stored order: the targets of two runs of the table
      are those of each run, in turn. */
  lemma {:induction false} TargetsAppend(a: seq<MockConsent>, b: seq<MockConsent>, user: MockUser)
    ensures Targets(a + b, user) == Targets(a, user) + Targets(b, user)
  {
    if a != [] {
      assert (a + b)[0] == a[0] && (a + b)[1..] == a[1..] + b;
      TargetsAppend(a[1..], b, user);
      var head := if Receives(a[0], user) then [a[0]] else [];
      assert Targets(a + b, user) == head + Targets(a[1..] + b, user);
      assert Targets(a, user) == head + Targets(a[1..], user);
    } else {
      assert a + b == b;
    }
  }

  /** The first active consent the reporter requested. */
  function FirstRequested(cs: seq<MockConsent>, user: MockUser): (r: Option<MockConsent>)
    ensures r.Some? ==> r.value in cs && r.value.requesterUserId == user.id && r.value.status == "active"
    ensures r.Some? ==> exists k :: 0 <= k < |cs| && cs[k] == r.value &&
                          forall j :: 0 <= j < k ==> !(cs[j].requesterUserId == user.id && cs[j].status == "active")
    ensures r.None? <==> forall c :: c in cs ==> !(c.requesterUserId == user.id && c.status == "active")
  {
    if cs == [] then None
    else if cs[0].requesterUserId == user.id && cs[0].status == "active" then Some(cs[0])
    else FirstRequested(cs[1..], user)
  }

  /** One location per target consent, recorded for the reporter. */
  function LocationsFor(targets: seq<MockConsent>, userId: nat, data: LocationData, now: nat, stamp: string)
    : (r: seq<MockLocation>)
    ensures |r| == |targets|
    ensures forall i :: 0 <= i < |r| ==>
      r[i] == MockLocation(now, targets[i].id, userId, data, stamp)
  {
    seq(|targets|, i requires 0 <= i < |targets| => MockLocation(now, targets[i].id, userId, data, stamp))
  }

  lemma LocationsForSnoc(targets: seq<MockConsent>, i: nat, userId: nat, data: LocationData, now: nat, stamp: string)
    requires i < |targets|
    ensures LocationsFor(targets[..i + 1], userId, data, now, stamp)
         == LocationsFor(targets[..i], userId, data, now, stamp) + [MockLocation(now, targets[i].id, userId, data, stamp)]
  {
    var a := LocationsFor(targets[..i + 1], userId, data, now, stamp);
    var b := LocationsFor(targets[..i], userId, data, now, stamp) + [MockLocation(now, targets[i].id, userId, data, stamp)];
    assert forall k :: 0 <= k < i + 1 ==> a[k] == b[k];
  }

  // ---------------------------------------------------------------------
  // pollUpdates

  datatype MockCursor = MockCursor(sinceAlertId: int, sinceLocationId: int)

  /** The response of pollUpdates; the mock never has alerts. */
  datatype MockPoll = MockPoll(alerts: seq<nat>, locations: seq<MockLocation>, cursor: MockCursor)

  function NewLocations(ls: seq<MockLocation>, relevant: seq<nat>, since: int): (r: seq<MockLocation>)
    ensures forall l :: l in r <==> l in ls && l.id > since && l.consentId in relevant
    ensures |r| <= |ls|
  {
    if ls == [] then []
    else
      var head := if ls[0].id > since && ls[0].consentId in relevant then [ls[0]] else [];
      head + NewLocations(ls[1..], relevant, since)
  }

  /** `filter` keeps stored order: the new locations of two runs of the
      table are those of each run, in turn. */
  lemma {:induction false} NewLocationsAppend(a: seq<MockLocation>, b: seq<MockLocation>, relevant: seq<nat>, since: int)
    ensures NewLocations(a + b, relevant, since) == NewLocations(a, relevant, since) + NewLocations(b, relevant, since)
  {
    if a != [] {
      assert (a + b)[0] == a[0] && (a + b)[1..] == a[1..] + b;
      NewLocationsAppend(a[1..], b, relevant, since);
      var head := if a[0].id > since && a[0].consentId in relevant then [a[0]] else [];
      assert NewLocations(a + b, relevant, since) == head + NewLocations(a[1..] + b, relevant, since);
      assert NewLocations(a, relevant, since) == head + NewLocations(a[1..], relevant, since);
      var x, y := NewLocations(a[1..], relevant, since), NewLocations(b, relevant, since);
      assert head + (x + y) == (head + x) + y;
    } else {
      assert a + b == b;
    }
  }

  function ConsentIdsOf(cs: seq<MockConsent>): (r: seq<nat>)
    ensures forall id :: id in r <==> exists c :: c in cs && c.id == id
  {
    if cs == [] then [] else [cs[0].id] + ConsentIdsOf(cs[1..])
  }

  /** `pollUpdates`: the stored locations after the cursor that belong to a
      consent concerning the user (of any status); the location cursor
      moves to the last one returned. */
  function PollUpdates(users: seq<MockUser>, cs: seq<MockConsent>, ls: seq<MockLocation>, userId: int,
                       sinceAlertId: int, sinceLocationId: int): (r: MockPoll)
    ensures r.alerts == [] && r.cursor.sinceAlertId == sinceAlertId
    ensures FindUserById(users, userId).None? ==> r == MockPoll([], [], MockCursor(sinceAlertId, sinceLocationId))
    ensures forall l :: l in r.locations ==>
      && l in ls && l.id > sinceLocationId
      && FindUserById(users, userId).Some?
      && exists c :: c in cs && Concerns(c, FindUserById(users, userId).value) && c.id == l.consentId
    ensures FindUserById(users, userId).Some? ==>
      forall l :: l in ls && l.id > sinceLocationId
        && (exists c :: c in cs && Concerns(c, FindUserById(users, userId).value) && c.id == l.consentId)
        ==> l in r.locations
    ensures r.locations == [] ==> r.cursor.sinceLocationId == sinceLocationId
    ensures r.locations != [] ==> r.cursor.sinceLocationId == r.locations[|r.locations| - 1].id
  {
    match FindUserById(users, userId)
    case None => MockPoll([], [], MockCursor(sinceAlertId, sinceLocationId))
    case Some(user) =>
      var relevant := ConsentIdsOf(Related(cs, user));
      var newer := NewLocations(ls, relevant, sinceLocationId);
      assert forall c :: c in cs && Concerns(c, user) ==> c.id in relevant by {
        forall c | c in cs && Concerns(c, user) ensures c.id in relevant {
          assert c in Related(cs, user);
        }
      }
      MockPoll([], newer, MockCursor(sinceAlertId,
        if |newer| > 0 then newer[|newer| - 1].id else sinceLocationId))
  }

  function MockIds(ls: seq<MockLocation>): (ids: seq<nat>)
    ensures |ids| == |ls| && forall i :: 0 <= i < |ls| ==> ids[i] == ls[i].id
  {
    seq(|ls|, i requires 0 <= i < |ls| => ls[i].id)
  }

  lemma {:induction false} NewLocationsAscending(ls: seq<MockLocation>, relevant: seq<nat>, since: int)
    requires Feed.Ascending(MockIds(ls))
    ensures Feed.Ascending(MockIds(NewLocations(ls, relevant, since)))
  {
    if ls != [] {
      var tail := ls[1..];
      assert MockIds(tail) == MockIds(ls)[1..];
      NewLocationsAscending(tail, relevant, since);
      var rest := NewLocations(tail, relevant, since);
      var r := NewLocations(ls, relevant, since);
      forall i, j | 0 <= i < j < |r| ensures r[i].id <= r[j].id {
        if |r| == |rest| + 1 {
          if i == 0 {
            assert r[j] in rest;
            var k :| 0 <= k < |tail| && tail[k] == r[j];
            assert MockIds(ls)[0] <= MockIds(ls)[k + 1];
          } else {
            assert MockIds(rest)[i - 1] <= MockIds(rest)[j - 1];
          }
        } else {
          assert MockIds(rest)[i] <= MockIds(rest)[j];
        }
      }
    }
  }

  /** While the clock never runs backwards, ids are stored in ascending
      order, and the mock's cursor (the last id returned) is the server's
      (the largest of the old cursor and the ids returned). */
  lemma MockCursorIsMax(users: seq<MockUser>, cs: seq<MockConsent>, ls: seq<MockLocation>, userId: int,
                        sinceAlertId: int, sinceLocationId: int)
    requires Feed.Ascending(MockIds(ls))
    ensures var r := PollUpdates(users, cs, ls, userId, sinceAlertId, sinceLocationId);
      r.cursor.sinceLocationId == Feed.MaxFrom(sinceLocationId, MockIds(r.locations))
  {
    var r := PollUpdates(users, cs, ls, userId, sinceAlertId, sinceLocationId);
    if FindUserById(users, userId).Some? {
      var user := FindUserById(users, userId).value;
      NewLocationsAscending(ls, ConsentIdsOf(Related(cs, user)), sinceLocationId);
      if r.locations != [] {
        Feed.MaxFromAscending(sinceLocationId, MockIds(r.locations));
      }
    }
  }

  // ---------------------------------------------------------------------
  // The stores and the operations that change them

  class MockStore {
    var users: seq<MockUser>
    var consents: seq<MockConsent>
    var locations: seq<MockLocation>

    constructor()
      ensures users == [] && consents == [] && locations == []
    {
      users, consents, locations := [], [], [];
    }

    /** `register`: refuses a phone that is already registered, otherwise
        adds exactly one user, with id `now`, and returns its token. */
    method Register(name: string, phone: string, password: string, now: nat, stamp: string)
      returns (r: Result<(string, MockUser), string>)
      modifies this
      ensures FindUserByPhone(old(users), phone).Some? ==>
        r == Err("User with this phone number already exists.") && unchanged(this)
      ensures FindUserByPhone(old(users), phone).None? ==>
        var user := MockUser(now, name, phone, password, stamp);
        && users == old(users) + [user]
        && r == Ok(("token_" + NatToString(now) + "_" + NatToString(now), user))
      ensures consents == old(consents) && locations == old(locations)
    {
      if FindUserByPhone(users, phone).Some? {
        return Err("User with this phone number already exists.");
      }
      var user := MockUser(now, name, phone, password, stamp);
      users := users + [user];
      r := Ok(("token_" + NatToString(user.id) + "_" + NatToString(now), user));
    }

    /** `respondToConsent`: no check of who responds or of the prior
        status; any action but `accept` declines. */
    method RespondToConsent(consentId: int, action: string, stamp: string) returns (r: Result<(), string>)
      modifies this
      ensures FindMockConsent(old(consents), consentId).None? ==>
        r == Err("Consent not found.") && unchanged(this)
      ensures FindMockConsent(old(consents), consentId).Some? ==>
        var k := FindMockConsent(old(consents), consentId).value;
        && r == Ok(())
        && consents == old(consents)[k := old(consents)[k].(status := if action == "accept" then "active" else "declined",
                                                            updatedAt := stamp)]
      ensures users == old(users) && locations == old(locations)
    {
      var found := FindMockConsent(consents, consentId);
      if found.None? {
        return Err("Consent not found.");
      }
      var k := found.value;
      var status := if action == "accept" then "active" else "declined";
      consents := consents[k := consents[k].(status := status, updatedAt := stamp)];
      r := Ok(());
    }

    /** `revokeConsent`: revokes the consent with this id when there is
        one; answers ok either way. */
    method RevokeConsent(consentId: int, stamp: string)
      modifies this
      ensures FindMockConsent(old(consents), consentId).None? ==> unchanged(this)
      ensures FindMockConsent(old(consents), consentId).Some? ==>
        var k := FindMockConsent(old(consents), consentId).value;
        consents == old(consents)[k := old(consents)[k].(status := "revoked", updatedAt := stamp)]
      ensures users == old(users) && locations == old(locations)
    {
      var found := FindMockConsent(consents, consentId);
      if found.Some? {
        var k := found.value;
        consents := consents[k := consents[k].(status := "revoked", updatedAt := stamp)];
      }
    }

    /** `updateLocation`: one location per active consent sent to the
        reporter's phone; with none, one location for the reporter's own
        first active request, recorded as its recipient's when that
        recipient is registered; with neither, a message and no change. */
    method UpdateLocation(user: MockUser, data: LocationData, now: nat, stamp: string)
      returns (message: Option<string>)
      modifies this
      ensures var targets := Targets(old(consents), user);
        && (targets != [] ==>
              message.None? && locations == old(locations) + LocationsFor(targets, user.id, data, now, stamp))
        && (targets == [] && FirstRequested(old(consents), user).None? ==>
              message == Some("No active consents to update.") && locations == old(locations))
        && (targets == [] && FirstRequested(old(consents), user).Some? ==>
              var c := FirstRequested(old(consents), user).value;
              var recipient := FindUserByPhone(old(users), c.recipientPhone);
              && message.None?
              && locations == old(locations) +
                   (if recipient.Some? then [MockLocation(now, c.id, recipient.value.id, data, stamp)] else []))
      ensures users == old(users) && consents == old(consents)
    {
      var targets := Targets(consents, user);
      if targets == [] {
        var requested := FirstRequested(consents, user);
        if requested.None? {
          return Some("No active consents to update.");
        }
        var recipient := FindUserByPhone(users, requested.value.recipientPhone);
        if recipient.Some? {
          locations := locations + [MockLocation(now, requested.value.id, recipient.value.id, data, stamp)];
        }
        return None;
      }
      RecordForTargets(targets, user.id, data, now, stamp);
      message := None;
    }

    /** The `forEach` of updateLocation: one location per target consent. */
    method RecordForTargets(targets: seq<MockConsent>, userId: nat, data: LocationData, now: nat, stamp: string)
      modifies this
      ensures locations == old(locations) + LocationsFor(targets, userId, data, now, stamp)
      ensures users == old(users) && consents == old(consents)
    {
      var i := 0;
      while i < |targets|
        invariant 0 <= i <= |targets|
        invariant locations == old(locations) + LocationsFor(targets[..i], userId, data, now, stamp)
        invariant users == old(users) && consents == old(consents)
      {
        LocationsForSnoc(targets, i, userId, data, now, stamp);
        locations := locations + [MockLocation(now, targets[i].id, userId, data, stamp)];
        i := i + 1;
      }
      assert targets[..i] == targets;
    }
  }

  /** A report recorded against the reporter's active consents gives each
      of them a new location, and no other consent any; that each gets
      exactly one is `UpdateLocationExactlyOnce`. */
  lemma UpdateLocationCoverage(cs: seq<MockConsent>, user: MockUser, data: LocationData, now: nat, stamp: string)
    requires Targets(cs, user) != []
    ensures var added := LocationsFor(Targets(cs, user), user.id, data, now, stamp);
      && (forall l :: l in added ==> l.userId == user.id && exists c :: c in cs && Receives(c, user) && c.id == l.consentId)
      && (forall c :: c in cs && Receives(c, user) ==> exists l :: l in added && l.consentId == c.id)
  {
    var targets := Targets(cs, user);
    var added := LocationsFor(targets, user.id, data, now, stamp);
    forall l | l in added ensures l.userId == user.id && exists c :: c in cs && Receives(c, user) && c.id == l.consentId {
      var i :| 0 <= i < |added| && added[i] == l;
      assert targets[i] in targets;
    }
    forall c | c in cs && Receives(c, user) ensures exists l :: l in added && l.consentId == c.id {
      var i :| 0 <= i < |targets| && targets[i] == c;
      assert added[i].consentId == c.id;
    }
  }

  /** How many of the locations are recorded against consent `id`. */
  function CountFor(ls: seq<MockLocation>, id: nat): nat {
    if ls == [] then 0 else (if ls[0].consentId == id then 1 else 0) + CountFor(ls[1..], id)
  }

  lemma {:induction false} CountForAppend(a: seq<MockLocation>, b: seq<MockLocation>, id: nat)
    ensures CountFor(a + b, id) == CountFor(a, id) + CountFor(b, id)
  {
    if a != [] {
      assert (a + b)[0] == a[0] && (a + b)[1..] == a[1..] + b;
      CountForAppend(a[1..], b, id);
    } else {
      assert a + b == b;
    }
  }

  lemma {:induction false} CountForNone(ls: seq<MockLocation>, id: nat)
    requires forall l :: l in ls ==> l.consentId != id
    ensures CountFor(ls, id) == 0
  {
    if ls != [] {
      assert ls[0] in ls;
      CountForNone(ls[1..], id);
    }
  }

  lemma LocationsForAppend(a: seq<MockConsent>, b: seq<MockConsent>, userId: nat, data: LocationData, now: nat, stamp: string)
    ensures LocationsFor(a + b, userId, data, now, stamp)
         == LocationsFor(a, userId, data, now, stamp) + LocationsFor(b, userId, data, now, stamp)
  {
    var x := LocationsFor(a + b, userId, data, now, stamp);
    var y := LocationsFor(a, userId, data, now, stamp) + LocationsFor(b, userId, data, now, stamp);
    forall k | 0 <= k < |x| ensures x[k] == y[k] {
      if k < |a| { assert (a + b)[k] == a[k]; } else { assert (a + b)[k] == b[k - |a|]; }
    }
  }

  /** A consent id none of the consents carries gets no new location. */
  lemma NotTargeted(cs: seq<MockConsent>, user: MockUser, data: LocationData, now: nat, stamp: string, id: nat)
    requires forall m :: 0 <= m < |cs| ==> cs[m].id != id
    ensures CountFor(LocationsFor(Targets(cs, user), user.id, data, now, stamp), id) == 0
  {
    var added := LocationsFor(Targets(cs, user), user.id, data, now, stamp);
    forall l | l in added ensures l.consentId != id {
      var i :| 0 <= i < |added| && added[i] == l;
      var t := Targets(cs, user)[i];
      assert t in cs;
    }
    CountForNone(added, id);
  }

  predicate DistinctIds(cs: seq<MockConsent>) {
    forall i, j :: 0 <= i < j < |cs| ==> cs[i].id != cs[j].id
  }

  /** With consent ids distinct, a report recorded against the reporter's
      active consents gives each of them exactly one new location and every
      other consent none. */
  lemma {:induction false} UpdateLocationExactlyOnce(cs: seq<MockConsent>, user: MockUser, data: LocationData,
                                                     now: nat, stamp: string)
    requires DistinctIds(cs)
    ensures var added := LocationsFor(Targets(cs, user), user.id, data, now, stamp);
      forall k :: 0 <= k < |cs| ==> CountFor(added, cs[k].id) == (if Receives(cs[k], user) then 1 else 0)
  {
    if cs != [] {
      var tail := cs[1..];
      assert DistinctIds(tail) by {
        forall i, j | 0 <= i < j < |tail| ensures tail[i].id != tail[j].id {
          assert tail[i] == cs[i + 1] && tail[j] == cs[j + 1];
        }
      }
      UpdateLocationExactlyOnce(tail, user, data, now, stamp);
      var head := if Receives(cs[0], user) then [cs[0]] else [];
      assert cs == [cs[0]] + tail;
      TargetsAppend([cs[0]], tail, user);
      assert Targets([cs[0]], user) == head by { assert [cs[0]][1..] == []; }
      LocationsForAppend(head, Targets(tail, user), user.id, data, now, stamp);
      var h := LocationsFor(head, user.id, data, now, stamp);
      var rest := LocationsFor(Targets(tail, user), user.id, data, now, stamp);
      forall k | 0 <= k < |cs|
        ensures CountFor(h + rest, cs[k].id) == (if Receives(cs[k], user) then 1 else 0)
      {
        CountForAppend(h, rest, cs[k].id);
        if k == 0 {
          forall m | 0 <= m < |tail| ensures tail[m].id != cs[0].id {
            assert cs[m + 1] == tail[m];
          }
          NotTargeted(tail, user, data, now, stamp, cs[0].id);
          if Receives(cs[0], user) {
            assert h == [MockLocation(now, cs[0].id, user.id, data, stamp)];
            assert CountFor(h, cs[0].id) == 1 by { assert h[1..] == []; }
          }
        } else {
          assert cs[k] == tail[k - 1];
          forall l | l in h ensures l.consentId != cs[k].id {
            assert cs[0].id != cs[k].id;
          }
          CountForNone(h, cs[k].id);
        }
      }
    }
  }
}
