/** The selections behind `/updates/poll` of backend/api.php: the alerts
    of the caller after a cursor, and the locations of the users the caller
    is actively tracking after a cursor, each ascending and bounded. The
    cursor loops are methods in Backend.dfy proved to compute `MaxFrom`. */
module Feed {
  import opened Wrappers
  import opened Records

  /** SQL `LIMIT n`. */
  function Take<T>(s: seq<T>, n: nat): (r: seq<T>)
    ensures |r| <= n && |r| <= |s|
    ensures r == s[..|r|]
    ensures |s| <= n ==> r == s
    ensures |s| > n ==> |r| == n
  {
    if |s| <= n then s else s[..n]
  }

  const AlertLimit: nat := 200
  const LocationLimit: nat := 500

  // ---------------------------------------------------------------------
  // Alerts

  /** `WHERE user_id = ? AND id > ?`, in table (= id) order. */
  function AlertsAfter(alerts: seq<Alert>, userId: nat, since: int): (r: seq<Alert>)
    ensures forall a :: a in r <==> a in alerts && a.userId == userId && a.id > since
  {
    if alerts == [] then []
    else
      var head := if alerts[0].userId == userId && alerts[0].id > since then [alerts[0]] else [];
      head + AlertsAfter(alerts[1..], userId, since)
  }

  /** The alerts part of the poll response. */
  function PollAlerts(alerts: seq<Alert>, userId: nat, since: int): (r: seq<Alert>)
    ensures |r| <= AlertLimit
    ensures forall a :: a in r ==> a in alerts && a.userId == userId && a.id > since
    ensures |AlertsAfter(alerts, userId, since)| <= AlertLimit ==>
      forall a :: a in alerts && a.userId == userId && a.id > since ==> a in r
  {
    var all := AlertsAfter(alerts, userId, since);
    var r := Take(all, AlertLimit);
    assert forall a :: a in r ==> a in all;
    r
  }

  /** Two increasing runs, the first all at or below `bound` and the
      second all above it, concatenate to an increasing run. */
  lemma IncreasingConcat(head: seq<Alert>, rest: seq<Alert>, bound: nat)
    requires |head| <= 1 && Increasing(AlertIds(rest))
    requires forall a :: a in head ==> a.id <= bound
    requires forall a :: a in rest ==> a.id > bound
    ensures Increasing(AlertIds(head + rest))
  {
    var r := head + rest;
    forall i, j | 0 <= i < j < |r| ensures r[i].id < r[j].id {
      if i >= |head| {
        assert AlertIds(rest)[i - |head|] < AlertIds(rest)[j - |head|];
      } else {
        assert r[i] in head && r[j] in rest;
      }
    }
  }

  /** `ORDER BY id ASC`: the id order of the table is kept. */
  lemma {:induction false} AlertsAfterAscending(alerts: seq<Alert>, userId: nat, since: int)
    requires Increasing(AlertIds(alerts))
    ensures Increasing(AlertIds(AlertsAfter(alerts, userId, since)))
  {
    if alerts != [] {
      var tail := alerts[1..];
      assert AlertIds(tail) == AlertIds(alerts)[1..];
      AlertsAfterAscending(tail, userId, since);
      var head := if alerts[0].userId == userId && alerts[0].id > since then [alerts[0]] else [];
      var rest := AlertsAfter(tail, userId, since);
      forall a | a in rest ensures a.id > alerts[0].id {
        var k :| 0 <= k < |tail| && tail[k] == a;
        assert AlertIds(alerts)[0] < AlertIds(alerts)[k + 1];
      }
      IncreasingConcat(head, rest, alerts[0].id);
    }
  }

  /** The poll returns the 200 lowest-id matching alerts, ascending. */
  lemma PollAlertsAscending(alerts: seq<Alert>, userId: nat, since: int)
    requires Increasing(AlertIds(alerts))
    ensures var r := PollAlerts(alerts, userId, since); var all := AlertsAfter(alerts, userId, since);
      && Increasing(AlertIds(r)) && r == all[..|r|]
      && |r| == (if |all| <= AlertLimit then |all| else AlertLimit)
  {
    AlertsAfterAscending(alerts, userId, since);
    var all := AlertsAfter(alerts, userId, since);
    var r := PollAlerts(alerts, userId, since);
    assert AlertIds(r) == AlertIds(all)[..|r|];
  }

  // ---------------------------------------------------------------------
  // Locations

  /** One row of the locations join: the location and the consent that
      makes it visible. */
  datatype LocationRow = LocationRow(location: Location, consentId: nat)

  /** The join condition: an active consent of the requester whose
      recipient is the location's user. */
  predicate Watches(c: Consent, requesterId: nat, userId: nat) {
    c.requesterUserId == requesterId && c.status == Active && c.recipientUserId == Some(userId)
  }

  /** The rows one location contributes, one per watching consent. */
  function RowsOfLocation(l: Location, cs: seq<Consent>, requesterId: nat): (r: seq<LocationRow>)
    ensures forall row :: row in r <==>
      row.location == l && exists c :: c in cs && Watches(c, requesterId, l.userId) && c.id == row.consentId
  {
    if cs == [] then []
    else
      var head := if Watches(cs[0], requesterId, l.userId) then [LocationRow(l, cs[0].id)] else [];
      var r := head + RowsOfLocation(l, cs[1..], requesterId);
      assert forall c :: c in cs ==> c == cs[0] || c in cs[1..];
      r
  }

  /** Rows drawn from consents whose ids are all above `bound` name
      consents above `bound`. */
  lemma {:induction false} RowsOfLocationAbove(l: Location, cs: seq<Consent>, requesterId: nat, bound: nat)
    requires forall k :: 0 <= k < |cs| ==> cs[k].id > bound
    ensures forall row :: row in RowsOfLocation(l, cs, requesterId) ==> row.consentId > bound
  {
    if cs != [] {
      RowsOfLocationAbove(l, cs[1..], requesterId, bound);
    }
  }

  /** Consent ids strictly increase along the rows. */
  predicate ConsentsIncrease(r: seq<LocationRow>) {
    forall i, j :: 0 <= i < j < |r| ==> r[i].consentId < r[j].consentId
  }

  lemma ConsentIdsConcat(head: seq<LocationRow>, rest: seq<LocationRow>, bound: nat)
    requires |head| <= 1 && ConsentsIncrease(rest)
    requires forall row :: row in head ==> row.consentId <= bound
    requires forall row :: row in rest ==> row.consentId > bound
    ensures ConsentsIncrease(head + rest)
  {
    var r := head + rest;
    forall i, j | 0 <= i < j < |r| ensures r[i].consentId < r[j].consentId {
      if i >= |head| {
        assert r[i] == rest[i - |head|] && r[j] == rest[j - |head|];
      } else {
        assert r[i] in head && r[j] in rest;
      }
    }
  }

  /** With consent ids increasing, as the table keeps them, a location
      gets one row per watching consent: no consent appears twice. */
  lemma {:induction false} RowsOfLocationDistinct(l: Location, cs: seq<Consent>, requesterId: nat)
    requires Increasing(ConsentIds(cs))
    ensures ConsentsIncrease(RowsOfLocation(l, cs, requesterId))
  {
    if cs != [] {
      var tail := cs[1..];
      assert ConsentIds(tail) == ConsentIds(cs)[1..];
      RowsOfLocationDistinct(l, tail, requesterId);
      forall k | 0 <= k < |tail| ensures tail[k].id > cs[0].id {
        assert ConsentIds(cs)[0] < ConsentIds(cs)[k + 1];
      }
      RowsOfLocationAbove(l, tail, requesterId, cs[0].id);
      var head := if Watches(cs[0], requesterId, l.userId) then [LocationRow(l, cs[0].id)] else [];
      ConsentIdsConcat(head, RowsOfLocation(l, tail, requesterId), cs[0].id);
    }
  }

  /** The join restricted to `l.id > since`, ordered by location id. */
  function LocationsAfter(ls: seq<Location>, cs: seq<Consent>, requesterId: nat, since: int): (r: seq<LocationRow>)
    ensures forall row :: row in r <==>
      row.location in ls && row.location.id > since
      && exists c :: c in cs && Watches(c, requesterId, row.location.userId) && c.id == row.consentId
  {
    if ls == [] then []
    else
      var head := if ls[0].id > since then RowsOfLocation(ls[0], cs, requesterId) else [];
      var r := head + LocationsAfter(ls[1..], cs, requesterId, since);
      assert forall l :: l in ls ==> l == ls[0] || l in ls[1..];
      r
  }

  /** The locations part of the poll response. */
  function PollLocations(ls: seq<Location>, cs: seq<Consent>, requesterId: nat, since: int): (r: seq<LocationRow>)
    ensures |r| <= LocationLimit
    ensures forall row :: row in r ==>
      row.location in ls && row.location.id > since
      && exists c :: c in cs && Watches(c, requesterId, row.location.userId) && c.id == row.consentId
    ensures |LocationsAfter(ls, cs, requesterId, since)| <= LocationLimit ==>
      forall row :: row in LocationsAfter(ls, cs, requesterId, since) ==> row in r
  {
    var all := LocationsAfter(ls, cs, requesterId, since);
    var r := Take(all, LocationLimit);
    assert forall row :: row in r ==> row in all;
    r
  }

  function RowIds(rows: seq<LocationRow>): (ids: seq<nat>)
    ensures |ids| == |rows| && forall i :: 0 <= i < |rows| ==> ids[i] == rows[i].location.id
  {
    seq(|rows|, i requires 0 <= i < |rows| => rows[i].location.id)
  }

  /** Non-decreasing: a location watched through two consents appears twice
      in a row. */
  predicate Ascending(ids: seq<nat>) {
    forall i, j :: 0 <= i < j < |ids| ==> ids[i] <= ids[j]
  }

  /** Two ascending runs, the first all at or below `bound` and the second
      all above it, concatenate to an ascending run. */
  lemma AscendingConcat(head: seq<LocationRow>, rest: seq<LocationRow>, bound: nat)
    requires Ascending(RowIds(head)) && Ascending(RowIds(rest))
    requires forall row :: row in head ==> row.location.id <= bound
    requires forall row :: row in rest ==> row.location.id > bound
    ensures Ascending(RowIds(head + rest))
  {
    var r := head + rest;
    forall i, j | 0 <= i < j < |r| ensures r[i].location.id <= r[j].location.id {
      if j < |head| {
        assert RowIds(head)[i] <= RowIds(head)[j];
      } else if i >= |head| {
        assert RowIds(rest)[i - |head|] <= RowIds(rest)[j - |head|];
      } else {
        assert r[i] in head && r[j] in rest;
      }
    }
  }

  /** Rows selected from locations whose ids are all above `bound` carry
      ids above `bound`. */
  lemma {:induction false} LocationsAfterAbove(ls: seq<Location>, cs: seq<Consent>, requesterId: nat,
                                               since: int, bound: nat)
    requires forall k :: 0 <= k < |ls| ==> ls[k].id > bound
    ensures forall row :: row in LocationsAfter(ls, cs, requesterId, since) ==> row.location.id > bound
  {
    if ls != [] {
      LocationsAfterAbove(ls[1..], cs, requesterId, since, bound);
    }
  }

  /** Rows of one location are trivially in id order. */
  lemma SameLocationAscending(rows: seq<LocationRow>, l: Location)
    requires forall row :: row in rows ==> row.location == l
    ensures Ascending(RowIds(rows))
  {
    forall i, j | 0 <= i < j < |rows| ensures RowIds(rows)[i] <= RowIds(rows)[j] {
      assert rows[i] in rows && rows[j] in rows;
    }
  }

  lemma {:induction false} LocationsAfterAscending(ls: seq<Location>, cs: seq<Consent>, requesterId: nat, since: int)
    requires Increasing(LocationIds(ls))
    ensures Ascending(RowIds(LocationsAfter(ls, cs, requesterId, since)))
  {
    if ls != [] {
      var tail := ls[1..];
      assert LocationIds(tail) == LocationIds(ls)[1..];
      LocationsAfterAscending(tail, cs, requesterId, since);
      var head := if ls[0].id > since then RowsOfLocation(ls[0], cs, requesterId) else [];
      var rest := LocationsAfter(tail, cs, requesterId, since);
      forall k | 0 <= k < |tail| ensures tail[k].id > ls[0].id {
        assert LocationIds(ls)[0] < LocationIds(ls)[k + 1];
      }
      LocationsAfterAbove(tail, cs, requesterId, since, ls[0].id);
      SameLocationAscending(head, ls[0]);
      AscendingConcat(head, rest, ls[0].id);
    }
  }

  /** Rows ordered by location id and, within one location, by consent
      id: so no (location, consent) pair appears twice. */
  predicate RowsLexOrdered(r: seq<LocationRow>) {
    forall i, j :: 0 <= i < j < |r| ==>
      r[i].location.id < r[j].location.id
      || (r[i].location.id == r[j].location.id && r[i].consentId < r[j].consentId)
  }

  lemma LexConcat(head: seq<LocationRow>, rest: seq<LocationRow>, l: Location)
    requires ConsentsIncrease(head) && RowsLexOrdered(rest)
    requires forall row :: row in head ==> row.location == l
    requires forall row :: row in rest ==> row.location.id > l.id
    ensures RowsLexOrdered(head + rest)
  {
    var r := head + rest;
    forall i, j | 0 <= i < j < |r|
      ensures r[i].location.id < r[j].location.id
           || (r[i].location.id == r[j].location.id && r[i].consentId < r[j].consentId)
    {
      if j < |head| {
        assert r[i] == head[i] && r[j] == head[j] && r[i] in head && r[j] in head;
      } else if i >= |head| {
        assert r[i] == rest[i - |head|] && r[j] == rest[j - |head|];
      } else {
        assert r[i] in head && r[j] == rest[j - |head|] && r[j] in rest;
      }
    }
  }

  /** With the table's increasing location and consent ids, the selection
      lists each (location, consent) pair once, ordered by location id and
      then by consent id. */
  lemma {:induction false} LocationsAfterLexOrdered(ls: seq<Location>, cs: seq<Consent>, requesterId: nat, since: int)
    requires Increasing(LocationIds(ls)) && Increasing(ConsentIds(cs))
    ensures RowsLexOrdered(LocationsAfter(ls, cs, requesterId, since))
  {
    if ls != [] {
      var tail := ls[1..];
      assert LocationIds(tail) == LocationIds(ls)[1..];
      LocationsAfterLexOrdered(tail, cs, requesterId, since);
      forall k | 0 <= k < |tail| ensures tail[k].id > ls[0].id {
        assert LocationIds(ls)[0] < LocationIds(ls)[k + 1];
      }
      LocationsAfterAbove(tail, cs, requesterId, since, ls[0].id);
      RowsOfLocationDistinct(ls[0], cs, requesterId);
      var head := if ls[0].id > since then RowsOfLocation(ls[0], cs, requesterId) else [];
      LexConcat(head, LocationsAfter(tail, cs, requesterId, since), ls[0]);
    }
  }

  /** The poll returns a prefix of the whole selection, ascending by id. */
  lemma PollLocationsAscending(ls: seq<Location>, cs: seq<Consent>, requesterId: nat, since: int)
    requires Increasing(LocationIds(ls))
    ensures var r := PollLocations(ls, cs, requesterId, since); var all := LocationsAfter(ls, cs, requesterId, since);
      && Ascending(RowIds(r)) && r == all[..|r|]
      && |r| == (if |all| <= LocationLimit then |all| else LocationLimit)
  {
    LocationsAfterAscending(ls, cs, requesterId, since);
    var all := LocationsAfter(ls, cs, requesterId, since);
    var r := PollLocations(ls, cs, requesterId, since);
    assert RowIds(r) == RowIds(all)[..|r|];
  }

  // ---------------------------------------------------------------------
  // The cursor

  /** `max(since, ids...)`: the cursor after returning these ids. */
  function MaxFrom(since: int, ids: seq<nat>): (r: int)
    ensures r >= since
    ensures forall i :: 0 <= i < |ids| ==> ids[i] <= r
    ensures r == since || exists i :: 0 <= i < |ids| && ids[i] == r
  {
    if ids == [] then since
    else
      var m := MaxFrom(since, ids[..|ids| - 1]);
      var r := if ids[|ids| - 1] > m then ids[|ids| - 1] else m;
      assert forall i :: 0 <= i < |ids| - 1 ==> ids[..|ids| - 1][i] == ids[i];
      r
  }

  /** Nothing returned: the cursor stays where it was. */
  lemma MaxFromEmpty(since: int)
    ensures MaxFrom(since, []) == since
  {
  }

  /** With ascending ids above the old cursor, the new cursor is the last id. */
  lemma {:induction false} MaxFromAscending(since: int, ids: seq<nat>)
    requires |ids| > 0 && Ascending(ids) && ids[0] > since
    ensures MaxFrom(since, ids) == ids[|ids| - 1]
  {
  }

  /** The `foreach ... max(...)` loop that advances a cursor over the ids
      of the returned rows. */
  method AdvanceCursor(since: int, ids: seq<nat>) returns (cursor: int)
    ensures cursor == MaxFrom(since, ids)
  {
    cursor := since;
    var i := 0;
    while i < |ids|
      invariant 0 <= i <= |ids|
      invariant cursor == MaxFrom(since, ids[..i])
    {
      assert ids[..i + 1][..i] == ids[..i];
      cursor := if ids[i] > cursor then ids[i] else cursor;
      i := i + 1;
    }
    assert ids[..i] == ids;
  }

  /** The alert cursor of a poll: never below the old cursor, at least
      every returned id, equal to the old cursor or to a returned id, so
      unchanged when nothing is returned; every returned id is past the old
      cursor. With ascending ids it is the last returned id. */
  lemma AlertCursor(alerts: seq<Alert>, userId: nat, since: int)
    requires Increasing(AlertIds(alerts))
    ensures var polled := PollAlerts(alerts, userId, since);
      var cursor := MaxFrom(since, AlertIds(polled));
      && cursor >= since
      && (forall a :: a in polled ==> since < a.id <= cursor)
      && (cursor == since || exists a :: a in polled && a.id == cursor)
      && (polled == [] ==> cursor == since)
      && (polled != [] ==> cursor == polled[|polled| - 1].id)
  {
    var polled := PollAlerts(alerts, userId, since);
    var ids := AlertIds(polled);
    PollAlertsAscending(alerts, userId, since);
    forall a | a in polled ensures a.id <= MaxFrom(since, ids) {
      var k :| 0 <= k < |polled| && polled[k] == a;
      assert ids[k] == a.id;
    }
    if polled != [] {
      MaxFromAscending(since, ids);
    }
  }

  /** The location cursor of a poll, likewise. */
  lemma LocationCursor(ls: seq<Location>, cs: seq<Consent>, requesterId: nat, since: int)
    requires Increasing(LocationIds(ls))
    ensures var polled := PollLocations(ls, cs, requesterId, since);
      var cursor := MaxFrom(since, RowIds(polled));
      && cursor >= since
      && (forall row :: row in polled ==> since < row.location.id <= cursor)
      && (cursor == since || exists row :: row in polled && row.location.id == cursor)
      && (polled == [] ==> cursor == since)
      && (polled != [] ==> cursor == polled[|polled| - 1].location.id)
  {
    var polled := PollLocations(ls, cs, requesterId, since);
    var ids := RowIds(polled);
    PollLocationsAscending(ls, cs, requesterId, since);
    forall row | row in polled ensures row.location.id <= MaxFrom(since, ids) {
      var k :| 0 <= k < |polled| && polled[k] == row;
      assert ids[k] == row.location.id;
    }
    if polled != [] {
      MaxFromAscending(since, ids);
    }
  }

  /** `LIMIT 500` counts rows, not locations. When the cut falls between
      two rows of one location (a location watched through several
      consents), the poll returns the first, the cursor moves to that
      location's id, and the next poll from that cursor (`l.id > ?`) can no
      longer return the second. */
  lemma LimitSplitsLocation(ls: seq<Location>, cs: seq<Consent>, requesterId: nat, since: int)
    requires Increasing(LocationIds(ls))
    requires var all := LocationsAfter(ls, cs, requesterId, since);
      |all| > LocationLimit && all[LocationLimit - 1].location.id == all[LocationLimit].location.id
    ensures var all := LocationsAfter(ls, cs, requesterId, since);
      var polled := PollLocations(ls, cs, requesterId, since);
      var cursor := MaxFrom(since, RowIds(polled));
      && polled == all[..LocationLimit]
      && cursor == all[LocationLimit].location.id
      && all[LocationLimit] !in LocationsAfter(ls, cs, requesterId, cursor)
  {
    var all := LocationsAfter(ls, cs, requesterId, since);
    var polled := PollLocations(ls, cs, requesterId, since);
    LocationCursor(ls, cs, requesterId, since);
    assert polled[|polled| - 1] == all[LocationLimit - 1];
  }
}
