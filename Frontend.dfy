/** The browser client of script.js: its pure display helpers and the part
    of its state that polling and the location simulator update. */
module Frontend {
  import opened Wrappers
  import opened Text
  import opened Helpers

  // ---------------------------------------------------------------------
  // normalizePhone (the browser's copy)

  /** `normalizePhone` of script.js: `(phone || '')`, JavaScript's trim,
      then the same branches as the server. */
  function JsNormalizePhone(phone: Option<string>): (r: string)
    ensures IsCanonical(r)
  {
    NormalizeTrimmed(JsTrim(phone.GetOr("")))
  }

  lemma JsTrimKeepsDigits(s: string)
    ensures Digits(JsTrim(s)) == Digits(s)
  {
    DigitsOfTrim(s, IsJsWhitespace);
  }

  lemma JsDigitsAfterPlus(phone: string)
    requires StartsWith(JsTrim(phone), "+")
    ensures Digits(JsTrim(phone)[1..]) == Digits(phone)
  {
    DigitsAfterPrefix(JsTrim(phone), "+");
    JsTrimKeepsDigits(phone);
  }

  lemma JsDigitsAfterDoubleZero(phone: string)
    requires StartsWith(JsTrim(phone), "00")
    ensures "00" + Digits(JsTrim(phone)[2..]) == Digits(phone)
  {
    DigitsAfterPrefix(JsTrim(phone), "00");
    JsTrimKeepsDigits(phone);
  }

  /** After a leading `+`: `+` and exactly the digits of the input. */
  lemma JsNormalizePlus(phone: string)
    requires StartsWith(JsTrim(phone), "+")
    ensures JsNormalizePhone(Some(phone)) == "+" + Digits(phone)
  {
    JsDigitsAfterPlus(phone);
  }

  /** After a leading `00`: `+` and the digits after the two zeros. */
  lemma JsNormalizeDoubleZero(phone: string)
    requires !StartsWith(JsTrim(phone), "+") && StartsWith(JsTrim(phone), "00")
    ensures Digits(phone) == "00" + JsNormalizePhone(Some(phone))[1..]
  {
    JsDigitsAfterDoubleZero(phone);
  }

  /** An 11-digit local number starting `03` becomes `+92` and its last 10
      digits. */
  lemma JsNormalizePakistan(phone: string)
    requires !StartsWith(JsTrim(phone), "+") && !StartsWith(JsTrim(phone), "00")
    requires |Digits(phone)| == 11 && StartsWith(Digits(phone), "03")
    ensures JsNormalizePhone(Some(phone)) == "+92" + Digits(phone)[1..]
  {
    JsTrimKeepsDigits(phone);
  }

  /** The browser and the server normalise alike an input with nothing for
      either trim to remove. */
  lemma JsNormalizeAgreesWithServer(phone: string)
    requires phone != [] ==> !IsJsWhitespace(phone[0]) && !IsJsWhitespace(phone[|phone| - 1])
    requires phone != [] ==> !IsPhpTrimChar(phone[0]) && !IsPhpTrimChar(phone[|phone| - 1])
    ensures JsNormalizePhone(Some(phone)) == NormalizePhone(phone)
  {
    TrimIdentity(phone, IsJsWhitespace);
    TrimIdentity(phone, IsPhpTrimChar);
  }

  /** A missing phone normalises to the bare `+`. */
  lemma JsNormalizeMissing()
    ensures JsNormalizePhone(None) == "+"
  {
    assert JsTrim("") == "";
  }

  // ---------------------------------------------------------------------
  // initials and capitalize

  /** `s.split(sep)` of JavaScript. */
  function Split(s: string, sep: char): (r: seq<string>)
    ensures |r| >= 1
    ensures forall i :: 0 <= i < |r| ==> sep !in r[i]
  {
    if s == [] then [""]
    else
      var rest := Split(s[1..], sep);
      if s[0] == sep then [""] + rest else [[s[0]] + rest[0]] + rest[1..]
  }

  /** `parts.join(sep)`. */
  function Join(parts: seq<string>, sep: char): string
    requires |parts| >= 1
  {
    if |parts| == 1 then parts[0] else parts[0] + [sep] + Join(parts[1..], sep)
  }

  /** Splitting and joining again gives back the string. */
  lemma {:induction false} SplitJoin(s: string, sep: char)
    ensures Join(Split(s, sep), sep) == s
  {
    if s != [] {
      SplitJoin(s[1..], sep);
      var rest := Split(s[1..], sep);
      if s[0] != sep {
        if |rest| == 1 {
          assert [s[0]] + rest[0] == s;
        } else {
          assert rest == [rest[0]] + rest[1..];
          assert Join(rest, sep) == rest[0] + [sep] + Join(rest[1..], sep);
          assert [s[0]] + Join(rest, sep) == s;
        }
      }
    }
  }

  /** Joining loses no character of any part. */
  lemma {:induction false} JoinChar(parts: seq<string>, sep: char)
    requires |parts| >= 1
    ensures forall i, k :: 0 <= i < |parts| && 0 <= k < |parts[i]| ==> parts[i][k] in Join(parts, sep)
  {
    if |parts| > 1 {
      JoinChar(parts[1..], sep);
      var j := Join(parts, sep);
      assert j == parts[0] + [sep] + Join(parts[1..], sep);
      forall i, k | 0 <= i < |parts| && 0 <= k < |parts[i]| ensures parts[i][k] in j {
        if i == 0 {
          assert j[k] == parts[0][k];
        } else {
          assert parts[i] == parts[1..][i - 1];
          assert parts[i][k] in Join(parts[1..], sep);
        }
      }
    }
  }

  /** A string without the separator splits into itself alone. */
  lemma {:induction false} SplitNoSeparator(s: string, sep: char)
    requires sep !in s
    ensures Split(s, sep) == [s]
  {
    if s != [] {
      assert sep !in s[1..];
      SplitNoSeparator(s[1..], sep);
      assert [s[0]] + s[1..] == s;
    }
  }

  /** Splitting at a separator splits each side. */
  lemma {:induction false} SplitAppend(a: string, b: string, sep: char)
    ensures Split(a + [sep] + b, sep) == Split(a, sep) + Split(b, sep)
  {
    if a == [] {
      assert a + [sep] + b == [sep] + b;
      assert ([sep] + b)[1..] == b;
    } else {
      var s := a + [sep] + b;
      assert s[0] == a[0] && s[1..] == a[1..] + [sep] + b;
      SplitAppend(a[1..], b, sep);
    }
  }

  /** The words of a name: the non-empty parts of its split on a space
      (`filter(Boolean)`), in order. */
  function NonEmpty(parts: seq<string>): (r: seq<string>)
    ensures forall i :: 0 <= i < |r| ==> r[i] != "" && r[i] in parts
    ensures forall p :: p in parts && p != "" ==> p in r
  {
    if parts == [] then []
    else (if parts[0] == "" then [] else [parts[0]]) + NonEmpty(parts[1..])
  }

  /** `filter` keeps the order of the parts ... */
  lemma {:induction false} NonEmptyAppend(a: seq<string>, b: seq<string>)
    ensures NonEmpty(a + b) == NonEmpty(a) + NonEmpty(b)
  {
    if a != [] {
      assert (a + b)[0] == a[0] && (a + b)[1..] == a[1..] + b;
      NonEmptyAppend(a[1..], b);
      var head := if a[0] == "" then [] else [a[0]];
      assert NonEmpty(a + b) == head + NonEmpty(a[1..] + b);
      assert NonEmpty(a) == head + NonEmpty(a[1..]);
    } else {
      assert a + b == b;
    }
  }

  /** ... and keeps each non-empty part exactly once. */
  lemma NonEmptySingle(p: string)
    ensures NonEmpty([p]) == (if p == "" then [] else [p])
  {
    assert [p][1..] == [];
  }

  /** `initials`: the upper-cased first letters of the first two words of
      the name, or of `U` when there is no name. */
  function Initials(name: Option<string>): (r: string)
    ensures |r| <= 2
    ensures name.None? || name == Some("") ==> r == "U"
    ensures name.Some? && name.value != "" ==>
      var words := NonEmpty(Split(name.value, ' '));
      && |r| == (if |words| < 2 then |words| else 2)
      && forall i :: 0 <= i < |r| ==> r[i] == ToUpperChar(words[i][0])
  {
    var n := if name.None? || name.value == "" then "U" else name.value;
    var words := NonEmpty(Split(n, ' '));
    if n == "U" then
      SplitNoSeparator(n, ' ');
      assert NonEmpty(["U"]) == ["U"] by { assert ["U"][1..] == []; }
      "U"
    else
      var firsts := seq(|words|, i requires 0 <= i < |words| => words[i][0]);
      ToUpper(if |firsts| <= 2 then firsts else firsts[..2])
  }

  /** The words of two space-separated words are those two words. */
  lemma WordsOfTwo(first: string, last: string)
    requires first != "" && last != "" && ' ' !in first && ' ' !in last
    ensures NonEmpty(Split(first + " " + last, ' ')) == [first, last]
  {
    assert first + " " + last == first + [' '] + last;
    SplitAppend(first, last, ' ');
    SplitNoSeparator(first, ' ');
    SplitNoSeparator(last, ' ');
    assert [first, last][1..] == [last];
    assert [last][1..] == [];
    assert NonEmpty([last]) == [last];
  }

  /** A name of two space-separated words gives both initials. */
  lemma InitialsOfTwoWords(first: string, last: string)
    requires first != "" && last != "" && ' ' !in first && ' ' !in last
    ensures Initials(Some(first + " " + last)) == [ToUpperChar(first[0]), ToUpperChar(last[0])]
  {
    WordsOfTwo(first, last);
    var r := Initials(Some(first + " " + last));
    assert |r| == 2 && r[0] == ToUpperChar(first[0]) && r[1] == ToUpperChar(last[0]);
  }

  /** A string of separators splits into empty parts only. */
  lemma {:induction false} SplitOfSeparators(s: string, sep: char)
    requires forall i :: 0 <= i < |s| ==> s[i] == sep
    ensures forall p :: p in Split(s, sep) ==> p == ""
  {
    if s != [] {
      SplitOfSeparators(s[1..], sep);
    }
  }

  /** A name of spaces only has no words, so no initials. */
  lemma InitialsOfSpaces(n: nat)
    requires n > 0
    ensures Initials(Some(seq(n, _ => ' '))) == ""
  {
    var s := seq(n, _ => ' ');
    SplitOfSeparators(s, ' ');
  }

  /** `capitalize`: the first character upper-cased, the rest unchanged;
      empty for empty input. */
  function Capitalize(text: string): (r: string)
    ensures text == "" <==> r == ""
    ensures text != "" ==> |r| == |text| && r[0] == ToUpperChar(text[0]) && r[1..] == text[1..]
  {
    if text == "" then "" else [ToUpperChar(text[0])] + text[1..]
  }

  // ---------------------------------------------------------------------
  // formatRelativeTime, given the elapsed milliseconds

  const MsPerMinute: int := 60000
  const MsPerHour: int := 3600000
  const MsPerDay: int := 86400000

  /** `${n} ${unit}${n === 1 ? '' : 's'} ago`. */
  function Ago(n: nat, unit: string): string {
    NatToString(n) + " " + unit + (if n == 1 then "" else "s") + " ago"
  }

  /** The bucket and the count of `formatRelativeTime`; counts are floored
      (Dafny's division by a positive divisor is floor division, like
      `Math.floor`). */
  function FormatRelativeTime(diffMs: int): (r: string)
    ensures diffMs < MsPerMinute <==> r == "just now"
    ensures MsPerMinute <= diffMs < MsPerHour ==> r == Ago(diffMs / MsPerMinute, "minute")
    ensures MsPerHour <= diffMs < MsPerDay ==> r == Ago(diffMs / MsPerHour, "hour")
    ensures MsPerDay <= diffMs ==> r == Ago(diffMs / MsPerDay, "day")
  {
    var mins := diffMs / MsPerMinute;
    var hours := diffMs / MsPerHour;
    var days := diffMs / MsPerDay;
    if mins < 1 then "just now"
    else if mins < 60 then Ago(mins, "minute")
    else if hours < 24 then Ago(hours, "hour")
    else Ago(days, "day")
  }

  /** The count is written in decimal and the unit is plural exactly when
      the count is not one. */
  lemma AgoShape(n: nat, unit: string)
    ensures var r := Ago(n, unit); var k := |NatToString(n)|;
      && DecimalValue(r[..k]) == n && r[k..k + 1 + |unit|] == " " + unit
      && (r[k + 1 + |unit|..] == "s ago" <==> n != 1)
      && (r[k + 1 + |unit|..] == " ago" <==> n == 1)
  {
    var r := Ago(n, unit);
    var k := |NatToString(n)|;
    NatToStringValue(n);
    assert r[..k] == NatToString(n);
    assert r[k..k + 1 + |unit|] == " " + unit;
  }

  /** Exactly one minute reads "1 minute ago", the singular. */
  lemma OneMinute()
    ensures FormatRelativeTime(60000) == "1 minute ago"
  {
  }

  // ---------------------------------------------------------------------
  // The status mapping of refreshFromServer

  /** `String(status || 'pending')`, with `declined` shown as `expired`. */
  function StatusLabel(status: Option<string>): (r: string)
    ensures status.None? || status == Some("") ==> r == "pending"
    ensures status == Some("declined") ==> r == "expired"
    ensures status.Some? && status.value != "" && status.value != "declined" ==> r == status.value
    ensures r != "declined" && r != ""
  {
    var s := if status.None? || status.value == "" then "pending" else status.value;
    if s == "declined" then "expired" else s
  }

  // ---------------------------------------------------------------------
  // The client state that polling and the simulator update

  datatype Cursor = Cursor(sinceAlertId: int, sinceLocationId: int)

  datatype Point = Point(lat: real, lng: real)

  /** A consent as the client keeps it. */
  datatype ClientConsent = ClientConsent(
    id: int,
    name: string,
    phone: string,
    status: string,
    lastLocation: Option<Point>,
    lastUpdate: string)

  /** A location row of a poll response. */
  datatype PolledLocation = PolledLocation(
    consentId: int,
    userId: nat,
    lat: real,
    lng: real,
    createdAt: Option<string>,
    activityStatus: Option<string>)

  datatype HistoryEntry = HistoryEntry(name: string, lat: real, lng: real, timestamp: string, activity: string)

  const HistoryCap: nat := 100

  /** The last polled location for a consent (`filter(...).pop()`). */
  function LatestFor(ls: seq<PolledLocation>, consentId: int): (r: Option<PolledLocation>)
    ensures r.Some? ==> r.value.consentId == consentId
    ensures r.Some? ==>
      exists k :: 0 <= k < |ls| && ls[k] == r.value && (forall j :: k < j < |ls| ==> ls[j].consentId != consentId)
    ensures r.None? <==> forall j :: 0 <= j < |ls| ==> ls[j].consentId != consentId
  {
    if ls == [] then None
    else if ls[|ls| - 1].consentId == consentId then Some(ls[|ls| - 1])
    else
      var r := LatestFor(ls[..|ls| - 1], consentId);
      assert forall j :: 0 <= j < |ls| - 1 ==> ls[..|ls| - 1][j] == ls[j];
      r
  }

  /** The latest of two batches is the latest of the second, if it has one. */
  lemma {:induction false} LatestForAppend(a: seq<PolledLocation>, b: seq<PolledLocation>, consentId: int)
    ensures LatestFor(a + b, consentId) ==
      if LatestFor(b, consentId).Some? then LatestFor(b, consentId) else LatestFor(a, consentId)
  {
    if b != [] {
      assert (a + b)[..|a + b| - 1] == a + b[..|b| - 1];
      assert (a + b)[|a + b| - 1] == b[|b| - 1];
      LatestForAppend(a, b[..|b| - 1], consentId);
    } else {
      assert a + b == a;
    }
  }

  /** `new Date(x).toISOString()` when there is a stamp, else the current
      time (the re-formatting itself is not modelled). */
  function StampOr(createdAt: Option<string>, now: string): string {
    if createdAt.None? || createdAt.value == "" then now else createdAt.value
  }

  /** The consent with its last location replaced by its latest polled one. */
  function MergeConsent(c: ClientConsent, ls: seq<PolledLocation>, now: string): (r: ClientConsent)
    ensures LatestFor(ls, c.id).None? ==> r == c
    ensures LatestFor(ls, c.id).Some? ==>
      var l := LatestFor(ls, c.id).value;
      r == c.(lastLocation := Some(Point(l.lat, l.lng)), lastUpdate := StampOr(l.createdAt, now))
  {
    match LatestFor(ls, c.id)
    case None => c
    case Some(l) => c.(lastLocation := Some(Point(l.lat, l.lng)), lastUpdate := StampOr(l.createdAt, now))
  }

  /** The consents map of pollUpdates. */
  function MergeLatest(cs: seq<ClientConsent>, ls: seq<PolledLocation>, now: string): (r: seq<ClientConsent>)
    ensures |r| == |cs| && forall i :: 0 <= i < |cs| ==> r[i] == MergeConsent(cs[i], ls, now)
  {
    seq(|cs|, i requires 0 <= i < |cs| => MergeConsent(cs[i], ls, now))
  }

  /** Merging two polls one after the other is merging them at once (for
      the same clock reading). */
  lemma MergeLatestTwice(cs: seq<ClientConsent>, a: seq<PolledLocation>, b: seq<PolledLocation>, now: string)
    ensures MergeLatest(MergeLatest(cs, a, now), b, now) == MergeLatest(cs, a + b, now)
  {
    var left := MergeLatest(MergeLatest(cs, a, now), b, now);
    var right := MergeLatest(cs, a + b, now);
    forall i | 0 <= i < |cs| ensures left[i] == right[i] {
      LatestForAppend(a, b, cs[i].id);
    }
  }

  /** Consents with no polled location are left as they were, and ids,
      names and statuses are never touched. */
  lemma MergeLatestKeeps(cs: seq<ClientConsent>, ls: seq<PolledLocation>, now: string, i: nat)
    requires i < |cs|
    ensures var r := MergeLatest(cs, ls, now);
      && (LatestFor(ls, cs[i].id).None? ==> r[i] == cs[i])
      && r[i].id == cs[i].id && r[i].name == cs[i].name && r[i].status == cs[i].status
      && r[i].phone == cs[i].phone
  {
  }

  /** The consent a polled location belongs to (`consents.find`). */
  function FindClientConsent(cs: seq<ClientConsent>, id: int): (r: Option<ClientConsent>)
    ensures r.Some? ==> r.value in cs && r.value.id == id
    ensures r.Some? ==> exists k :: 0 <= k < |cs| && cs[k] == r.value && forall j :: 0 <= j < k ==> cs[j].id != id
    ensures r.None? <==> forall c :: c in cs ==> c.id != id
  {
    if cs == [] then None
    else if cs[0].id == id then Some(cs[0])
    else FindClientConsent(cs[1..], id)
  }

  /** The history entry pollUpdates records for a polled location. */
  function EntryFor(cs: seq<ClientConsent>, l: PolledLocation, now: string): HistoryEntry {
    var owner := FindClientConsent(cs, l.consentId);
    var name := if owner.Some? && owner.value.name != "" then owner.value.name else "User " + NatToString(l.userId);
    var activity := if l.activityStatus.None? || l.activityStatus.value == "" then "unknown" else l.activityStatus.value;
    HistoryEntry(name, l.lat, l.lng, StampOr(l.createdAt, now), activity)
  }

  function EntriesFor(cs: seq<ClientConsent>, ls: seq<PolledLocation>, now: string): (r: seq<HistoryEntry>)
    ensures |r| == |ls| && forall i :: 0 <= i < |ls| ==> r[i] == EntryFor(cs, ls[i], now)
  {
    seq(|ls|, i requires 0 <= i < |ls| => EntryFor(cs, ls[i], now))
  }

  lemma EntriesForSnoc(cs: seq<ClientConsent>, ls: seq<PolledLocation>, i: nat, now: string)
    requires i < |ls|
    ensures EntriesFor(cs, ls[..i + 1], now) == EntriesFor(cs, ls[..i], now) + [EntryFor(cs, ls[i], now)]
  {
    var e := EntryFor(cs, ls[i], now);
    var a, p := EntriesFor(cs, ls[..i + 1], now), EntriesFor(cs, ls[..i], now);
    forall k | 0 <= k < i + 1 ensures a[k] == (p + [e])[k] {
      if k < i {
        assert ls[..i + 1][k] == ls[k] == ls[..i][k];
        assert a[k] == EntryFor(cs, ls[k], now) == p[k];
      } else {
        assert ls[..i + 1][k] == ls[i];
      }
    }
  }

  /** The last `n` entries, in their original order. */
  function LastN<T>(h: seq<T>, n: nat): (r: seq<T>)
    ensures |r| == (if |h| <= n then |h| else n)
    ensures r == h[|h| - |r|..]
  {
    if |h| <= n then h else h[|h| - n..]
  }

  /** history.shift() after one push: the oldest entry goes once the
      history is over the cap. */
  function PushCapped<T>(h: seq<T>, e: T): (r: seq<T>)
    ensures |h| < HistoryCap ==> r == h + [e]
    ensures |h| >= HistoryCap ==> r == h[1..] + [e]
  {
    var pushed := h + [e];
    if |pushed| > HistoryCap then
      assert pushed[1..] == h[1..] + [e];
      pushed[1..]
    else pushed
  }

  /** On a history within the cap, the simulator's shift keeps the same
      entries as the poll's splice: the newest 100. */
  lemma PushCappedIsLastN<T>(h: seq<T>, e: T)
    requires |h| <= HistoryCap
    ensures PushCapped(h, e) == LastN(h + [e], HistoryCap)
  {
  }

  /** Entries appended by a poll are the newest ones kept: when a poll
      brings at least the cap, the history is its last 100 entries. */
  lemma LastNOfLongTail<T>(h: seq<T>, incoming: seq<T>)
    requires |incoming| >= HistoryCap
    ensures LastN(h + incoming, HistoryCap) == LastN(incoming, HistoryCap)
  {
    var all := h + incoming;
    assert all[|all| - HistoryCap..] == incoming[|incoming| - HistoryCap..];
  }

  class ClientState {
    var consents: seq<ClientConsent>
    var history: seq<HistoryEntry>
    var pollCursor: Cursor

    /** The stored history never exceeds the cap. */
    ghost predicate Valid()
      reads this
    {
      |history| <= HistoryCap
    }

    constructor()
      ensures Valid() && consents == [] && history == [] && pollCursor == Cursor(0, 0)
    {
      consents, history, pollCursor := [], [], Cursor(0, 0);
    }

    /** The state changes pollUpdates makes for a poll response: the
        cursor, and when locations came back, the consents' latest
        locations and the history, capped at its last 100 entries. */
    method ApplyPoll(cursor: Option<Cursor>, polled: seq<PolledLocation>, now: string)
      requires Valid()
      modifies this
      ensures Valid()
      ensures pollCursor == (if cursor.Some? then cursor.value else old(pollCursor))
      ensures polled == [] ==> consents == old(consents) && history == old(history)
      ensures polled != [] ==>
        && consents == MergeLatest(old(consents), polled, now)
        && history == LastN(old(history) + EntriesFor(consents, polled, now), HistoryCap)
    {
      pollCursor := if cursor.Some? then cursor.value else pollCursor;
      if polled == [] {
        return;
      }
      consents := MergeLatest(consents, polled, now);
      ghost var all := history + EntriesFor(consents, polled, now);
      AppendEntries(polled, now);
      if |history| > HistoryCap {
        history := history[|history| - HistoryCap..];
      }
      assert history == LastN(all, HistoryCap);
    }

    /** The `forEach` of pollUpdates: one history entry per polled
        location, named after the (already merged) consents. */
    method AppendEntries(polled: seq<PolledLocation>, now: string)
      modifies this
      ensures history == old(history) + EntriesFor(consents, polled, now)
      ensures consents == old(consents) && pollCursor == old(pollCursor)
    {
      var i := 0;
      while i < |polled|
        invariant 0 <= i <= |polled|
        invariant history == old(history) + EntriesFor(consents, polled[..i], now)
        invariant consents == old(consents) && pollCursor == old(pollCursor)
      {
        EntriesForSnoc(consents, polled, i, now);
        history := history + [EntryFor(consents, polled[i], now)];
        i := i + 1;
      }
      assert polled[..i] == polled;
    }

    /** The history update of simulateLocationUpdate: push, then drop the
        oldest entry when over the cap. */
    method RecordSimulatedLocation(entry: HistoryEntry)
      requires Valid()
      modifies this
      ensures Valid()
      ensures history == PushCapped(old(history), entry)
      ensures consents == old(consents) && pollCursor == old(pollCursor)
    {
      history := history + [entry];
      if |history| > HistoryCap {
        history := history[1..];
      }
    }
  }
}
