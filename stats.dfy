/** View aggregation: the hit counts of a list of events, fetched from the
    analytics collector under each event's path `/events/<id>` and parsed
    back into a map from event id to hits. The collector is another
    service, passed in as a function of (start, end, uris, unique). */
module StatClient {
  import opened Common
  import opened EventModel
  import Table

  /** A row of the collector's answer: a path and its hit count. */
  datatype ViewStats = ViewStats(app: string, uri: string, hits: int)

  /* ---- Long.toString and Long.parseLong over ASCII digits ---- */

  predicate IsDigit(c: char) {
    '0' <= c <= '9'
  }

  predicate AllDigits(s: string) {
    forall i :: 0 <= i < |s| ==> IsDigit(s[i])
  }

  function DigitChar(d: int): (c: char)
    requires 0 <= d < 10
    ensures IsDigit(c) && (c as int) - ('0' as int) == d
  {
    (('0' as int) + d) as char
  }

  /** The decimal digits of `n`, without leading zeros. */
  function NatToString(n: nat): (s: string)
    ensures |s| >= 1 && AllDigits(s)
  {
    if n < 10 then [DigitChar(n)]
    else NatToString(n / 10) + [DigitChar(n % 10)]
  }

  /** `Long.toString`: a minus sign for negative values, then the digits. */
  function LongToString(x: int): (s: string)
    ensures |s| >= 1 && '/' !in s
  {
    var s := if x < 0 then "-" + NatToString(-x) else NatToString(x);
    assert forall i :: 0 <= i < |s| ==> s[i] != '/';
    s
  }

  function DigitsValue(s: string): nat
    requires AllDigits(s)
  {
    if s == [] then 0
    else DigitsValue(s[..|s| - 1]) * 10 + ((s[|s| - 1] as int) - ('0' as int))
  }

  lemma {:induction false} DigitsRoundTrip(n: nat)
    ensures DigitsValue(NatToString(n)) == n
  {
    if n >= 10 {
      var s := NatToString(n);
      assert s[..|s| - 1] == NatToString(n / 10);
      DigitsRoundTrip(n / 10);
    }
  }

  /** `Long.parseLong`: an optional sign and at least one digit, within the
      range of a long; anything else is a NumberFormatException. */
  function ParseLong(s: string): (r: Option<int>)
    ensures r.Some? ==> IsLong(r.value)
  {
    if |s| == 0 then None
    else
      var negative := s[0] == '-';
      var digits := if s[0] == '-' || s[0] == '+' then s[1..] else s;
      if |digits| == 0 || !AllDigits(digits) then None
      else
        var d: int := DigitsValue(digits);
        var v := if negative then -d else d;
        if IsLong(v) then Some(v) else None
  }

  /** The id printed into a path parses back to itself. */
  lemma ParseLongRoundTrip(x: int)
    requires IsLong(x)
    ensures ParseLong(LongToString(x)) == Some(x)
  {
    var s := LongToString(x);
    if x < 0 {
      var digits := NatToString(-x);
      assert s == "-" + digits && s[1..] == digits;
      DigitsRoundTrip(-x);
      assert DigitsValue(digits) == -x;
    } else {
      assert s == NatToString(x) && IsDigit(s[0]);
      DigitsRoundTrip(x);
    }
  }

  /* ---- String.split("/") ---- */

  /** The pieces between the slashes of `s`, empty ones included. */
  function Fields(s: string): (r: seq<string>)
    ensures |r| >= 1
  {
    if s == [] then [[]]
    else
      var rest := Fields(s[1..]);
      if s[0] == '/' then [[]] + rest
      else [[s[0]] + rest[0]] + rest[1..]
  }

  function DropTrailingEmpty(parts: seq<string>): (r: seq<string>)
    ensures |r| <= |parts| && r == parts[..|r|]
    ensures r != [] ==> r[|r| - 1] != []
  {
    if parts == [] || parts[|parts| - 1] != [] then parts
    else DropTrailingEmpty(parts[..|parts| - 1])
  }

  /** Java's `split("/")`: the input itself when it holds no slash,
      otherwise its fields with trailing empty strings removed. */
  function Split(s: string): seq<string> {
    if '/' !in s then [s] else DropTrailingEmpty(Fields(s))
  }

  lemma {:induction false} FieldsWithoutSlash(s: string)
    requires '/' !in s
    ensures Fields(s) == [s]
  {
    if s != [] {
      assert '/' !in s[1..];
      FieldsWithoutSlash(s[1..]);
      assert [s[0]] + s[1..] == s;
    }
  }

  lemma {:induction false} FieldsAtSlash(w: string, rest: string)
    requires '/' !in w
    ensures Fields(w + "/" + rest) == [w] + Fields(rest)
  {
    if w == [] {
      assert w + "/" + rest == "/" + rest;
      assert ("/" + rest)[1..] == rest;
    } else {
      assert (w + "/" + rest)[1..] == w[1..] + "/" + rest;
      assert '/' !in w[1..];
      FieldsAtSlash(w[1..], rest);
      assert [w[0]] + w[1..] == w;
    }
  }

  /** The collector path of an event. */
  function EventUri(id: int): string {
    "/events/" + LongToString(id)
  }

  /** Splitting an event path gives `["", "events", id]`. */
  lemma SplitEventUri(id: int)
    ensures Split(EventUri(id)) == ["", "events", LongToString(id)]
  {
    var d := LongToString(id);
    assert EventUri(id) == "" + "/" + ("events" + "/" + d);
    FieldsAtSlash("", "events" + "/" + d);
    FieldsAtSlash("events", d);
    FieldsWithoutSlash(d);
    assert EventUri(id)[0] == '/';
  }

  /** The id a collector row names: `parts[2]` when there are at least three
      parts and it parses. */
  function ParsedId(st: ViewStats): Option<int> {
    var parts := Split(st.uri);
    if |parts| >= 3 then ParseLong(parts[2]) else None
  }

  /** A row that has a third part which is not a number: parsing it throws. */
  predicate Unparsable(st: ViewStats) {
    var parts := Split(st.uri);
    |parts| >= 3 && ParseLong(parts[2]).None?
  }

  /** Building the path of an event and parsing it back gives the event's id. */
  lemma EventUriRoundTrip(id: int, app: string, hits: int)
    requires IsLong(id)
    ensures ParsedId(ViewStats(app, EventUri(id), hits)) == Some(id)
    ensures !Unparsable(ViewStats(app, EventUri(id), hits))
  {
    SplitEventUri(id);
    ParseLongRoundTrip(id);
  }

  /** The views map the `forEach` builds: rows with fewer than three parts are
      skipped, a later row for the same id overwrites an earlier one, and a
      row whose third part is not a number aborts with IllegalArgument. */
  function ViewsOf(stats: seq<ViewStats>): (r: Result<map<int, int>>)
    ensures r.Failure? ==> r.error == IllegalArgument
  {
    if stats == [] then Success(map[])
    else
      var init := stats[..|stats| - 1];
      var last := stats[|stats| - 1];
      match ViewsOf(init)
      case Failure(e) => Failure(e)
      case Success(m) =>
        if Unparsable(last) then Failure(IllegalArgument)
        else match ParsedId(last)
          case None => Success(m)
          case Some(id) => Success(m[id := last.hits])
  }

  /** The fold fails exactly when some row has a third part that is not a
      number. */
  lemma {:induction false} ViewsOfFails(stats: seq<ViewStats>)
    ensures ViewsOf(stats).Failure? <==> exists i :: 0 <= i < |stats| && Unparsable(stats[i])
  {
    if stats != [] {
      var init := stats[..|stats| - 1];
      assert forall i :: 0 <= i < |init| ==> init[i] == stats[i];
      ViewsOfFails(init);
    }
  }

  /** One more row adds at most the id it names. */
  lemma ViewsOfStepKeys(stats: seq<ViewStats>)
    requires stats != [] && ViewsOf(stats).Success?
    ensures ViewsOf(stats[..|stats| - 1]).Success?
    ensures forall k :: k in ViewsOf(stats).value <==>
      k in ViewsOf(stats[..|stats| - 1]).value || ParsedId(stats[|stats| - 1]) == Some(k)
  {
  }

  /** The keys of the map are exactly the ids the rows name. */
  lemma {:induction false} ViewsOfKeys(stats: seq<ViewStats>)
    requires ViewsOf(stats).Success?
    ensures forall k :: k in ViewsOf(stats).value <==> exists i :: 0 <= i < |stats| && ParsedId(stats[i]) == Some(k)
  {
    if stats != [] {
      var init := stats[..|stats| - 1];
      ViewsOfStepKeys(stats);
      ViewsOfKeys(init);
      assert forall i :: 0 <= i < |init| ==> init[i] == stats[i];
    }
  }

  /** Once a prefix has failed, the whole fold fails the same way. */
  lemma {:induction false} ViewsOfFailureSticks(stats: seq<ViewStats>, n: nat)
    requires n <= |stats| && ViewsOf(stats[..n]).Failure?
    ensures ViewsOf(stats).Failure?
  {
    if n < |stats| {
      var init := stats[..|stats| - 1];
      assert init[..n] == stats[..n];
      ViewsOfFailureSticks(init, n);
    } else {
      assert stats[..n] == stats;
    }
  }

  /** A row is the last one naming id `k`. */
  predicate LastFor(stats: seq<ViewStats>, i: int, k: int) {
    && 0 <= i < |stats|
    && ParsedId(stats[i]) == Some(k)
    && forall j :: i < j < |stats| ==> ParsedId(stats[j]) != Some(k)
  }

  /** Each id maps to the hits of the last row naming it. */
  lemma {:induction false} ViewsOfLastWins(stats: seq<ViewStats>, i: int, k: int)
    requires ViewsOf(stats).Success? && LastFor(stats, i, k)
    ensures k in ViewsOf(stats).value && ViewsOf(stats).value[k] == stats[i].hits
  {
    var init := stats[..|stats| - 1];
    var last := stats[|stats| - 1];
    assert ViewsOf(init).Success? && !Unparsable(last);
    if i < |stats| - 1 {
      assert init[i] == stats[i];
      assert LastFor(init, i, k) by {
        forall j | i < j < |init| ensures ParsedId(init[j]) != Some(k) {
          assert init[j] == stats[j];
        }
      }
      ViewsOfLastWins(init, i, k);
    }
  }

  /** `stats.forEach(... views.put(eventId, hits))`. */
  method CollectViews(stats: seq<ViewStats>) returns (r: Result<map<int, int>>)
    ensures r == ViewsOf(stats)
  {
    var views: map<int, int> := map[];
    var i := 0;
    while i < |stats|
      invariant 0 <= i <= |stats|
      invariant ViewsOf(stats[..i]) == Success(views)
    {
      assert stats[..i + 1][..i] == stats[..i];
      var parts := Split(stats[i].uri);
      if |parts| >= 3 {
        var id := ParseLong(parts[2]);
        if id.None? {
          assert stats[..i + 1][i] == stats[i];
          ViewsOfFailureSticks(stats, i + 1);
          return Failure(IllegalArgument);
        }
        views := views[id.value := stats[i].hits];
      }
      i := i + 1;
    }
    assert stats[..i] == stats;
    r := Success(views);
  }

  /** The earliest publication time among the events, if any is published. */
  function MinPublishedOn(events: seq<Event>): (r: Option<int>)
    ensures r.None? <==> forall i :: 0 <= i < |events| ==> events[i].publishedOn.None?
    ensures r.Some? ==> exists i :: 0 <= i < |events| && events[i].publishedOn == Some(r.value)
    ensures r.Some? ==> forall i :: 0 <= i < |events| && events[i].publishedOn.Some? ==> r.value <= events[i].publishedOn.value
  {
    if events == [] then None
    else
      var rest := MinPublishedOn(events[1..]);
      assert forall i :: 1 <= i < |events| ==> events[i] == events[1..][i - 1];
      match events[0].publishedOn
      case None => rest
      case Some(p) =>
        if rest.Some? && rest.value < p then rest else Some(p)
  }

  /** The events that have a publication time. */
  function PublishedEvents(events: seq<Event>): (r: seq<Event>)
    ensures forall e :: e in r <==> e in events && e.publishedOn.Some?
  {
    Table.Filter(events, (e: Event) => e.publishedOn.Some?)
  }

  /** The queried paths: `"/events/" + id` per event, in order. */
  function EventUris(events: seq<Event>): (r: seq<string>)
    ensures |r| == |events|
    ensures forall i :: 0 <= i < |events| ==> r[i] == EventUri(events[i].id)
  {
    seq(|events|, i requires 0 <= i < |events| => EventUri(events[i].id))
  }

  /** `getEventsView`: with no published event the answer is an empty map
      and the collector is not asked; otherwise the collector is asked for
      unique hits on the published events' paths from the earliest
      publication up to `now`, and its rows are collected. */
  function EventsView(events: seq<Event>, now: int,
                      collector: (int, int, seq<string>, bool) -> seq<ViewStats>): Result<map<int, int>>
  {
    var published := PublishedEvents(events);
    if published == [] then Success(map[])
    else ViewsOf(collector(MinPublishedOn(published).value, now, EventUris(published), true))
  }

  /** Without a published event the views are empty, whatever the collector
      would answer. */
  lemma EventsViewWithoutPublished(events: seq<Event>, now: int,
                                   collector: (int, int, seq<string>, bool) -> seq<ViewStats>)
    requires forall i :: 0 <= i < |events| ==> events[i].publishedOn.None?
    ensures EventsView(events, now, collector) == Success(map[])
  {
    var published := PublishedEvents(events);
    assert forall x :: x in events ==> x.publishedOn.None?;
    assert forall j :: 0 <= j < |published| ==> published[j] in published;
  }

  /** With a published event, the collector is asked from the earliest
      publication, for the published events' paths in their order. */
  lemma EventsViewQuery(events: seq<Event>, now: int,
                        collector: (int, int, seq<string>, bool) -> seq<ViewStats>, k: int)
    requires 0 <= k < |events| && events[k].publishedOn.Some?
    ensures var published := PublishedEvents(events);
      && MinPublishedOn(published).Some?
      && (forall e :: e in published ==> MinPublishedOn(published).value <= e.publishedOn.value)
      && EventsView(events, now, collector)
         == ViewsOf(collector(MinPublishedOn(published).value, now, EventUris(published), true))
  {
    var published := PublishedEvents(events);
    assert events[k] in published;
  }

  /** The service method, with the collecting loop. */
  method GetEventsView(events: seq<Event>, now: int,
                       collector: (int, int, seq<string>, bool) -> seq<ViewStats>)
    returns (r: Result<map<int, int>>)
    ensures r == EventsView(events, now, collector)
  {
    var published := PublishedEvents(events);
    if published == [] {
      return Success(map[]);
    }
    var start := MinPublishedOn(published).value;
    var uris := EventUris(published);
    var stats := collector(start, now, uris, true);
    r := CollectViews(stats);
  }

  /** A row for one of the queried paths names a published event. */
  lemma {:induction false} QueriedRowParses(published: seq<Event>, st: ViewStats)
    requires forall e :: e in published ==> IsLong(e.id)
    requires st.uri in EventUris(published)
    ensures !Unparsable(st)
    ensures exists e :: e in published && ParsedId(st) == Some(e.id)
  {
    var uris := EventUris(published);
    var j :| 0 <= j < |uris| && uris[j] == st.uri;
    EventUriRoundTrip(published[j].id, st.app, st.hits);
    assert st == ViewStats(st.app, EventUri(published[j].id), st.hits);
  }

  /** When the collector answers only for the queried paths, the map holds
      only ids of published events. */
  lemma {:induction false} ViewsOnlyForQueriedEvents(published: seq<Event>, stats: seq<ViewStats>)
    requires forall e :: e in published ==> IsLong(e.id)
    requires forall i :: 0 <= i < |stats| ==> stats[i].uri in EventUris(published)
    ensures ViewsOf(stats).Success?
    ensures forall k :: k in ViewsOf(stats).value ==> exists e :: e in published && e.id == k
  {
    forall i | 0 <= i < |stats|
      ensures !Unparsable(stats[i])
      ensures exists e :: e in published && ParsedId(stats[i]) == Some(e.id)
    {
      QueriedRowParses(published, stats[i]);
    }
    ViewsOfFails(stats);
    ViewsOfKeys(stats);
  }
}
