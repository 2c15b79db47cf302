/**
 * The calendar worker (workers/ical.js): read each property's iCal feed, pull the guest's name out of
 * every event, and create or re-date the matching reservation row.
 */
module Calendar {
  import opened Values
  import opened Text
  import opened Notify
  import opened Store

  // ---------------------------------------------------------------- feed components

  /** One component of a parsed calendar; dates are day numbers, absent when the property is missing. */
  datatype Component = Component(
    kind: string, uid: string, summary: Option<string>, description: Option<string>,
    start: Option<int>, end: Option<int>)

  /** The event record `parseICalFeed` returns. */
  datatype FeedEvent = FeedEvent(
    externalId: string, summary: Option<string>, description: Option<string>,
    start: Option<int>, end: Option<int>)

  function ToEvent(c: Component): FeedEvent {
    FeedEvent(c.uid, c.summary, c.description, c.start, c.end)
  }

  /** `parseICalFeed`: keep the VEVENT components, in order, and project their fields. */
  function FeedEvents(cs: seq<Component>): (r: seq<FeedEvent>)
    ensures |r| <= |cs|
    ensures forall e :: e in r <==> exists c :: c in cs && c.kind == "VEVENT" && e == ToEvent(c)
  {
    if cs == [] then []
    else
      var c := cs[|cs| - 1];
      assert cs == cs[..|cs| - 1] + [c];
      FeedEvents(cs[..|cs| - 1]) + (if c.kind == "VEVENT" then [ToEvent(c)] else [])
  }

  /** A single component becomes one event when it is a VEVENT and none otherwise. */
  lemma FeedEventsOfOne(c: Component)
    ensures FeedEvents([c]) == (if c.kind == "VEVENT" then [ToEvent(c)] else [])
  {
    assert [c][..0] == [];
  }

  /** `FeedEvents` distributes over concatenation: events keep the feed's order and multiplicity. */
  lemma {:induction false} FeedEventsAppend(a: seq<Component>, b: seq<Component>)
    ensures FeedEvents(a + b) == FeedEvents(a) + FeedEvents(b)
    decreases |b|
  {
    if b == [] {
      assert a + b == a;
    } else {
      var init := b[..|b| - 1];
      var c := b[|b| - 1];
      assert (a + b)[..|a + b| - 1] == a + init;
      assert (a + b)[|a + b| - 1] == c;
      FeedEventsAppend(a, init);
    }
  }

  // ---------------------------------------------------------------- the two guest-name patterns

  /** What may end the lazy capture: ` -` or the end of the text, or a newline or the end of the text. */
  datatype Stop = DashOrEnd | LineOrEnd

  predicate StopsAt(s: string, j: int, stop: Stop)
    requires 0 <= j <= |s|
  {
    j == |s|
    || (stop == DashOrEnd && OccursAt(s, j, " -"))
    || (stop == LineOrEnd && s[j] == '\n')
  }

  /** `s[b..e]` can be the group `(.+?)`: non-empty, no line terminator, and followed by a stop. */
  predicate CaptureOk(s: string, b: int, e: int, stop: Stop) {
    0 <= b < e <= |s|
    && (forall k :: b <= k < e ==> !IsLineTerminator(s[k]))
    && StopsAt(s, e, stop)
  }

  /** The pattern `pat(.+?)stop` matches at `i` with the group ending at `e`. */
  predicate Matches(s: string, pat: string, stop: Stop, i: int, e: int) {
    OccursFoldedAt(s, i, pat) && CaptureOk(s, i + |pat|, e, stop)
  }

  /** The lazy quantifier: the shortest group end at or after `j`. */
  function LazyEnd(s: string, b: nat, j: nat, stop: Stop): (r: Option<nat>)
    requires b < j <= |s| + 1
    requires forall k :: b <= k < j - 1 ==> !IsLineTerminator(s[k])
    ensures r.Some? ==> j <= r.value && CaptureOk(s, b, r.value, stop)
                        && forall m :: j <= m < r.value ==> !CaptureOk(s, b, m, stop)
    ensures r.None? ==> forall m :: j <= m ==> !CaptureOk(s, b, m, stop)
    decreases |s| + 1 - j
  {
    if j > |s| then None
    else if IsLineTerminator(s[j - 1]) then None
    else if StopsAt(s, j, stop) then Some(j)
    else LazyEnd(s, b, j + 1, stop)
  }

  /** The group end of a match at exactly `i`, if the pattern matches there. */
  function MatchEnd(s: string, pat: string, stop: Stop, i: nat): (r: Option<nat>)
    ensures r.Some? ==> Matches(s, pat, stop, i, r.value)
                        && forall m :: m < r.value ==> !Matches(s, pat, stop, i, m)
    ensures r.None? ==> forall m :: !Matches(s, pat, stop, i, m)
  {
    if OccursFoldedAt(s, i, pat) then LazyEnd(s, i + |pat|, i + |pat| + 1, stop) else None
  }

  /** `String.prototype.match` without the `g` flag: the leftmost position where the pattern matches. */
  function FirstMatch(s: string, pat: string, stop: Stop, i: nat): (r: Option<(nat, nat)>)
    requires i <= |s| + 1
    ensures r.Some? ==> i <= r.value.0 && MatchEnd(s, pat, stop, r.value.0) == Some(r.value.1)
                        && forall p :: i <= p < r.value.0 ==> MatchEnd(s, pat, stop, p).None?
    ensures r.None? ==> forall p, e :: i <= p ==> !Matches(s, pat, stop, p, e)
    decreases |s| + 1 - i
  {
    if i > |s| then None
    else
      var e := MatchEnd(s, pat, stop, i);
      if e.Some? then Some((i, e.value)) else FirstMatch(s, pat, stop, i + 1)
  }

  /** The text of group 1 of the leftmost match of `pat(.+?)stop` in `s`. */
  function Captured(s: string, pat: string, stop: Stop): (r: Option<string>)
    ensures r.Some? ==> r.value != [] && forall k :: 0 <= k < |r.value| ==> !IsLineTerminator(r.value[k])
  {
    match FirstMatch(s, pat, stop, 0)
    case None => None
    case Some((i, e)) => Some(s[i + |pat|..e])
  }

  const SummaryPrefix := "Reservation for "
  const DescriptionPrefix := "Guest: "
  const UnknownGuest := "Unknown Guest"

  /** The name chosen by `extractGuestInfo`: the summary pattern first, then the description pattern. */
  function GuestName(summary: string, description: Option<string>): (r: string)
    ensures r == UnknownGuest || r == [] || (!IsSpace(r[0]) && !IsSpace(r[|r| - 1]))
    ensures Captured(summary, SummaryPrefix, DashOrEnd).Some? ==> r == Trim(Captured(summary, SummaryPrefix, DashOrEnd).value)
    ensures r == UnknownGuest <== Captured(summary, SummaryPrefix, DashOrEnd).None?
                                  && (description.None? || Captured(description.value, DescriptionPrefix, LineOrEnd).None?)
  {
    var m := Captured(summary, SummaryPrefix, DashOrEnd);
    var g := if m.Some? then m
             else if description.Some? then Captured(description.value, DescriptionPrefix, LineOrEnd)
             else None;
    if g.Some? then Trim(g.value) else UnknownGuest
  }

  /**
   * When the summary is the prefix (in any letter case), then a name without `-` or line breaks, then
   * either nothing or ` -...`, the guest name is that name, trimmed, whatever the description says.
   */
  lemma SummaryNameIsTextBeforeDash(pre: string, name: string, tail: string, description: Option<string>)
    requires |pre| == |SummaryPrefix| && forall k :: 0 <= k < |pre| ==> Fold(pre[k]) == Fold(SummaryPrefix[k])
    requires name != [] && '-' !in name && forall k :: 0 <= k < |name| ==> !IsLineTerminator(name[k])
    requires tail == [] || (|tail| >= 2 && tail[..2] == " -")
    ensures GuestName(pre + name + tail, description) == Trim(name)
  {
    var s := pre + name + tail;
    var b := |pre|;
    var e := b + |name|;
    assert OccursFoldedAt(s, 0, SummaryPrefix) by {
      forall k | 0 <= k < |SummaryPrefix| ensures Fold(s[k]) == Fold(SummaryPrefix[k]) {
        assert s[k] == pre[k];
      }
    }
    assert StopsAt(s, e, DashOrEnd) by {
      if tail != [] {
        assert s[e..e + 2] == tail[..2];
      }
    }
    assert Matches(s, SummaryPrefix, DashOrEnd, 0, e) by {
      forall k | b <= k < e ensures !IsLineTerminator(s[k]) {
        assert s[k] == name[k - b];
      }
    }
    forall m | m < e ensures !Matches(s, SummaryPrefix, DashOrEnd, 0, m) {
      if b < m < e {
        if m + 1 < e {
          assert s[m + 1] == name[m + 1 - b];
          assert s[m + 1] != '-';
        } else if tail != [] {
          assert s[m + 1] == tail[0] == ' ';
        }
        assert !OccursAt(s, m, " -");
      }
    }
    assert FirstMatch(s, SummaryPrefix, DashOrEnd, 0) == Some((0, e));
    assert s[b..e] == name;
  }

  /**
   * When the summary does not match, a description holding the prefix (in any letter case), then a name
   * without line breaks, then a newline or nothing, gives that name, trimmed.
   */
  lemma DescriptionNameIsLineAfterGuest(summary: string, before: string, pre: string, name: string, tail: string)
    requires Captured(summary, SummaryPrefix, DashOrEnd).None?
    requires forall p, e :: p < |before| ==> !Matches(before + pre + name + tail, DescriptionPrefix, LineOrEnd, p, e)
    requires |pre| == |DescriptionPrefix| && forall k :: 0 <= k < |pre| ==> Fold(pre[k]) == Fold(DescriptionPrefix[k])
    requires name != [] && forall k :: 0 <= k < |name| ==> !IsLineTerminator(name[k])
    requires tail == [] || tail[0] == '\n'
    ensures GuestName(summary, Some(before + pre + name + tail)) == Trim(name)
  {
    var s := before + pre + name + tail;
    var i := |before|;
    var b := i + |pre|;
    var e := b + |name|;
    assert OccursFoldedAt(s, i, DescriptionPrefix) by {
      forall k | 0 <= k < |DescriptionPrefix| ensures Fold(s[i + k]) == Fold(DescriptionPrefix[k]) {
        assert s[i + k] == pre[k];
      }
    }
    assert StopsAt(s, e, LineOrEnd) by {
      if tail != [] {
        assert s[e] == tail[0];
      }
    }
    assert Matches(s, DescriptionPrefix, LineOrEnd, i, e) by {
      forall k | b <= k < e ensures !IsLineTerminator(s[k]) {
        assert s[k] == name[k - b];
      }
    }
    forall m | m < e ensures !Matches(s, DescriptionPrefix, LineOrEnd, i, m) {
      if b < m < e {
        assert s[m] == name[m - b];
      }
    }
    var r := FirstMatch(s, DescriptionPrefix, LineOrEnd, 0);
    assert r.Some?;
    var (p, e') := r.value;
    assert Matches(s, DescriptionPrefix, LineOrEnd, p, e');
    assert MatchEnd(s, DescriptionPrefix, LineOrEnd, i).Some?;
    assert p == i;
    assert s[b..e] == name;
  }

  /** With no match in the summary and no description, the placeholder name is used. */
  lemma NoMatchIsUnknownGuest(summary: string)
    requires forall p :: !OccursFoldedAt(summary, p, SummaryPrefix)
    ensures GuestName(summary, None) == UnknownGuest
  {
  }

  // ---------------------------------------------------------------- extractGuestInfo

  datatype GuestInfo = GuestInfo(guestName: string, externalId: string, arrival: int, departure: int)

  /**
   * `extractGuestInfo`. It throws, and so aborts the whole sync, when the event has no summary
   * (`.match` on undefined) or no start or end date (`.toISOString` on undefined): those give None.
   */
  function ExtractGuestInfo(e: FeedEvent): (r: Option<GuestInfo>)
    ensures r.Some? <==> e.summary.Some? && e.start.Some? && e.end.Some?
    ensures r.Some? ==> r.value.externalId == e.externalId && r.value.arrival == e.start.value
                        && r.value.departure == e.end.value
                        && r.value.guestName == GuestName(e.summary.value, e.description)
  {
    if e.summary.None? || e.start.None? || e.end.None? then None
    else Some(GuestInfo(GuestName(e.summary.value, e.description), e.externalId, e.start.value, e.end.value))
  }

  // ---------------------------------------------------------------- what one sync run sees

  /** One event of one property, ready to be reconciled with the table. */
  datatype Upsert = Upsert(property: Property, info: GuestInfo)

  /** The upserts of one property's events, and whether every event could be read (`false`: aborted). */
  function PropertyUpserts(p: Property, events: seq<FeedEvent>): (r: (seq<Upsert>, bool))
    ensures |r.0| <= |events|
    ensures forall u :: u in r.0 ==> u.property == p
    ensures r.1 ==> |r.0| == |events|
  {
    if events == [] then ([], true)
    else
      var prev := PropertyUpserts(p, events[..|events| - 1]);
      if !prev.1 then prev
      else
        var info := ExtractGuestInfo(events[|events| - 1]);
        if info.None? then (prev.0, false) else (prev.0 + [Upsert(p, info.value)], true)
  }

  /** Once an event has aborted the run, later events are never looked at. */
  lemma {:induction false} PropertyAbortSticks(p: Property, events: seq<FeedEvent>, j: nat)
    requires j <= |events| && !PropertyUpserts(p, events[..j]).1
    ensures PropertyUpserts(p, events) == PropertyUpserts(p, events[..j])
    decreases |events| - j
  {
    if j < |events| {
      assert events[..|events| - 1][..j] == events[..j];
      PropertyAbortSticks(p, events[..|events| - 1], j);
    } else {
      assert events[..j] == events;
    }
  }

  /** The upserts of one property given what fetching and parsing its feed produced. */
  function PropertyRun(p: Property, data: Option<seq<Component>>): (seq<Upsert>, bool) {
    if data.None? then ([], false) else PropertyUpserts(p, FeedEvents(data.value))
  }

  /**
   * Every upsert `syncReservations` performs, in order, for the properties in order; `false` when a feed
   * could not be fetched or parsed, or an event could not be read, which ends the run there.
   */
  function RunUpserts(props: seq<Property>, feed: string -> Option<seq<Component>>): (r: (seq<Upsert>, bool))
    ensures forall u :: u in r.0 ==> u.property in props
  {
    if props == [] then ([], true)
    else
      var prev := RunUpserts(props[..|props| - 1], feed);
      var p := props[|props| - 1];
      if !prev.1 then prev
      else
        var next := PropertyRun(p, feed(p.icalUrl));
        (prev.0 + next.0, next.1)
  }

  lemma {:induction false} RunAbortSticks(props: seq<Property>, feed: string -> Option<seq<Component>>, j: nat)
    requires j <= |props| && !RunUpserts(props[..j], feed).1
    ensures RunUpserts(props, feed) == RunUpserts(props[..j], feed)
    decreases |props| - j
  {
    if j < |props| {
      assert props[..|props| - 1][..j] == props[..j];
      RunAbortSticks(props[..|props| - 1], feed, j);
    } else {
      assert props[..j] == props;
    }
  }

  /** One more property: the run so far, then that property's feed, unless the run has already stopped. */
  lemma RunUpsertsStep(props: seq<Property>, feed: string -> Option<seq<Component>>, i: nat)
    requires i < |props|
    ensures RunUpserts(props[..i + 1], feed)
            == if !RunUpserts(props[..i], feed).1 then RunUpserts(props[..i], feed)
               else (RunUpserts(props[..i], feed).0 + PropertyRun(props[i], feed(props[i].icalUrl)).0,
                     PropertyRun(props[i], feed(props[i].icalUrl)).1)
  {
    assert props[..i + 1][..i] == props[..i];
  }

  /** When every feed loads and every event is readable, the run covers every event of every property. */
  lemma {:induction false} CompleteRunCoversAllProperties(props: seq<Property>, feed: string -> Option<seq<Component>>, p: Property)
    requires RunUpserts(props, feed).1 && p in props
    ensures feed(p.icalUrl).Some?
    ensures forall u :: u in PropertyRun(p, feed(p.icalUrl)).0 ==> u in RunUpserts(props, feed).0
  {
    var init := props[..|props| - 1];
    assert props == init + [props[|props| - 1]];
    if p != props[|props| - 1] {
      assert p in init;
      CompleteRunCoversAllProperties(init, feed, p);
    }
  }

  // ---------------------------------------------------------------- reconciling with the table

  /** The reservation table, the next serial id and the messages sent so far. */
  datatype SyncState = SyncState(rows: seq<Reservation>, nextId: int, outbox: seq<Message>)

  predicate Keyed(r: Reservation, u: Upsert) {
    SameKey(r, u.property.id, u.info.externalId)
  }

  /** The row a first sighting creates: dates and name from the event, everything else unknown. */
  function NewRow(id: int, u: Upsert): Reservation {
    Reservation(id, u.property.id, u.info.externalId, u.info.guestName, u.info.arrival, u.info.departure,
                None, None, None, None, None, true)
  }

  /** A row carrying the dates of `info`, if any. */
  function Redate(row: Reservation, info: Option<GuestInfo>): Reservation {
    if info.Some? then row.(arrival := info.value.arrival, departure := info.value.departure) else row
  }

  /** The body of the inner loop: create and announce an unseen event, re-date a moved one, else nothing. */
  function Step(st: SyncState, u: Upsert): SyncState {
    match KeyIndex(st.rows, u.property.id, u.info.externalId)
    case None =>
      SyncState(st.rows + [NewRow(st.nextId, u)], st.nextId + 1,
                st.outbox + [NewReservation(u.property.name, u.info.guestName, u.info.arrival, u.info.departure)])
    case Some(k) =>
      if st.rows[k].arrival != u.info.arrival || st.rows[k].departure != u.info.departure
      then st.(rows := st.rows[k := Redate(st.rows[k], Some(u.info))])
      else st
  }

  function ApplyAll(st: SyncState, ups: seq<Upsert>): SyncState {
    if ups == [] then st else Step(ApplyAll(st, ups[..|ups| - 1]), ups[|ups| - 1])
  }

  /** The dates the last upsert for this key carries, if any upsert has this key. */
  function LastFor(ups: seq<Upsert>, pid: int, uid: string): (r: Option<GuestInfo>)
    ensures r.Some? ==> exists v :: v in ups && v.property.id == pid && v.info.externalId == uid && v.info == r.value
  {
    if ups == [] then None
    else
      var u := ups[|ups| - 1];
      if u.property.id == pid && u.info.externalId == uid then Some(u.info)
      else LastFor(ups[..|ups| - 1], pid, uid)
  }

  /** Row `k` belongs to the same event as `v`. */
  ghost predicate Present(rows: seq<Reservation>, v: Upsert) {
    exists k :: 0 <= k < |rows| && Keyed(rows[k], v)
  }

  /** The row of `v`'s event exists and carries the dates of `last`. */
  ghost predicate Dated(rows: seq<Reservation>, v: Upsert, last: Option<GuestInfo>) {
    exists k :: 0 <= k < |rows| && Keyed(rows[k], v) && rows[k] == Redate(rows[k], last)
  }

  /**
   * `b` extends `a` the way the sync does: existing rows keep everything but their dates, rows are only
   * appended, each new row flagged as missing information, one serial id and one message per new row,
   * earlier messages kept.
   */
  ghost predicate Grows(a: SyncState, b: SyncState) {
    |a.rows| <= |b.rows|
    && (forall k :: 0 <= k < |a.rows| ==> b.rows[k] == a.rows[k].(arrival := b.rows[k].arrival, departure := b.rows[k].departure))
    && |b.outbox| - |a.outbox| == |b.rows| - |a.rows| == b.nextId - a.nextId
    && b.outbox[..|a.outbox|] == a.outbox
    && forall k :: |a.rows| <= k < |b.rows| ==> b.rows[k].missingInfo
  }

  lemma GrowsTransitive(a: SyncState, b: SyncState, c: SyncState)
    requires Grows(a, b) && Grows(b, c)
    ensures Grows(a, c)
  {
    assert c.outbox[..|a.outbox|] == c.outbox[..|b.outbox|][..|a.outbox|];
  }

  /** When the event is unseen, one step appends its row; otherwise it rewrites only that event's dates. */
  lemma StepShape(a: SyncState, u: Upsert)
    requires KeysUnique(a.rows)
    ensures KeysUnique(Step(a, u).rows) && Grows(a, Step(a, u))
    ensures forall k :: 0 <= k < |a.rows| ==>
              Step(a, u).rows[k] == if Keyed(a.rows[k], u) then Redate(a.rows[k], Some(u.info)) else a.rows[k]
    ensures Dated(Step(a, u).rows, u, Some(u.info))
    ensures Present(a.rows, u) ==> |Step(a, u).rows| == |a.rows|
  {
    var b := Step(a, u);
    match KeyIndex(a.rows, u.property.id, u.info.externalId)
    case None =>
      assert Keyed(b.rows[|a.rows|], u);
    case Some(k) =>
      forall j | 0 <= j < |a.rows| && j != k ensures !Keyed(a.rows[j], u) {
        if k < j { assert !SameKey(a.rows[k], a.rows[j].propertyId, a.rows[j].externalId); }
      }
      assert Keyed(b.rows[k], u);
  }

  lemma ApplyAllSnoc(st: SyncState, ups: seq<Upsert>, u: Upsert)
    ensures ApplyAll(st, ups + [u]) == Step(ApplyAll(st, ups), u)
  {
    assert (ups + [u])[..|ups|] == ups;
  }

  /** A run only appends rows (one message and one id each) and keeps the table free of duplicate events. */
  lemma {:induction false} ApplyAllGrows(st: SyncState, ups: seq<Upsert>)
    requires KeysUnique(st.rows)
    ensures KeysUnique(ApplyAll(st, ups).rows) && Grows(st, ApplyAll(st, ups))
  {
    if ups != [] {
      var init := ups[..|ups| - 1];
      ApplyAllGrows(st, init);
      StepShape(ApplyAll(st, init), ups[|ups| - 1]);
      GrowsTransitive(st, ApplyAll(st, init), ApplyAll(st, ups));
    }
  }

  /** A row that existed before the run ends up with the dates of the last event for it, if any. */
  lemma {:induction false} ApplyAllRedates(st: SyncState, ups: seq<Upsert>, k: nat)
    requires KeysUnique(st.rows) && k < |st.rows|
    ensures k < |ApplyAll(st, ups).rows|
    ensures ApplyAll(st, ups).rows[k] == Redate(st.rows[k], LastFor(ups, st.rows[k].propertyId, st.rows[k].externalId))
  {
    if ups != [] {
      var init := ups[..|ups| - 1];
      var a := ApplyAll(st, init);
      ApplyAllRedates(st, init, k);
      ApplyAllGrows(st, init);
      StepShape(a, ups[|ups| - 1]);
    }
  }

  /** After the run, every event it saw has a row carrying the dates of the last sighting. */
  lemma {:induction false} ApplyAllDates(st: SyncState, ups: seq<Upsert>, v: Upsert)
    requires KeysUnique(st.rows) && v in ups
    ensures Dated(ApplyAll(st, ups).rows, v, LastFor(ups, v.property.id, v.info.externalId))
  {
    var init := ups[..|ups| - 1];
    var u := ups[|ups| - 1];
    assert ups == init + [u];
    var a := ApplyAll(st, init);
    var s := ApplyAll(st, ups);
    ApplyAllGrows(st, init);
    StepShape(a, u);
    if v.property.id == u.property.id && v.info.externalId == u.info.externalId {
      var k :| 0 <= k < |s.rows| && Keyed(s.rows[k], u) && s.rows[k] == Redate(s.rows[k], Some(u.info));
      assert Keyed(s.rows[k], v);
    } else {
      assert v in init;
      ApplyAllDates(st, init, v);
      DatedKept(a, u, v, LastFor(init, v.property.id, v.info.externalId));
    }
  }

  /** A step for another event keeps the row of `v` and its dates. */
  lemma DatedKept(a: SyncState, u: Upsert, v: Upsert, last: Option<GuestInfo>)
    requires KeysUnique(a.rows) && Dated(a.rows, v, last)
    requires v.property.id != u.property.id || v.info.externalId != u.info.externalId
    ensures Dated(Step(a, u).rows, v, last)
  {
    var k :| 0 <= k < |a.rows| && Keyed(a.rows[k], v) && a.rows[k] == Redate(a.rows[k], last);
    StepShape(a, u);
    assert Step(a, u).rows[k] == a.rows[k];
  }

  /** A run over events that all have rows already creates nothing and sends nothing. */
  lemma {:induction false} ApplyAllNoNewRows(st: SyncState, ups: seq<Upsert>)
    requires KeysUnique(st.rows)
    requires forall v :: v in ups ==> Present(st.rows, v)
    ensures |ApplyAll(st, ups).rows| == |st.rows|
  {
    if ups != [] {
      var init := ups[..|ups| - 1];
      var u := ups[|ups| - 1];
      assert ups == init + [u];
      assert forall v :: v in init ==> v in ups;
      ApplyAllNoNewRows(st, init);
      var a := ApplyAll(st, init);
      ApplyAllGrows(st, init);
      assert Present(st.rows, u);
      var k :| 0 <= k < |st.rows| && Keyed(st.rows[k], u);
      assert Keyed(a.rows[k], u);
      StepShape(a, u);
    }
  }

  /**
   * Running the sync again on the same feeds changes nothing: no row is created or re-dated, the serial
   * counter does not move and no message is sent.
   */
  lemma SyncIdempotent(st: SyncState, ups: seq<Upsert>)
    requires KeysUnique(st.rows)
    ensures var s := ApplyAll(st, ups);
      ApplyAll(SyncState(s.rows, s.nextId, []), ups) == SyncState(s.rows, s.nextId, [])
  {
    var s := ApplyAll(st, ups);
    ApplyAllGrows(st, ups);
    var t := SyncState(s.rows, s.nextId, []);
    forall v | v in ups ensures Present(t.rows, v) {
      ApplyAllDates(st, ups, v);
    }
    ApplyAllNoNewRows(t, ups);
    ApplyAllGrows(t, ups);
    var s2 := ApplyAll(t, ups);
    forall k | 0 <= k < |s.rows| ensures s2.rows[k] == s.rows[k] {
      ApplyAllRedates(t, ups, k);
      AlreadyDated(st, ups, k);
    }
  }

  /** After a run, each row already carries the dates of the last event the run saw for it. */
  lemma AlreadyDated(st: SyncState, ups: seq<Upsert>, k: nat)
    requires KeysUnique(st.rows) && k < |ApplyAll(st, ups).rows|
    ensures var row := ApplyAll(st, ups).rows[k];
      Redate(row, LastFor(ups, row.propertyId, row.externalId)) == row
  {
    var s := ApplyAll(st, ups);
    var last := LastFor(ups, s.rows[k].propertyId, s.rows[k].externalId);
    if last.Some? {
      var v :| v in ups && v.property.id == s.rows[k].propertyId && v.info.externalId == s.rows[k].externalId && v.info == last.value;
      ApplyAllGrows(st, ups);
      ApplyAllDates(st, ups, v);
      var k' :| 0 <= k' < |s.rows| && Keyed(s.rows[k'], v) && s.rows[k'] == Redate(s.rows[k'], last);
      KeyedOnce(s.rows, k, k', v);
    }
  }

  /** With event keys unique, at most one row belongs to an event. */
  lemma KeyedOnce(rows: seq<Reservation>, i: nat, j: nat, v: Upsert)
    requires KeysUnique(rows) && i < |rows| && j < |rows|
    requires Keyed(rows[i], v) && Keyed(rows[j], v)
    ensures i == j
  {
  }

  /** An unseen event yields exactly one new row, flagged as missing information, and one message. */
  lemma NewEventCreatesOneRow(st: SyncState, u: Upsert)
    requires !Present(st.rows, u)
    ensures Step(st, u).rows == st.rows + [NewRow(st.nextId, u)]
    ensures Step(st, u).rows[|st.rows|].missingInfo
    ensures Step(st, u).outbox == st.outbox + [NewReservation(u.property.name, u.info.guestName, u.info.arrival, u.info.departure)]
  {
    if KeyIndex(st.rows, u.property.id, u.info.externalId).Some? {
      assert Keyed(st.rows[KeyIndex(st.rows, u.property.id, u.info.externalId).value], u);
    }
  }

  // ---------------------------------------------------------------- the worker

  /** The body of the inner loop of `syncReservations` for one event, against the database. */
  method SyncEvent(db: Database, u: Upsert, sent: seq<Message>) returns (sent': seq<Message>)
    requires db.Valid()
    modifies db`reservations, db`nextReservationId
    ensures db.Valid()
    ensures SyncState(db.reservations, db.nextReservationId, sent')
            == Step(SyncState(old(db.reservations), old(db.nextReservationId), sent), u)
  {
    sent' := sent;
    ghost var k := KeyIndex(db.reservations, u.property.id, u.info.externalId);
    var existing := db.FindByKey(u.property.id, u.info.externalId);
    if existing.None? {
      var row := db.CreateReservation(NewRow(0, u));
      sent' := sent + [NewReservation(u.property.name, u.info.guestName, u.info.arrival, u.info.departure)];
    } else {
      var row := existing.value;
      if row.arrival != u.info.arrival || row.departure != u.info.departure {
        UpdateTouchesOnlyThatRow(db.reservations, db.nextReservationId, k.value, Redate(row, Some(u.info)));
        var updated := db.UpdateReservation(row.id, Redate(row, Some(u.info)));
      }
    }
  }

  /** The inner loop of `syncReservations`: reconcile one property's events until one cannot be read. */
  method SyncProperty(db: Database, p: Property, events: seq<FeedEvent>, sent: seq<Message>)
    returns (sent': seq<Message>, complete: bool)
    requires db.Valid()
    modifies db`reservations, db`nextReservationId
    ensures db.Valid()
    ensures complete == PropertyUpserts(p, events).1
    ensures SyncState(db.reservations, db.nextReservationId, sent')
            == ApplyAll(SyncState(old(db.reservations), old(db.nextReservationId), sent), PropertyUpserts(p, events).0)
  {
    sent' := sent;
    ghost var start := SyncState(db.reservations, db.nextReservationId, sent);
    ghost var done: seq<Upsert> := [];
    var j := 0;
    while j < |events|
      invariant 0 <= j <= |events| && db.Valid()
      invariant PropertyUpserts(p, events[..j]) == (done, true)
      invariant SyncState(db.reservations, db.nextReservationId, sent') == ApplyAll(start, done)
    {
      assert events[..j + 1][..j] == events[..j];
      var info := ExtractGuestInfo(events[j]);
      if info.None? {
        PropertyAbortSticks(p, events, j + 1);
        return sent', false;
      }
      var u := Upsert(p, info.value);
      sent' := SyncEvent(db, u, sent');
      ApplyAllSnoc(start, done, u);
      done := done + [u];
      j := j + 1;
    }
    assert events[..j] == events;
    complete := true;
  }

  /** Applying the upserts of two consecutive stretches of the run is applying them all. */
  lemma {:induction false} ApplyAllAppend(st: SyncState, a: seq<Upsert>, b: seq<Upsert>)
    ensures ApplyAll(st, a + b) == ApplyAll(ApplyAll(st, a), b)
    decreases |b|
  {
    if b == [] {
      assert a + b == a;
    } else {
      var init := b[..|b| - 1];
      assert a + b == (a + init) + [b[|b| - 1]];
      ApplyAllAppend(st, a, init);
      ApplyAllSnoc(st, a + init, b[|b| - 1]);
      ApplyAllSnoc(ApplyAll(st, a), init, b[|b| - 1]);
      assert b == init + [b[|b| - 1]];
    }
  }

  /**
   * `syncReservations`: for each property, load its feed and reconcile every event with the table,
   * returning the messages sent. The run stops where the source's try block would be left by an exception.
   */
  method SyncReservations(db: Database, feed: string -> Option<seq<Component>>) returns (sent: seq<Message>)
    requires db.Valid()
    modifies db`reservations, db`nextReservationId
    ensures db.Valid()
    ensures SyncState(db.reservations, db.nextReservationId, sent)
            == ApplyAll(SyncState(old(db.reservations), old(db.nextReservationId), []), RunUpserts(db.properties, feed).0)
  {
    sent := [];
    ghost var start := SyncState(db.reservations, db.nextReservationId, []);
    var props := db.properties;
    ghost var done: seq<Upsert> := [];
    var i := 0;
    while i < |props|
      invariant 0 <= i <= |props| && db.properties == props && db.Valid()
      invariant RunUpserts(props[..i], feed) == (done, true)
      invariant SyncState(db.reservations, db.nextReservationId, sent) == ApplyAll(start, done)
    {
      var p := props[i];
      RunUpsertsStep(props, feed, i);
      var data := feed(p.icalUrl);
      if data.None? {
        assert done + PropertyRun(p, data).0 == done;
        RunAbortSticks(props, feed, i + 1);
        return;
      }
      var complete;
      ghost var mid := SyncState(db.reservations, db.nextReservationId, sent);
      sent, complete := SyncProperty(db, p, FeedEvents(data.value), sent);
      ApplyAllAppend(start, done, PropertyUpserts(p, FeedEvents(data.value)).0);
      done := done + PropertyUpserts(p, FeedEvents(data.value)).0;
      if !complete {
        RunAbortSticks(props, feed, i + 1);
        return;
      }
      i := i + 1;
    }
    assert props[..i] == props;
  }
}
