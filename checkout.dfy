/**
 * The checkout reminder (workers/email.js, `checkUpcomingCheckouts`): for every reservation leaving
 * tomorrow, a checkout message and, when the reservation has notes or special requests, a digest
 * listing them.
 */
module Checkout {
  import opened Values
  import opened Text
  import opened Notify
  import opened Store

  const DigestHeading := "\U{1F4DD} Notes and requests for "
  const NotesHeading := "\U{1F5D2}\U{FE0F} Notes:\n"
  const RequestsHeading := "\U{1F536} Special requests:\n"

  /** The digest line of one note. */
  function NoteLine(n: Note): string {
    "- " + n.content + "\n"
  }

  /** The digest line of one request; a missing description prints as `null`. */
  function RequestLine(q: SpecialRequest): string {
    "- " + q.requestType + ": " + Show(q.description) + " (" + q.status + ")\n"
  }

  /** `Contains` survives putting text on either side. */
  lemma ContainsWithin(a: string, b: string, c: string, p: string)
    requires Contains(b, p)
    ensures Contains(a + b + c, p)
  {
    var i :| 0 <= i <= |b| && OccursAt(b, i, p);
    var s := a + b + c;
    assert s[|a| + i..|a| + i + |p|] == b[i..i + |p|];
    assert OccursAt(s, |a| + i, p);
  }

  lemma ContainsItself(p: string)
    ensures Contains(p, p)
  {
    assert OccursAt(p, 0, p);
  }

  /** Text found in `a` is found in `a + b`. */
  lemma ContainsBefore(a: string, b: string, p: string)
    requires Contains(a, p)
    ensures Contains(a + b, p)
  {
    ContainsWithin([], a, b, p);
    assert [] + a + b == a + b;
  }

  /** `a + b` ends with `b`. */
  lemma ContainsTail(a: string, b: string)
    ensures Contains(a + b, b)
  {
    ContainsItself(b);
    ContainsWithin(a, b, [], b);
    assert a + b + [] == a + b;
  }

  /** The note lines, in order. */
  function NoteLines(ns: seq<Note>): string {
    if ns == [] then [] else NoteLines(ns[..|ns| - 1]) + NoteLine(ns[|ns| - 1])
  }

  /** The request lines, in order. */
  function RequestLines(rs: seq<SpecialRequest>): string {
    if rs == [] then [] else RequestLines(rs[..|rs| - 1]) + RequestLine(rs[|rs| - 1])
  }

  /** Every note has its line in the note lines. */
  lemma {:induction false} NoteLinesListEach(ns: seq<Note>)
    ensures forall k :: 0 <= k < |ns| ==> Contains(NoteLines(ns), NoteLine(ns[k]))
  {
    if ns != [] {
      var init := NoteLines(ns[..|ns| - 1]);
      var last := NoteLine(ns[|ns| - 1]);
      NoteLinesListEach(ns[..|ns| - 1]);
      forall k | 0 <= k < |ns| ensures Contains(init + last, NoteLine(ns[k])) {
        if k < |ns| - 1 {
          assert ns[..|ns| - 1][k] == ns[k];
          ContainsBefore(init, last, NoteLine(ns[k]));
        } else {
          ContainsTail(init, last);
        }
      }
    }
  }

  /** Every request has its line in the request lines. */
  lemma {:induction false} RequestLinesListEach(rs: seq<SpecialRequest>)
    ensures forall k :: 0 <= k < |rs| ==> Contains(RequestLines(rs), RequestLine(rs[k]))
  {
    if rs != [] {
      var init := RequestLines(rs[..|rs| - 1]);
      var last := RequestLine(rs[|rs| - 1]);
      RequestLinesListEach(rs[..|rs| - 1]);
      forall k | 0 <= k < |rs| ensures Contains(init + last, RequestLine(rs[k])) {
        if k < |rs| - 1 {
          assert rs[..|rs| - 1][k] == rs[k];
          ContainsBefore(init, last, RequestLine(rs[k]));
        } else {
          ContainsTail(init, last);
        }
      }
    }
  }

  /** The notes section, present only when there are notes. */
  function NotesSection(ns: seq<Note>): string {
    if ns != [] then NotesHeading + NoteLines(ns) else ""
  }

  /** The requests section, present only when there are requests. */
  function RequestsSection(rs: seq<SpecialRequest>): string {
    if rs != [] then RequestsHeading + RequestLines(rs) else ""
  }

  /** The digest for guest `guest`: its heading, then the notes section, then the requests section. */
  function DigestText(guest: string, ns: seq<Note>, rs: seq<SpecialRequest>): string {
    DigestHeading + guest + ":\n" + NotesSection(ns) + RequestsSection(rs)
  }

  /** The digest names the guest and lists every note and every request, each on a line of its own. */
  lemma DigestListsEverything(guest: string, ns: seq<Note>, rs: seq<SpecialRequest>)
    ensures OccursAt(DigestText(guest, ns, rs), 0, DigestHeading + guest + ":\n")
    ensures forall k :: 0 <= k < |ns| ==> Contains(DigestText(guest, ns, rs), NoteLine(ns[k]))
    ensures forall k :: 0 <= k < |rs| ==> Contains(DigestText(guest, ns, rs), RequestLine(rs[k]))
  {
    var head := DigestHeading + guest + ":\n";
    var text := DigestText(guest, ns, rs);
    assert text == head + NotesSection(ns) + RequestsSection(rs);
    assert text[..|head|] == head;
    NoteLinesListEach(ns);
    RequestLinesListEach(rs);
    forall k | 0 <= k < |ns| ensures Contains(text, NoteLine(ns[k])) {
      ContainsWithin(NotesHeading, NoteLines(ns), [], NoteLine(ns[k]));
      assert NotesHeading + NoteLines(ns) + [] == NotesSection(ns);
      ContainsWithin(head, NotesSection(ns), RequestsSection(rs), NoteLine(ns[k]));
    }
    forall k | 0 <= k < |rs| ensures Contains(text, RequestLine(rs[k])) {
      ContainsWithin(RequestsHeading, RequestLines(rs), [], RequestLine(rs[k]));
      assert RequestsHeading + RequestLines(rs) + [] == RequestsSection(rs);
      ContainsWithin(head + NotesSection(ns), RequestsSection(rs), [], RequestLine(rs[k]));
      assert head + NotesSection(ns) + RequestsSection(rs) + [] == text;
    }
  }

  /** In `a + b + c`, `b` sits right after `a` and `c` right after `b`. */
  lemma PartsInOrder(a: string, b: string, c: string)
    ensures OccursAt(a + b + c, |a|, b) && OccursAt(a + b + c, |a| + |b|, c)
  {
    assert (a + b + c)[|a|..|a| + |b|] == b;
    assert (a + b + c)[|a| + |b|..|a| + |b| + |c|] == c;
  }

  /** The notes section follows the heading directly, and the requests section closes the digest. */
  lemma DigestSectionsInOrder(guest: string, ns: seq<Note>, rs: seq<SpecialRequest>)
    ensures var head := DigestHeading + guest + ":\n";
            var text := DigestText(guest, ns, rs);
            OccursAt(text, |head|, NotesSection(ns))
            && OccursAt(text, |head| + |NotesSection(ns)|, RequestsSection(rs))
            && |text| == |head| + |NotesSection(ns)| + |RequestsSection(rs)|
  {
    PartsInOrder(DigestHeading + guest + ":\n", NotesSection(ns), RequestsSection(rs));
  }

  /** A reservation leaving on `tomorrow` whose property exists (the query joins on the property). */
  predicate Due(row: Reservation, props: seq<Property>, tomorrow: int) {
    row.departure == tomorrow && PropertyName(props, row.propertyId).Some?
  }

  /** The messages for one due reservation: the checkout notice, then the digest if there is anything to list. */
  function CheckoutFor(row: Reservation, name: string, ns: seq<Note>, rs: seq<SpecialRequest>): seq<Message> {
    [CheckoutTomorrow(name, row.guestName, row.departure, row.guestCount, row.contactPhone)]
    + (if ns != [] || rs != [] then [Digest(DigestText(row.guestName, ns, rs))] else [])
  }

  /** The notice always comes first; a digest follows exactly when there are notes or requests. */
  lemma DigestOnlyWithNotesOrRequests(row: Reservation, name: string, ns: seq<Note>, rs: seq<SpecialRequest>)
    ensures CheckoutFor(row, name, ns, rs)[0] == CheckoutTomorrow(name, row.guestName, row.departure, row.guestCount, row.contactPhone)
    ensures ns == [] && rs == [] ==> |CheckoutFor(row, name, ns, rs)| == 1
    ensures ns != [] || rs != [] ==> CheckoutFor(row, name, ns, rs)[1..] == [Digest(DigestText(row.guestName, ns, rs))]
  { }

  /** Everything `checkUpcomingCheckouts` sends, reservation by reservation in table order. */
  function CheckoutMessages(rows: seq<Reservation>, props: seq<Property>, notes: seq<Note>,
                            reqs: seq<SpecialRequest>, tomorrow: int): seq<Message>
  {
    if rows == [] then []
    else
      var row := rows[|rows| - 1];
      CheckoutMessages(rows[..|rows| - 1], props, notes, reqs, tomorrow)
      + (if Due(row, props, tomorrow)
         then CheckoutFor(row, PropertyName(props, row.propertyId).value, NotesOf(notes, row.id), RequestsOf(reqs, row.id))
         else [])
  }

  /** Every checkout notice is for a reservation leaving tomorrow whose property exists. */
  lemma {:induction false} NoticesOnlyForDueReservations(rows: seq<Reservation>, props: seq<Property>, notes: seq<Note>,
                                                         reqs: seq<SpecialRequest>, tomorrow: int)
    ensures forall m :: m in CheckoutMessages(rows, props, notes, reqs, tomorrow) && m.CheckoutTomorrow? ==>
              m.departure == tomorrow && exists k :: 0 <= k < |rows| && Due(rows[k], props, tomorrow)
                                                    && rows[k].guestName == m.guestName
  {
    if rows != [] {
      var init := rows[..|rows| - 1];
      var row := rows[|rows| - 1];
      NoticesOnlyForDueReservations(init, props, notes, reqs, tomorrow);
      var prev := CheckoutMessages(init, props, notes, reqs, tomorrow);
      var more: seq<Message> := if Due(row, props, tomorrow)
                  then CheckoutFor(row, PropertyName(props, row.propertyId).value, NotesOf(notes, row.id), RequestsOf(reqs, row.id))
                  else [];
      forall m: Message | m in prev + more && m.CheckoutTomorrow?
        ensures m.departure == tomorrow && exists k :: 0 <= k < |rows| && Due(rows[k], props, tomorrow) && rows[k].guestName == m.guestName
      {
        if m in prev {
          var k :| 0 <= k < |init| && Due(init[k], props, tomorrow) && init[k].guestName == m.guestName;
          assert rows[k] == init[k];
        } else {
          assert rows[|rows| - 1] == row;
        }
      }
    }
  }

  /** The number of due reservations. */
  function DueCount(rows: seq<Reservation>, props: seq<Property>, tomorrow: int): nat {
    if rows == [] then 0
    else DueCount(rows[..|rows| - 1], props, tomorrow) + (if Due(rows[|rows| - 1], props, tomorrow) then 1 else 0)
  }

  /** The number of checkout notices in a list of messages. */
  function NoticeCount(ms: seq<Message>): nat {
    if ms == [] then 0
    else NoticeCount(ms[..|ms| - 1]) + (if ms[|ms| - 1].CheckoutTomorrow? then 1 else 0)
  }

  lemma {:induction false} NoticeCountAppend(a: seq<Message>, b: seq<Message>)
    ensures NoticeCount(a + b) == NoticeCount(a) + NoticeCount(b)
    decreases |b|
  {
    if b == [] {
      assert a + b == a;
    } else {
      assert (a + b)[..|a + b| - 1] == a + b[..|b| - 1];
      NoticeCountAppend(a, b[..|b| - 1]);
    }
  }

  lemma NoticeCountFor(row: Reservation, name: string, ns: seq<Note>, rs: seq<SpecialRequest>)
    ensures NoticeCount(CheckoutFor(row, name, ns, rs)) == 1
  {
    var more := CheckoutFor(row, name, ns, rs);
    if ns != [] || rs != [] {
      assert more[..1] == [more[0]];
      assert NoticeCount([more[0]]) == 1;
    } else {
      assert more[..0] == [];
    }
  }

  /** Exactly one checkout notice per due reservation. */
  lemma {:induction false} OneNoticePerDueReservation(rows: seq<Reservation>, props: seq<Property>, notes: seq<Note>,
                                                      reqs: seq<SpecialRequest>, tomorrow: int)
    ensures NoticeCount(CheckoutMessages(rows, props, notes, reqs, tomorrow)) == DueCount(rows, props, tomorrow)
  {
    if rows != [] {
      var row := rows[|rows| - 1];
      var init := rows[..|rows| - 1];
      OneNoticePerDueReservation(init, props, notes, reqs, tomorrow);
      var prev := CheckoutMessages(init, props, notes, reqs, tomorrow);
      if Due(row, props, tomorrow) {
        var more := CheckoutFor(row, PropertyName(props, row.propertyId).value, NotesOf(notes, row.id), RequestsOf(reqs, row.id));
        assert CheckoutMessages(rows, props, notes, reqs, tomorrow) == prev + more;
        NoticeCountAppend(prev, more);
        NoticeCountFor(row, PropertyName(props, row.propertyId).value, NotesOf(notes, row.id), RequestsOf(reqs, row.id));
      } else {
        assert CheckoutMessages(rows, props, notes, reqs, tomorrow) == prev;
      }
    }
  }

  /** With nothing due tomorrow, nothing is sent. */
  lemma {:induction false} NothingDueNothingSent(rows: seq<Reservation>, props: seq<Property>, notes: seq<Note>,
                                                 reqs: seq<SpecialRequest>, tomorrow: int)
    requires DueCount(rows, props, tomorrow) == 0
    ensures CheckoutMessages(rows, props, notes, reqs, tomorrow) == []
  {
    if rows != [] {
      NothingDueNothingSent(rows[..|rows| - 1], props, notes, reqs, tomorrow);
    }
  }

  /** Appends one line per note to `text`. */
  method AppendNoteLines(text: string, ns: seq<Note>) returns (text': string)
    ensures text' == text + NoteLines(ns)
  {
    text' := text;
    var i := 0;
    while i < |ns|
      invariant 0 <= i <= |ns|
      invariant text' == text + NoteLines(ns[..i])
    {
      assert ns[..i + 1][..i] == ns[..i];
      AppendAssoc(text, NoteLines(ns[..i]), NoteLine(ns[i]));
      text' := text' + NoteLine(ns[i]);
      i := i + 1;
    }
    assert ns[..i] == ns;
  }

  /** Appends one line per request to `text`. */
  lemma AppendAssoc(a: string, b: string, c: string)
    ensures a + (b + c) == a + b + c
  {
  }

  lemma RequestLinesSnoc(rs: seq<SpecialRequest>, i: nat)
    requires i < |rs|
    ensures RequestLines(rs[..i + 1]) == RequestLines(rs[..i]) + RequestLine(rs[i])
  {
    assert rs[..i + 1][..i] == rs[..i];
  }

  method AppendRequestLines(text: string, rs: seq<SpecialRequest>) returns (text': string)
    ensures text' == text + RequestLines(rs)
  {
    text' := text;
    var i := 0;
    while i < |rs|
      invariant 0 <= i <= |rs|
      invariant text' == text + RequestLines(rs[..i])
    {
      RequestLinesSnoc(rs, i);
      AppendAssoc(text, RequestLines(rs[..i]), RequestLine(rs[i]));
      text' := text' + RequestLine(rs[i]);
      i := i + 1;
    }
    assert rs[..i] == rs;
  }

  /** Appends the notes section to `text`: nothing when there are no notes. */
  method AppendNotes(text: string, ns: seq<Note>) returns (text': string)
    ensures text' == text + NotesSection(ns)
  {
    text' := text;
    if |ns| > 0 {
      text' := AppendNoteLines(text + NotesHeading, ns);
    }
  }

  /** Appends the requests section to `text`: nothing when there are no requests. */
  method AppendRequests(text: string, rs: seq<SpecialRequest>) returns (text': string)
    ensures text' == text + RequestsSection(rs)
  {
    text' := text;
    if |rs| > 0 {
      text' := AppendRequestLines(text + RequestsHeading, rs);
    }
  }

  /** Builds the digest text the way the worker does: heading, then each section if it has lines. */
  method BuildDigest(guest: string, ns: seq<Note>, rs: seq<SpecialRequest>) returns (text: string)
    ensures text == DigestText(guest, ns, rs)
  {
    text := DigestHeading + guest + ":\n";
    text := AppendNotes(text, ns);
    text := AppendRequests(text, rs);
  }

  lemma CheckoutMessagesSnoc(rows: seq<Reservation>, props: seq<Property>, notes: seq<Note>,
                             reqs: seq<SpecialRequest>, tomorrow: int, i: nat)
    requires i < |rows|
    ensures CheckoutMessages(rows[..i + 1], props, notes, reqs, tomorrow)
            == CheckoutMessages(rows[..i], props, notes, reqs, tomorrow)
               + (if Due(rows[i], props, tomorrow)
                  then CheckoutFor(rows[i], PropertyName(props, rows[i].propertyId).value, NotesOf(notes, rows[i].id), RequestsOf(reqs, rows[i].id))
                  else [])
  {
    assert rows[..i + 1][..i] == rows[..i];
  }

  /** The messages for one reservation leaving tomorrow from property `name`. */
  method NotifyDeparture(db: Database, row: Reservation, name: string) returns (msgs: seq<Message>)
    ensures msgs == CheckoutFor(row, name, NotesOf(db.notes, row.id), RequestsOf(db.requests, row.id))
  {
    msgs := [CheckoutTomorrow(name, row.guestName, row.departure, row.guestCount, row.contactPhone)];
    var ns := db.NotesFor(row.id);
    var rs := db.RequestsFor(row.id);
    if |ns| > 0 || |rs| > 0 {
      var text := BuildDigest(row.guestName, ns, rs);
      msgs := msgs + [Digest(text)];
    }
  }

  /**
   * `checkUpcomingCheckouts` on day `today`: reads the database, changes nothing, and returns the
   * messages for the reservations leaving the next day.
   */
  method CheckUpcomingCheckouts(db: Database, today: int) returns (sent: seq<Message>)
    ensures sent == CheckoutMessages(db.reservations, db.properties, db.notes, db.requests, today + 1)
  {
    var tomorrow := today + 1;
    sent := [];
    var i := 0;
    while i < |db.reservations|
      invariant 0 <= i <= |db.reservations|
      invariant sent == CheckoutMessages(db.reservations[..i], db.properties, db.notes, db.requests, tomorrow)
    {
      var row := db.reservations[i];
      CheckoutMessagesSnoc(db.reservations, db.properties, db.notes, db.requests, tomorrow, i);
      var name := PropertyName(db.properties, row.propertyId);
      if row.departure == tomorrow && name.Some? {
        var more := NotifyDeparture(db, row, name.value);
        sent := sent + more;
      }
      i := i + 1;
    }
    assert db.reservations[..i] == db.reservations;
  }
}
