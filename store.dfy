/**
 * The relational store of db/index.js as in-memory tables. Each table is a sequence of rows in
 * insertion order; serial ids are handed out from a counter per table. The queries the workers
 * issue directly against the pool (lookup by external id, guest-name search) live here too.
 */
module Store {
  import opened Values
  import opened Text

  datatype Property = Property(id: int, name: string, icalUrl: string)

  datatype Reservation = Reservation(
    id: int, propertyId: int, externalId: string, guestName: string,
    arrival: int, departure: int,
    guestCount: Option<int>, contactPhone: Option<string>, wellnessFee: Option<int>,
    safeboxPassword: Option<string>, arrivalTime: Option<string>, missingInfo: bool)

  datatype Note = Note(id: int, reservationId: int, content: string, isInternal: bool)

  datatype SpecialRequest =
    SpecialRequest(id: int, reservationId: int, requestType: string, description: Option<string>, status: string)

  datatype Setting = Setting(key: string, value: string)

  // ---------------------------------------------------------------- table invariants

  ghost predicate PropertyIdsUnique(props: seq<Property>) {
    forall i, j :: 0 <= i < j < |props| ==> props[i].id != props[j].id
  }

  ghost predicate ReservationIdsIncreasing(rows: seq<Reservation>, next: int) {
    (forall i, j :: 0 <= i < j < |rows| ==> rows[i].id < rows[j].id)
    && (forall i :: 0 <= i < |rows| ==> rows[i].id < next)
  }

  ghost predicate NoteIdsIncreasing(rows: seq<Note>, next: int) {
    (forall i, j :: 0 <= i < j < |rows| ==> rows[i].id < rows[j].id)
    && (forall i :: 0 <= i < |rows| ==> rows[i].id < next)
  }

  ghost predicate RequestIdsIncreasing(rows: seq<SpecialRequest>, next: int) {
    (forall i, j :: 0 <= i < j < |rows| ==> rows[i].id < rows[j].id)
    && (forall i :: 0 <= i < |rows| ==> rows[i].id < next)
  }

  ghost predicate SettingKeysUnique(rows: seq<Setting>) {
    forall i, j :: 0 <= i < j < |rows| ==> rows[i].key != rows[j].key
  }

  // ---------------------------------------------------------------- properties

  /** The name of the property with this id (the first such row), as `property.getById(id).name`. */
  function PropertyName(props: seq<Property>, id: int): (r: Option<string>)
    ensures r.Some? <==> exists k :: 0 <= k < |props| && props[k].id == id
    ensures r.Some? ==> exists k :: 0 <= k < |props| && props[k].id == id && props[k].name == r.value
  {
    if props == [] then None
    else if props[0].id == id then Some(props[0].name)
    else PropertyName(props[1..], id)
  }

  // ---------------------------------------------------------------- reservations

  /** The row belongs to the calendar event `uid` of property `pid`. */
  predicate SameKey(r: Reservation, pid: int, uid: string) {
    r.propertyId == pid && r.externalId == uid
  }

  /** Index of the first row at or after `from` keyed by `(pid, uid)`. */
  function KeyIndexFrom(rows: seq<Reservation>, pid: int, uid: string, from: nat): (r: Option<nat>)
    requires from <= |rows|
    ensures r.Some? ==> from <= r.value < |rows| && SameKey(rows[r.value], pid, uid)
                        && forall j :: from <= j < r.value ==> !SameKey(rows[j], pid, uid)
    ensures r.None? ==> forall j :: from <= j < |rows| ==> !SameKey(rows[j], pid, uid)
    decreases |rows| - from
  {
    if from == |rows| then None
    else if SameKey(rows[from], pid, uid) then Some(from)
    else KeyIndexFrom(rows, pid, uid, from + 1)
  }

  function KeyIndex(rows: seq<Reservation>, pid: int, uid: string): Option<nat> {
    KeyIndexFrom(rows, pid, uid, 0)
  }

  /** At most one row per `(property_id, external_id)`. */
  ghost predicate KeysUnique(rows: seq<Reservation>) {
    forall i, j :: 0 <= i < j < |rows| ==> !SameKey(rows[i], rows[j].propertyId, rows[j].externalId)
  }

  /** `guest_name ILIKE '%name%'`, with the pattern's wildcards read as plain characters. */
  predicate GuestMatches(r: Reservation, name: string) {
    Contains(FoldStr(r.guestName), FoldStr(name))
  }

  /** Index of the first row at or after `from` whose guest name contains `name`, ignoring case. */
  function NameIndexFrom(rows: seq<Reservation>, name: string, from: nat): (r: Option<nat>)
    requires from <= |rows|
    ensures r.Some? ==> from <= r.value < |rows| && GuestMatches(rows[r.value], name)
                        && forall j :: from <= j < r.value ==> !GuestMatches(rows[j], name)
    ensures r.None? ==> forall j :: from <= j < |rows| ==> !GuestMatches(rows[j], name)
    decreases |rows| - from
  {
    if from == |rows| then None
    else if GuestMatches(rows[from], name) then Some(from)
    else NameIndexFrom(rows, name, from + 1)
  }

  function NameIndex(rows: seq<Reservation>, name: string): Option<nat> {
    NameIndexFrom(rows, name, 0)
  }

  function RowAt(rows: seq<Reservation>, k: Option<nat>): Option<Reservation>
    requires k.Some? ==> k.value < |rows|
  {
    if k.Some? then Some(rows[k.value]) else None
  }

  /** The row `update(id, r)` leaves behind: the ten listed columns taken from `r`, id and external_id kept. */
  function Overwrite(row: Reservation, r: Reservation): Reservation {
    r.(id := row.id, externalId := row.externalId)
  }

  /** The table after `UPDATE reservations SET ... WHERE id = id`. */
  function Overwritten(rows: seq<Reservation>, id: int, r: Reservation): seq<Reservation> {
    seq(|rows|, i requires 0 <= i < |rows| => if rows[i].id == id then Overwrite(rows[i], r) else rows[i])
  }

  /** With unique ids, an update rewrites exactly the one row with that id, keeping its external_id. */
  lemma UpdateTouchesOnlyThatRow(rows: seq<Reservation>, next: int, k: nat, r: Reservation)
    requires ReservationIdsIncreasing(rows, next) && k < |rows|
    ensures Overwritten(rows, rows[k].id, r) == rows[k := Overwrite(rows[k], r)]
    ensures Overwritten(rows, rows[k].id, r)[k].externalId == rows[k].externalId
  {
    var u := Overwritten(rows, rows[k].id, r);
    forall j | 0 <= j < |rows| && j != k
      ensures u[j] == rows[j]
    {
      assert rows[j].id != rows[k].id by {
        if j < k { assert rows[j].id < rows[k].id; } else { assert rows[k].id < rows[j].id; }
      }
    }
  }

  /** The WHERE clause of `getByDateRange(start, end)`. */
  predicate InDateRange(r: Reservation, start: int, end: int) {
    (start <= r.arrival <= end) || (start <= r.departure <= end) || (r.arrival <= start && r.departure >= end)
  }

  /** For a well-formed stay and window, the three clauses say exactly "the closed intervals overlap". */
  lemma DateRangeIsOverlap(r: Reservation, start: int, end: int)
    requires r.arrival <= r.departure && start <= end
    ensures InDateRange(r, start, end) <==> (r.arrival <= end && r.departure >= start)
  {
  }

  /** A row survives the join with properties. */
  predicate HasProperty(props: seq<Property>, pid: int) {
    exists k :: 0 <= k < |props| && props[k].id == pid
  }

  /** The rows `getByDateRange` selects, in table order. */
  function RangeRows(rows: seq<Reservation>, props: seq<Property>, start: int, end: int): (r: seq<Reservation>)
    ensures forall x :: x in r <==> x in rows && InDateRange(x, start, end) && HasProperty(props, x.propertyId)
  {
    if rows == [] then []
    else
      var prev := RangeRows(rows[..|rows| - 1], props, start, end);
      var x := rows[|rows| - 1];
      assert rows == rows[..|rows| - 1] + [x];
      if InDateRange(x, start, end) && HasProperty(props, x.propertyId) then prev + [x] else prev
  }

  ghost predicate SortedByArrival(rs: seq<Reservation>) {
    forall i, j :: 0 <= i < j < |rs| ==> rs[i].arrival <= rs[j].arrival
  }

  /** Insertion of one row into a list ordered by arrival date: after the rows that arrive no later. */
  function InsertByArrival(s: seq<Reservation>, x: Reservation): seq<Reservation> {
    if s == [] || s[|s| - 1].arrival <= x.arrival then s + [x]
    else InsertByArrival(s[..|s| - 1], x) + [s[|s| - 1]]
  }

  lemma SortedSnoc(t: seq<Reservation>, y: Reservation)
    requires SortedByArrival(t) && forall k :: 0 <= k < |t| ==> t[k].arrival <= y.arrival
    ensures SortedByArrival(t + [y])
  {
    var r := t + [y];
    forall i, j | 0 <= i < j < |r| ensures r[i].arrival <= r[j].arrival {
      assert r[i] == t[i];
      if j < |t| {
        assert r[j] == t[j];
      }
    }
  }

  /** Insertion adds exactly the one row. */
  lemma {:induction false} InsertByArrivalAddsOne(s: seq<Reservation>, x: Reservation)
    ensures multiset(InsertByArrival(s, x)) == multiset(s) + multiset{x}
  {
    if s != [] && s[|s| - 1].arrival > x.arrival {
      var init := s[..|s| - 1];
      assert s == init + [s[|s| - 1]];
      InsertByArrivalAddsOne(init, x);
    }
  }

  /** Insertion of a row into rows arriving no later than `b` gives rows arriving no later than `b`. */
  lemma {:induction false} InsertByArrivalBound(s: seq<Reservation>, x: Reservation, b: int)
    requires x.arrival <= b && forall k :: 0 <= k < |s| ==> s[k].arrival <= b
    ensures forall k :: 0 <= k < |InsertByArrival(s, x)| ==> InsertByArrival(s, x)[k].arrival <= b
  {
    if s != [] && s[|s| - 1].arrival > x.arrival {
      var init := s[..|s| - 1];
      assert forall k :: 0 <= k < |init| ==> init[k] == s[k];
      InsertByArrivalBound(init, x, b);
    }
  }

  /** Insertion keeps the list ordered. */
  lemma {:induction false} InsertByArrivalSorts(s: seq<Reservation>, x: Reservation)
    requires SortedByArrival(s)
    ensures SortedByArrival(InsertByArrival(s, x))
  {
    if s == [] || s[|s| - 1].arrival <= x.arrival {
      SortedSnoc(s, x);
    } else {
      var init := s[..|s| - 1];
      var last := s[|s| - 1];
      assert forall k :: 0 <= k < |init| ==> init[k] == s[k];
      InsertByArrivalSorts(init, x);
      InsertByArrivalBound(init, x, last.arrival);
      SortedSnoc(InsertByArrival(init, x), last);
    }
  }

  // ---------------------------------------------------------------- notes and special requests

  /** `note.getByReservationId`: that reservation's notes, newest first. */
  function NotesOf(notes: seq<Note>, rid: int): (r: seq<Note>)
    ensures forall x :: x in r <==> x in notes && x.reservationId == rid
  {
    if notes == [] then []
    else
      var x := notes[|notes| - 1];
      assert notes == notes[..|notes| - 1] + [x];
      (if x.reservationId == rid then [x] else []) + NotesOf(notes[..|notes| - 1], rid)
  }

  /** Notes are listed newest first: ids strictly decrease along the result. */
  lemma {:induction false} NotesNewestFirst(notes: seq<Note>, next: int, rid: int)
    requires NoteIdsIncreasing(notes, next)
    ensures forall i, j :: 0 <= i < j < |NotesOf(notes, rid)| ==> NotesOf(notes, rid)[i].id > NotesOf(notes, rid)[j].id
  {
    if notes != [] {
      var x := notes[|notes| - 1];
      var init := notes[..|notes| - 1];
      assert NoteIdsIncreasing(init, x.id);
      NotesNewestFirst(init, x.id, rid);
      var rest := NotesOf(init, rid);
      forall y | y in rest ensures y.id < x.id {
        var k :| 0 <= k < |init| && init[k] == y;
      }
    }
  }

  /** `specialRequest.getByReservationId`: that reservation's requests, newest first. */
  function RequestsOf(reqs: seq<SpecialRequest>, rid: int): (r: seq<SpecialRequest>)
    ensures forall x :: x in r <==> x in reqs && x.reservationId == rid
  {
    if reqs == [] then []
    else
      var x := reqs[|reqs| - 1];
      assert reqs == reqs[..|reqs| - 1] + [x];
      (if x.reservationId == rid then [x] else []) + RequestsOf(reqs[..|reqs| - 1], rid)
  }

  /** Requests are listed newest first: ids strictly decrease along the result. */
  lemma {:induction false} RequestsNewestFirst(reqs: seq<SpecialRequest>, next: int, rid: int)
    requires RequestIdsIncreasing(reqs, next)
    ensures forall i, j :: 0 <= i < j < |RequestsOf(reqs, rid)| ==> RequestsOf(reqs, rid)[i].id > RequestsOf(reqs, rid)[j].id
  {
    if reqs != [] {
      var x := reqs[|reqs| - 1];
      var init := reqs[..|reqs| - 1];
      assert RequestIdsIncreasing(init, x.id);
      RequestsNewestFirst(init, x.id, rid);
      var rest := RequestsOf(init, rid);
      forall y | y in rest ensures y.id < x.id {
        var k :| 0 <= k < |init| && init[k] == y;
      }
    }
  }

  /** The table after `UPDATE special_requests SET status WHERE id`: no guard on the old status. */
  function WithStatus(reqs: seq<SpecialRequest>, id: int, status: string): seq<SpecialRequest> {
    seq(|reqs|, i requires 0 <= i < |reqs| => if reqs[i].id == id then reqs[i].(status := status) else reqs[i])
  }

  /** A completed (or cancelled) request can be moved back to any status, e.g. pending. */
  lemma StatusHasNoTerminalGuard(reqs: seq<SpecialRequest>, k: nat)
    requires k < |reqs| && reqs[k].status == "completed"
    ensures WithStatus(reqs, reqs[k].id, "pending")[k].status == "pending"
  {
  }

  // ---------------------------------------------------------------- settings

  /** Value of the first row at or after `from` with this key. */
  function SettingFrom(rows: seq<Setting>, key: string, from: nat): (r: Option<string>)
    requires from <= |rows|
    ensures r.None? <==> forall j :: from <= j < |rows| ==> rows[j].key != key
    ensures r.Some? ==> exists j :: from <= j < |rows| && rows[j].key == key && rows[j].value == r.value
    decreases |rows| - from
  {
    if from == |rows| then None
    else if rows[from].key == key then Some(rows[from].value)
    else SettingFrom(rows, key, from + 1)
  }

  /** `settings.get(key)`: the stored value, or null when the key is absent. */
  function SettingValue(rows: seq<Setting>, key: string): Option<string> {
    SettingFrom(rows, key, 0)
  }

  /** The table after `settings.update(key, value)`: UPDATE every row with the key, INSERT if there was none. */
  function Upserted(rows: seq<Setting>, key: string, value: string): seq<Setting> {
    var updated := seq(|rows|, i requires 0 <= i < |rows| => if rows[i].key == key then Setting(key, value) else rows[i]);
    if SettingValue(rows, key).Some? then updated else rows + [Setting(key, value)]
  }

  /** Lookup in a table where rows `from` onward agree on the keys and on every key but `key`. */
  lemma {:induction false} SettingFromAgrees(a: seq<Setting>, b: seq<Setting>, key: string, other: string, from: nat)
    requires from <= |a| == |b| && other != key
    requires forall i :: from <= i < |a| ==> (a[i].key == key <==> b[i].key == key)
    requires forall i :: from <= i < |a| && a[i].key != key ==> a[i] == b[i]
    ensures SettingFrom(a, other, from) == SettingFrom(b, other, from)
    decreases |a| - from
  {
    if from < |a| {
      SettingFromAgrees(a, b, key, other, from + 1);
    }
  }

  /** Appending a row does not change the answer for keys already present, nor for other keys. */
  lemma {:induction false} SettingFromAppend(rows: seq<Setting>, x: Setting, key: string, from: nat)
    requires from <= |rows|
    ensures SettingFrom(rows + [x], key, from)
            == if SettingFrom(rows, key, from).Some? then SettingFrom(rows, key, from)
               else if x.key == key then Some(x.value) else None
    decreases |rows| - from
  {
    if from < |rows| {
      assert (rows + [x])[from] == rows[from];
      SettingFromAppend(rows, x, key, from + 1);
    } else {
      assert (rows + [x])[from] == x;
    }
  }

  /** After `update(k, v)`, `get(k)` is `v`, every other key reads as before, and keys stay unique. */
  lemma SettingsUpdateThenGet(rows: seq<Setting>, key: string, value: string, other: string)
    requires other != key
    ensures SettingValue(Upserted(rows, key, value), key) == Some(value)
    ensures SettingValue(Upserted(rows, key, value), other) == SettingValue(rows, other)
    ensures SettingKeysUnique(rows) ==> SettingKeysUnique(Upserted(rows, key, value))
    ensures |Upserted(rows, key, value)| == |rows| + (if SettingValue(rows, key).Some? then 0 else 1)
  {
    var u := Upserted(rows, key, value);
    if SettingValue(rows, key).Some? {
      var j :| 0 <= j < |rows| && rows[j].key == key;
      assert u[j].key == key;
      assert SettingValue(u, key).Some?;
      SettingFromAgrees(rows, u, key, other, 0);
    } else {
      SettingFromAppend(rows, Setting(key, value), key, 0);
      SettingFromAppend(rows, Setting(key, value), other, 0);
    }
  }

  /** The UPDATE-then-INSERT of `settings.update` over the rows, counting the rows the UPDATE touched. */
  method UpsertRows(rows: seq<Setting>, key: string, value: string) returns (rows': seq<Setting>)
    ensures rows' == Upserted(rows, key, value)
  {
    rows' := rows;
    var updated := 0;
    var i := 0;
    while i < |rows|
      invariant 0 <= i <= |rows| == |rows'|
      invariant forall j :: 0 <= j < i ==> rows'[j] == if rows[j].key == key then Setting(key, value) else rows[j]
      invariant forall j :: i <= j < |rows| ==> rows'[j] == rows[j]
      invariant (updated == 0) == (forall j :: 0 <= j < i ==> rows[j].key != key)
    {
      if rows[i].key == key {
        rows' := rows'[i := Setting(key, value)];
        updated := updated + 1;
      }
      i := i + 1;
    }
    if updated == 0 {
      rows' := rows' + [Setting(key, value)];
    }
  }

  /** The settings object `getAll` builds: each row assigns its key in table order. */
  function SettingsMap(rows: seq<Setting>): map<string, string> {
    if rows == [] then map[]
    else
      var x := rows[|rows| - 1];
      SettingsMap(rows[..|rows| - 1])[x.key := x.value]
  }

  /** With unique keys the settings object holds one entry per stored row, each agreeing with `get`. */
  lemma {:induction false} SettingsMapAgrees(rows: seq<Setting>)
    requires SettingKeysUnique(rows)
    ensures |SettingsMap(rows).Keys| == |rows|
    ensures forall k :: (k in SettingsMap(rows)) == SettingValue(rows, k).Some?
    ensures forall k :: k in SettingsMap(rows) ==> SettingValue(rows, k) == Some(SettingsMap(rows)[k])
  {
    if rows != [] {
      var x := rows[|rows| - 1];
      var init := rows[..|rows| - 1];
      assert rows == init + [x];
      SettingsMapAgrees(init);
      var m := SettingsMap(init);
      assert SettingValue(init, x.key).None? by {
        assert forall j :: 0 <= j < |init| ==> init[j].key != x.key;
      }
      assert SettingsMap(rows) == m[x.key := x.value];
      SettingsMapStep(init, x, m);
    }
  }

  lemma SettingsMapStep(init: seq<Setting>, x: Setting, m: map<string, string>)
    requires forall k :: (k in m) == SettingValue(init, k).Some?
    requires forall k :: k in m ==> SettingValue(init, k) == Some(m[k])
    requires SettingValue(init, x.key).None?
    ensures forall k :: (k in m[x.key := x.value]) == SettingValue(init + [x], k).Some?
    ensures forall k :: k in m[x.key := x.value] ==> SettingValue(init + [x], k) == Some(m[x.key := x.value][k])
  {
    forall k ensures (k in m[x.key := x.value]) == SettingValue(init + [x], k).Some?
                     && (k in m[x.key := x.value] ==> SettingValue(init + [x], k) == Some(m[x.key := x.value][k])) {
      SettingFromAppend(init, x, k, 0);
    }
  }

  // ---------------------------------------------------------------- the database object

  class Database {
    var properties: seq<Property>
    var reservations: seq<Reservation>
    var notes: seq<Note>
    var requests: seq<SpecialRequest>
    var settings: seq<Setting>
    var nextReservationId: int
    var nextNoteId: int
    var nextRequestId: int

    /** Primary keys: property ids and setting keys are unique; serial ids increase with insertion. */
    ghost predicate Valid()
      reads this
    {
      PropertyIdsUnique(properties)
      && ReservationIdsIncreasing(reservations, nextReservationId)
      && NoteIdsIncreasing(notes, nextNoteId)
      && RequestIdsIncreasing(requests, nextRequestId)
      && SettingKeysUnique(settings)
    }

    constructor (props: seq<Property>)
      requires PropertyIdsUnique(props)
      ensures Valid() && properties == props
      ensures reservations == [] && notes == [] && requests == [] && settings == []
    {
      properties := props;
      reservations, notes, requests, settings := [], [], [], [];
      nextReservationId, nextNoteId, nextRequestId := 1, 1, 1;
    }

    /** `reservation.create`: insert a row under the next serial id and return it. */
    method CreateReservation(draft: Reservation) returns (row: Reservation)
      requires Valid()
      modifies this`reservations, this`nextReservationId
      ensures Valid()
      ensures row == draft.(id := old(nextReservationId))
      ensures reservations == old(reservations) + [row]
      ensures nextReservationId == old(nextReservationId) + 1
    {
      row := draft.(id := nextReservationId);
      reservations := reservations + [row];
      nextReservationId := nextReservationId + 1;
    }

    /** `reservation.update(id, r)`: overwrite the ten listed columns of the row with that id. */
    method UpdateReservation(id: int, r: Reservation) returns (row: Option<Reservation>)
      requires Valid()
      modifies this`reservations
      ensures Valid()
      ensures reservations == Overwritten(old(reservations), id, r)
      ensures forall i :: 0 <= i < |reservations| ==>
                reservations[i].id == old(reservations)[i].id
                && reservations[i].externalId == old(reservations)[i].externalId
      ensures row.Some? <==> exists i :: 0 <= i < |reservations| && old(reservations)[i].id == id
      ensures row.Some? ==> row.value in reservations && row.value.id == id
    {
      reservations := Overwritten(reservations, id, r);
      row := None;
      var i := 0;
      while i < |reservations|
        invariant 0 <= i <= |reservations|
        invariant forall j :: 0 <= j < i ==> reservations[j].id != id
      {
        if reservations[i].id == id {
          row := Some(reservations[i]);
          return;
        }
        i := i + 1;
      }
    }

    /** `SELECT * FROM reservations WHERE external_id = uid AND property_id = pid`, first row. */
    method FindByKey(pid: int, uid: string) returns (found: Option<Reservation>)
      ensures found == RowAt(reservations, KeyIndex(reservations, pid, uid))
    {
      var i := 0;
      while i < |reservations|
        invariant 0 <= i <= |reservations|
        invariant KeyIndexFrom(reservations, pid, uid, i) == KeyIndex(reservations, pid, uid)
      {
        if SameKey(reservations[i], pid, uid) {
          return Some(reservations[i]);
        }
        i := i + 1;
      }
      return None;
    }

    /** `SELECT * FROM reservations WHERE guest_name ILIKE '%name%'`, first row in table order. */
    method FindByGuestName(name: string) returns (found: Option<Reservation>)
      ensures found == RowAt(reservations, NameIndex(reservations, name))
    {
      var i := 0;
      while i < |reservations|
        invariant 0 <= i <= |reservations|
        invariant NameIndexFrom(reservations, name, i) == NameIndex(reservations, name)
      {
        if GuestMatches(reservations[i], name) {
          return Some(reservations[i]);
        }
        i := i + 1;
      }
      return None;
    }

    /** `reservation.getByDateRange(start, end)`: the selected rows joined with properties, ordered by arrival. */
    method ReservationsInRange(start: int, end: int) returns (result: seq<Reservation>)
      ensures SortedByArrival(result)
      ensures multiset(result) == multiset(RangeRows(reservations, properties, start, end))
      ensures forall x :: x in result <==> x in reservations && InDateRange(x, start, end) && HasProperty(properties, x.propertyId)
    {
      result := [];
      var i := 0;
      while i < |reservations|
        invariant 0 <= i <= |reservations|
        invariant SortedByArrival(result)
        invariant multiset(result) == multiset(RangeRows(reservations[..i], properties, start, end))
      {
        var x := reservations[i];
        assert reservations[..i + 1][..i] == reservations[..i];
        if InDateRange(x, start, end) && HasProperty(properties, x.propertyId) {
          InsertByArrivalSorts(result, x);
          InsertByArrivalAddsOne(result, x);
          result := InsertByArrival(result, x);
        }
        i := i + 1;
      }
      assert reservations[..i] == reservations;
      forall x ensures x in result <==> x in RangeRows(reservations, properties, start, end) {
        assert x in result <==> x in multiset(result);
      }
    }

    /** `note.create`: append a note under the next serial id. */
    method CreateNote(rid: int, content: string, isInternal: bool) returns (note: Note)
      requires Valid()
      modifies this`notes, this`nextNoteId
      ensures Valid()
      ensures note == Note(old(nextNoteId), rid, content, isInternal)
      ensures notes == old(notes) + [note] && nextNoteId == old(nextNoteId) + 1
    {
      note := Note(nextNoteId, rid, content, isInternal);
      notes := notes + [note];
      nextNoteId := nextNoteId + 1;
    }

    /** `note.getByReservationId(rid)`. */
    method NotesFor(rid: int) returns (result: seq<Note>)
      ensures result == NotesOf(notes, rid)
    {
      result := [];
      var i := 0;
      while i < |notes|
        invariant 0 <= i <= |notes|
        invariant result == NotesOf(notes[..i], rid)
      {
        assert notes[..i + 1][..i] == notes[..i];
        if notes[i].reservationId == rid {
          result := [notes[i]] + result;
        }
        i := i + 1;
      }
      assert notes[..i] == notes;
    }

    /** `specialRequest.create`: append a request; a missing (or empty) status becomes 'pending'. */
    method CreateRequest(rid: int, requestType: string, description: Option<string>, status: Option<string>)
      returns (request: SpecialRequest)
      requires Valid()
      modifies this`requests, this`nextRequestId
      ensures Valid()
      ensures request.status == (if TruthyStr(status) then status.value else "pending")
      ensures request == SpecialRequest(old(nextRequestId), rid, requestType, description, request.status)
      ensures requests == old(requests) + [request] && nextRequestId == old(nextRequestId) + 1
    {
      var s := if TruthyStr(status) then status.value else "pending";
      request := SpecialRequest(nextRequestId, rid, requestType, description, s);
      requests := requests + [request];
      nextRequestId := nextRequestId + 1;
    }

    /** `specialRequest.getByReservationId(rid)`. */
    method RequestsFor(rid: int) returns (result: seq<SpecialRequest>)
      ensures result == RequestsOf(requests, rid)
    {
      result := [];
      var i := 0;
      while i < |requests|
        invariant 0 <= i <= |requests|
        invariant result == RequestsOf(requests[..i], rid)
      {
        assert requests[..i + 1][..i] == requests[..i];
        if requests[i].reservationId == rid {
          result := [requests[i]] + result;
        }
        i := i + 1;
      }
      assert requests[..i] == requests;
    }

    /** `specialRequest.updateStatus(id, status)`: set the status unconditionally. */
    method UpdateRequestStatus(id: int, status: string) returns (row: Option<SpecialRequest>)
      requires Valid()
      modifies this`requests
      ensures Valid()
      ensures requests == WithStatus(old(requests), id, status)
      ensures row.Some? <==> exists i :: 0 <= i < |requests| && requests[i].id == id
      ensures row.Some? ==> row.value in requests && row.value.id == id && row.value.status == status
    {
      requests := WithStatus(requests, id, status);
      row := None;
      var i := 0;
      while i < |requests|
        invariant 0 <= i <= |requests|
        invariant forall j :: 0 <= j < i ==> requests[j].id != id
      {
        if requests[i].id == id {
          row := Some(requests[i]);
          return;
        }
        i := i + 1;
      }
    }

    /** `settings.get(key)`. */
    method GetSetting(key: string) returns (value: Option<string>)
      ensures value == SettingValue(settings, key)
      ensures value.None? <==> forall j :: 0 <= j < |settings| ==> settings[j].key != key
    {
      var i := 0;
      while i < |settings|
        invariant 0 <= i <= |settings|
        invariant SettingFrom(settings, key, i) == SettingValue(settings, key)
      {
        if settings[i].key == key {
          return Some(settings[i].value);
        }
        i := i + 1;
      }
      return None;
    }

    /** `settings.update(key, value)`: update the rows with that key, or insert one when there were none. */
    method UpdateSetting(key: string, value: string) returns (result: Setting)
      requires Valid()
      modifies this`settings
      ensures Valid()
      ensures settings == Upserted(old(settings), key, value)
      ensures SettingValue(settings, key) == Some(value)
      ensures result == Setting(key, value)
    {
      ghost var before := settings;
      settings := UpsertRows(settings, key, value);
      SettingsUpdateThenGet(before, key, value, key + "'");
      result := Setting(key, value);
    }

    /** `settings.getAll()`: fold the rows into an object, later rows assigning over earlier ones. */
    method AllSettings() returns (m: map<string, string>)
      ensures m == SettingsMap(settings)
      ensures forall k :: k in m ==> exists j :: 0 <= j < |settings| && settings[j] == Setting(k, m[k])
    {
      m := map[];
      var i := 0;
      while i < |settings|
        invariant 0 <= i <= |settings|
        invariant m == SettingsMap(settings[..i])
        invariant forall k :: k in m ==> exists j :: 0 <= j < i && settings[j] == Setting(k, m[k])
      {
        assert settings[..i + 1][..i] == settings[..i];
        m := m[settings[i].key := settings[i].value];
        i := i + 1;
      }
      assert settings[..i] == settings;
    }
  }
}
