/**
 * The mail worker (workers/email.js, `processEmails` and `extractReservationData`): pick the reservation
 * emails, extract the guest's details, find the reservation by guest name, merge the details into it,
 * append the special requests and announce the update.
 */
module Mail {
  import opened Values
  import opened Text
  import opened Notify
  import opened Store
  import opened Extractor

  // ---------------------------------------------------------------- subject filter

  /** An email is handled when its subject contains one of four keywords, with case significant. */
  predicate IsReservationSubject(subject: string) {
    Contains(subject, "Reservation") || Contains(subject, "Booking")
    || Contains(subject, "rezervace") || Contains(subject, "ubytov\U{E1}n\U{ED}")
  }

  /**
   * The keywords are case-sensitive: a subject without a capital R or B, without `z` and without `á`
   * (such as "new booking request") is not handled.
   */
  lemma CaseMattersInSubjects(subject: string)
    requires 'R' !in subject && 'B' !in subject && 'z' !in subject && '\U{E1}' !in subject
    ensures !IsReservationSubject(subject)
  {
    AbsentCharBlocks(subject, "Reservation", 0);
    AbsentCharBlocks(subject, "Booking", 0);
    AbsentCharBlocks(subject, "rezervace", 2);
    AbsentCharBlocks(subject, "ubytov\U{E1}n\U{ED}", 6);
  }

  lemma BookingSubjectIsHandled()
    ensures IsReservationSubject("Booking confirmed")
  {
    assert OccursAt("Booking confirmed", 0, "Booking");
  }

  // ---------------------------------------------------------------- fallback guest name

  /** `guest:`, `name:`, `jméno:` or `host:` (letters in any case) at `i`; the index after the colon. */
  function KeywordEnd(s: string, i: nat): (r: Option<nat>)
    ensures r.Some? ==> i < r.value <= |s| && s[r.value - 1] == ':'
  {
    if OccursFoldedAt(s, i, "guest") && i + 5 < |s| && s[i + 5] == ':' then Some(i + 6)
    else if OccursFoldedAt(s, i, "name") && i + 4 < |s| && s[i + 4] == ':' then Some(i + 5)
    else if OccursFoldedAt(s, i, "jm\U{E9}no") && i + 5 < |s| && s[i + 5] == ':' then Some(i + 6)
    else if OccursFoldedAt(s, i, "host") && i + 4 < |s| && s[i + 4] == ':' then Some(i + 5)
    else None
  }

  /** A character of the class `[A-Za-z\s]`. */
  predicate IsNameChar(c: char) {
    IsAsciiLetter(c) || IsSpace(c)
  }

  /** End of the longest run of name characters starting at `a`. */
  function RunEnd(s: string, a: nat): (e: nat)
    requires a <= |s|
    ensures a <= e <= |s| && (e == |s| || !IsNameChar(s[e]))
    ensures forall k :: a <= k < e ==> IsNameChar(s[k])
    decreases |s| - a
  {
    if a < |s| && IsNameChar(s[a]) then RunEnd(s, a + 1) else a
  }

  /**
   * `\s*([A-Za-z\s]+)` from `j`, both quantifiers greedy: skip the whitespace, then take the run of
   * letters and whitespace; if no letter follows, backtrack one whitespace character into the group.
   */
  function GroupAfter(s: string, j: nat): (r: Option<(nat, nat)>)
    requires j <= |s|
    ensures r.Some? ==> j <= r.value.0 < r.value.1 <= |s| && forall k :: r.value.0 <= k < r.value.1 ==> IsNameChar(s[k])
  {
    var a := SkipSpaces(s, j);
    if a < |s| && IsAsciiLetter(s[a]) then Some((a, RunEnd(s, a)))
    else if a > j then Some((a - 1, a))
    else None
  }

  /** The group the pattern captures when its match starts at `j`: a label at `j`, then the group after it. */
  function LabelGroup(s: string, j: nat): (r: Option<(nat, nat)>)
    ensures r.Some? ==> j < r.value.0 < r.value.1 <= |s| && forall k :: r.value.0 <= k < r.value.1 ==> IsNameChar(s[k])
  {
    match KeywordEnd(s, j)
    case None => None
    case Some(e) => GroupAfter(s, e)
  }

  /**
   * The leftmost match of `(?:guest|name|jméno|host)[:]\s*([A-Za-z\s]+)` (flag `i`) at or after `i`:
   * the first position where a label is followed by a group.
   */
  function FirstLabel(s: string, i: nat): (r: Option<nat>)
    requires i <= |s|
    ensures r.Some? ==> i <= r.value <= |s| && LabelGroup(s, r.value).Some?
    decreases |s| - i
  {
    if LabelGroup(s, i).Some? then Some(i)
    else if i < |s| then FirstLabel(s, i + 1)
    else None
  }

  /** Past a position without a group, the search goes on from the next one. */
  lemma FirstLabelSkips(s: string, i: nat)
    requires i < |s| && LabelGroup(s, i).None?
    ensures FirstLabel(s, i) == FirstLabel(s, i + 1)
  { }

  /** A position without a group extends a stretch of such positions to the left. */
  lemma NoGroupsFrom(s: string, i: nat, e: nat)
    requires LabelGroup(s, i).None? && forall p :: i + 1 <= p < e ==> LabelGroup(s, p).None?
    ensures forall p :: i <= p < e ==> LabelGroup(s, p).None?
  { }

  /** No position before the one `FirstLabel` finds has a group. */
  lemma {:induction false} FirstLabelIsLeftmost(s: string, i: nat)
    requires i <= |s|
    ensures FirstLabel(s, i).Some? ==> forall p :: i <= p < FirstLabel(s, i).value ==> LabelGroup(s, p).None?
    decreases |s| - i
  {
    var r := FirstLabel(s, i);
    if LabelGroup(s, i).Some? {
      assert r == Some(i);
    } else if r.Some? {
      assert i < |s|;
      FirstLabelSkips(s, i);
      FirstLabelIsLeftmost(s, i + 1);
      NoGroupsFrom(s, i, r.value);
    }
  }

  /** `FirstLabel` finds nothing only when no position from `i` has a group. */
  lemma {:induction false} FirstLabelNone(s: string, i: nat)
    requires i <= |s|
    ensures FirstLabel(s, i).None? ==> forall p :: i <= p <= |s| ==> LabelGroup(s, p).None?
    decreases |s| - i
  {
    if FirstLabel(s, i).None? {
      assert LabelGroup(s, i).None?;
      if i < |s| {
        FirstLabelSkips(s, i);
        FirstLabelNone(s, i + 1);
        NoGroupsFrom(s, i, |s| + 1);
      }
    }
  }

  /** Group 1 of that leftmost match, as start and end indexes into `s`. */
  function NameGroupFrom(s: string, i: nat): (r: Option<(nat, nat)>)
    requires i <= |s|
    ensures r.Some? ==> i < r.value.0 < r.value.1 <= |s| && forall k :: r.value.0 <= k < r.value.1 ==> IsNameChar(s[k])
  {
    match FirstLabel(s, i)
    case None => None
    case Some(p) => LabelGroup(s, p)
  }

  /**
   * The specification of the capture: the group of a match starting at some position `j`, with no match
   * starting earlier; and no group when no position starts a match.
   */
  lemma NameGroupFromIsLeftmost(s: string, i: nat)
    requires i <= |s|
    ensures NameGroupFrom(s, i).Some? ==>
              exists j :: i <= j <= |s| && LabelGroup(s, j) == NameGroupFrom(s, i)
                          && forall j' :: i <= j' < j ==> LabelGroup(s, j').None?
    ensures NameGroupFrom(s, i).None? ==> forall j :: i <= j <= |s| ==> LabelGroup(s, j).None?
  {
    FirstLabelIsLeftmost(s, i);
    FirstLabelNone(s, i);
    var p := FirstLabel(s, i);
    if p.Some? {
      assert LabelGroup(s, p.value) == NameGroupFrom(s, i);
    }
  }

  /** The name `extractReservationData` captures from the email text, trimmed. */
  function FallbackName(text: string): Option<string> {
    var g := NameGroupFrom(text, 0);
    if g.None? then None else Some(Trim(text[g.value.0..g.value.1]))
  }

  /**
   * The captured name holds only ASCII letters and whitespace and neither starts nor ends with
   * whitespace (it may be empty).
   */
  lemma FallbackNameIsLetters(text: string)
    ensures var r := FallbackName(text);
      r.Some? ==> (forall k :: 0 <= k < |r.value| ==> IsNameChar(r.value[k]))
                  && (r.value == [] || (IsAsciiLetter(r.value[0]) && IsAsciiLetter(r.value[|r.value| - 1])))
  {
    var g := NameGroupFrom(text, 0);
    if g.Some? {
      var group := text[g.value.0..g.value.1];
      assert forall k :: 0 <= k < |group| ==> IsNameChar(group[k]) by {
        forall k | 0 <= k < |group| ensures IsNameChar(group[k]) {
          assert group[k] == text[g.value.0 + k];
        }
      }
      TrimIsInfix(group);
    }
  }

  /** A `name:` label, letters in any case, at the start of the text ends after the colon. */
  lemma NameLabelAtStart(s: string)
    requires |s| > 4 && OccursFoldedAt(s, 0, "name") && s[4] == ':'
    ensures KeywordEnd(s, 0) == Some(5)
  {
    assert Fold(s[0 + 0]) == Fold("name"[0]);
    assert Fold(s[0 + 0]) != Fold("guest"[0]);
  }

  /** Whitespace from `j` to `b`, then a run of name characters starting with a letter from `b` to `e`. */
  lemma GroupAfterRun(s: string, j: nat, b: nat, e: nat)
    requires j <= b < e <= |s| && IsAsciiLetter(s[b])
    requires forall k :: j <= k < b ==> IsSpace(s[k])
    requires forall k :: b <= k < e ==> IsNameChar(s[k])
    requires e == |s| || !IsNameChar(s[e])
    ensures GroupAfter(s, j) == Some((b, e))
  {
    RunEndOver(s, b, e);
  }

  /**
   * A `name:` label (letters in any case) followed by whitespace and a name: the captured name is the
   * run of letters and whitespace after the label, trimmed, up to the first other character.
   */
  lemma FallbackNameAfterLabel(key: string, gap: string, name: string, tail: string)
    requires |key| == 4 && OccursFoldedAt(key, 0, "name")
    requires forall k :: 0 <= k < |gap| ==> IsSpace(gap[k])
    requires name != [] && IsAsciiLetter(name[0]) && forall k :: 0 <= k < |name| ==> IsNameChar(name[k])
    requires tail == [] || !IsNameChar(tail[0])
    ensures FallbackName(key + ":" + gap + name + tail) == Some(Trim(name))
  {
    var s := key + ":" + gap + name + tail;
    var b := 5 + |gap|;
    var e := b + |name|;
    assert forall k :: 0 <= k < 4 ==> s[k] == key[k];
    NameLabelAtStart(s);
    assert forall k :: 5 <= k < b ==> s[k] == gap[k - 5];
    assert forall k :: b <= k < e ==> s[k] == name[k - b];
    assert e < |s| ==> s[e] == tail[0];
    GroupAfterRun(s, 5, b, e);
    assert s[b..e] == name;
  }

  /** Over a stretch of name characters, the run continues to the stretch's end. */
  lemma {:induction false} RunEndOver(s: string, a: nat, e: nat)
    requires a <= e <= |s| && forall k :: a <= k < e ==> IsNameChar(s[k])
    ensures RunEnd(s, a) == RunEnd(s, e)
    decreases e - a
  {
    if a < e {
      RunEndOver(s, a + 1, e);
    }
  }

  // ---------------------------------------------------------------- safebox code

  /** The safebox code: the phone's digits with everything else removed, last four of them; null without a phone. */
  function Safebox(phone: Option<string>): (r: Option<string>)
    ensures r.Some? <==> TruthyStr(phone)
    ensures r.Some? ==> |r.value| <= 4 && forall k :: 0 <= k < |r.value| ==> IsDigit(r.value[k])
    ensures r.Some? ==> |r.value| == 4 || r.value == Digits(phone.value)
  {
    if TruthyStr(phone) then Some(LastChars(Digits(phone.value), 4)) else None
  }

  /** Only the trailing digits count: whatever precedes the last four digits does not change the code. */
  lemma {:induction false} SafeboxUsesLastFourDigits(p: string, q: string)
    requires |Digits(q)| >= 4
    ensures Safebox(Some(p + q)) == Some(LastChars(Digits(q), 4))
  {
    DigitsAppend(p, q);
    assert p + q != [] by { assert |Digits(p + q)| >= 4; }
    var d := Digits(p) + Digits(q);
    assert d[|d| - 4..] == Digits(q)[|Digits(q)| - 4..];
  }

  /** The phone from the usual booking confirmation. */
  lemma SafeboxOfCzechNumber()
    ensures Safebox(Some("+420 777 123 456")) == Some("3456")
  {
    assert "+420 777 123 456" == "+420 777 12" + "3 456";
    assert Digits("456") == "456";
    assert Digits(" 456") == Digits("456");
    assert Digits("3 456") == "3456";
    SafeboxUsesLastFourDigits("+420 777 12", "3 456");
  }

  // ---------------------------------------------------------------- extractReservationData (email worker)

  /** The data `extractReservationData` returns for one email. */
  datatype EmailData = EmailData(
    guestName: Option<string>, guestCount: Option<int>, contactPhone: Option<string>,
    wellnessFee: Option<int>, arrivalTime: Option<string>, safebox: Option<string>,
    specialRequests: seq<RequestItem>)

  /**
   * `extractReservationData` in the mail worker. Null when the email has no text (the regex call throws)
   * or no API key is stored; otherwise the extractor's record, its name falling back to the captured one
   * and the safebox code derived from its phone.
   */
  function ExtractReservationData(text: Option<string>, apiKey: Option<string>, reply: Option<string>,
                                  parse: string -> Option<Extracted>): (r: Option<EmailData>)
    ensures r.Some? <==> text.Some? && TruthyStr(apiKey)
    ensures r.Some? ==> var x := ExtractFromReply(reply, parse);
              r.value.guestName == (if TruthyStr(x.guestName) then x.guestName else FallbackName(text.value))
              && r.value.contactPhone == x.contactPhone && r.value.safebox == Safebox(x.contactPhone)
              && r.value.specialRequests == x.specialRequests
              && r.value.guestCount == x.guestCount && r.value.wellnessFee == x.wellnessFee
              && r.value.arrivalTime == x.arrivalTime
  {
    if text.None? || !TruthyStr(apiKey) then None
    else
      var x := ExtractFromReply(reply, parse);
      Some(EmailData(OrStr(x.guestName, FallbackName(text.value)), x.guestCount, x.contactPhone,
                     x.wellnessFee, x.arrivalTime, Safebox(x.contactPhone), x.specialRequests))
  }

  /** When the extractor fails, the email still names its guest through the fallback capture. */
  lemma FailedExtractionFallsBackToText(text: string, apiKey: string, parse: string -> Option<Extracted>)
    requires apiKey != ""
    ensures ExtractReservationData(Some(text), Some(apiKey), None, parse).Some?
    ensures ExtractReservationData(Some(text), Some(apiKey), None, parse).value.guestName == FallbackName(text)
    ensures ExtractReservationData(Some(text), Some(apiKey), None, parse).value.safebox.None?
  {
  }

  // ---------------------------------------------------------------- merge into the reservation

  /**
   * The row written back by the merge: each of the five detail fields takes the extracted value when
   * it is truthy and keeps the stored one otherwise; `missing_info` is cleared.
   */
  function Merge(row: Reservation, d: EmailData): (r: Reservation)
    ensures r.id == row.id && r.propertyId == row.propertyId && r.externalId == row.externalId
    ensures r.guestName == row.guestName && r.arrival == row.arrival && r.departure == row.departure
    ensures !r.missingInfo
    ensures r.guestCount == (if TruthyNum(d.guestCount) then d.guestCount else row.guestCount)
    ensures r.contactPhone == (if TruthyStr(d.contactPhone) then d.contactPhone else row.contactPhone)
    ensures r.wellnessFee == (if TruthyNum(d.wellnessFee) then d.wellnessFee else row.wellnessFee)
    ensures r.safeboxPassword == (if TruthyStr(d.safebox) then d.safebox else row.safeboxPassword)
    ensures r.arrivalTime == (if TruthyStr(d.arrivalTime) then d.arrivalTime else row.arrivalTime)
  {
    row.(guestCount := OrNum(d.guestCount, row.guestCount),
         contactPhone := OrStr(d.contactPhone, row.contactPhone),
         wellnessFee := OrNum(d.wellnessFee, row.wellnessFee),
         safeboxPassword := OrStr(d.safebox, row.safeboxPassword),
         arrivalTime := OrStr(d.arrivalTime, row.arrivalTime),
         missingInfo := false)
  }

  /** A detail the reservation already has is never lost: a truthy stored value stays truthy. */
  lemma MergeKeepsKnownDetails(row: Reservation, d: EmailData)
    ensures TruthyNum(row.guestCount) ==> TruthyNum(Merge(row, d).guestCount)
    ensures TruthyStr(row.contactPhone) ==> TruthyStr(Merge(row, d).contactPhone)
    ensures TruthyNum(row.wellnessFee) ==> TruthyNum(Merge(row, d).wellnessFee)
    ensures TruthyStr(row.safeboxPassword) ==> TruthyStr(Merge(row, d).safeboxPassword)
    ensures TruthyStr(row.arrivalTime) ==> TruthyStr(Merge(row, d).arrivalTime)
  {
  }

  /** Merging the same email twice gives the same row as merging it once. */
  lemma MergeIdempotent(row: Reservation, d: EmailData)
    ensures Merge(Merge(row, d), d) == Merge(row, d)
  {
  }

  /** An email that carries nothing truthy only clears the flag. */
  lemma EmptyDataOnlyClearsFlag(row: Reservation, d: EmailData)
    requires !TruthyNum(d.guestCount) && !TruthyStr(d.contactPhone) && !TruthyNum(d.wellnessFee)
    requires !TruthyStr(d.safebox) && !TruthyStr(d.arrivalTime)
    ensures Merge(row, d) == row.(missingInfo := false)
  {
  }

  /** The special-request rows appended for one email: one per item, type defaulting to 'Other'. */
  function NewRequests(startId: int, rid: int, items: seq<RequestItem>): seq<SpecialRequest> {
    if items == [] then []
    else
      var last := items[|items| - 1];
      NewRequests(startId, rid, items[..|items| - 1])
        + [SpecialRequest(startId + |items| - 1, rid, if TruthyStr(last.kind) then last.kind.value else "Other",
                          last.description, "pending")]
  }

  /**
   * Exactly one row per extracted request, in order, under consecutive ids, all pending; no
   * deduplication.
   */
  lemma {:induction false} NewRequestsShape(startId: int, rid: int, items: seq<RequestItem>)
    ensures var r := NewRequests(startId, rid, items);
      |r| == |items|
      && forall k :: 0 <= k < |r| ==>
           r[k].id == startId + k && r[k].reservationId == rid && r[k].status == "pending"
           && r[k].description == items[k].description
           && r[k].requestType == (if TruthyStr(items[k].kind) then items[k].kind.value else "Other")
  {
    if items != [] {
      var init := items[..|items| - 1];
      NewRequestsShape(startId, rid, init);
      assert forall k :: 0 <= k < |init| ==> init[k] == items[k];
    }
  }

  function Descriptions(items: seq<RequestItem>): (r: seq<Option<string>>)
    ensures |r| == |items| && forall k :: 0 <= k < |r| ==> r[k] == items[k].description
  {
    seq(|items|, k requires 0 <= k < |items| => items[k].description)
  }

  // ---------------------------------------------------------------- one email, a whole run

  /** What the mail worker may change: reservations, special requests, their counter, and the outbox. */
  datatype MailState = MailState(rows: seq<Reservation>, requests: seq<SpecialRequest>, nextRequestId: int,
                                 outbox: seq<Message>)

  /** The parsed email: subject and plain-text body, either possibly missing. */
  datatype EmailContent = EmailContent(subject: Option<string>, text: Option<string>)

  /** One fetched email: its parsed content (absent when parsing failed) and the extractor's reply to its text. */
  datatype InboundEmail = InboundEmail(content: Option<EmailContent>, reply: Option<string>)

  /**
   * One turn of the email loop. `false` when the turn throws out of the loop: the subject is missing
   * (`includes` on undefined) or the reservation's property is gone (`.name` on undefined), the latter
   * after the row and the requests have been written.
   */
  function HandleEmail(st: MailState, props: seq<Property>, apiKey: Option<string>,
                       parse: string -> Option<Extracted>, e: InboundEmail): (MailState, bool)
  {
    if e.content.None? then (st, true)
    else if e.content.value.subject.None? then (st, false)
    else if !IsReservationSubject(e.content.value.subject.value) then (st, true)
    else
      var data := ExtractReservationData(e.content.value.text, apiKey, e.reply, parse);
      if data.None? || !TruthyStr(data.value.guestName) then (st, true)
      else
        match NameIndex(st.rows, data.value.guestName.value)
        case None => (st, true)
        case Some(k) => HandleMatch(st, props, k, data.value)
  }

  /**
   * The email's guest was found at row `k`: write the merged row, append its requests, then announce
   * the update; `false` when the row's property is gone.
   */
  function HandleMatch(st: MailState, props: seq<Property>, k: nat, d: EmailData): (MailState, bool)
    requires k < |st.rows|
  {
    var row := st.rows[k];
    var merged := Merge(row, d);
    var items := d.specialRequests;
    var st' := st.(rows := st.rows[k := merged],
                   requests := st.requests + NewRequests(st.nextRequestId, row.id, items),
                   nextRequestId := st.nextRequestId + |items|);
    match PropertyName(props, row.propertyId)
    case None => (st', false)
    case Some(name) =>
      (st'.(outbox := st.outbox + [UpdatedReservation(name, row.guestName, row.arrival, row.departure,
                                                      merged.guestCount, merged.arrivalTime, merged.contactPhone,
                                                      merged.safeboxPassword, Descriptions(items))]), true)
  }

  /** The loop over all fetched emails, stopping at the first turn that throws. */
  function MailRun(st: MailState, props: seq<Property>, apiKey: Option<string>,
                   parse: string -> Option<Extracted>, emails: seq<InboundEmail>): (MailState, bool)
  {
    if emails == [] then (st, true)
    else
      var prev := MailRun(st, props, apiKey, parse, emails[..|emails| - 1]);
      if !prev.1 then prev else HandleEmail(prev.0, props, apiKey, parse, emails[|emails| - 1])
  }

  /** An email whose subject has none of the keywords changes nothing. */
  lemma UnrelatedEmailIsSkipped(st: MailState, props: seq<Property>, apiKey: Option<string>,
                                parse: string -> Option<Extracted>, subject: string, text: Option<string>, reply: Option<string>)
    requires !IsReservationSubject(subject)
    ensures HandleEmail(st, props, apiKey, parse, InboundEmail(Some(EmailContent(Some(subject), text)), reply)) == (st, true)
  {
  }

  /**
   * A reservation email that yields no data, no truthy guest name, or a name no reservation matches
   * changes nothing and the loop goes on.
   */
  lemma UnmatchedEmailChangesNothing(st: MailState, props: seq<Property>, apiKey: Option<string>,
                                     parse: string -> Option<Extracted>, subject: string, text: Option<string>,
                                     reply: Option<string>)
    requires var data := ExtractReservationData(text, apiKey, reply, parse);
             data.None? || !TruthyStr(data.value.guestName) || NameIndex(st.rows, data.value.guestName.value).None?
    ensures HandleEmail(st, props, apiKey, parse, InboundEmail(Some(EmailContent(Some(subject), text)), reply)) == (st, true)
  {
  }

  /** Without an API key no reservation email changes anything. */
  lemma NoApiKeyChangesNothing(st: MailState, props: seq<Property>, parse: string -> Option<Extracted>, e: InboundEmail)
    requires e.content.Some? && e.content.value.subject.Some?
    ensures HandleEmail(st, props, None, parse, e).0 == st
  {
  }

  /**
   * The same reservations keep their identity, guest name and dates, and `missing_info` only goes from
   * true to false.
   */
  ghost predicate RowsKept(a: seq<Reservation>, b: seq<Reservation>) {
    |b| == |a|
    && forall k :: 0 <= k < |a| ==>
         b[k].id == a[k].id && b[k].propertyId == a[k].propertyId
         && b[k].externalId == a[k].externalId && b[k].guestName == a[k].guestName
         && b[k].arrival == a[k].arrival && b[k].departure == a[k].departure
         && (!a[k].missingInfo ==> !b[k].missingInfo)
  }

  /** Special requests are only appended, as pending rows under the next serial ids. */
  ghost predicate RequestsAppended(a: seq<SpecialRequest>, aNext: int, b: seq<SpecialRequest>, bNext: int) {
    |a| <= |b| && b[..|a|] == a && bNext - aNext == |b| - |a|
    && forall k :: |a| <= k < |b| ==> b[k].id == aNext + k - |a| && b[k].status == "pending"
  }

  /** Messages are only appended. */
  ghost predicate OutboxExtended(a: seq<Message>, b: seq<Message>) {
    |a| <= |b| && b[..|a|] == a
  }

  /** What the mail worker is allowed to do to the tables and the outbox. */
  ghost predicate MailStep(a: MailState, b: MailState) {
    RowsKept(a.rows, b.rows) && RequestsAppended(a.requests, a.nextRequestId, b.requests, b.nextRequestId)
    && OutboxExtended(a.outbox, b.outbox)
  }

  lemma MailStepTransitive(a: MailState, b: MailState, c: MailState)
    requires MailStep(a, b) && MailStep(b, c)
    ensures MailStep(a, c)
  {
    assert c.requests[..|a.requests|] == c.requests[..|b.requests|][..|a.requests|];
    assert c.outbox[..|a.outbox|] == c.outbox[..|b.outbox|][..|a.outbox|];
  }

  lemma MailStepReflexive(st: MailState)
    ensures MailStep(st, st)
  {
    assert st.requests[..|st.requests|] == st.requests;
    assert st.outbox[..|st.outbox|] == st.outbox;
  }

  lemma RowsKeptByMerge(rows: seq<Reservation>, k: nat, d: EmailData)
    requires k < |rows|
    ensures RowsKept(rows, rows[k := Merge(rows[k], d)])
  {
  }

  lemma RequestsAppendedByNew(reqs: seq<SpecialRequest>, next: int, rid: int, items: seq<RequestItem>)
    ensures RequestsAppended(reqs, next, reqs + NewRequests(next, rid, items), next + |items|)
  {
    NewRequestsShape(next, rid, items);
    var b := reqs + NewRequests(next, rid, items);
    assert b[..|reqs|] == reqs;
    forall k | |reqs| <= k < |b| ensures b[k].id == next + k - |reqs| && b[k].status == "pending" {
      assert b[k] == NewRequests(next, rid, items)[k - |reqs|];
    }
  }

  lemma HandleMatchStep(st: MailState, props: seq<Property>, k: nat, d: EmailData)
    requires k < |st.rows|
    ensures MailStep(st, HandleMatch(st, props, k, d).0)
  {
    var b := HandleMatch(st, props, k, d).0;
    RowsKeptByMerge(st.rows, k, d);
    RequestsAppendedByNew(st.requests, st.nextRequestId, st.rows[k].id, d.specialRequests);
    assert b.outbox[..|st.outbox|] == st.outbox;
  }

  lemma HandleEmailStep(st: MailState, props: seq<Property>, apiKey: Option<string>,
                        parse: string -> Option<Extracted>, e: InboundEmail)
    ensures MailStep(st, HandleEmail(st, props, apiKey, parse, e).0)
  {
    if e.content.Some? && e.content.value.subject.Some? && IsReservationSubject(e.content.value.subject.value) {
      var data := ExtractReservationData(e.content.value.text, apiKey, e.reply, parse);
      if data.Some? && TruthyStr(data.value.guestName) && NameIndex(st.rows, data.value.guestName.value).Some? {
        HandleMatchStep(st, props, NameIndex(st.rows, data.value.guestName.value).value, data.value);
        return;
      }
    }
    MailStepReflexive(st);
  }

  /** A whole run keeps to `MailStep`: no reservation is created or removed and `missing_info` is one-way. */
  lemma {:induction false} MailRunStep(st: MailState, props: seq<Property>, apiKey: Option<string>,
                                       parse: string -> Option<Extracted>, emails: seq<InboundEmail>)
    ensures MailStep(st, MailRun(st, props, apiKey, parse, emails).0)
  {
    if emails == [] {
      assert st.requests[..|st.requests|] == st.requests;
      assert st.outbox[..|st.outbox|] == st.outbox;
    } else {
      var init := emails[..|emails| - 1];
      MailRunStep(st, props, apiKey, parse, init);
      var prev := MailRun(st, props, apiKey, parse, init);
      if prev.1 {
        HandleEmailStep(prev.0, props, apiKey, parse, emails[|emails| - 1]);
        MailStepTransitive(st, prev.0, MailRun(st, props, apiKey, parse, emails).0);
      }
    }
  }

  /**
   * A handled email whose guest is found updates the first matching row and clears its flag, appends
   * one request per item, and changes no other row.
   */
  lemma MatchedEmailUpdatesFirstMatch(st: MailState, props: seq<Property>, apiKey: Option<string>,
                                      parse: string -> Option<Extracted>, subject: string, text: Option<string>,
                                      reply: Option<string>, d: EmailData, k: nat)
    requires IsReservationSubject(subject)
    requires ExtractReservationData(text, apiKey, reply, parse) == Some(d)
    requires TruthyStr(d.guestName) && NameIndex(st.rows, d.guestName.value) == Some(k)
    ensures var b := HandleEmail(st, props, apiKey, parse, InboundEmail(Some(EmailContent(Some(subject), text)), reply)).0;
            b.rows == st.rows[k := Merge(st.rows[k], d)] && !b.rows[k].missingInfo
            && |b.requests| == |st.requests| + |d.specialRequests|
  {
    assert HandleEmail(st, props, apiKey, parse, InboundEmail(Some(EmailContent(Some(subject), text)), reply))
           == HandleMatch(st, props, k, d);
    RequestsAppendedByNew(st.requests, st.nextRequestId, st.rows[k].id, d.specialRequests);
  }

  // ---------------------------------------------------------------- the worker

  /** The mail account is configured: user, password and server are all truthy. */
  predicate Configured(user: Option<string>, password: Option<string>, host: Option<string>) {
    TruthyStr(user) && TruthyStr(password) && TruthyStr(host)
  }

  /** Appends one pending special request per item for reservation `rid`. */
  method CreateRequests(db: Database, rid: int, items: seq<RequestItem>)
    requires db.Valid()
    modifies db`requests, db`nextRequestId
    ensures db.Valid()
    ensures db.requests == old(db.requests) + NewRequests(old(db.nextRequestId), rid, items)
    ensures db.nextRequestId == old(db.nextRequestId) + |items|
  {
    var i := 0;
    while i < |items|
      invariant 0 <= i <= |items| && db.Valid()
      invariant db.requests == old(db.requests) + NewRequests(old(db.nextRequestId), rid, items[..i])
      invariant db.nextRequestId == old(db.nextRequestId) + i
    {
      var kind := if TruthyStr(items[i].kind) then items[i].kind.value else "Other";
      var created := db.CreateRequest(rid, kind, items[i].description, None);
      assert items[..i + 1][..i] == items[..i];
      i := i + 1;
    }
    assert items[..i] == items;
  }

  /** The database side of `HandleMatch`: update the row found at `k`, create the requests, announce. */
  method ApplyMatch(db: Database, ghost k: nat, row: Reservation, d: EmailData, sent: seq<Message>)
    returns (sent': seq<Message>, goOn: bool)
    requires db.Valid() && k < |db.reservations| && db.reservations[k] == row
    modifies db`reservations, db`requests, db`nextRequestId
    ensures db.Valid()
    ensures (MailState(db.reservations, db.requests, db.nextRequestId, sent'), goOn)
            == HandleMatch(MailState(old(db.reservations), old(db.requests), old(db.nextRequestId), sent),
                           db.properties, k, d)
  {
    var merged := Merge(row, d);
    UpdateTouchesOnlyThatRow(db.reservations, db.nextReservationId, k, merged);
    var updated := db.UpdateReservation(row.id, merged);
    CreateRequests(db, row.id, d.specialRequests);
    var name := PropertyName(db.properties, row.propertyId);
    if name.None? {
      sent', goOn := sent, false;
    } else {
      sent' := sent + [UpdatedReservation(name.value, row.guestName, row.arrival, row.departure,
                                          merged.guestCount, merged.arrivalTime, merged.contactPhone,
                                          merged.safeboxPassword, Descriptions(d.specialRequests))];
      goOn := true;
    }
  }

  /** One turn of the loop against the database; returns whether the loop goes on. */
  method HandleEmailIn(db: Database, e: InboundEmail, parse: string -> Option<Extracted>, sent: seq<Message>)
    returns (sent': seq<Message>, goOn: bool)
    requires db.Valid()
    modifies db`reservations, db`requests, db`nextRequestId
    ensures db.Valid()
    ensures (MailState(db.reservations, db.requests, db.nextRequestId, sent'), goOn)
            == HandleEmail(MailState(old(db.reservations), old(db.requests), old(db.nextRequestId), sent),
                           db.properties, SettingValue(db.settings, "openai_api_key"), parse, e)
  {
    sent' := sent;
    goOn := true;
    if e.content.None? {
      return;
    }
    var content := e.content.value;
    if content.subject.None? {
      goOn := false;
      return;
    }
    if !IsReservationSubject(content.subject.value) {
      return;
    }
    var apiKey := db.GetSetting("openai_api_key");
    var data := ExtractReservationData(content.text, apiKey, e.reply, parse);
    if data.None? || !TruthyStr(data.value.guestName) {
      return;
    }
    ghost var k := NameIndex(db.reservations, data.value.guestName.value);
    var found := db.FindByGuestName(data.value.guestName.value);
    if found.None? {
      return;
    }
    sent', goOn := ApplyMatch(db, k.value, found.value, data.value, sent);
  }

  /**
   * `processEmails`: without a configured mail account nothing happens; otherwise every fetched email is
   * handled in turn until one throws. Returns the messages sent.
   */
  method ProcessEmails(db: Database, emails: seq<InboundEmail>, parse: string -> Option<Extracted>)
    returns (sent: seq<Message>)
    requires db.Valid()
    modifies db`reservations, db`requests, db`nextRequestId
    ensures db.Valid()
    ensures !Configured(SettingValue(db.settings, "email_user"), SettingValue(db.settings, "email_password"),
                        SettingValue(db.settings, "email_server"))
            ==> sent == [] && db.reservations == old(db.reservations) && db.requests == old(db.requests)
                && db.nextRequestId == old(db.nextRequestId)
    ensures Configured(SettingValue(db.settings, "email_user"), SettingValue(db.settings, "email_password"),
                       SettingValue(db.settings, "email_server"))
            ==> MailState(db.reservations, db.requests, db.nextRequestId, sent)
                == MailRun(MailState(old(db.reservations), old(db.requests), old(db.nextRequestId), []),
                           db.properties, SettingValue(db.settings, "openai_api_key"), parse, emails).0
  {
    sent := [];
    var user := db.GetSetting("email_user");
    var password := db.GetSetting("email_password");
    var host := db.GetSetting("email_server");
    if !Configured(user, password, host) {
      return;
    }
    ghost var start := MailState(db.reservations, db.requests, db.nextRequestId, []);
    ghost var apiKey := SettingValue(db.settings, "openai_api_key");
    var i := 0;
    while i < |emails|
      invariant 0 <= i <= |emails| && db.Valid()
      invariant MailRun(start, db.properties, apiKey, parse, emails[..i])
                == (MailState(db.reservations, db.requests, db.nextRequestId, sent), true)
    {
      MailRunSnoc(start, db.properties, apiKey, parse, emails, i);
      var goOn;
      sent, goOn := HandleEmailIn(db, emails[i], parse, sent);
      if !goOn {
        MailRunAbortSticks(start, db.properties, apiKey, parse, emails, i + 1);
        return;
      }
      i := i + 1;
    }
    assert emails[..i] == emails;
  }

  lemma MailRunSnoc(st: MailState, props: seq<Property>, apiKey: Option<string>,
                    parse: string -> Option<Extracted>, emails: seq<InboundEmail>, i: nat)
    requires i < |emails|
    ensures var prev := MailRun(st, props, apiKey, parse, emails[..i]);
      MailRun(st, props, apiKey, parse, emails[..i + 1])
      == if prev.1 then HandleEmail(prev.0, props, apiKey, parse, emails[i]) else prev
  {
    assert emails[..i + 1][..i] == emails[..i];
  }

  lemma {:induction false} MailRunAbortSticks(st: MailState, props: seq<Property>, apiKey: Option<string>,
                                              parse: string -> Option<Extracted>, emails: seq<InboundEmail>, j: nat)
    requires j <= |emails| && !MailRun(st, props, apiKey, parse, emails[..j]).1
    ensures MailRun(st, props, apiKey, parse, emails) == MailRun(st, props, apiKey, parse, emails[..j])
    decreases |emails| - j
  {
    if j < |emails| {
      assert emails[..|emails| - 1][..j] == emails[..j];
      MailRunAbortSticks(st, props, apiKey, parse, emails[..|emails| - 1], j);
    } else {
      assert emails[..j] == emails;
    }
  }
}
