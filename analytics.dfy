/**
 * The statistics of the analytics dashboard (components/AnalyticsDashboard.js) over one month of
 * reservations. A month is `n` consecutive days starting at day `first`; dates are whole days.
 */
module Analytics {
  import opened Values
  import opened Store

  // ---------------------------------------------------------------- occupancy

  /** `isWithinInterval(day, {start: arrival, end: departure})`: both ends count. */
  predicate Covers(r: Reservation, day: int) {
    r.arrival <= day <= r.departure
  }

  /** Some reservation of property `pid` covers `day` (`reservations.some(...)`). */
  predicate Occupied(rs: seq<Reservation>, pid: int, day: int) {
    exists k | 0 <= k < |rs| :: rs[k].propertyId == pid && Covers(rs[k], day)
  }

  /** The number of days among `first .. first + n - 1` on which property `pid` is occupied. */
  function OccupiedDays(rs: seq<Reservation>, pid: int, first: int, n: nat): (r: nat)
    ensures r <= n
  {
    if n == 0 then 0
    else OccupiedDays(rs, pid, first, n - 1) + (if Occupied(rs, pid, first + n - 1) then 1 else 0)
  }

  /** How many entries of the property list carry id `id`. */
  function Mult(props: seq<Property>, id: int): nat {
    if props == [] then 0
    else Mult(props[..|props| - 1], id) + (if props[|props| - 1].id == id then 1 else 0)
  }

  /** An id that appears once in a list of distinct ids. */
  lemma {:induction false} MultOfUniqueId(props: seq<Property>, k: nat)
    requires PropertyIdsUnique(props) && k < |props|
    ensures Mult(props, props[k].id) == 1
  {
    var init := props[..|props| - 1];
    if k < |props| - 1 {
      assert init[k] == props[k];
      MultOfUniqueId(init, k);
    } else {
      MultOfAbsent(init, props[k].id);
    }
  }

  lemma {:induction false} MultOfAbsent(props: seq<Property>, id: int)
    requires forall k :: 0 <= k < |props| ==> props[k].id != id
    ensures Mult(props, id) == 0
  {
    if props != [] {
      MultOfAbsent(props[..|props| - 1], id);
    }
  }

  /**
   * `Math.round(c / n * 100)`: the nearest whole percentage, halves rounded up.
   */
  function RoundPercent(c: int, n: int): (r: int)
    requires n > 0
    ensures 2 * n * r - n <= 200 * c < 2 * n * r + n
  {
    (200 * c + n) / (2 * n)
  }

  /** `Math.round(s / n)` lies between any bounds of the `n` values that add up to `s`. */
  lemma RoundedMeanBetween(s: int, n: int, lo: int, hi: int)
    requires n > 0 && lo * n <= s <= hi * n
    ensures lo <= (2 * s + n) / (2 * n) <= hi
  {
    var q := 2 * n;
    var a := (2 * s + n) / q;
    assert q * a <= 2 * s + n < q * a + q;
    if a < lo {
      assert q * a <= q * (lo - 1) by { MulMono(q, a, lo - 1); }
    }
    if a > hi {
      assert q * (hi + 1) <= q * a by { MulMono(q, hi + 1, a); }
    }
  }

  lemma MulMono(q: int, x: int, y: int)
    requires q > 0 && x <= y
    ensures q * x <= q * y
  {
  }

  /** A share of a whole is a percentage between 0 and 100. */
  lemma PercentBounds(c: int, n: int)
    requires n > 0 && 0 <= c <= n
    ensures 0 <= RoundPercent(c, n) <= 100
  {
    assert 200 * c == 2 * (100 * c);
    RoundedMeanBetween(100 * c, n, 0, 100);
  }

  datatype Rate = Rate(name: string, value: int)

  /** Every listed property's id has a counter, and every counter starts at zero. */
  method ZeroCounters(props: seq<Property>) returns (counts: map<int, int>)
    ensures forall k :: 0 <= k < |props| ==> props[k].id in counts
    ensures forall id :: id in counts ==> counts[id] == 0
  {
    counts := map[];
    var j := 0;
    while j < |props|
      invariant 0 <= j <= |props|
      invariant forall k :: 0 <= k < j ==> props[k].id in counts
      invariant forall id :: id in counts ==> counts[id] == 0
    {
      counts := counts[props[j].id := 0];
      j := j + 1;
    }
  }

  /** The counters after `n` days: each listed id counts its occupied days once per listing. */
  ghost predicate CountedDays(props: seq<Property>, rs: seq<Reservation>, first: int, n: nat, counts: map<int, int>) {
    forall k :: 0 <= k < |props| ==>
      props[k].id in counts && counts[props[k].id] == Mult(props, props[k].id) * OccupiedDays(rs, props[k].id, first, n)
  }

  /**
   * `calculateOccupancyData`: per property, the percentage of the month's days it is occupied. The
   * counters are keyed by property id, so a property listed twice has each of its days counted twice.
   */
  method OccupancyRates(props: seq<Property>, rs: seq<Reservation>, first: int, n: nat) returns (rates: seq<Rate>)
    requires n > 0
    ensures |rates| == |props|
    ensures forall k :: 0 <= k < |props| ==>
              rates[k] == Rate(props[k].name, RoundPercent(Mult(props, props[k].id) * OccupiedDays(rs, props[k].id, first, n), n))
  {
    var counts := ZeroCounters(props);
    var d := 0;
    while d < n
      invariant 0 <= d <= n && CountedDays(props, rs, first, d, counts)
    {
      var next := CountDay(props, rs, first + d, counts);
      CountDayAdvances(props, rs, first, d, counts, next);
      counts := next;
      d := d + 1;
    }
    rates := [];
    var j := 0;
    while j < |props|
      invariant 0 <= j <= |props| && |rates| == j
      invariant forall k :: 0 <= k < j ==> rates[k] == Rate(props[k].name, RoundPercent(counts[props[k].id], n))
    {
      rates := rates + [Rate(props[j].name, RoundPercent(counts[props[j].id], n))];
      j := j + 1;
    }
  }

  /** One day of the counting loop: every property occupied on `day` adds one to its id's counter. */
  method CountDay(props: seq<Property>, rs: seq<Reservation>, day: int, counts: map<int, int>)
    returns (counts': map<int, int>)
    requires forall k :: 0 <= k < |props| ==> props[k].id in counts
    ensures counts'.Keys == counts.Keys
    ensures forall id :: id in counts ==>
              counts'[id] == counts[id] + (if Occupied(rs, id, day) then Mult(props, id) else 0)
  {
    counts' := counts;
    var j := 0;
    while j < |props|
      invariant 0 <= j <= |props|
      invariant counts'.Keys == counts.Keys
      invariant forall id :: id in counts ==>
                  counts'[id] == counts[id] + (if Occupied(rs, id, day) then Mult(props[..j], id) else 0)
    {
      assert props[..j + 1][..j] == props[..j];
      if Occupied(rs, props[j].id, day) {
        counts' := counts'[props[j].id := counts'[props[j].id] + 1];
      }
      j := j + 1;
    }
    assert props[..j] == props;
  }

  /** A day counted as `CountDay` counts it takes the counters from `d` days to `d + 1`. */
  lemma CountDayAdvances(props: seq<Property>, rs: seq<Reservation>, first: int, d: nat,
                         counts: map<int, int>, counts': map<int, int>)
    requires CountedDays(props, rs, first, d, counts)
    requires counts'.Keys == counts.Keys
    requires forall id :: id in counts ==>
               counts'[id] == counts[id] + (if Occupied(rs, id, first + d) then Mult(props, id) else 0)
    ensures CountedDays(props, rs, first, d + 1, counts')
  {
    forall k | 0 <= k < |props|
      ensures counts'[props[k].id] == Mult(props, props[k].id) * OccupiedDays(rs, props[k].id, first, d + 1)
    {
      var id := props[k].id;
      CountOneMore(Mult(props, id), OccupiedDays(rs, id, first, d), Occupied(rs, id, first + d), counts[id], counts'[id]);
    }
  }

  /** Adding one more day's share `m` to `m * o` gives `m` times the new day count. */
  lemma CountOneMore(m: int, o: int, occupied: bool, c: int, c': int)
    requires c == m * o && c' == c + (if occupied then m else 0)
    ensures c' == m * (o + if occupied then 1 else 0)
  {
    if occupied {
      assert m * (o + 1) == m * o + m;
    }
  }

  /** With distinct property ids every rate is a percentage between 0 and 100. */
  lemma RatesArePercentages(props: seq<Property>, rs: seq<Reservation>, first: int, n: nat, k: nat)
    requires n > 0 && PropertyIdsUnique(props) && k < |props|
    ensures 0 <= RoundPercent(Mult(props, props[k].id) * OccupiedDays(rs, props[k].id, first, n), n) <= 100
  {
    MultOfUniqueId(props, k);
    PercentBounds(OccupiedDays(rs, props[k].id, first, n), n);
  }

  // ---------------------------------------------------------------- daily occupancy

  /** The number of properties occupied on `day`. */
  function OccupiedCount(props: seq<Property>, rs: seq<Reservation>, day: int): (r: nat)
    ensures r <= |props|
  {
    if props == [] then 0
    else OccupiedCount(props[..|props| - 1], rs, day) + (if Occupied(rs, props[|props| - 1].id, day) then 1 else 0)
  }

  /** One bar of the daily chart: day of the month, properties occupied, properties in total. */
  datatype DayOccupancy = DayOccupancy(date: int, occupied: int, total: int)

  /** `calculateDailyOccupancy`: for each day of the month, how many properties are occupied. */
  method DailyOccupancy(props: seq<Property>, rs: seq<Reservation>, first: int, n: nat) returns (days: seq<DayOccupancy>)
    ensures |days| == n
    ensures forall d :: 0 <= d < n ==> days[d] == DayOccupancy(d + 1, OccupiedCount(props, rs, first + d), |props|)
  {
    days := [];
    var d := 0;
    while d < n
      invariant 0 <= d <= n && |days| == d
      invariant forall e :: 0 <= e < d ==> days[e] == DayOccupancy(e + 1, OccupiedCount(props, rs, first + e), |props|)
    {
      var occupied := 0;
      var j := 0;
      while j < |props|
        invariant 0 <= j <= |props|
        invariant occupied == OccupiedCount(props[..j], rs, first + d)
      {
        assert props[..j + 1][..j] == props[..j];
        if Occupied(rs, props[j].id, first + d) {
          occupied := occupied + 1;
        }
        j := j + 1;
      }
      assert props[..j] == props;
      days := days + [DayOccupancy(d + 1, occupied, |props|)];
      d := d + 1;
    }
  }

  /** The occupied property-days of the month, summed day by day. */
  function DailyTotal(props: seq<Property>, rs: seq<Reservation>, first: int, n: nat): nat {
    if n == 0 then 0 else DailyTotal(props, rs, first, n - 1) + OccupiedCount(props, rs, first + n - 1)
  }

  /** The occupied property-days of the month, summed property by property. */
  function PropertyTotal(props: seq<Property>, rs: seq<Reservation>, first: int, n: nat): nat {
    if props == [] then 0
    else PropertyTotal(props[..|props| - 1], rs, first, n) + OccupiedDays(rs, props[|props| - 1].id, first, n)
  }

  lemma {:induction false} PropertyTotalNextDay(props: seq<Property>, rs: seq<Reservation>, first: int, n: nat)
    ensures PropertyTotal(props, rs, first, n + 1) == PropertyTotal(props, rs, first, n) + OccupiedCount(props, rs, first + n)
  {
    if props != [] {
      PropertyTotalNextDay(props[..|props| - 1], rs, first, n);
    }
  }

  /** The daily chart and the per-property counts agree: both add up the same occupied property-days. */
  lemma {:induction false} DailyChartAgreesWithCounts(props: seq<Property>, rs: seq<Reservation>, first: int, n: nat)
    ensures DailyTotal(props, rs, first, n) == PropertyTotal(props, rs, first, n)
  {
    if n == 0 {
      PropertyTotalNoDays(props, rs, first);
    } else {
      DailyChartAgreesWithCounts(props, rs, first, n - 1);
      PropertyTotalNextDay(props, rs, first, n - 1);
    }
  }

  lemma {:induction false} PropertyTotalNoDays(props: seq<Property>, rs: seq<Reservation>, first: int)
    ensures PropertyTotal(props, rs, first, 0) == 0
  {
    if props != [] {
      PropertyTotalNoDays(props[..|props| - 1], rs, first);
    }
  }

  // ---------------------------------------------------------------- stay lengths

  /** `differenceInDays(departure, arrival)` for every reservation. */
  function StayLengths(rs: seq<Reservation>): (r: seq<int>)
    ensures |r| == |rs| && forall k :: 0 <= k < |rs| ==> r[k] == rs[k].departure - rs[k].arrival
  {
    seq(|rs|, k requires 0 <= k < |rs| => rs[k].departure - rs[k].arrival)
  }

  function Sum(xs: seq<int>): int {
    if xs == [] then 0 else Sum(xs[..|xs| - 1]) + xs[|xs| - 1]
  }

  /** `Math.min(...xs)` of a non-empty list. */
  function MinOf(xs: seq<int>): (m: int)
    requires xs != []
    ensures (exists k :: 0 <= k < |xs| && xs[k] == m) && forall k :: 0 <= k < |xs| ==> m <= xs[k]
  {
    if |xs| == 1 then xs[0]
    else
      var m := MinOf(xs[..|xs| - 1]);
      assert forall k :: 0 <= k < |xs| - 1 ==> xs[..|xs| - 1][k] == xs[k];
      if xs[|xs| - 1] < m then xs[|xs| - 1] else m
  }

  /** `Math.max(...xs)` of a non-empty list. */
  function MaxOf(xs: seq<int>): (m: int)
    requires xs != []
    ensures (exists k :: 0 <= k < |xs| && xs[k] == m) && forall k :: 0 <= k < |xs| ==> xs[k] <= m
  {
    if |xs| == 1 then xs[0]
    else
      var m := MaxOf(xs[..|xs| - 1]);
      assert forall k :: 0 <= k < |xs| - 1 ==> xs[..|xs| - 1][k] == xs[k];
      if xs[|xs| - 1] > m then xs[|xs| - 1] else m
  }

  datatype StayStats = StayStats(average: int, min: int, max: int)

  /** `calculateStayLengthStats`: all zero without reservations; else the rounded mean, least and greatest stay. */
  function StayLengthStats(rs: seq<Reservation>): StayStats {
    if rs == [] then StayStats(0, 0, 0)
    else
      var ls := StayLengths(rs);
      StayStats((2 * Sum(ls) + |ls|) / (2 * |ls|), MinOf(ls), MaxOf(ls))
  }

  lemma {:induction false} SumBounds(xs: seq<int>, lo: int, hi: int)
    requires forall k :: 0 <= k < |xs| ==> lo <= xs[k] <= hi
    ensures lo * |xs| <= Sum(xs) <= hi * |xs|
  {
    if xs != [] {
      var init := xs[..|xs| - 1];
      assert forall k :: 0 <= k < |init| ==> init[k] == xs[k];
      SumBounds(init, lo, hi);
      assert lo * |xs| == lo * |init| + lo;
      assert hi * |xs| == hi * |init| + hi;
    }
  }

  /** The average stay lies between the shortest and the longest stay. */
  lemma AverageBetweenMinAndMax(rs: seq<Reservation>)
    ensures StayLengthStats(rs).min <= StayLengthStats(rs).average <= StayLengthStats(rs).max
  {
    if rs != [] {
      var ls := StayLengths(rs);
      SumBounds(ls, MinOf(ls), MaxOf(ls));
      RoundedMeanBetween(Sum(ls), |ls|, MinOf(ls), MaxOf(ls));
    }
  }

  // ---------------------------------------------------------------- reservations per property, guests

  /** The number of reservations of property `pid`. */
  function CountFor(rs: seq<Reservation>, pid: int): (r: nat)
    ensures r <= |rs|
  {
    if rs == [] then 0
    else CountFor(rs[..|rs| - 1], pid) + (if rs[|rs| - 1].propertyId == pid then 1 else 0)
  }

  datatype PropertyCount = PropertyCount(name: string, count: int)

  /**
   * `calculateReservationsByProperty`: per property, how many reservations it has. A reservation of a
   * property not in the list is not counted anywhere.
   */
  method ReservationsByProperty(props: seq<Property>, rs: seq<Reservation>) returns (counts: seq<PropertyCount>)
    ensures |counts| == |props|
    ensures forall k :: 0 <= k < |props| ==> counts[k] == PropertyCount(props[k].name, CountFor(rs, props[k].id))
  {
    var byId: map<int, int> := map[];
    var j := 0;
    while j < |props|
      invariant 0 <= j <= |props|
      invariant forall k :: 0 <= k < j ==> props[k].id in byId
      invariant forall id :: id in byId ==> byId[id] == 0
    {
      byId := byId[props[j].id := 0];
      j := j + 1;
    }
    var i := 0;
    while i < |rs|
      invariant 0 <= i <= |rs|
      invariant forall k :: 0 <= k < |props| ==> props[k].id in byId
      invariant forall id :: id in byId ==> byId[id] == CountFor(rs[..i], id)
    {
      assert rs[..i + 1][..i] == rs[..i];
      if rs[i].propertyId in byId {
        byId := byId[rs[i].propertyId := byId[rs[i].propertyId] + 1];
      }
      i := i + 1;
    }
    assert rs[..i] == rs;
    counts := [];
    j := 0;
    while j < |props|
      invariant 0 <= j <= |props| && |counts| == j
      invariant forall k :: 0 <= k < j ==> counts[k] == PropertyCount(props[k].name, CountFor(rs, props[k].id))
    {
      counts := counts + [PropertyCount(props[j].name, byId[props[j].id])];
      j := j + 1;
    }
  }

  /** The chart's counts added up over the property list. */
  function CountsTotal(props: seq<Property>, rs: seq<Reservation>): nat {
    if props == [] then 0 else CountsTotal(props[..|props| - 1], rs) + CountFor(rs, props[|props| - 1].id)
  }

  /** How many reservations belong to some property of the list. */
  function KnownCount(props: seq<Property>, rs: seq<Reservation>): (r: nat)
    ensures r <= |rs|
  {
    if rs == [] then 0
    else KnownCount(props, rs[..|rs| - 1]) + (if Mult(props, rs[|rs| - 1].propertyId) > 0 then 1 else 0)
  }

  lemma {:induction false} CountsTotalNextReservation(props: seq<Property>, rs: seq<Reservation>, r: Reservation)
    ensures CountsTotal(props, rs + [r]) == CountsTotal(props, rs) + Mult(props, r.propertyId)
  {
    if props != [] {
      CountsTotalNextReservation(props[..|props| - 1], rs, r);
      assert (rs + [r])[..|rs|] == rs;
    }
  }

  /**
   * With distinct property ids the chart's counts add up to the number of reservations whose property
   * is listed; every reservation is counted at most once.
   */
  lemma {:induction false} CountsAddUpToKnownReservations(props: seq<Property>, rs: seq<Reservation>)
    requires PropertyIdsUnique(props)
    ensures CountsTotal(props, rs) == KnownCount(props, rs) <= |rs|
  {
    if rs == [] {
      CountsTotalNoReservations(props);
    } else {
      var init := rs[..|rs| - 1];
      var r := rs[|rs| - 1];
      CountsAddUpToKnownReservations(props, init);
      assert init + [r] == rs;
      CountsTotalNextReservation(props, init, r);
      if Mult(props, r.propertyId) > 0 {
        var k :| 0 <= k < |props| && props[k].id == r.propertyId by {
          MultPositiveHasWitness(props, r.propertyId);
        }
        MultOfUniqueId(props, k);
      }
    }
  }

  lemma {:induction false} CountsTotalNoReservations(props: seq<Property>)
    ensures CountsTotal(props, []) == 0
  {
    if props != [] {
      CountsTotalNoReservations(props[..|props| - 1]);
    }
  }

  lemma {:induction false} MultPositiveHasWitness(props: seq<Property>, id: int)
    requires Mult(props, id) > 0
    ensures exists k :: 0 <= k < |props| && props[k].id == id
  {
    var init := props[..|props| - 1];
    if props[|props| - 1].id != id {
      MultPositiveHasWitness(init, id);
      var k :| 0 <= k < |init| && init[k].id == id;
      assert props[k] == init[k];
    }
  }

  /** `guest_count || 0`. */
  function Guests(r: Reservation): int {
    if TruthyNum(r.guestCount) then r.guestCount.value else 0
  }

  /** `totalGuests`: the guest counts added up, a missing count as 0. */
  function TotalGuests(rs: seq<Reservation>): (t: int)
    ensures (forall k :: 0 <= k < |rs| ==> Guests(rs[k]) >= 0) ==> t >= 0
  {
    if rs == [] then 0
    else
      assert forall k :: 0 <= k < |rs| - 1 ==> rs[..|rs| - 1][k] == rs[k];
      TotalGuests(rs[..|rs| - 1]) + Guests(rs[|rs| - 1])
  }

  /** The total over two lists of reservations is the sum of their totals. */
  lemma {:induction false} TotalGuestsAppend(a: seq<Reservation>, b: seq<Reservation>)
    ensures TotalGuests(a + b) == TotalGuests(a) + TotalGuests(b)
    decreases |b|
  {
    if b == [] {
      assert a + b == a;
    } else {
      assert (a + b)[..|a + b| - 1] == a + b[..|b| - 1];
      TotalGuestsAppend(a, b[..|b| - 1]);
    }
  }
}
