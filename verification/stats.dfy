/**
 GET `/api/bookings/stats`: counts per status, the number of bookings made
 today, and today's revenue summed from the fare strings the bookings carry.
 Whether a timestamp falls on today's date is a parameter.
 */
module BookingStats {
  import opened Wrappers
  import JsNumber
  import JsString
  import Fare
  import opened Bookings

  datatype Stats = Stats(
    total: nat,
    pending: nat,
    confirmed: nat,
    completed: nat,
    cancelled: nat,
    todayBookings: nat,
    todayRevenue: real)

  datatype StatsResponse = Report(stats: Stats) | Failed // 200 stats | 500 {error}

  /** `b.status === status`. */
  predicate HasStatus(b: Booking, status: string) {
    "status" in b && b["status"] == status
  }

  /**
   `new Date(b.timestamp).toLocaleDateString() === today`. A booking without
   a timestamp gives an invalid date, which never matches today.
   */
  predicate IsTodays(b: Booking, isToday: string -> bool) {
    "timestamp" in b && isToday(b["timestamp"])
  }

  /** Number of bookings with exactly that status string. */
  function CountStatus(store: seq<Booking>, status: string): (n: nat)
    ensures n <= |store|
  {
    if |store| == 0 then 0
    else (if HasStatus(store[0], status) then 1 else 0) + CountStatus(store[1..], status)
  }

  /** Number of bookings whose timestamp falls on today's date. */
  function CountToday(store: seq<Booking>, isToday: string -> bool): (n: nat)
    ensures n <= |store|
  {
    if |store| == 0 then 0
    else (if IsTodays(store[0], isToday) then 1 else 0) + CountToday(store[1..], isToday)
  }

  /** The literal the handler strips from a fare: the rupee sign as mis-decoded text, `â‚¹`. */
  const MojibakePrefix: string := "\U{E2}\U{201A}\U{B9}"

  /** `parseFloat(fare.replace(prefix, '')) || 0`. */
  function FareValue(fare: string, prefix: string): real {
    JsNumber.ParseFloat(JsString.ReplaceFirst(fare, prefix, "")).GetOr(0.0)
  }

  /** What the handler as written reads from a fare string. */
  function FareValueAsWritten(fare: string): real {
    FareValue(fare, MojibakePrefix)
  }

  /** What the handler reads from a fare string once it strips the rupee sign. */
  function FareValueCorrected(fare: string): real {
    FareValue(fare, Fare.Rupee)
  }

  /**
   The revenue reduction over today's bookings; `None` when a booking of
   today has no `estimatedFare`, where `undefined.replace` throws.
   */
  function TodayRevenue(store: seq<Booking>, isToday: string -> bool, value: string -> real): (r: Option<real>)
    ensures r.None? <==> exists k | 0 <= k < |store| :: IsTodays(store[k], isToday) && "estimatedFare" !in store[k]
  {
    if |store| == 0 then Some(0.0)
    else
      var rest := TodayRevenue(store[1..], isToday, value);
      assert forall k | 1 <= k < |store| :: store[1..][k - 1] == store[k];
      if !IsTodays(store[0], isToday) then rest
      else if "estimatedFare" !in store[0] then None
      else match rest
        case None => None
        case Some(v) => Some(value(store[0]["estimatedFare"]) + v)
  }

  /** The statistics the handler builds, reading each fare string with `value`. */
  function ComputeStats(store: seq<Booking>, isToday: string -> bool, value: string -> real): (r: StatsResponse)
    ensures r.Report? <==> TodayRevenue(store, isToday, value).Some?
    ensures r.Report? ==>
      && r.stats.total == |store|
      && r.stats.pending == CountStatus(store, "pending")
      && r.stats.confirmed == CountStatus(store, "confirmed")
      && r.stats.completed == CountStatus(store, "completed")
      && r.stats.cancelled == CountStatus(store, "cancelled")
      && r.stats.todayBookings == CountToday(store, isToday)
      && r.stats.todayRevenue == TodayRevenue(store, isToday, value).value
      && r.stats.pending + r.stats.confirmed + r.stats.completed + r.stats.cancelled <= r.stats.total
      && r.stats.todayBookings <= r.stats.total
  {
    match TodayRevenue(store, isToday, value)
    case None => Failed
    case Some(revenue) =>
      StatusCountsBounded(store);
      Report(Stats(
        |store|,
        CountStatus(store, "pending"),
        CountStatus(store, "confirmed"),
        CountStatus(store, "completed"),
        CountStatus(store, "cancelled"),
        CountToday(store, isToday),
        revenue))
  }

  /** The four status counts never add up to more than the collection: other statuses count only in the total. */
  lemma {:induction false} StatusCountsBounded(store: seq<Booking>)
    ensures CountStatus(store, "pending") + CountStatus(store, "confirmed")
      + CountStatus(store, "completed") + CountStatus(store, "cancelled") <= |store|
  {
    if |store| > 0 {
      StatusCountsBounded(store[1..]);
    }
  }

  /**
   The handler as written, stripping the mis-decoded prefix. It fails when
   the read fails or a booking of today has no fare; when every booking of
   today carries a fare the form rendered, today's revenue is 0.
   */
  function StatsAsWritten(store: seq<Booking>, isToday: string -> bool, io: Io): (r: StatsResponse)
    ensures !io.readOk ==> r == Failed
    ensures io.readOk ==> r == ComputeStats(store, isToday, FareValueAsWritten)
    ensures io.readOk ==>
      (r.Failed? <==> exists k | 0 <= k < |store| :: IsTodays(store[k], isToday) && "estimatedFare" !in store[k])
    ensures r.Report? ==> r.stats.total == |store|
    ensures forall fares | CarriesRenderedFares(store, fares, isToday) ::
      io.readOk ==> r.Report? && r.stats.todayRevenue == 0.0
  {
    var r := if io.readOk then ComputeStats(store, isToday, FareValueAsWritten) else Failed;
    assert forall fares | CarriesRenderedFares(store, fares, isToday) :: io.readOk ==> r.Report? && r.stats.todayRevenue == 0.0 by {
      forall fares | CarriesRenderedFares(store, fares, isToday)
        ensures TodayRevenue(store, isToday, FareValueAsWritten) == Some(0.0)
      {
        RevenueAsWrittenIsZero(store, fares, isToday);
      }
    }
    r
  }

  /**
   The handler stripping the rupee sign the form puts in front of its fares.
   It fails exactly where the handler as written does; when every booking of
   today carries a rendered fare, today's revenue is the sum of today's fares.
   */
  function StatsCorrected(store: seq<Booking>, isToday: string -> bool, io: Io): (r: StatsResponse)
    ensures !io.readOk ==> r == Failed
    ensures io.readOk ==> r == ComputeStats(store, isToday, FareValueCorrected)
    ensures io.readOk ==>
      (r.Failed? <==> exists k | 0 <= k < |store| :: IsTodays(store[k], isToday) && "estimatedFare" !in store[k])
    ensures r.Report? ==> r.stats.total == |store|
    ensures forall fares | CarriesRenderedFares(store, fares, isToday) ::
      io.readOk ==> r.Report? && r.stats.todayRevenue == TodaysValues(store, AsReals(fares), isToday)
  {
    var r := if io.readOk then ComputeStats(store, isToday, FareValueCorrected) else Failed;
    assert forall fares | CarriesRenderedFares(store, fares, isToday) ::
      io.readOk ==> r.Report? && r.stats.todayRevenue == TodaysValues(store, AsReals(fares), isToday)
    by {
      forall fares | CarriesRenderedFares(store, fares, isToday)
        ensures TodayRevenue(store, isToday, FareValueCorrected) == Some(TodaysValues(store, AsReals(fares), isToday))
      {
        RevenueCorrectedSumsFares(store, fares, isToday);
      }
    }
    r
  }

  /** As written, a fare rendered by the booking form is worth nothing: the prefix is not found and `₹` parses as `NaN`. */
  lemma RenderedFareWorthNothing(fare: int)
    ensures FareValueAsWritten(Fare.RenderFare(fare)) == 0.0
  {
    var text := Fare.RenderFare(fare);
    var digits := JsNumber.ToFixed2(fare);
    assert text == Fare.Rupee + digits;
    forall k | 0 <= k < |text|
      ensures text[k] != MojibakePrefix[0]
    {
      if k > 0 {
        assert text[k] == digits[k - 1];
        RenderedCharacters(fare, k - 1);
      }
    }
    JsString.ReplaceAbsent(text, MojibakePrefix, "");
    JsNumber.ParseOfNonNumericStart(text);
  }

  /** `n.toFixed(2)` is made of a sign, digits and a point only. */
  lemma RenderedCharacters(fare: int, k: nat)
    requires k < |JsNumber.ToFixed2(fare)|
    ensures var c := JsNumber.ToFixed2(fare)[k]; c == '-' || c == '.' || JsNumber.IsDigit(c)
  {
    var s := JsNumber.IntToString(fare);
    if k < |s| && fare < 0 && k > 0 {
      assert s[k] == s[1..][k - 1];
    }
  }

  /** Stripping the real rupee sign, a rendered fare counts at its value. */
  lemma RenderedFareCounted(fare: int)
    ensures FareValueCorrected(Fare.RenderFare(fare)) == fare as real
  {
    var text := Fare.RenderFare(fare);
    assert text == Fare.Rupee + JsNumber.ToFixed2(fare);
    JsString.ReplaceLeading(Fare.Rupee, JsNumber.ToFixed2(fare));
    JsNumber.ParseFloatOfToFixed2(fare);
  }

  /**
   Every booking of today carries the fare text the form rendered for
   `fares[k]`; other bookings may carry anything or nothing.
   */
  predicate CarriesRenderedFares(store: seq<Booking>, fares: seq<int>, isToday: string -> bool) {
    && |fares| == |store|
    && forall k | 0 <= k < |store| && IsTodays(store[k], isToday) ::
         "estimatedFare" in store[k] && store[k]["estimatedFare"] == Fare.RenderFare(fares[k])
  }

  /** Today's revenue is the sum of today's fare values, whenever every booking of today has a fare. */
  lemma {:induction false} RevenueSumsValues(store: seq<Booking>, values: seq<real>, isToday: string -> bool, value: string -> real)
    requires |values| == |store|
    requires forall k | 0 <= k < |store| && IsTodays(store[k], isToday) ::
      "estimatedFare" in store[k] && value(store[k]["estimatedFare"]) == values[k]
    ensures TodayRevenue(store, isToday, value) == Some(TodaysValues(store, values, isToday))
    decreases |store|
  {
    if |store| > 0 {
      assert forall k | 0 <= k < |store[1..]| :: store[1..][k] == store[k + 1] && values[1..][k] == values[k + 1];
      RevenueSumsValues(store[1..], values[1..], isToday, value);
    }
  }

  /** The sum of `values[k]` over today's bookings. */
  function TodaysValues(store: seq<Booking>, values: seq<real>, isToday: string -> bool): real
    requires |values| == |store|
  {
    if |store| == 0 then 0.0
    else (if IsTodays(store[0], isToday) then values[0] else 0.0) + TodaysValues(store[1..], values[1..], isToday)
  }

  /** Rendered fares as the values the corrected handler reads. */
  function AsReals(fares: seq<int>): (r: seq<real>)
    ensures |r| == |fares| && forall k | 0 <= k < |fares| :: r[k] == fares[k] as real
  {
    seq(|fares|, k requires 0 <= k < |fares| => fares[k] as real)
  }

  /** As written, today's revenue is zero for bookings whose fares the form rendered, whatever they cost. */
  lemma RevenueAsWrittenIsZero(store: seq<Booking>, fares: seq<int>, isToday: string -> bool)
    requires CarriesRenderedFares(store, fares, isToday)
    ensures TodayRevenue(store, isToday, FareValueAsWritten) == Some(0.0)
  {
    var zeros := seq(|store|, k => 0.0);
    forall k | 0 <= k < |store| && IsTodays(store[k], isToday)
      ensures FareValueAsWritten(store[k]["estimatedFare"]) == zeros[k]
    {
      RenderedFareWorthNothing(fares[k]);
    }
    RevenueSumsValues(store, zeros, isToday, FareValueAsWritten);
    ZeroValuesSumToZero(store, zeros, isToday);
  }

  lemma {:induction false} ZeroValuesSumToZero(store: seq<Booking>, zeros: seq<real>, isToday: string -> bool)
    requires |zeros| == |store| && forall k | 0 <= k < |zeros| :: zeros[k] == 0.0
    ensures TodaysValues(store, zeros, isToday) == 0.0
    decreases |store|
  {
    if |store| > 0 {
      assert forall k | 0 <= k < |zeros[1..]| :: zeros[1..][k] == zeros[k + 1];
      ZeroValuesSumToZero(store[1..], zeros[1..], isToday);
    }
  }

  /** With the rupee sign stripped, today's revenue is the sum of today's rendered fares. */
  lemma RevenueCorrectedSumsFares(store: seq<Booking>, fares: seq<int>, isToday: string -> bool)
    requires CarriesRenderedFares(store, fares, isToday)
    ensures TodayRevenue(store, isToday, FareValueCorrected) == Some(TodaysValues(store, AsReals(fares), isToday))
  {
    var values := AsReals(fares);
    forall k | 0 <= k < |store| && IsTodays(store[k], isToday)
      ensures FareValueCorrected(store[k]["estimatedFare"]) == values[k]
    {
      RenderedFareCounted(fares[k]);
    }
    RevenueSumsValues(store, values, isToday, FareValueCorrected);
  }

  /**
   The total the handler reports is the length of the list the list handler
   returns, and the stats agree with the corrected handler on everything but
   today's revenue.
   */
  lemma TotalMatchesList(store: seq<Booking>, isToday: string -> bool, io: Io)
    ensures var r := StatsAsWritten(store, isToday, io);
      r.Report? ==> List(store, io).response == Listed(store) && r.stats.total == |store|
    ensures var r := StatsAsWritten(store, isToday, io);
      var c := StatsCorrected(store, isToday, io);
      r.Failed? == c.Failed? && (r.Report? ==> r.stats.(todayRevenue := 0.0) == c.stats.(todayRevenue := 0.0))
  {
  }

  /** Appending a booking adds one to exactly the count of its own status. */
  lemma {:induction false} CountStatusAppend(store: seq<Booking>, b: Booking, status: string)
    ensures CountStatus(store + [b], status) == CountStatus(store, status) + (if HasStatus(b, status) then 1 else 0)
    decreases |store|
  {
    if |store| == 0 {
      assert store + [b] == [b];
    } else {
      assert (store + [b])[1..] == store[1..] + [b];
      CountStatusAppend(store[1..], b, status);
    }
  }

  /** Appending a booking adds one to today's count exactly when its timestamp falls on today. */
  lemma {:induction false} CountTodayAppend(store: seq<Booking>, b: Booking, isToday: string -> bool)
    ensures CountToday(store + [b], isToday) == CountToday(store, isToday) + (if IsTodays(b, isToday) then 1 else 0)
    decreases |store|
  {
    if |store| == 0 {
      assert store + [b] == [b];
    } else {
      assert (store + [b])[1..] == store[1..] + [b];
      CountTodayAppend(store[1..], b, isToday);
    }
  }

  /**
   A create stamped with today's date, whose body does not supply its own
   timestamp, raises today's count by one.
   */
  lemma CreateCountsToday(store: seq<Booking>, body: Booking, now: nat, isoNow: string, isToday: string -> bool)
    requires "timestamp" !in body && isToday(isoNow)
    ensures var c := Create(store, body, now, isoNow, Io(true, true));
      CountToday(c.store, isToday) == CountToday(store, isToday) + 1
  {
    var c := Create(store, body, now, isoNow, Io(true, true));
    CountTodayAppend(store, c.response.booking, isToday);
  }

  /**
   A create whose body leaves the status alone, or sets it to `pending`,
   raises the pending count by one and leaves the other counts as they were.
   */
  lemma CreateCountsAsPending(store: seq<Booking>, body: Booking, now: nat, isoNow: string, other: string)
    requires "status" !in body || body["status"] == "pending"
    requires other != "pending"
    ensures var c := Create(store, body, now, isoNow, Io(true, true));
      && CountStatus(c.store, "pending") == CountStatus(store, "pending") + 1
      && CountStatus(c.store, other) == CountStatus(store, other)
  {
    var c := Create(store, body, now, isoNow, Io(true, true));
    CountStatusAppend(store, c.response.booking, "pending");
    CountStatusAppend(store, c.response.booking, other);
  }
}
