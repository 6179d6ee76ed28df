/**
 The fare engine of the booking form: from the selected service type and the
 hours field it computes the total fare, its display text and the fixed
 rate-details text. `updateFareEstimate` reads the hours with `parseInt`, its
 twin `calculateFare` with `parseFloat`.
 */
module Fare {
  import opened Wrappers
  import JsNumber

  /** The service types the form offers; `Unknown` is any other (or no) selection. */
  datatype ServiceType = Morning | Afternoon | Hourly | Night | Tour | NightStay | Unknown

  /** The value the service-type selector carries for each service (`""` for none). */
  function Tag(st: ServiceType): string {
    match st
    case Morning => "morning"
    case Afternoon => "afternoon"
    case Hourly => "hourly"
    case Night => "night"
    case Tour => "tour"
    case NightStay => "night_stay"
    case Unknown => ""
  }

  /** The case of the fare switch a selector value falls into. */
  function ParseServiceType(tag: string): (st: ServiceType)
    ensures st != Unknown ==> Tag(st) == tag
  {
    if tag == "morning" then Morning
    else if tag == "afternoon" then Afternoon
    else if tag == "hourly" then Hourly
    else if tag == "night" then Night
    else if tag == "tour" then Tour
    else if tag == "night_stay" then NightStay
    else Unknown
  }

  /** Every service type is reached from exactly its own selector value. */
  lemma TagRoundTrip(st: ServiceType, tag: string)
    ensures ParseServiceType(Tag(st)) == st
    ensures ParseServiceType(tag) != Unknown ==> Tag(ParseServiceType(tag)) == tag
  {
  }

  /** A pricing rule: a base fare that covers some hours plus an hourly overage, or a plain hourly rate. */
  datatype Rule = Tiered(included: nat, base: nat, rate: nat) | PerHour(rate: nat)

  /** The rate schedule, as a configuration table independent of the fare switch. */
  function RuleOf(st: ServiceType): Option<Rule> {
    match st
    case Morning => Some(Tiered(8, 1000, 200))
    case Afternoon => Some(Tiered(5, 1000, 200))
    case Hourly => Some(PerHour(200))
    case Night => Some(Tiered(2, 750, 250))
    case Tour => Some(Tiered(12, 1500, 200))
    case NightStay => Some(PerHour(250))
    case Unknown => None
  }

  /** The fare a rule charges for `hours`. */
  function Apply(r: Rule, hours: int): int {
    match r
    case Tiered(included, base, rate) =>
      if hours <= included then base else base + (hours - included) * rate
    case PerHour(rate) => hours * rate
  }

  /**
   The total fare as the switch in `updateFareEstimate` computes it for
   integer hours; an unrecognised service type leaves it at 0.
   */
  function Fare(st: ServiceType, hours: int): (fare: int)
    ensures RuleOf(st).Some? ==> fare == Apply(RuleOf(st).value, hours)
    ensures RuleOf(st).None? <==> st == Unknown
    ensures st == Unknown ==> fare == 0
  {
    match st
    case Morning => if hours <= 8 then 1000 else 1000 + (hours - 8) * 200
    case Afternoon => if hours <= 5 then 1000 else 1000 + (hours - 5) * 200
    case Hourly => hours * 200
    case Night => if hours <= 2 then 750 else 750 + (hours - 2) * 250
    case Tour => if hours <= 12 then 1500 else 1500 + (hours - 12) * 200
    case NightStay => hours * 250
    case Unknown => 0
  }

  /** The fare a rule charges for a real number of hours. */
  function ApplyReal(r: Rule, hours: real): real {
    match r
    case Tiered(included, base, rate) =>
      if hours <= included as real then base as real else base as real + (hours - included as real) * rate as real
    case PerHour(rate) => hours * rate as real
  }

  /** The same switch over `parseFloat` hours, as in `calculateFare`. */
  function FareReal(st: ServiceType, hours: real): (fare: real)
    ensures RuleOf(st).Some? ==> fare == ApplyReal(RuleOf(st).value, hours)
    ensures st == Unknown ==> fare == 0.0
  {
    match st
    case Morning => if hours <= 8.0 then 1000.0 else 1000.0 + (hours - 8.0) * 200.0
    case Afternoon => if hours <= 5.0 then 1000.0 else 1000.0 + (hours - 5.0) * 200.0
    case Hourly => hours * 200.0
    case Night => if hours <= 2.0 then 750.0 else 750.0 + (hours - 2.0) * 250.0
    case Tour => if hours <= 12.0 then 1500.0 else 1500.0 + (hours - 12.0) * 200.0
    case NightStay => hours * 250.0
    case Unknown => 0.0
  }

  const Rupee: string := "\U{20B9}"

  /**
   The rate-details text shown under the fare; it names the schedule, not the
   quote. Each text is the source's literal, written in pieces so that its
   figures stand apart.
   */
  function RateDetails(st: ServiceType): string {
    match st
    case Morning => "Base rate: " + Rupee + "1000" + " for " + "8" + " hours\nAdditional hours: " + Rupee + "200" + "/hour"
    case Afternoon => "Base rate: " + Rupee + "1000" + " for " + "5" + " hours\nAdditional hours: " + Rupee + "200" + "/hour"
    case Hourly => "Standard hourly rate: " + (Rupee + "200" + "/hour")
    case Night => "Base rate: " + Rupee + "750" + " for " + "2" + " hours\nAdditional hours: " + Rupee + "250" + "/hour"
    case Tour => "Base rate: " + Rupee + "1500" + " for " + "12" + " hours\nAdditional hours: " + Rupee + "200" + "/hour"
    case NightStay => "Night stay rate: " + (Rupee + "250" + "/hour")
    case Unknown => ""
  }

  /**
   The display text of an integer fare: the rupee sign, the fare's digits
   and two zero decimals, as in `₹1000.00`.
   */
  function RenderFare(fare: int): (text: string)
    ensures |text| > |Rupee| + 3 && text[..|Rupee|] == Rupee && text[|text| - 3..] == ".00"
    ensures JsNumber.ParseInt(text[|Rupee|..|text| - 3]) == Some(fare)
    ensures JsNumber.ParseFloat(text[|Rupee|..]) == Some(fare as real)
    ensures text[|Rupee|..|text| - 3] == (if fare < 0 then "-" else "") + JsNumber.NatToString(if fare < 0 then -fare else fare)
  {
    JsNumber.ToFixed2AfterPrefix(Rupee, fare);
    Rupee + JsNumber.ToFixed2(fare)
  }

  /**
   Between the rupee sign and the `.00` of a rendered fare stand a `-`
   exactly for a negative fare, then decimal digits without a leading zero.
   */
  lemma RenderedDigitsCanonical(fare: int)
    ensures var text := RenderFare(fare);
      var mid := text[|Rupee|..|text| - 3];
      var digits := if fare < 0 then mid[1..] else mid;
      && |mid| > 0 && (mid[0] == '-' <==> fare < 0)
      && |digits| > 0 && JsNumber.AllDigits(digits) && (|digits| == 1 || digits[0] != '0')
  {
  }

  /** `parseInt(value) || 0`: a missing or non-numeric hours field counts as 0 hours. */
  function HoursFromInput(input: string): (hours: int)
    ensures JsNumber.ParseInt(input).None? ==> hours == 0
    ensures JsNumber.ParseInt(input).Some? ==> hours == JsNumber.ParseInt(input).value
  {
    JsNumber.ParseInt(input).GetOr(0)
  }

  /** `parseFloat(value) || 0`. */
  function RealHoursFromInput(input: string): (hours: real)
    ensures JsNumber.ParseFloat(input).None? ==> hours == 0.0
    ensures JsNumber.ParseFloat(input).Some? ==> hours == JsNumber.ParseFloat(input).value
  {
    JsNumber.ParseFloat(input).GetOr(0.0)
  }

  /** What `updateFareEstimate` writes: the fare, its display text and the rate details. */
  datatype FareQuote = FareQuote(total: int, display: string, details: string)

  /**
   `updateFareEstimate` on the selector value and the hours field. The
   display text reads back as the total, and the details depend on the
   service type alone.
   */
  function UpdateFareEstimate(serviceTag: string, hoursInput: string): (q: FareQuote)
    ensures q.display == RenderFare(q.total)
    ensures |q.display| > |Rupee| && q.display[..|Rupee|] == Rupee
    ensures JsNumber.ParseFloat(q.display[|Rupee|..]) == Some(q.total as real)
    ensures q.details == RateDetails(ParseServiceType(serviceTag))
    ensures ParseServiceType(serviceTag) == Unknown ==> q.total == 0 && q.details == ""
    ensures JsNumber.ParseInt(hoursInput).None? ==> q.total == Fare(ParseServiceType(serviceTag), 0)
    ensures JsNumber.ParseInt(hoursInput).Some? ==>
      q.total == Fare(ParseServiceType(serviceTag), JsNumber.ParseInt(hoursInput).value)
  {
    var st := ParseServiceType(serviceTag);
    var total := Fare(st, HoursFromInput(hoursInput));
    FareQuote(total, RenderFare(total), RateDetails(st))
  }

  /** What `calculateFare` computes: the fare over `parseFloat` hours and the rate details. */
  datatype RealFareQuote = RealFareQuote(total: real, details: string)

  function CalculateFare(serviceTag: string, hoursInput: string): (q: RealFareQuote)
    ensures q.details == RateDetails(ParseServiceType(serviceTag))
    ensures ParseServiceType(serviceTag) == Unknown ==> q.total == 0.0 && q.details == ""
    ensures JsNumber.ParseFloat(hoursInput).None? ==> q.total == FareReal(ParseServiceType(serviceTag), 0.0)
    ensures JsNumber.ParseFloat(hoursInput).Some? ==>
      q.total == FareReal(ParseServiceType(serviceTag), JsNumber.ParseFloat(hoursInput).value)
  {
    var st := ParseServiceType(serviceTag);
    RealFareQuote(FareReal(st, RealHoursFromInput(hoursInput)), RateDetails(st))
  }

  /** A tiered rule charges its base fare up to the included hours, then the hourly overage. */
  lemma TieredFare(st: ServiceType, hours: int)
    requires RuleOf(st).Some? && RuleOf(st).value.Tiered?
    ensures var r := RuleOf(st).value;
      && (hours <= r.included ==> Fare(st, hours) == r.base)
      && (hours > r.included ==> Fare(st, hours) == r.base + (hours - r.included) * r.rate)
  {
  }

  /** Hourly and night-stay fares are the hours times the hourly rate, with no base. */
  lemma PerHourFare(hours: int)
    ensures Fare(Hourly, hours) == 200 * hours
    ensures Fare(NightStay, hours) == 250 * hours
  {
  }

  /** At the included hours the fare is exactly the base; one hour more adds exactly one overage rate. */
  lemma NoJumpAtBoundary(st: ServiceType)
    requires RuleOf(st).Some? && RuleOf(st).value.Tiered?
    ensures var r := RuleOf(st).value;
      && Fare(st, r.included) == r.base
      && Fare(st, r.included + 1) == r.base + r.rate
  {
  }

  /** A rule never charges less for more hours. */
  lemma ApplyMonotone(r: Rule, h1: int, h2: int)
    requires h1 <= h2
    ensures Apply(r, h1) <= Apply(r, h2)
  {
    match r
    case Tiered(included, base, rate) =>
      if h2 > included {
        var m1 := if h1 <= included then 0 else h1 - included;
        MulMonotone(m1, h2 - included, rate);
      }
    case PerHour(rate) =>
      MulMonotone(h1, h2, rate);
  }

  lemma MulMonotone(a: int, b: int, k: nat)
    requires a <= b
    ensures a * k <= b * k
  {
  }

  /** For every service type the fare is non-decreasing in the hours. */
  lemma FareMonotone(st: ServiceType, h1: int, h2: int)
    requires h1 <= h2
    ensures Fare(st, h1) <= Fare(st, h2)
  {
    if st != Unknown {
      ApplyMonotone(RuleOf(st).value, h1, h2);
    }
  }

  /** Non-negative hours give a non-negative fare. */
  lemma FareNonNegative(st: ServiceType, hours: int)
    requires hours >= 0
    ensures Fare(st, hours) >= 0
  {
    FareMonotone(st, 0, hours);
  }

  /** Fed the rendering of an integer, the hours field is read as that integer. */
  lemma QuoteOfIntegerHours(serviceTag: string, h: int)
    ensures UpdateFareEstimate(serviceTag, JsNumber.IntToString(h)).total == Fare(ParseServiceType(serviceTag), h)
  {
    JsNumber.ParseIntOfIntToString(h);
  }

  /** Negative hours are not clamped: they reach the hourly formula unchanged and give a negative fare. */
  lemma NegativeHoursNotClamped(h: int)
    requires h < 0
    ensures UpdateFareEstimate("hourly", JsNumber.IntToString(h)).total == 200 * h < 0
  {
    var text := JsNumber.IntToString(h);
    assert JsNumber.ParseInt(text) == Some(h) by {
      JsNumber.ParseIntOfIntToString(h);
    }
    assert ParseServiceType("hourly") == Hourly by {
      TagRoundTrip(Hourly, "");
    }
    assert Fare(Hourly, h) == 200 * h;
  }

  /** The same for a night stay. */
  lemma NegativeNightStayNotClamped(h: int)
    requires h < 0
    ensures UpdateFareEstimate("night_stay", JsNumber.IntToString(h)).total == 250 * h < 0
  {
    var text := JsNumber.IntToString(h);
    assert JsNumber.ParseInt(text) == Some(h) by {
      JsNumber.ParseIntOfIntToString(h);
    }
    assert ParseServiceType("night_stay") == NightStay by {
      TagRoundTrip(NightStay, "");
    }
    assert Fare(NightStay, h) == 250 * h;
  }

  /** A per-hour rule equals a tiered rule with no base and no included hours only for non-negative hours. */
  lemma PerHourAsTiered(rate: nat, hours: int)
    ensures hours >= 0 ==> Apply(PerHour(rate), hours) == Apply(Tiered(0, 0, rate), hours)
    ensures hours < 0 && rate > 0 ==> Apply(PerHour(rate), hours) < Apply(Tiered(0, 0, rate), hours)
  {
    if hours < 0 && rate > 0 {
      MulMonotone(hours, -1, rate);
    }
  }

  /** The decimal renderings of the schedule's figures. */
  lemma ScheduleFigures()
    ensures JsNumber.IntToString(2) == "2" && JsNumber.IntToString(5) == "5" && JsNumber.IntToString(8) == "8"
    ensures JsNumber.IntToString(12) == "12"
    ensures JsNumber.IntToString(200) == "200" && JsNumber.IntToString(250) == "250"
    ensures JsNumber.IntToString(750) == "750"
    ensures JsNumber.IntToString(1000) == "1000" && JsNumber.IntToString(1500) == "1500"
  {
    assert JsNumber.NatToString(1000) == "1000" by {
      assert JsNumber.NatToString(100) == "100" by {
        assert JsNumber.NatToString(10) == "10";
      }
    }
    assert JsNumber.NatToString(1500) == "1500" by {
      assert JsNumber.NatToString(150) == "150" by {
        assert JsNumber.NatToString(15) == "15";
      }
    }
    assert JsNumber.NatToString(750) == "750" by {
      assert JsNumber.NatToString(75) == "75";
    }
    assert JsNumber.NatToString(200) == "200" by {
      assert JsNumber.NatToString(20) == "20";
    }
    assert JsNumber.NatToString(250) == "250" by {
      assert JsNumber.NatToString(25) == "25";
    }
    assert JsNumber.NatToString(12) == "12";
  }

  /** The text a tiered rule's details line would spell out for its figures. */
  function TieredText(r: Rule): string
    requires r.Tiered?
  {
    "Base rate: " + Rupee + JsNumber.IntToString(r.base) + " for " + JsNumber.IntToString(r.included)
      + " hours\nAdditional hours: " + Rupee + JsNumber.IntToString(r.rate) + "/hour"
  }

  /** The text a per-hour rule's details line ends with. */
  function PerHourText(r: Rule): string
    requires r.PerHour?
  {
    Rupee + JsNumber.IntToString(r.rate) + "/hour"
  }

  /** The rate-details text quotes the same figures the fare switch charges. */
  lemma RateDetailsQuoteSchedule(st: ServiceType)
    ensures RuleOf(st).Some? && RuleOf(st).value.Tiered? ==> RateDetails(st) == TieredText(RuleOf(st).value)
    ensures RuleOf(st).Some? && RuleOf(st).value.PerHour? ==>
      var tail := PerHourText(RuleOf(st).value);
      |RateDetails(st)| >= |tail| && RateDetails(st)[|RateDetails(st)| - |tail|..] == tail
  {
    ScheduleFigures();
    match st {
      case Hourly => EndsWith("Standard hourly rate: ", PerHourText(RuleOf(st).value));
      case NightStay => EndsWith("Night stay rate: ", PerHourText(RuleOf(st).value));
      case _ =>
    }
  }

  /** A concatenation ends with its right operand. */
  lemma EndsWith(prefix: string, tail: string)
    ensures var text := prefix + tail; |text| >= |tail| && text[|text| - |tail|..] == tail
  {
  }

  /** The two copies of the fare switch agree on every integer number of hours. */
  lemma TwinsAgreeOnIntegerHours(st: ServiceType, hours: int)
    ensures FareReal(st, hours as real) == Fare(st, hours) as real
  {
  }

  /** Over real hours too, a rule never charges less for more time. */
  lemma ApplyRealMonotone(r: Rule, h1: real, h2: real)
    requires h1 <= h2
    ensures ApplyReal(r, h1) <= ApplyReal(r, h2)
  {
  }

  /** `calculateFare`'s total never decreases as the hours grow, fractional hours included. */
  lemma FareRealMonotone(st: ServiceType, h1: real, h2: real)
    requires h1 <= h2
    ensures FareReal(st, h1) <= FareReal(st, h2)
  {
  }

  /** Fed the same integer hours field, `calculateFare` and `updateFareEstimate` show the same fare and text. */
  lemma TwinsAgreeOnIntegerInput(serviceTag: string, hours: int)
    ensures var q := UpdateFareEstimate(serviceTag, JsNumber.IntToString(hours));
      var p := CalculateFare(serviceTag, JsNumber.IntToString(hours));
      p.total == q.total as real && p.details == q.details
  {
    var text := JsNumber.IntToString(hours);
    assert JsNumber.ParseInt(text) == Some(hours) by {
      JsNumber.ParseIntOfIntToString(hours);
    }
    assert JsNumber.ParseFloat(text) == Some(hours as real) by {
      JsNumber.ParseFloatOfIntToString(hours);
    }
    TwinsAgreeOnIntegerHours(ParseServiceType(serviceTag), hours);
  }

  /** On a fractional hours field the twins differ: `parseInt` drops the fraction, `parseFloat` keeps it. */
  lemma TwinsDisagreeOnFractionalInput()
    ensures UpdateFareEstimate("morning", "8.5").total == 1000
    ensures CalculateFare("morning", "8.5").total == 1100.0
  {
    var s := "8.5";
    assert JsNumber.SkipWhitespace(s, 0) == 0;
    assert JsNumber.SignEnd(s, 0) == 0;
    assert JsNumber.DigitsEnd(s, 1) == 1;
    assert JsNumber.DigitsEnd(s, 0) == 1;
    assert JsNumber.DigitsEnd(s, 3) == 3;
    assert JsNumber.DigitsEnd(s, 2) == 3;
    assert JsNumber.DigitsValue(s, 0, 1) == 8;
    assert JsNumber.DigitsValue(s, 2, 3) == 5;
    assert JsNumber.ParseInt(s) == Some(8);
    assert JsNumber.ParseFloat(s) == Some(8.5);
  }

  /**
   On an hours field in exponent form the twins differ too: `parseInt("1e1")`
   stops at the `e` and reads 1, `parseFloat` reads 10.
   */
  lemma TwinsDisagreeOnExponentInput()
    ensures UpdateFareEstimate("morning", "1e1").total == 1000
    ensures CalculateFare("morning", "1e1").total == 1400.0
  {
    var s := "1e1";
    assert JsNumber.IntToString(1) + JsNumber.ExponentPart(false, 1) == s;
    JsNumber.ParseFloatOfExponent(1, false, 1);
    assert JsNumber.ParseFloat(s) == Some(10.0);
    assert JsNumber.SkipWhitespace(s, 0) == 0;
    assert JsNumber.SignEnd(s, 0) == 0;
    assert JsNumber.DigitsEnd(s, 1) == 1;
    assert JsNumber.DigitsEnd(s, 0) == 1;
    assert JsNumber.DigitsValue(s, 0, 1) == 1;
    assert JsNumber.ParseInt(s) == Some(1);
  }
}
