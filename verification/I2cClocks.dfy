/** The divider arithmetic of the I2C controller (clocks.c): from an input clock
    and a bus speed, the low and high dividers and the data, START and STOP
    setup fields, against the limits of NXP UM10204, section 6.1.

    With l and h the dividers, s, u and p the fields plus one and T a period of
    the input clock, the hardware keeps SCL low for 8 l T and high for 8 h T,
    holds data (l s + 1) T, sets data up ((8 - s) l + 1) T before the clock, and
    sets START and STOP up (8 h u + 1) T and (8 h p + 1) T. */
module I2cClocks {
  import opened Arith
  import opened Words

  const MILLION := 1_000_000
  const I2C_MAX_STANDARD_MODE_FREQ := 100_000
  const I2C_MAX_FAST_MODE_FREQ := 400_000
  const I2C_MAX_FAST_MODE_PLUS_FREQ := 1_000_000

  // struct i2c_spec_values, as far as it is used.
  datatype Spec = Spec(
    minLowNs: nat,
    minHighNs: nat,
    minSetupStartNs: nat,
    maxDataHoldNs: nat,
    minDataSetupNs: nat,
    minSetupStopNs: nat)

  // rk3x_i2c_get_spec.
  function GetSpec(speed: nat): Spec {
    if speed <= I2C_MAX_STANDARD_MODE_FREQ then Spec(4700, 4000, 4700, 3450, 250, 4000)
    else if speed <= I2C_MAX_FAST_MODE_FREQ then Spec(1300, 600, 600, 900, 100, 600)
    else Spec(500, 260, 260, 400, 50, 260)
  }

  function DivRoundUp(n: nat, d: nat): (q: nat)
    requires d >= 1
  {
    (n + d - 1) / d
  }

  lemma RoundedUp(n: nat, d: nat)
    requires d >= 1
    ensures n <= DivRoundUp(n, d) * d < n + d
  {
    assert n + d - 1 == (n + d - 1) / d * d + (n + d - 1) % d;
  }

  // The quotient is the least that is enough.
  lemma RoundedUpLeast(n: nat, d: nat, q: nat)
    requires d >= 1 && n <= q * d
    ensures DivRoundUp(n, d) <= q
  {
    var r := DivRoundUp(n, d);
    RoundedUp(n, d);
    if r > q {
      MulSum(r - q, q, d);
      MulAtLeast(r - q, d);
    }
  }

  // ------------------------------------------------------------- the dividers

  function Clamped(busFreqHz: nat): nat {
    if busFreqHz > I2C_MAX_FAST_MODE_PLUS_FREQ then I2C_MAX_FAST_MODE_PLUS_FREQ
    else if busFreqHz < 1000 then 1000 else busFreqHz
  }

  function MinDiv(khz: nat, ns: nat): (d: nat)
    ensures d >= 1
  {
    var d := DivRoundUp(khz * ns, 8 * MILLION);
    if d < 1 then 2 else d
  }

  datatype Divs = Divs(low: nat, high: nat)

  // Shared out by the scale of the least dividers when there is time to spare.
  function Share(total: nat, minLow: nat, minHigh: nat): Divs
    requires minLow >= 1 && minHigh >= 1
  {
    if minLow + minHigh >= total then Divs(minLow, minHigh)
    else
      var extra := total - (minLow + minHigh);
      var extraLow := DivRoundUp(minLow * extra, minLow + minHigh);
      ExtraLowFits(minLow, minHigh, extra);
      Divs(minLow + extraLow, minHigh + (extra - extraLow))
  }

  lemma ExtraLowFits(minLow: nat, minHigh: nat, extra: nat)
    requires minLow >= 1
    ensures DivRoundUp(minLow * extra, minLow + minHigh) <= extra
  {
    MulSum(minLow, minHigh, extra);
    RoundedUpLeast(minLow * extra, minLow + minHigh, extra);
  }

  /** No time is lost in sharing out, and neither half gets less than it needs. */
  lemma ShareExact(total: nat, minLow: nat, minHigh: nat)
    requires minLow >= 1 && minHigh >= 1
    ensures var d := Share(total, minLow, minHigh);
      && d.low + d.high == Max(total, minLow + minHigh)
      && d.low >= minLow && d.high >= minHigh
  {
    hide DivRoundUp;
    if minLow + minHigh < total { ExtraLowFits(minLow, minHigh, total - (minLow + minHigh)); }
  }

  // A time of `periods` input clocks is at least ns.
  predicate AtLeastNs(clkRate: nat, periods: nat, ns: nat) { periods * 1_000_000_000 >= clkRate * ns }

  lemma KhzCovers(clkRate: nat, khz: nat, periods: nat, ns: nat)
    requires khz * 1000 >= clkRate && periods * MILLION >= khz * ns
    ensures AtLeastNs(clkRate, periods, ns)
  {
    ScaleUp(clkRate, khz * 1000, ns);
    assert khz * 1000 * ns == 1000 * (khz * ns);
  }

  lemma MinDivEnough(khz: nat, ns: nat, div: nat)
    requires div >= MinDiv(khz, ns)
    ensures 8 * div * MILLION >= khz * ns && div >= 1
  {
    RoundedUp(khz * ns, 8 * MILLION);
  }

  // All of calc_timings before the data fields.
  function ClkKhz(clkRate: nat): nat { DivRoundUp(clkRate, 1000) }
  function MinTotal(khz: nat, sclKhz: nat): nat
    requires sclKhz >= 1
  {
    DivRoundUp(khz, sclKhz * 8)
  }

  /** SCL is low and high at least as long as the specification asks for plus
      the fall and the rise time, and its rate is not above the one asked for. */
  lemma DividersMeetSpec(clkRate: nat, busFreqHz: nat, lowNs: nat, highNs: nat)
    requires 1000 <= busFreqHz
    ensures var khz := ClkKhz(clkRate);
      var d := Share(MinTotal(khz, busFreqHz / 1000), MinDiv(khz, lowNs), MinDiv(khz, highNs));
      && AtLeastNs(clkRate, 8 * d.low, lowNs)
      && AtLeastNs(clkRate, 8 * d.high, highNs)
      && busFreqHz * (8 * (d.low + d.high)) >= clkRate
  {
    hide MinDiv, Share, AtLeastNs, MinTotal, ClkKhz;
    var khz, scl := ClkKhz(clkRate), busFreqHz / 1000;
    var total, lo, hi := MinTotal(khz, scl), MinDiv(khz, lowNs), MinDiv(khz, highNs);
    var d := Share(total, lo, hi);
    MinDivEnough(khz, lowNs, lo);
    MinDivEnough(khz, highNs, hi);
    ShareExact(total, lo, hi);
    KhzIsEnough(clkRate);
    MinDivEnough(khz, lowNs, d.low);
    MinDivEnough(khz, highNs, d.high);
    KhzCovers(clkRate, khz, 8 * d.low, lowNs);
    KhzCovers(clkRate, khz, 8 * d.high, highNs);
    RateReached(clkRate, khz, busFreqHz, total, d.low + d.high);
  }

  lemma KhzIsEnough(clkRate: nat)
    ensures ClkKhz(clkRate) * 1000 >= clkRate
  {
    RoundedUp(clkRate, 1000);
  }

  lemma RateReached(clkRate: nat, khz: nat, busFreqHz: nat, total: nat, sum: nat)
    requires busFreqHz >= 1000 && khz * 1000 >= clkRate
    requires total == MinTotal(khz, busFreqHz / 1000) && sum >= total
    ensures busFreqHz * (8 * sum) >= clkRate
  {
    var scl := busFreqHz / 1000;
    RoundedUp(khz, scl * 8);
    ScaleUp(total, sum, scl * 8);
    assert sum * (scl * 8) == scl * (8 * sum);
    ScaleUp(1000 * scl, busFreqHz, 8 * sum);
    assert 1000 * scl * (8 * sum) == 1000 * (scl * (8 * sum));
  }

  // --------------------------------------------------------- the data fields

  predicate HoldMet(s: nat, low: nat, khz: nat, spec: Spec)
    requires khz >= 1
  {
    DivRoundUp((s * low + 1) * MILLION, khz) < spec.maxDataHoldNs
  }

  predicate SetupMet(s: nat, low: nat, khz: nat, spec: Spec)
    requires khz >= 1 && s <= 8
  {
    DivRoundUp(((8 - s) * low + 1) * MILLION, khz) > spec.minDataSetupNs
  }

  // The countdown from s: the first that meets both, or 0.
  function SdaUpdate(s: nat, low: nat, khz: nat, spec: Spec): (r: nat)
    requires khz >= 1 && s <= 3
    ensures r <= s
  {
    if s == 0 || (HoldMet(s, low, khz, spec) && SetupMet(s, low, khz, spec)) then s
    else SdaUpdate(s - 1, low, khz, spec)
  }

  // With a low period as long as the specification asks for, data is always
  // set up early enough.
  lemma SetupAlwaysMet(s: nat, low: nat, khz: nat, speed: nat, fallNs: nat)
    requires khz >= 1 && s <= 3 && low >= MinDiv(khz, fallNs + GetSpec(speed).minLowNs)
    ensures SetupMet(s, low, khz, GetSpec(speed))
  {
    var spec := GetSpec(speed);
    MinDivEnough(khz, fallNs + spec.minLowNs, low);
    ScaleUp(spec.minLowNs, fallNs + spec.minLowNs, khz);
    assert 8 * low * MILLION >= khz * spec.minLowNs;
    ScaleUp(5, 8 - s, low);
    var q := DivRoundUp(((8 - s) * low + 1) * MILLION, khz);
    RoundedUp(((8 - s) * low + 1) * MILLION, khz);
    assert q * khz >= 5 * low * MILLION + MILLION;
    LowIsLong(q, khz, low, spec.minLowNs, spec.minDataSetupNs);
  }

  lemma LowIsLong(q: nat, khz: nat, low: nat, minLowNs: nat, minDataSetupNs: nat)
    requires khz >= 1 && q * khz >= 5 * low * MILLION + MILLION && 8 * low * MILLION >= khz * minLowNs
    requires 8 * minDataSetupNs <= 5 * minLowNs
    ensures q > minDataSetupNs
  {
    ScaleUp(8 * minDataSetupNs, 5 * minLowNs, khz);
    assert 8 * minDataSetupNs * khz == 8 * (minDataSetupNs * khz) && 5 * minLowNs * khz == 5 * (khz * minLowNs);
    MoreTimes(q, minDataSetupNs, khz);
  }

  lemma MoreTimes(a: nat, b: nat, k: nat)
    requires a * k > b * k
    ensures a > b
  {
    if a <= b { ScaleUp(a, b, k); }
  }

  lemma HoldLonger(r: nat, s: nat, low: nat, khz: nat, spec: Spec)
    requires khz >= 1 && r <= s && HoldMet(s, low, khz, spec)
    ensures HoldMet(r, low, khz, spec)
  {
    ScaleUp(r, s, low);
    var n := (s * low + 1) * MILLION;
    RoundedUp(n, khz);
    RoundedUpLeast((r * low + 1) * MILLION, khz, DivRoundUp(n, khz));
  }

  /** The countdown ends at the largest of 3, 2 and 1 that holds data no longer
      than allowed, and at 0 if and only if already 1 holds it too long. */
  lemma SdaUpdateIs(low: nat, khz: nat, speed: nat, fallNs: nat)
    requires khz >= 1 && low >= MinDiv(khz, fallNs + GetSpec(speed).minLowNs)
    ensures var spec := GetSpec(speed);
      var s := SdaUpdate(3, low, khz, spec);
      && (s == 0 <==> !HoldMet(1, low, khz, spec))
      && (s > 0 ==> HoldMet(s, low, khz, spec) && SetupMet(s, low, khz, spec))
      && (forall r: nat | s < r <= 3 :: !HoldMet(r, low, khz, spec))
  {
    hide HoldMet, SetupMet, MinDiv;
    var spec := GetSpec(speed);
    SetupAlwaysMet(1, low, khz, speed, fallNs);
    SetupAlwaysMet(2, low, khz, speed, fallNs);
    SetupAlwaysMet(3, low, khz, speed, fallNs);
    if HoldMet(3, low, khz, spec) { HoldLonger(1, 3, low, khz, spec); }
    if HoldMet(2, low, khz, spec) { HoldLonger(1, 2, low, khz, spec); }
    assert SdaUpdate(3, low, khz, spec) == if HoldMet(3, low, khz, spec) then 3 else SdaUpdate(2, low, khz, spec);
    assert SdaUpdate(2, low, khz, spec) == if HoldMet(2, low, khz, spec) then 2 else SdaUpdate(1, low, khz, spec);
    assert SdaUpdate(1, low, khz, spec) == if HoldMet(1, low, khz, spec) then 1 else 0;
  }

  // ------------------------------------------------------ START and STOP setup

  function SetupCfg(khz: nat, ns: nat, high: nat): nat
    requires high >= 1 && khz * ns >= MILLION
  {
    DivRoundUp(khz * ns - MILLION, 8 * MILLION * high)
  }

  /** The setup time is met, and the field, one less, fits two bits. */
  lemma SetupCfgFits(clkRate: nat, khz: nat, ns: nat, highNs: nat, high: nat, most: nat)
    requires khz * 1000 >= clkRate && khz * ns > MILLION
    requires high >= MinDiv(khz, highNs) && ns <= most * highNs
    ensures high >= 1 && 1 <= SetupCfg(khz, ns, high) <= most
    ensures AtLeastNs(clkRate, 8 * high * SetupCfg(khz, ns, high) + 1, ns)
  {
    MinDivEnough(khz, highNs, high);
    var n, d := khz * ns - MILLION, 8 * MILLION * high;
    var u := SetupCfg(khz, ns, high);
    RoundedUp(n, d);
    assert u != 0;
    ScaleUp(ns, most * highNs, khz);
    ScaleUp(khz * highNs, d, most);
    assert khz * highNs * most == most * highNs * khz;
    RoundedUpLeast(n, d, most);
    assert u * d == 8 * high * u * MILLION;
    KhzCovers(clkRate, khz, 8 * high * u + 1, ns);
  }

  // -------------------------------------------------------------- the registers

  // The tuning word, in 32 bits: data, START and STOP setup fields at 8, 12 and
  // 14, each decremented first.  A data field of 0 wraps to all ones, and
  // covers the other two.
  function Tuning(s: nat, u: nat, p: nat): word
    requires s <= 3 && 1 <= u <= 4 && 1 <= p <= 4
  {
    if s == 0 then 0xffff_ff00 else 0x100 * (s - 1) + 0x1000 * (u - 1) + 0x4000 * (p - 1)
  }

  // REG_CON_TUNING_MASK is 15:8.
  lemma TuningReads(s: nat, u: nat, p: nat)
    requires s <= 3 && 1 <= u <= 4 && 1 <= p <= 4
    ensures var t := Tuning(s, u, p);
      && t % 0x100 == 0
      && (t < 0x1_0000 <==> s > 0) && (t >= 0x1_0000 ==> t == 0xffff_ff00)
      && (s > 0 ==> t / 0x100 % 16 + 1 == s && t / 0x1000 % 4 + 1 == u && t / 0x4000 % 4 + 1 == p)
  {
    if s > 0 {
      var t := Tuning(s, u, p);
      assert t / 0x4000 == p - 1;
      assert t / 0x1000 == 4 * (p - 1) + (u - 1);
      assert t / 0x100 == 16 * (4 * (p - 1) + (u - 1)) + (s - 1);
    }
  }

  // ------------------------------------------------------------- no wrap-around

  // What the 32-bit arithmetic needs while counting down from s.
  predicate SdaNoWrap(s: nat, low: nat, khz: nat, spec: Spec)
    requires khz >= 1 && s <= 3
  {
    s == 0
    || (((8 - s) * low + 1) * MILLION + khz - 1 < WORD
        && ((HoldMet(s, low, khz, spec) && SetupMet(s, low, khz, spec)) || SdaNoWrap(s - 1, low, khz, spec)))
  }

  predicate SetupNoWrap(khz: nat, ns: nat, high: nat) {
    khz * ns > MILLION && khz * ns - MILLION + 8 * MILLION * high - 1 < WORD
  }

  predicate ShareNoWrap(total: nat, minLow: nat, minHigh: nat) {
    minLow + minHigh >= total || minLow * (total - (minLow + minHigh)) + minLow + minHigh - 1 < WORD
  }

  /** No product or sum of calc_timings wraps, and no setup count is 0. */
  predicate NoWrap(clkRate: nat, busFreqHz: nat, riseNs: nat, fallNs: nat) {
    var spec := GetSpec(busFreqHz);
    var khz := ClkKhz(clkRate);
    && 1000 <= busFreqHz <= I2C_MAX_FAST_MODE_PLUS_FREQ
    && khz >= 1 && clkRate + 999 < WORD
    && var lowNs, highNs := fallNs + spec.minLowNs, riseNs + spec.minHighNs;
      var total, lo, hi := MinTotal(khz, busFreqHz / 1000), MinDiv(khz, lowNs), MinDiv(khz, highNs);
    && khz * lowNs + 8 * MILLION - 1 < WORD && khz * highNs + 8 * MILLION - 1 < WORD
    && ShareNoWrap(total, lo, hi)
    && var d := Share(total, lo, hi);
    && SdaNoWrap(3, d.low, khz, spec)
    && SetupNoWrap(khz, riseNs + spec.minSetupStartNs, d.high)
    && SetupNoWrap(khz, riseNs + spec.minSetupStopNs, d.high)
  }

  // ----------------------------------------------------------------- the methods

  datatype Status = Success | InvalidParameter

  // struct i2c_timings, as far as it is used.
  class Timings {
    var busFreqHz: word
    var sclRiseNs: word
    var sclFallNs: word

    // updateClockSettings.
    method UpdateClockSettings()
      modifies `sclRiseNs, `sclFallNs
      ensures sclRiseNs == RiseFor(busFreqHz) && sclFallNs == FallFor(busFreqHz)
    {
      var defaultVal := if busFreqHz <= I2C_MAX_STANDARD_MODE_FREQ then 1000
                        else if busFreqHz <= I2C_MAX_FAST_MODE_FREQ then 300 else 120;
      sclRiseNs := defaultVal;
      defaultVal := if busFreqHz <= I2C_MAX_FAST_MODE_FREQ then 300 else 120;
      sclFallNs := defaultVal;
    }
  }

  function RiseFor(busFreqHz: nat): word {
    if busFreqHz <= I2C_MAX_STANDARD_MODE_FREQ then 1000 else if busFreqHz <= I2C_MAX_FAST_MODE_FREQ then 300 else 120
  }

  function FallFor(busFreqHz: nat): word {
    if busFreqHz <= I2C_MAX_FAST_MODE_FREQ then 300 else 120
  }

  // What the registers must come to: the dividers meet the specification and
  // do not exceed the speed, and the setup times are met.
  predicate BusTimed(clkRate: nat, busFreqHz: nat, riseNs: nat, fallNs: nat, l: nat, h: nat, u: nat, p: nat) {
    var spec := GetSpec(busFreqHz);
    && AtLeastNs(clkRate, 8 * l, fallNs + spec.minLowNs)
    && AtLeastNs(clkRate, 8 * h, riseNs + spec.minHighNs)
    && busFreqHz * (8 * (l + h)) >= clkRate
    && AtLeastNs(clkRate, 8 * h * u + 1, riseNs + spec.minSetupStartNs)
    && AtLeastNs(clkRate, 8 * h * p + 1, riseNs + spec.minSetupStopNs)
  }

  // The rise and fall times that UM10204, section 6.1, allows in the mode a
  // speed belongs to.
  predicate EdgesOfTheMode(speed: nat, riseNs: nat, fallNs: nat) {
    if speed <= I2C_MAX_STANDARD_MODE_FREQ then riseNs <= 1000 && fallNs <= 300
    else if speed <= I2C_MAX_FAST_MODE_FREQ then riseNs <= 300 && fallNs <= 300
    else riseNs <= 120 && fallNs <= 120
  }

  // The least low and high periods and START and STOP setup times of UM10204,
  // section 6.1, for each mode.
  predicate TimedByTheBook(clkRate: nat, speed: nat, riseNs: nat, fallNs: nat, l: nat, h: nat, u: nat, p: nat) {
    && speed * (8 * (l + h)) >= clkRate
    && if speed <= 100_000 then
         && AtLeastNs(clkRate, 8 * l, fallNs + 4700) && AtLeastNs(clkRate, 8 * h, riseNs + 4000)
         && AtLeastNs(clkRate, 8 * h * u + 1, riseNs + 4700) && AtLeastNs(clkRate, 8 * h * p + 1, riseNs + 4000)
       else if speed <= 400_000 then
         && AtLeastNs(clkRate, 8 * l, fallNs + 1300) && AtLeastNs(clkRate, 8 * h, riseNs + 600)
         && AtLeastNs(clkRate, 8 * h * u + 1, riseNs + 600) && AtLeastNs(clkRate, 8 * h * p + 1, riseNs + 600)
       else
         && AtLeastNs(clkRate, 8 * l, fallNs + 500) && AtLeastNs(clkRate, 8 * h, riseNs + 260)
         && AtLeastNs(clkRate, 8 * h * u + 1, riseNs + 260) && AtLeastNs(clkRate, 8 * h * p + 1, riseNs + 260)
  }

  // Data changes late enough and early enough: with l the low divider and s the
  // field, (s l + 1) T and ((8 - s) l + 1) T against the mode's two limits.
  predicate DataByTheBook(khz: nat, speed: nat, l: nat, s: nat)
    requires khz >= 1 && s <= 8
  {
    var hold, setup := DivRoundUp((s * l + 1) * 1_000_000, khz), DivRoundUp(((8 - s) * l + 1) * 1_000_000, khz);
    if speed <= 100_000 then hold < 3450 && setup > 250
    else if speed <= 400_000 then hold < 900 && setup > 100
    else hold < 400 && setup > 50
  }

  lemma BookIsSpec(clkRate: nat, speed: nat, riseNs: nat, fallNs: nat, l: nat, h: nat, u: nat, p: nat, khz: nat, s: nat)
    requires khz >= 1 && s <= 8
    ensures BusTimed(clkRate, speed, riseNs, fallNs, l, h, u, p) <==> TimedByTheBook(clkRate, speed, riseNs, fallNs, l, h, u, p)
    ensures HoldMet(s, l, khz, GetSpec(speed)) && SetupMet(s, l, khz, GetSpec(speed)) <==> DataByTheBook(khz, speed, l, s)
  {
    hide AtLeastNs, DivRoundUp;
  }

  lemma ShorterIsTimed(clkRate: nat, periods: nat, ns: nat, less: nat)
    requires AtLeastNs(clkRate, periods, ns) && less <= ns
    ensures AtLeastNs(clkRate, periods, less)
  {
    ScaleUp(less, ns, clkRate);
  }

  /** What is timed for the driver's rise and fall times is timed for every bus
      of the mode, however quick or slow its edges are. */
  lemma AnyBusOfTheModeIsTimed(
      clkRate: nat, speed: nat, riseNs: nat, fallNs: nat, l: nat, h: nat, u: nat, p: nat)
    requires BusTimed(clkRate, Clamped(speed), RiseFor(speed), FallFor(speed), l, h, u, p)
    requires EdgesOfTheMode(Clamped(speed), riseNs, fallNs)
    ensures BusTimed(clkRate, Clamped(speed), riseNs, fallNs, l, h, u, p)
  {
    hide AtLeastNs;
    var spec := GetSpec(Clamped(speed));
    var rise, fall := RiseFor(speed), FallFor(speed);
    ShorterIsTimed(clkRate, 8 * l, fall + spec.minLowNs, fallNs + spec.minLowNs);
    ShorterIsTimed(clkRate, 8 * h, rise + spec.minHighNs, riseNs + spec.minHighNs);
    ShorterIsTimed(clkRate, 8 * h * u + 1, rise + spec.minSetupStartNs, riseNs + spec.minSetupStartNs);
    ShorterIsTimed(clkRate, 8 * h * p + 1, rise + spec.minSetupStopNs, riseNs + spec.minSetupStopNs);
  }

  // The dividers calc_timings comes to.
  function DivsFor(clkRate: nat, busFreqHz: nat, riseNs: nat, fallNs: nat): (d: Divs)
    requires busFreqHz >= 1000
  {
    var spec := GetSpec(busFreqHz);
    var khz := ClkKhz(clkRate);
    Share(MinTotal(khz, busFreqHz / 1000), MinDiv(khz, fallNs + spec.minLowNs), MinDiv(khz, riseNs + spec.minHighNs))
  }

  lemma BusIsTimed(clkRate: nat, busFreqHz: nat, riseNs: nat, fallNs: nat)
    requires NoWrap(clkRate, busFreqHz, riseNs, fallNs)
    ensures var spec := GetSpec(busFreqHz);
      var khz := ClkKhz(clkRate);
      var d := DivsFor(clkRate, busFreqHz, riseNs, fallNs);
      && d.low >= MinDiv(khz, fallNs + spec.minLowNs) >= 1 && d.high >= 1
      && var u, p := SetupCfg(khz, riseNs + spec.minSetupStartNs, d.high), SetupCfg(khz, riseNs + spec.minSetupStopNs, d.high);
      && 1 <= u <= 2 && p == 1
      && BusTimed(clkRate, busFreqHz, riseNs, fallNs, d.low, d.high, u, p)
  {
    hide MinDiv, Share, AtLeastNs, MinTotal, ClkKhz, SetupCfg, SdaNoWrap, ShareNoWrap;
    var spec := GetSpec(busFreqHz);
    var khz := ClkKhz(clkRate);
    var lowNs, highNs := fallNs + spec.minLowNs, riseNs + spec.minHighNs;
    var total, lo, hi := MinTotal(khz, busFreqHz / 1000), MinDiv(khz, lowNs), MinDiv(khz, highNs);
    var d := Share(total, lo, hi);
    KhzIsEnough(clkRate);
    ShareExact(total, lo, hi);
    DividersMeetSpec(clkRate, busFreqHz, lowNs, highNs);
    SetupCfgFits(clkRate, khz, riseNs + spec.minSetupStartNs, highNs, d.high, 2);
    SetupCfgFits(clkRate, khz, riseNs + spec.minSetupStopNs, highNs, d.high, 1);
  }

  // struct rk3x_i2c_calced_timings.
  class CalcedTimings {
    var divLow: word
    var divHigh: word
    var tuning: word
  }

  // The countdown over sda_update_cfg.
  method CountDown(low: nat, khz: nat, spec: Spec) returns (sdaUpdateCfg: nat)
    requires khz >= 1 && SdaNoWrap(3, low, khz, spec)
    ensures sdaUpdateCfg == SdaUpdate(3, low, khz, spec)
  {
    hide HoldMet, SetupMet, DivRoundUp;
    sdaUpdateCfg := 3;
    while sdaUpdateCfg > 0
      invariant sdaUpdateCfg <= 3 && SdaNoWrap(sdaUpdateCfg, low, khz, spec)
      invariant SdaUpdate(sdaUpdateCfg, low, khz, spec) == SdaUpdate(3, low, khz, spec)
    {
      HoldMetIs(sdaUpdateCfg, low, khz, spec);
      var maxHoldDataNs := DivRoundUp((sdaUpdateCfg * low + 1) * MILLION, khz);
      var minSetupDataNs := DivRoundUp(((8 - sdaUpdateCfg) * low + 1) * MILLION, khz);
      if maxHoldDataNs < spec.maxDataHoldNs && minSetupDataNs > spec.minDataSetupNs {
        break;
      }
      sdaUpdateCfg := sdaUpdateCfg - 1;
    }
  }

  lemma HoldMetIs(s: nat, low: nat, khz: nat, spec: Spec)
    requires khz >= 1 && s <= 8
    ensures HoldMet(s, low, khz, spec) <==> DivRoundUp((s * low + 1) * MILLION, khz) < spec.maxDataHoldNs
    ensures SetupMet(s, low, khz, spec) <==> DivRoundUp(((8 - s) * low + 1) * MILLION, khz) > spec.minDataSetupNs
  {}

  // The dividers without wrap-around fit their 16 bits.
  lemma DividersFit(clkRate: nat, busFreqHz: nat, riseNs: nat, fallNs: nat)
    requires NoWrap(clkRate, busFreqHz, riseNs, fallNs)
    ensures var d := DivsFor(clkRate, busFreqHz, riseNs, fallNs);
      d.low <= 0x1_0000 && d.high <= 0x1_0000
  {
    hide HoldMet, SetupMet, MinDiv, Share, MinTotal, ClkKhz;
    var d := DivsFor(clkRate, busFreqHz, riseNs, fallNs);
    ScaleUp(1, 8 - 3, d.low);
  }

  /** The registers come out as dividers, START and STOP setup that meet the
      specification at no more than the speed asked for.  The data field is the
      largest that holds data short enough; the tuning word stays in its eight
      bits if and only if the least already does. */
  method CalcTimings(clkRate: word, t: Timings, tCalc: CalcedTimings) returns (status: Status)
    requires NoWrap(clkRate, Clamped(t.busFreqHz), t.sclRiseNs, t.sclFallNs)
    modifies t`busFreqHz, tCalc
    ensures status == Success && t.busFreqHz == Clamped(old(t.busFreqHz))
    ensures var spec := GetSpec(t.busFreqHz);
      var khz := ClkKhz(clkRate);
      var l, h := tCalc.divLow + 1, tCalc.divHigh + 1;
      && khz >= 1 && l <= 0x1_0000 && h <= 0x1_0000
      && Divs(l, h) == DivsFor(clkRate, t.busFreqHz, t.sclRiseNs, t.sclFallNs)
      && tCalc.tuning % 0x100 == 0 && (tCalc.tuning >= 0x1_0000 ==> tCalc.tuning == 0xffff_ff00)
      && (tCalc.tuning < 0x1_0000 <==> HoldMet(1, l, khz, spec))
      && (tCalc.tuning < 0x1_0000 ==>
          var s, u, p := tCalc.tuning / 0x100 % 16 + 1, tCalc.tuning / 0x1000 % 4 + 1, tCalc.tuning / 0x4000 % 4 + 1;
          && s <= 3 && HoldMet(s, l, khz, spec) && SetupMet(s, l, khz, spec)
          && (forall r: nat | s < r <= 3 :: !HoldMet(r, l, khz, spec))
          && BusTimed(clkRate, t.busFreqHz, t.sclRiseNs, t.sclFallNs, l, h, u, p))
  {
    hide HoldMet, SetupMet, MinDiv, Share, MinTotal, BusTimed, DivRoundUp, SdaUpdate, Tuning, SdaNoWrap;
    status := Success;
    if t.busFreqHz > I2C_MAX_FAST_MODE_PLUS_FREQ {
      t.busFreqHz := I2C_MAX_FAST_MODE_PLUS_FREQ;
    }
    if t.busFreqHz < 1000 {
      t.busFreqHz := 1000;
    }
    var spec := GetSpec(t.busFreqHz);
    BusIsTimed(clkRate, t.busFreqHz, t.sclRiseNs, t.sclFallNs);
    DividersFit(clkRate, t.busFreqHz, t.sclRiseNs, t.sclFallNs);

    var clkRateKhz := DivRoundUp(clkRate, 1000);
    var sclRateKhz := t.busFreqHz / 1000;
    var minTotalDiv := MinTotal(clkRateKhz, sclRateKhz);
    var minHighNs := t.sclRiseNs + spec.minHighNs;
    var minHighDiv := MinDiv(clkRateKhz, minHighNs);
    var minLowNs := t.sclFallNs + spec.minLowNs;
    var minLowDiv := MinDiv(clkRateKhz, minLowNs);
    var divLow, divHigh := Distribute(minTotalDiv, minLowDiv, minHighDiv);

    var sdaUpdateCfg := CountDown(divLow, clkRateKhz, spec);
    SdaUpdateIs(divLow, clkRateKhz, t.busFreqHz, t.sclFallNs);
    var stpStaCfg := SetupCfg(clkRateKhz, t.sclRiseNs + spec.minSetupStartNs, divHigh);
    var stpStoCfg := SetupCfg(clkRateKhz, t.sclRiseNs + spec.minSetupStopNs, divHigh);
    TuningReads(sdaUpdateCfg, stpStaCfg, stpStoCfg);
    tCalc.tuning := Tuning(sdaUpdateCfg, stpStaCfg, stpStoCfg);
    var low, status' := Limited(divLow - 1, status);
    tCalc.divLow := low;
    var high, status'' := Limited(divHigh - 1, status');
    tCalc.divHigh := high;
    status := status'';
  }

  // A divider has sixteen bits.
  method Limited(div: nat, status: Status) returns (div': word, status': Status)
    ensures if div > 0xffff then div' == 0xffff && status' == InvalidParameter else div' == div && status' == status
  {
    if div > 0xffff {
      return 0xffff, InvalidParameter;
    }
    return div, status;
  }

  // The two ways of choosing div_low and div_high.
  method Distribute(minTotalDiv: nat, minLowDiv: nat, minHighDiv: nat) returns (divLow: nat, divHigh: nat)
    requires minLowDiv >= 1 && minHighDiv >= 1 && ShareNoWrap(minTotalDiv, minLowDiv, minHighDiv)
    ensures Divs(divLow, divHigh) == Share(minTotalDiv, minLowDiv, minHighDiv)
  {
    hide DivRoundUp;
    var minDivForHold := minLowDiv + minHighDiv;
    if minDivForHold >= minTotalDiv {
      divLow := minLowDiv;
      divHigh := minHighDiv;
    } else {
      var extraDiv := minTotalDiv - minDivForHold;
      var extraLowDiv := DivRoundUp(minLowDiv * extraDiv, minDivForHold);
      ExtraLowFits(minLowDiv, minHighDiv, extraDiv);
      divLow := minLowDiv + extraLowDiv;
      divHigh := minHighDiv + (extraDiv - extraLowDiv);
    }
  }

  /** A bus slow enough breaks it: from a 24 MHz clock at 10 kHz, with the
      driver's rise and fall times, nothing wraps on the way, yet the data
      field underflows and the tuning word spills out of its eight bits. */
  lemma SlowBusUnderflows()
    ensures NoWrap(24_000_000, 10_000, RiseFor(10_000), FallFor(10_000))
    ensures DivsFor(24_000_000, 10_000, RiseFor(10_000), FallFor(10_000)) == Divs(150, 150)
    ensures !HoldMet(1, 150, 24_000, GetSpec(10_000))
  {
    assert ClkKhz(24_000_000) == 24_000;
    assert MinTotal(24_000, 10) == 300;
    assert MinDiv(24_000, 5000) == 15;
    assert DivRoundUp(15 * 270, 30) == 135;
    assert Share(300, 15, 15) == Divs(150, 150);
  }

  // --------------------------------------------------------- writing it down

  // val &= ~REG_CON_TUNING_MASK; val |= tuning, where tuning has nothing below
  // bit 8, and above bit 15 either nothing or every bit.
  function WithTuning(con: word, tuning: word): word
    requires tuning < 0x1_0000 || tuning == 0xffff_ff00
    requires tuning % 0x100 == 0
  {
    if tuning < 0x1_0000 then con % 0x100 + tuning + con / 0x1_0000 * 0x1_0000 else con % 0x100 + 0xffff_ff00
  }

  lemma WithTuningReads(con: word, tuning: word)
    requires tuning < 0x1_0000 || tuning == 0xffff_ff00
    requires tuning % 0x100 == 0
    ensures var c := WithTuning(con, tuning);
      && c % 0x100 == con % 0x100 && c / 0x1_0000 == (if tuning < 0x1_0000 then con / 0x1_0000 else 0xffff)
      && (tuning < 0x1_0000 ==> c / 0x100 % 16 == tuning / 0x100 % 16)
      && (tuning < 0x1_0000 ==> c / 0x1000 % 4 == tuning / 0x1000 % 4 && c / 0x4000 % 4 == tuning / 0x4000 % 4)
  {
    var c, low := WithTuning(con, tuning), con % 0x100;
    var high := if tuning < 0x1_0000 then con / 0x1_0000 else 0xffff;
    var field := if tuning < 0x1_0000 then tuning / 0x100 else 0xff;
    DivModUnique(c, 0x100, field + 0x100 * high, low);
    DivModUnique(c, 0x1_0000, high, low + 0x100 * field);
    if tuning < 0x1_0000 {
      DataFieldKept(tuning, low, high);
      FieldKept(tuning, low, high, 0x1000, 16);
      FieldKept(tuning, low, high, 0x4000, 4);
    }
  }

  lemma DataFieldKept(tuning: nat, low: nat, high: nat)
    requires tuning % 0x100 == 0 && low < 0x100 && tuning < 0x1_0000
    ensures (low + tuning + high * 0x1_0000) / 0x100 % 16 == tuning / 0x100 % 16
  {
    var q := tuning / 0x100;
    DivModUnique(low + tuning + high * 0x1_0000, 0x100, q + 0x100 * high, low);
    DivModUnique(q + 0x100 * high, 16, q / 16 + 16 * high, q % 16);
  }

  // A two-bit field of the tuning word, in a word that has it in its middle.
  lemma FieldKept(tuning: nat, low: nat, high: nat, place: nat, rest: nat)
    requires tuning % 0x100 == 0 && low < 0x100 && tuning < 0x1_0000
    requires (place == 0x1000 && rest == 16) || (place == 0x4000 && rest == 4)
    ensures (low + tuning + high * 0x1_0000) / place % 4 == tuning / place % 4
  {
    var q, r := tuning / place, tuning % place;
    assert r % 0x100 == 0 && r + low < place;
    DivModUnique(low + tuning + high * 0x1_0000, place, q + rest * high, r + low);
    DivModUnique(q + rest * high, 4, q / 4 + rest / 4 * high, q % 4);
  }

  function ClkDiv(low: nat, high: nat): (w: word)
    requires low <= 0xffff && high <= 0xffff
    ensures w % 0x1_0000 == low && w / 0x1_0000 == high
  {
    high * 0x1_0000 + low
  }

  class Device {
    var con: word
    var clkDiv: word

    /** The control register keeps everything but its tuning field if and only if
        the least data field already holds data short enough, and then the bus
        is timed by what it reads; otherwise its upper half becomes all ones. */
    method AdaptDiv(clkRate: word, t: Timings)
      requires NoWrap(clkRate, Clamped(t.busFreqHz), t.sclRiseNs, t.sclFallNs)
      modifies `con, `clkDiv, t`busFreqHz
      ensures t.busFreqHz == Clamped(old(t.busFreqHz))
      ensures var khz := ClkKhz(clkRate);
        var l, h := clkDiv % 0x1_0000 + 1, clkDiv / 0x1_0000 + 1;
        && khz >= 1 && Divs(l, h) == DivsFor(clkRate, t.busFreqHz, t.sclRiseNs, t.sclFallNs)
        && con % 0x100 == old(con) % 0x100
        && (HoldMet(1, l, khz, GetSpec(t.busFreqHz)) ==>
            && con / 0x1_0000 == old(con) / 0x1_0000
            && con / 0x100 % 16 + 1 <= 3
            && HoldMet(con / 0x100 % 16 + 1, l, khz, GetSpec(t.busFreqHz))
            && SetupMet(con / 0x100 % 16 + 1, l, khz, GetSpec(t.busFreqHz))
            && BusTimed(clkRate, t.busFreqHz, t.sclRiseNs, t.sclFallNs, l, h, con / 0x1000 % 4 + 1, con / 0x4000 % 4 + 1))
        && (!HoldMet(1, l, khz, GetSpec(t.busFreqHz)) ==> con / 0x1_0000 == 0xffff)
    {
      hide HoldMet, SetupMet, BusTimed, DivsFor, NoWrap, GetSpec, WithTuning, ClkDiv;
      var calced := new CalcedTimings;
      var status := CalcTimings(clkRate, t, calced);
      WithTuningReads(con, calced.tuning);
      con := WithTuning(con, calced.tuning);
      clkDiv := ClkDiv(calced.divLow, calced.divHigh);
    }

    /** What a transfer does about the clock: whatever the edges of the bus are
        like, if they are as its mode allows, it is timed. */
    method SetSpeed(clkRate: word, t: Timings, connectionSpeed: word)
      requires NoWrap(clkRate, Clamped(connectionSpeed), RiseFor(connectionSpeed), FallFor(connectionSpeed))
      modifies `con, `clkDiv, t
      ensures var l, h := clkDiv % 0x1_0000 + 1, clkDiv / 0x1_0000 + 1;
        && ClkKhz(clkRate) >= 1
        && (HoldMet(1, l, ClkKhz(clkRate), GetSpec(Clamped(connectionSpeed))) ==>
            && con / 0x100 % 16 + 1 <= 3
            && DataByTheBook(ClkKhz(clkRate), Clamped(connectionSpeed), l, con / 0x100 % 16 + 1)
            && forall rise: nat, fall: nat | EdgesOfTheMode(Clamped(connectionSpeed), rise, fall) ::
                 TimedByTheBook(clkRate, Clamped(connectionSpeed), rise, fall, l, h, con / 0x1000 % 4 + 1, con / 0x4000 % 4 + 1))
    {
      hide HoldMet, BusTimed, DivsFor, NoWrap, GetSpec, EdgesOfTheMode, Clamped, RiseFor, FallFor, ClkKhz;
      t.busFreqHz := connectionSpeed;
      t.UpdateClockSettings();
      AdaptDiv(clkRate, t);
      var l, h := clkDiv % 0x1_0000 + 1, clkDiv / 0x1_0000 + 1;
      var s, u, p := con / 0x100 % 16 + 1, con / 0x1000 % 4 + 1, con / 0x4000 % 4 + 1;
      if HoldMet(1, l, ClkKhz(clkRate), GetSpec(Clamped(connectionSpeed))) {
        BookIsSpec(clkRate, Clamped(connectionSpeed), 0, 0, l, h, u, p, ClkKhz(clkRate), s);
        forall rise: nat, fall: nat | EdgesOfTheMode(Clamped(connectionSpeed), rise, fall)
          ensures TimedByTheBook(clkRate, Clamped(connectionSpeed), rise, fall, l, h, u, p)
        {
          BookIsSpec(clkRate, Clamped(connectionSpeed), rise, fall, l, h, u, p, ClkKhz(clkRate), s);
          AnyBusOfTheModeIsTimed(clkRate, connectionSpeed, rise, fall, l, h, u, p);
        }
      }
    }
  }

  // ------------------------------------------------------- the speeds in use

  predicate Nominal(busFreqHz: nat) {
    busFreqHz == I2C_MAX_STANDARD_MODE_FREQ || busFreqHz == I2C_MAX_FAST_MODE_FREQ || busFreqHz == I2C_MAX_FAST_MODE_PLUS_FREQ
  }

  lemma MinDivTight(khz: nat, ns: nat)
    requires khz * ns >= 1
    ensures 8 * MILLION * MinDiv(khz, ns) < khz * ns + 8 * MILLION
  {
    RoundedUp(khz * ns, 8 * MILLION);
  }

  // At a nominal speed the least times fill the period.
  lemma NominalDivs(khz: nat, busFreqHz: nat)
    requires 25_000 <= khz <= 400_000 && Nominal(busFreqHz)
    ensures var spec := GetSpec(busFreqHz);
      var lo := MinDiv(khz, FallFor(busFreqHz) + spec.minLowNs);
      var hi := MinDiv(khz, RiseFor(busFreqHz) + spec.minHighNs);
      && lo + hi >= MinTotal(khz, busFreqHz / 1000)
      && 8 * MILLION * lo < khz * (FallFor(busFreqHz) + spec.minLowNs) + 8 * MILLION
      && 8 * MILLION * hi < khz * (RiseFor(busFreqHz) + spec.minHighNs) + 8 * MILLION
  {
    var spec := GetSpec(busFreqHz);
    var lowNs, highNs := FallFor(busFreqHz) + spec.minLowNs, RiseFor(busFreqHz) + spec.minHighNs;
    MinDivTight(khz, lowNs);
    MinDivTight(khz, highNs);
    hide MinDiv, MinTotal;
    MinDivEnough(khz, lowNs, MinDiv(khz, lowNs));
    MinDivEnough(khz, highNs, MinDiv(khz, highNs));
    LeastTimesFill(khz, lowNs, highNs, MinDiv(khz, lowNs), MinDiv(khz, highNs), busFreqHz / 1000);
  }

  lemma LeastTimesFill(khz: nat, lowNs: nat, highNs: nat, lo: nat, hi: nat, scl: nat)
    requires scl >= 1 && (lowNs + highNs) * scl >= MILLION
    requires 8 * lo * MILLION >= khz * lowNs && 8 * hi * MILLION >= khz * highNs
    ensures lo + hi >= MinTotal(khz, scl)
  {
    MulSum(lowNs, highNs, khz);
    ScaleUp(khz * (lowNs + highNs), 8 * (lo + hi) * MILLION, scl);
    ScaleUp(MILLION, (lowNs + highNs) * scl, khz);
    assert (lowNs + highNs) * scl * khz == khz * (lowNs + highNs) * scl;
    assert 8 * (lo + hi) * MILLION * scl == (lo + hi) * (scl * 8) * MILLION;
    RoundedUpLeast(khz, scl * 8, lo + hi);
  }

  /** At each of the three nominal speeds, from any clock of 25 to 400 MHz and
      with the driver's rise and fall times, nothing wraps and the tuning word
      keeps its field. */
  lemma NominalSpeedsFit(clkRate: nat, busFreqHz: nat)
    requires 25 * MILLION <= clkRate <= 400 * MILLION && Nominal(busFreqHz)
    ensures NoWrap(clkRate, busFreqHz, RiseFor(busFreqHz), FallFor(busFreqHz))
    ensures HoldMet(1, DivsFor(clkRate, busFreqHz, RiseFor(busFreqHz), FallFor(busFreqHz)).low, ClkKhz(clkRate), GetSpec(busFreqHz))
  {
    hide MinDiv, MinTotal, HoldMet, SetupMet;
    var spec := GetSpec(busFreqHz);
    var khz := ClkKhz(clkRate);
    RoundedUp(clkRate, 1000);
    NominalDivs(khz, busFreqHz);
    var lo := MinDiv(khz, FallFor(busFreqHz) + spec.minLowNs);
    NominalHold(khz, busFreqHz, lo);
    HoldLonger(1, 3, lo, khz, spec);
    SetupAlwaysMet(3, lo, khz, busFreqHz, FallFor(busFreqHz));
    assert SdaNoWrap(3, lo, khz, spec);
  }

  lemma NominalHold(khz: nat, busFreqHz: nat, lo: nat)
    requires 25_000 <= khz <= 400_000 && Nominal(busFreqHz)
    requires 8 * MILLION * lo < khz * (FallFor(busFreqHz) + GetSpec(busFreqHz).minLowNs) + 8 * MILLION
    ensures HoldMet(3, lo, khz, GetSpec(busFreqHz))
  {
    RoundedUpLeast((3 * lo + 1) * MILLION, khz, GetSpec(busFreqHz).maxDataHoldNs - 1);
  }
}
