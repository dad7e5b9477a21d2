/** The card clocks of the SD hosts: the parent and divider search and the
    phase word of rockchip_ops.cpp, and the eMMC clock of dwcsdhc.cpp. */
module SdClock {
  import opened Arith
  import opened Words

  // ------------------------------------------------------------ the dividers

  const CRU_SD_CLKGEN_DIV := 2
  const DIV_MAX := 64

  // Rk3576SdmmcParentHz: GPLL, CPLL and the crystal.
  function ParentHz(mux: nat): (hz: nat)
    requires mux < 3
    ensures hz % 4_000_000 == 0 && 0 < hz <= 1_188_000_000
  {
    if mux == 0 then 1_188_000_000 else if mux == 1 then 1_000_000_000 else 24_000_000
  }

  lemma ParentRate(mux: nat)
    requires mux < 3
    ensures ParentHz(mux) == if mux == 0 then 1_188_000_000 else if mux == 1 then 1_000_000_000 else 24_000_000
  {}

  // A divided parent is no faster than the target, its exact rate taken.
  predicate Reaches(mux: nat, div: nat, targetHz: nat) {
    mux < 3 && 1 <= div <= DIV_MAX && ParentHz(mux) <= targetHz * div
  }

  // One exact rate is no slower than another.
  predicate NotSlower(mux: nat, div: nat, mux': nat, div': nat)
    requires mux < 3 && mux' < 3
  {
    ParentHz(mux') * div <= ParentHz(mux) * div'
  }

  // The fastest way not to exceed the target, among the first n parents.
  ghost predicate Fastest(mux: nat, div: nat, targetHz: nat, n: nat)
    requires n <= 3
  {
    && Reaches(mux, div, targetHz)
    && forall m: nat, d: nat | m < n && Reaches(m, d, targetHz) :: NotSlower(mux, div, m, d)
  }

  // The divider the loop tries for a parent.
  function TriedDiv(parentHz: nat, targetHz: nat): (div: nat)
    requires targetHz >= 1
    ensures 1 <= div <= DIV_MAX
  {
    var div := (parentHz + targetHz - 1) / targetHz;
    if div < 1 then 1 else if div > DIV_MAX then DIV_MAX else div
  }

  lemma CeilingIs(p: nat, t: nat, d: nat)
    requires t >= 1 && d == (p + t - 1) / t
    ensures p <= t * d < p + t
    ensures forall e: nat :: p <= t * e ==> d <= e
  {
    var r := (p + t - 1) % t;
    assert p + t - 1 == d * t + r;
    forall e: nat | p <= t * e ensures d <= e {
      if d > e {
        MulSum(d - e, e, t);
        MulAtLeast(d - e, t);
      }
    }
  }

  lemma DivFloor(p: nat, d: nat)
    requires d >= 1
    ensures (p / d) * d <= p < (p / d) * d + d
  {
    assert p == (p / d) * d + p % d;
  }

  // The tried divider reaches the target exactly if some divider does, and
  // then it is the smallest that does.  The test is made on the rounded rate,
  // which is the exact one where the divider was clamped.
  lemma TriedIsBest(mux: nat, targetHz: nat)
    requires mux < 3 && targetHz >= 1
    ensures var d := TriedDiv(ParentHz(mux), targetHz);
      && (ParentHz(mux) / d <= targetHz <==> Reaches(mux, d, targetHz))
      && forall e: nat | Reaches(mux, e, targetHz) :: Reaches(mux, d, targetHz) && d <= e
  {
    var p := ParentHz(mux);
    var c := (p + targetHz - 1) / targetHz;
    var d := TriedDiv(p, targetHz);
    CeilingIs(p, targetHz, c);
    DivFloor(p, d);
    assert c != 0;
    if c > DIV_MAX {
      assert p % DIV_MAX == 0;
      assert targetHz * DIV_MAX < p;
    } else {
      assert d == c && p <= targetHz * d;
      if p / d > targetHz {
        MulSum(p / d - targetHz, targetHz, d);
        MulAtLeast(p / d - targetHz, d);
      }
    }
  }

  // The divider as the driver computes it, in 32 bits: if the sum wraps, the
  // target is faster than the parent, and both come to 1.
  lemma WrapIsHarmless(parentHz: nat, targetHz: word)
    requires 1 <= parentHz <= 1_188_000_000 && targetHz >= 1
    ensures var div := (parentHz + targetHz - 1) % WORD / targetHz;
      TriedDiv(parentHz, targetHz) == if div < 1 then 1 else if div > DIV_MAX then DIV_MAX else div
  {
    var sum := parentHz + targetHz - 1;
    if sum >= WORD {
      DivModUnique(sum, WORD, 1, sum - WORD);
      DivModUnique(sum - WORD, targetHz, 0, sum - WORD);
      DivModUnique(sum, targetHz, 1, parentHz - 1);
    } else {
      DivModUnique(sum, WORD, 0, sum);
    }
  }

  lemma MulSwap(a: nat, b: nat, c: nat)
    ensures a * b * c == a * c * b
  {}

  lemma CancelFactor(a: nat, b: nat, k: nat)
    requires k >= 1 && a * k <= b * k
    ensures a <= b
  {
    if a > b {
      MulSum(a - b, b, k);
      MulAtLeast(a - b, k);
    }
  }

  // Rates of different parents differ by far more than their rounding.
  lemma FloorOrder(mux: nat, div: nat, mux': nat, div': nat)
    requires mux < 3 && mux' < 3 && 1 <= div <= DIV_MAX && 1 <= div' <= DIV_MAX
    requires ParentHz(mux') / div' <= ParentHz(mux) / div
    ensures NotSlower(mux, div, mux', div')
  {
    hide ParentHz;
    var p, p' := ParentHz(mux), ParentHz(mux');
    var h, h' := p / div, p' / div';
    if p' * div > p * div' {
      Apart(p / 4_000_000, p' / 4_000_000, div, div');
      FloorGap(p, p', h, h', div, div');
    }
  }

  lemma FloorGap(p: nat, p': nat, h: nat, h': nat, div: nat, div': nat)
    requires 1 <= div <= DIV_MAX && 1 <= div' <= DIV_MAX
    requires h == p / div && h' == p' / div' && h' <= h
    ensures p' * div < p * div' + 4_000_000
  {
    var k := div * div';
    FloorBelow(p, div, h, div');
    FloorAbove(p', div', h', div);
    ScaleUp(h' + 1, h + 1, k);
    MulSum(h, 1, k);
    SmallProduct(div, div');
    Between(p * div', p' * div, h * k, (h' + 1) * k, k);
  }

  lemma Between(a: int, b: int, c: int, d: int, k: int)
    requires c <= a && b < d && d <= c + k && k <= 4096
    ensures b < a + 4_000_000
  {}

  lemma Apart(a: nat, b: nat, div: nat, div': nat)
    requires (4_000_000 * b) * div > (4_000_000 * a) * div'
    ensures (4_000_000 * b) * div >= (4_000_000 * a) * div' + 4_000_000
  {
    assert (4_000_000 * b) * div == 4_000_000 * (b * div) && (4_000_000 * a) * div' == 4_000_000 * (a * div');
  }

  lemma FloorBelow(p: nat, d: nat, h: nat, e: nat)
    requires d >= 1 && h == p / d
    ensures h * (d * e) <= p * e
  {
    DivFloor(p, d);
    ScaleUp(h * d, p, e);
    assert h * (d * e) == h * d * e;
  }

  lemma FloorAbove(p: nat, d: nat, h: nat, e: nat)
    requires d >= 1 && e >= 1 && h == p / d
    ensures p * e < (h + 1) * (e * d)
  {
    DivFloor(p, d);
    ScaleUp(p + 1, (h + 1) * d, e);
    assert (h + 1) * (e * d) == (h + 1) * d * e;
  }

  lemma SmallProduct(a: nat, b: nat)
    requires a <= 64 && b <= 64
    ensures a * b <= 4096
  {
    ScaleUp(a, 64, b);
  }

  // One more parent looked at.
  lemma LoopStep(targetHz: nat, m: nat, bestMux: nat, bestDiv: nat, found: bool)
    requires targetHz >= 1 && m < 3 && bestMux < 3 && 1 <= bestDiv <= DIV_MAX
    requires found ==> Fastest(bestMux, bestDiv, targetHz, m)
    requires !found ==> forall k: nat, d: nat | k < m :: !Reaches(k, d, targetHz)
    ensures var d := TriedDiv(ParentHz(m), targetHz);
      var hz := ParentHz(m) / d;
      && (hz <= targetHz && (!found || hz > ParentHz(bestMux) / bestDiv) ==> Fastest(m, d, targetHz, m + 1))
      && (hz <= targetHz && found && hz <= ParentHz(bestMux) / bestDiv ==> Fastest(bestMux, bestDiv, targetHz, m + 1))
      && (hz > targetHz && found ==> Fastest(bestMux, bestDiv, targetHz, m + 1))
      && (hz > targetHz && !found ==> forall k: nat, e: nat | k < m + 1 :: !Reaches(k, e, targetHz))
  {
    hide ParentHz, TriedDiv, NotSlower, Reaches;
    var d := TriedDiv(ParentHz(m), targetHz);
    TriedIsBest(m, targetHz);
    if ParentHz(m) / d <= targetHz {
      forall e: nat | Reaches(m, e, targetHz) ensures NotSlower(m, d, m, e) { SameParent(m, d, e); }
      if found {
        if ParentHz(m) / d > ParentHz(bestMux) / bestDiv {
          FloorOrder(m, d, bestMux, bestDiv);
          forall k: nat, e: nat | k < m && Reaches(k, e, targetHz) ensures NotSlower(m, d, k, e) {
            NotSlowerTrans(m, d, bestMux, bestDiv, k, e, targetHz);
          }
        } else {
          FloorOrder(bestMux, bestDiv, m, d);
          forall e: nat | Reaches(m, e, targetHz) ensures NotSlower(bestMux, bestDiv, m, e) {
            NotSlowerTrans(bestMux, bestDiv, m, d, m, e, targetHz);
          }
        }
      }
    }
  }

  lemma SameParent(m: nat, d: nat, e: nat)
    requires m < 3 && d <= e
    ensures NotSlower(m, d, m, e)
  {
    ScaleUp(d, e, ParentHz(m));
  }

  lemma NotSlowerTrans(a: nat, da: nat, b: nat, db: nat, c: nat, dc: nat, targetHz: nat)
    requires a < 3 && b < 3 && Reaches(c, dc, targetHz) && db >= 1 && da >= 1
    requires NotSlower(a, da, b, db) && NotSlower(b, db, c, dc)
    ensures NotSlower(a, da, c, dc)
  {
    hide ParentHz;
    RatioTrans(ParentHz(a), da, ParentHz(b), db, ParentHz(c), dc);
  }

  lemma RatioTrans(p: nat, da: nat, q: nat, db: nat, r: nat, dc: nat)
    requires db >= 1 && q * da <= p * db && r * db <= q * dc
    ensures r * da <= p * dc
  {
    ScaleUp(r * db, q * dc, da);
    ScaleUp(q * da, p * db, dc);
    MulSwap(r, db, da);
    MulSwap(q, dc, da);
    MulSwap(p, db, dc);
    CancelFactor(r * da, p * dc, db);
  }

  /** Some parent and divider reach the target exactly from 375 kHz on; the
      card's clock is half of it. */
  lemma ReachableIff(targetHz: nat)
    ensures (exists m: nat, d: nat :: m < 3 && Reaches(m, d, targetHz)) <==> targetHz >= 375_000
  {
    if targetHz >= 375_000 {
      assert Reaches(2, DIV_MAX, targetHz);
    } else {
      forall m: nat, d: nat | m < 3 ensures !Reaches(m, d, targetHz) {
        if d <= DIV_MAX { ScaleUp(d, DIV_MAX, targetHz); }
      }
    }
  }

  // No choice is slow enough for a card clock of 187 kHz.
  lemma CardTooSlow(m: nat, d: nat)
    requires m < 3
    ensures !Reaches(m, d, 2000 * 187)
  {
    ReachableIff(2000 * 187);
  }

  // What is looked for, in 32 bits.
  function TargetHz(frequencyKhz: word): word { frequencyKhz * 1000 % WORD * CRU_SD_CLKGEN_DIV % WORD }

  /** It is what was asked for up to 2147 MHz and no further. */
  lemma TargetIsAsked(frequencyKhz: word)
    ensures TargetHz(frequencyKhz) <= 2000 * frequencyKhz
    ensures TargetHz(frequencyKhz) == 2000 * frequencyKhz <==> frequencyKhz <= 2_147_483
  {
    var t := frequencyKhz * 1000;
    assert t == t / WORD * WORD + t % WORD;
    if frequencyKhz <= 2_147_483 {
      DivModUnique(t, WORD, 0, t);
      DivModUnique(2 * t, WORD, 0, 2 * t);
    }
  }

  // The first that is cut: 704 Hz are looked for instead of 4295 MHz.
  lemma TargetIsCut()
    ensures TargetHz(2_147_484) == 704
  {}

  // --------------------------------------------------------------- the words

  const SDMMC_WRITE_MASK := 0x7f80 * 0x1_0000

  function ClockWord(mux: nat, div: nat): word
    requires mux < 4 && 1 <= div <= DIV_MAX
  {
    SDMMC_WRITE_MASK + mux * 0x2000 + (div - 1) * 0x80
  }

  // CLKSEL_CON105: the write-enable half, mux at 14:13, divider at 12:7.
  lemma ClockWordReads(mux: nat, div: nat)
    requires mux < 4 && 1 <= div <= DIV_MAX
    ensures var w := ClockWord(mux, div);
      && w / 0x2000 % 4 == mux && w / 0x80 % 64 + 1 == div
      && w / 0x1_0000 == 0x7f80 && w % 0x80 == 0 && w / 0x8000 % 2 == 0
  {
    var w := ClockWord(mux, div);
    assert w / 0x80 == div - 1 + 64 * (mux + 8 * 0x7f80);
    assert w / 0x2000 == mux + 8 * 0x7f80;
    assert w / 0x8000 == 2 * 0x7f80;
  }

  // A phase word: the write-enable half, then quarter turns at 2:1, delay
  // elements at 10:3 and the delay select at 11.
  function PhaseWord(nineties: nat, delayNum: nat): word
    requires nineties < 4 && delayNum <= 255
  {
    0xffe * 0x1_0000 + 2 * (nineties + 4 * delayNum + if delayNum != 0 then 0x400 else 0)
  }

  lemma PhaseWordReads(nineties: nat, delayNum: nat)
    requires nineties < 4 && delayNum <= 255
    ensures var w := PhaseWord(nineties, delayNum);
      && w / 2 % 4 == nineties && w / 8 % 256 == delayNum && (w / 0x800 % 2 == 1 <==> delayNum != 0)
      && w / 0x1_0000 == 0xffe && w % 0x1_0000 / 0x1000 == 0 && w % 2 == 0
  {
    var w := PhaseWord(nineties, delayNum);
    var sel := if delayNum != 0 then 1 else 0;
    assert w / 2 == nineties + 4 * (delayNum + 0x100 * (sel + 0x1_ffc0));
    assert w / 8 == delayNum + 0x100 * (sel + 0x1_ffc0);
    assert w / 0x800 == sel + 0x1_ffc0;
  }

  // One degree at a rate in kHz, in units of 1 / 10^7 delay elements of 60 ps.
  function DelayUnit(rateKhz: nat): nat { rateKhz * 216 }

  // More delay asked for than the 255 elements there are.
  predicate Saturates(unit: nat, remainder: nat) {
    20_000_000 * remainder >= 511 * unit
  }

  // The delay is the remainder rounded to whole elements, or all there are.
  predicate DelayRounds(unit: nat, remainder: nat, delayNum: nat) {
    if Saturates(unit, remainder) then delayNum == 255
    else
      var error: int := 2 * (delayNum * unit - 10_000_000 * remainder);
      0 - unit < error <= unit
  }

  function RoundedQuotient(x: nat, y: nat): nat
    requires y >= 1
  {
    (x + y / 2) / y
  }

  lemma RoundedDelay(unit: nat, remainder: nat, delay: nat)
    requires unit >= 1 && unit % 2 == 0
    requires delay == RoundedQuotient(10_000_000 * remainder, unit)
    ensures DelayRounds(unit, remainder, if delay > 255 then 255 else delay)
  {
    DivFloor(10_000_000 * remainder + unit / 2, unit);
    hide RoundedQuotient;
    if delay > 255 {
      ScaleUp(256, delay, unit);
    } else {
      ScaleUp(delay, 255, unit);
    }
  }

  /** Every phase can be set to within half a delay element if and only if the
      card clock is at least 16.127 MHz. */
  lemma PhasesFitIff(rateKhz: nat)
    ensures (forall remainder: nat | remainder < 90 :: !Saturates(DelayUnit(rateKhz), remainder)) <==> rateKhz >= 16_127
  {
    if rateKhz < 16_127 { assert Saturates(DelayUnit(rateKhz), 89); }
  }

  // One kilohertz less, and 89 degrees are out of reach.
  lemma LastAngleSaturates()
    ensures Saturates(DelayUnit(16_126), 89)
  {}

  // ---------------------------------------------------------------- the host

  datatype Status = Success | NotSupported | InvalidDeviceState | InvalidParameter

  class MshcExtension {
    var rkCruClkSel: bool        // mapped
    var clkSel: word             // what was last written to it
    var timingCon0: word         // drive phase
    var timingCon1: word         // sample phase
    var rkCardClockHz: word
    var baseClockFrequencyKhz: word

    // The search loop, in 32-bit arithmetic.
    method BestDivider(targetHz: word) returns (bestHz: nat, bestMux: nat, bestDiv: nat)
      requires targetHz != 0
      ensures bestMux < 3 && 1 <= bestDiv <= DIV_MAX
      ensures bestHz != 0 ==> bestHz == ParentHz(bestMux) / bestDiv && Fastest(bestMux, bestDiv, targetHz, 3)
      ensures bestHz == 0 <==> forall m: nat, d: nat | m < 3 :: !Reaches(m, d, targetHz)
      ensures bestHz == 0 ==> bestMux == 2 && bestDiv == DIV_MAX
    {
      hide ParentHz, Fastest, Reaches;
      bestHz := 0;
      bestMux := 2;
      bestDiv := DIV_MAX;
      for mux := 0 to 3
        invariant bestMux < 3 && 1 <= bestDiv <= DIV_MAX
        invariant bestHz != 0 ==> bestHz == ParentHz(bestMux) / bestDiv && Fastest(bestMux, bestDiv, targetHz, mux)
        invariant bestHz == 0 ==> forall m: nat, d: nat | m < mux :: !Reaches(m, d, targetHz)
        invariant bestHz == 0 ==> bestMux == 2 && bestDiv == DIV_MAX
      {
        var parentHz := ParentHz(mux);
        var div := (parentHz + targetHz - 1) % WORD / targetHz;
        WrapIsHarmless(parentHz, targetHz);
        if div < 1 {
          div := 1;
        }
        if div > DIV_MAX {
          div := DIV_MAX;
        }
        assert div == TriedDiv(parentHz, targetHz);
        var hz := parentHz / div;
        LoopStep(targetHz, mux, bestMux, bestDiv, bestHz != 0);
        PositiveRate(mux, div);
        if hz <= targetHz && hz > bestHz {
          bestHz := hz;
          bestMux := mux;
          bestDiv := div;
        }
      }
      if bestHz != 0 { FastestReaches(bestMux, bestDiv, targetHz); }
    }

    lemma PositiveRate(mux: nat, div: nat)
      requires mux < 3 && 1 <= div <= DIV_MAX
      ensures ParentHz(mux) / div > 0
    {
      DivFloor(ParentHz(mux), div);
    }

    lemma FastestReaches(mux: nat, div: nat, targetHz: nat)
      requires Fastest(mux, div, targetHz, 3)
      ensures mux < 3 && Reaches(mux, div, targetHz)
    {}

    /** The card is given the fastest clock of all parents and dividers that is
        not faster than asked; below 187.5 kHz, where there is none, the slowest
        there is, the crystal over 64.  The register reads back as that choice.
        (A target of 0 would be divided by.) */
    method SetClock(frequencyKhz: word, crashdumpMode: bool, canMap: bool) returns (status: Status, ghost mux: nat, ghost div: nat)
      requires rkCruClkSel || (!crashdumpMode && canMap) ==> TargetHz(frequencyKhz) != 0
      modifies `rkCruClkSel, `clkSel, `rkCardClockHz, `baseClockFrequencyKhz
      ensures rkCruClkSel == (old(rkCruClkSel) || (!crashdumpMode && canMap))
      ensures status == if rkCruClkSel then Success else NotSupported
      ensures status.NotSupported? ==>
                unchanged(`clkSel) && unchanged(`rkCardClockHz) && unchanged(`baseClockFrequencyKhz)
      ensures status.Success? ==>
        var targetHz := TargetHz(frequencyKhz);
        && mux < 3 && 1 <= div <= DIV_MAX
        && clkSel / 0x2000 % 4 == mux && clkSel / 0x80 % 64 + 1 == div && clkSel / 0x1_0000 == 0x7f80
        && (if targetHz >= 375_000 then Fastest(mux, div, targetHz, 3) else mux == 2 && div == DIV_MAX)
        && rkCardClockHz == (if mux == 0 then 1_188_000_000 else if mux == 1 then 1_000_000_000 else 24_000_000) / div / 2
        && baseClockFrequencyKhz == frequencyKhz
    {
      hide ParentHz, Fastest, Reaches, ClockWord;
      mux, div := 0, 1;
      if !rkCruClkSel && !crashdumpMode {
        rkCruClkSel := canMap;
      }
      if !rkCruClkSel {
        return NotSupported, mux, div;
      }
      var targetHz := frequencyKhz * 1000 % WORD * CRU_SD_CLKGEN_DIV % WORD;
      ReachableIff(targetHz);
      var bestHz, bestMux, bestDiv := BestDivider(targetHz);
      if bestHz == 0 {
        bestHz := ParentHz(bestMux) / bestDiv;
      }
      mux, div := bestMux, bestDiv;
      ParentRate(mux);
      ClockWordReads(bestMux, bestDiv);
      clkSel := ClockWord(bestMux, bestDiv);
      DivAtMost(ParentHz(bestMux), bestDiv);
      rkCardClockHz := bestHz / CRU_SD_CLKGEN_DIV;
      baseClockFrequencyKhz := frequencyKhz;
      status := Success;
    }

    // The rest of the angle as a fraction of a clock period, in delay elements.
    method DelayElements(rate: word, remainder: nat) returns (delayNum: nat)
      requires rate >= 1000
      ensures delayNum <= 255 && DelayRounds(DelayUnit(rate / 1000), remainder, delayNum)
    {
      hide DelayRounds, RoundedQuotient;
      var delay := 10_000_000 * remainder;
      var denominator := rate / 1000 * 36 * (60 / 10);
      assert denominator == DelayUnit(rate / 1000) && denominator >= 1 && denominator % 2 == 0;
      hide DelayUnit;
      delay := RoundedQuotient(delay, denominator);
      RoundedDelay(denominator, remainder, delay);
      delayNum := if delay > 255 then 255 else delay;
    }

    lemma RestOfQuarter(degrees: nat)
      ensures degrees % 360 % 90 == degrees % 90
    {
      var q := degrees / 360;
      DivModUnique(degrees, 90, 4 * q + degrees % 360 / 90, degrees % 360 % 90);
    }

    /** The word written reads back as whole quarter turns plus a delay that is
        the rest of the angle rounded to the nearest element, or all 255 of them
        if the rest is longer than that. */
    method SetPhase(sample: bool, degrees: nat) returns (status: Status)
      modifies `timingCon0, `timingCon1
      ensures status == if rkCardClockHz < 1000 then InvalidDeviceState else Success
      ensures timingCon0 != old(timingCon0) ==> !sample && status.Success?
      ensures timingCon1 != old(timingCon1) ==> sample && status.Success?
      ensures status.Success? ==>
        var w := if sample then timingCon1 else timingCon0;
        && w / 0x1_0000 == 0xffe && w / 2 % 4 == degrees % 360 / 90
        && (w / 0x800 % 2 == 1 <==> w / 8 % 256 != 0)
        && DelayRounds(DelayUnit(rkCardClockHz / 1000), degrees % 90, w / 8 % 256)
    {
      hide DelayRounds, PhaseWord, DelayUnit;
      var rate := rkCardClockHz;
      if rate < 1000 {
        return InvalidDeviceState;
      }
      var degrees' := degrees % 360;
      var nineties := degrees' / 90;
      RestOfQuarter(degrees);
      var delayNum := DelayElements(rate, degrees' % 90);
      PhaseWordReads(nineties, delayNum);
      if sample {
        timingCon1 := PhaseWord(nineties, delayNum);
      } else {
        timingCon0 := PhaseWord(nineties, delayNum);
      }
      status := Success;
    }
  }

  // -------------------------------------------------------------- the eMMC host

  const EMMC_PARENT_400M := 400_000_000
  const EMMC_PARENT_24M := 24_000_000

  // DwcSdhcRkSetClock: parent, divider and the word written for them.
  function EmmcParent(frequencyHz: nat): nat {
    if frequencyHz >= EMMC_PARENT_24M then EMMC_PARENT_400M else EMMC_PARENT_24M
  }

  function EmmcWord(parent: nat, div: nat): (w: word)
    requires 1 <= div <= DIV_MAX
    ensures w / 0x1_0000 == 0xff00 && w / 0x4000 % 4 == (if parent == EMMC_PARENT_400M then 0 else 2)
    ensures w / 0x100 % 64 + 1 == div
  {
    0xff00 * 0x1_0000 + (if parent == EMMC_PARENT_400M then 0 else 2) * 0x4000 + (div - 1) * 0x100
  }

  // The PHY's delay lines, DWCMSHC_EMMC_DLL_*.
  datatype Dll = Dll(ctrl: word, rxclk: word, txclk: word, strbin: word, cmdout: word)

  // All off, but for the strobe's: its own delay of 16 is selected.
  const BypassedDll := Dll(0, 0, 0, 0x0c10_0000, 0)

  class SdhcExtension {
    var cruMapped: bool
    var cruClkSel: word
    var dll: Dll

    // DwcSdhcRkConfigurePhy: only rates without a delay line can be set.
    method ConfigurePhy(frequency: nat) returns (status: Status)
      modifies `dll
      ensures status == if frequency < 100_000_000 then Success else NotSupported
      ensures dll == if status.Success? then BypassedDll else old(dll)
    {
      if frequency < 100_000_000 {
        dll := BypassedDll;
        return Success;
      } else {
        return NotSupported;
      }
    }

    /** The eMMC clock is never faster than asked if and only if at least
        375 kHz is asked for, and up to 400 MHz faster than half of it, from the
        400 MHz parent from 24 MHz on and from the crystal below.  The divider is the least of its parent that is
        slow enough for the rate in Hz, if there is one; in 32 bits that is the
        rate asked for up to 4,294,967 kHz.  From 100 MHz on the call fails, but only after the clock has
        been set all the same: the card runs at the new rate with the PHY as it
        was. */
    method SetClock(targetFrequencyKhz: word) returns (status: Status, frequencyHz: word)
      modifies `cruClkSel, `dll
      ensures frequencyHz == 1000 * targetFrequencyKhz % WORD
      ensures frequencyHz == 1000 * targetFrequencyKhz <==> targetFrequencyKhz <= 4_294_967
      ensures status == if frequencyHz == 0 then InvalidParameter
                        else if frequencyHz < 100_000_000 then Success else NotSupported
      ensures dll == if status.Success? then BypassedDll else old(dll)
      ensures !(frequencyHz != 0 && cruMapped) ==> unchanged(`cruClkSel)
      ensures frequencyHz != 0 && cruMapped ==>
        var parent := if frequencyHz >= 24_000_000 then 400_000_000 else 24_000_000;
        var div := cruClkSel / 0x100 % 64 + 1;
        && cruClkSel / 0x1_0000 == 0xff00 && cruClkSel / 0x4000 % 4 == (if frequencyHz >= 24_000_000 then 0 else 2)
        && (375_000 <= frequencyHz <= 400_000_000 ==> parent <= frequencyHz * div < 2 * parent)
        && (parent <= 1000 * targetFrequencyKhz * div <==> targetFrequencyKhz >= 375)
        && (frequencyHz >= 375_000 ==> forall e: nat | parent <= frequencyHz * e :: div <= e)
    {
      hide EmmcWord;
      frequencyHz := targetFrequencyKhz * 1000 % WORD;
      CutToHz(targetFrequencyKhz, frequencyHz);
      if frequencyHz == 0 {
        return InvalidParameter, frequencyHz;
      }
      if cruMapped {
        var parent := if frequencyHz >= EMMC_PARENT_24M then EMMC_PARENT_400M else EMMC_PARENT_24M;
        var divider := (parent + frequencyHz - 1) % WORD / frequencyHz;
        WrapIsHarmless(parent, frequencyHz);
        if divider < 1 {
          divider := 1;
        } else if divider > 64 {
          divider := 64;
        }
        EmmcDivider(frequencyHz, parent, divider);
        NeverTooFastWhenCut(targetFrequencyKhz, frequencyHz, parent, divider);
        cruClkSel := EmmcWord(parent, divider);
      }
      status := ConfigurePhy(frequencyHz);
    }
  }

  lemma CutToHz(khz: word, hz: word)
    requires hz == 1000 * khz % WORD
    ensures hz == 1000 * khz <==> khz <= 4_294_967
  {
    if khz <= 4_294_967 { DivModUnique(1000 * khz, WORD, 0, 1000 * khz); }
  }

  // A rate that is cut is above both parents.
  lemma NeverTooFastWhenCut(khz: word, hz: word, parent: nat, div: nat)
    requires (khz <= 4_294_967 ==> hz == 1000 * khz) && parent <= EMMC_PARENT_400M && div >= 1
    requires parent <= hz * div <==> hz >= 375_000
    ensures parent <= 1000 * khz * div <==> khz >= 375
  {
    if khz > 4_294_967 {
      MulAtLeast(div, 1000 * khz);
      assert 1000 * khz * div == div * (1000 * khz);
    }
  }

  /** 374 kHz is exceeded: even over 64 the crystal gives 375. */
  method AskedTooSlow(host: SdhcExtension)
    requires host.cruMapped
    modifies host`cruClkSel, host`dll
    ensures EMMC_PARENT_24M > 374_000 * (host.cruClkSel / 0x100 % 64 + 1)
  {
    var status, hz := host.SetClock(374);
  }

  /** 100 MHz is refused, but the clock is set to it, 400 MHz over 4. */
  method RefusedButSet(host: SdhcExtension) returns (status: Status)
    requires host.cruMapped
    modifies host`cruClkSel, host`dll
    ensures status == NotSupported && host.dll == old(host.dll)
    ensures host.cruClkSel / 0x4000 % 4 == 0 && host.cruClkSel / 0x100 % 64 + 1 == 4
  {
    var hz;
    status, hz := host.SetClock(100_000);
    assert EmmcParent(hz) <= hz * 4;
  }

  // The rate set is at most the one asked for, and more than half of it.
  lemma EmmcDivider(frequencyHz: nat, parent: nat, div: nat)
    requires frequencyHz >= 1 && parent == EmmcParent(frequencyHz) && div == TriedDiv(parent, frequencyHz)
    ensures parent <= frequencyHz * div <==> frequencyHz >= 375_000
    ensures 375_000 <= frequencyHz <= 400_000_000 ==> frequencyHz * div < 2 * parent
    ensures frequencyHz >= 375_000 ==> forall e: nat | parent <= frequencyHz * e :: div <= e
  {
    var c := (parent + frequencyHz - 1) / frequencyHz;
    CeilingIs(parent, frequencyHz, c);
    if frequencyHz >= 375_000 {
      assert parent <= frequencyHz * 64;
      assert c <= 64;
    } else {
      ScaleUp(div, 64, frequencyHz);
    }
    assert c != 0;
  }
}
