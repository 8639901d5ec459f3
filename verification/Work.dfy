/** Network proof-of-work rules, difficulty adjustment and block work (header_sync.rs). */
module Work {
  import opened Bounded
  import opened Compact
  import opened Wrappers

  /** The proof-of-work parameters of a network. */
  datatype PowRules = PowRules(
    maxTarget: u256,
    retargetInterval: u32,
    targetSpacing: u32,
    allowMinDifficulty: bool,
    noRetargeting: bool,
    enforceBip94: bool)
  {
    function TargetTimespan(): u32 { SaturatingMul32(retargetInterval, targetSpacing) }

    function PowLimitBits(): u32 { TargetToCompact(maxTarget) }

    predicate RetargetsAt(height: nat) {
      retargetInterval != 0 && height % retargetInterval == 0
    }
  }

  const MAIN_LIMIT: u256 := 0x00000000ffffffff_ffffffffffffffff_ffffffffffffffff_ffffffffffffffff
  const SIGNET_LIMIT: u256 := 0x00000377ae000000_0000000000000000_0000000000000000_0000000000000000
  const REGTEST_LIMIT: u256 := 0x7fffffffffffffff_ffffffffffffffff_ffffffffffffffff_ffffffffffffffff

  const MAINNET := PowRules(MAIN_LIMIT, 2016, 600, false, false, false)
  const TESTNET3 := PowRules(MAIN_LIMIT, 2016, 600, true, false, false)
  const TESTNET4 := PowRules(MAIN_LIMIT, 2016, 600, true, false, true)
  const SIGNET := PowRules(SIGNET_LIMIT, 2016, 600, false, false, false)
  const REGTEST := PowRules(REGTEST_LIMIT, 144, 600, true, true, false)

  predicate IsKnownNetwork(rules: PowRules) {
    rules in {MAINNET, TESTNET3, TESTNET4, SIGNET, REGTEST}
  }

  /** The fastest window the clamp allows is no faster than the quarter the transition test allows. */
  predicate QuarterIsExact(expected: nat) { expected % 4 == 0 || expected < 4 }

  /** What a network must satisfy for every admitted header to pass the difficulty-transition test. */
  predicate TransitionsAreBounded(rules: PowRules) {
    rules.allowMinDifficulty || rules.noRetargeting || QuarterIsExact(rules.TargetTimespan())
  }

  lemma KnownNetworksAreBounded(rules: PowRules)
    requires IsKnownNetwork(rules)
    ensures TransitionsAreBounded(rules)
    ensures rules.TargetTimespan() == rules.retargetInterval * rules.targetSpacing
  {
  }

  // ---- Retargeting ----

  /** The observed timespan clamped to a quarter and four times the expected one. */
  function ClampedTimespan(anchorTime: u32, prevTime: u32, expected: u32): u32 {
    var actual := SaturatingSub32(prevTime, anchorTime);
    Max(expected / 4, Min(actual, SaturatingMul32(expected, 4)))
  }

  /** Scaling by quotient and remainder in 256 bits; none when the checked product overflows. */
  function SplitScale(target: u256, actual: u32, expected: u32): (scaled: Option<u256>)
    requires expected != 0
  {
    SplitScaling(target, actual, expected);
    RemainderProductSmall(target % expected, actual, expected);
    var product := (target / expected) * actual;
    if product >= U256_LIMIT then None
    else
      var scaledRemainder := Min((target % expected) * actual, U256_LIMIT - 1) / expected;
      Some(Min(product + scaledRemainder, U256_LIMIT - 1))
  }

  function RetargetBits(rules: PowRules, baseBits: u32, actual: u32, expected: u32): u32
    requires expected != 0
  {
    match SplitScale(CompactToTarget(baseBits), actual, expected)
    case None => rules.PowLimitBits()
    case Some(scaled) => TargetToCompact(Min(scaled, rules.maxTarget))
  }

  /** The target the adjustment aims at, computed in unbounded integers. */
  function IdealTarget(rules: PowRules, target: u256, actual: u32, expected: u32): u256
    requires expected != 0
  {
    ProductNonNegative(target, actual);
    DivGreatest(0, target * actual, expected);
    Min((target * actual) / expected, rules.maxTarget)
  }

  lemma ProductNonNegative(x: nat, y: nat)
    ensures 0 <= x * y
  {
  }

  /** The split computation loses nothing: neither rounding nor its overflow escape differs. */
  lemma RetargetIsExact(rules: PowRules, baseBits: u32, actual: u32, expected: u32)
    requires expected != 0
    ensures RetargetBits(rules, baseBits, actual, expected)
            == TargetToCompact(IdealTarget(rules, CompactToTarget(baseBits), actual, expected))
  {
    SplitScaleIsExact(CompactToTarget(baseBits), actual, expected);
  }

  lemma SplitScaleIsExact(target: u256, actual: u32, expected: u32)
    requires expected != 0
    ensures var ideal := (target * actual) / expected;
            match SplitScale(target, actual, expected)
            case None => ideal >= U256_LIMIT
            case Some(scaled) => scaled == Min(ideal, U256_LIMIT - 1)
  {
    SplitScaling(target, actual, expected);
    RemainderProductSmall(target % expected, actual, expected);
  }

  lemma RemainderProductSmall(r: nat, a: u32, e: u32)
    requires r < e
    ensures 0 <= r * a < U256_LIMIT
  {
    MulMonotone(r, 0xFFFF_FFFF, a);
    MulMonotone(a, 0xFFFF_FFFF, 0xFFFF_FFFF);
    ProductNonNegative(r, a);
  }

  lemma SplitScaling(t: nat, a: nat, e: nat)
    requires e != 0
    ensures (t * a) / e == (t / e) * a + ((t % e) * a) / e
    ensures 0 <= ((t % e) * a) / e && 0 <= (t / e) * a
  {
    var q, r := t / e, t % e;
    var p := r * a;
    ProductNonNegative(r, a);
    ProductNonNegative(q, a);
    assert t * a == (q * e + r) * a == (q * a) * e + p;
    assert p == (p / e) * e + p % e;
    assert t * a == (q * a + p / e) * e + p % e by {
      assert (q * a + p / e) * e == (q * a) * e + (p / e) * e;
    }
    DivUnique(t * a, e, q * a + p / e, p % e);
    DivGreatest(0, p, e);
  }

  lemma ScaledAtLeastQuarter(t: nat, actual: nat, expected: nat)
    requires 0 < expected <= 4 * actual
    ensures t / 4 <= (t * actual) / expected
  {
    var q := t / 4;
    MulMonotone(expected, 4 * actual, q);
    MulMonotone(4 * q, t, actual);
    assert q * expected <= t * actual by {
      assert (4 * actual) * q == (4 * q) * actual;
    }
    DivGreatest(q, t * actual, expected);
  }

  lemma ScaledAtMostQuadruple(t: nat, actual: nat, expected: nat)
    requires 0 < expected && actual <= 4 * expected
    ensures (t * actual) / expected <= 4 * t
  {
    MulMonotone(actual, 4 * expected, t);
    assert (4 * expected) * t == (4 * t) * expected;
    DivMonotone(t * actual, (4 * t) * expected, expected);
    MulDiv(4 * t, expected);
  }

  /** A timespan between a quarter and four times the expected one keeps the ideal target within a factor of four, capped by the limit. */
  lemma IdealTargetBounds(rules: PowRules, t: u256, actual: u32, expected: u32)
    requires 0 < expected <= 4 * actual && actual <= 4 * expected
    ensures SmallestTarget(rules, t) <= IdealTarget(rules, t, actual, expected)
                                        <= LargestTarget(rules, t)
  {
    ScaledAtLeastQuarter(t, actual, expected);
    ScaledAtMostQuadruple(t, actual, expected);
  }

  /** Four times the old target, capped by the limit also when the product overflows. */
  function LargestTarget(rules: PowRules, target: u256): u256 {
    var quadruple := if target * 4 >= U256_LIMIT then rules.maxTarget else target * 4;
    Min(quadruple, rules.maxTarget)
  }

  function SmallestTarget(rules: PowRules, target: u256): u256 {
    Min(target / 4, rules.maxTarget)
  }

  predicate PermittedDifficultyTransition(rules: PowRules, height: u32, oldBits: u32, newBits: u32) {
    if rules.allowMinDifficulty then true
    else if !rules.RetargetsAt(height) then oldBits == newBits
    else
      var oldTarget := CompactToTarget(oldBits);
      var observed := CompactToTarget(newBits);
      && observed <= CompactToTarget(TargetToCompact(LargestTarget(rules, oldTarget)))
      && CompactToTarget(TargetToCompact(SmallestTarget(rules, oldTarget))) <= observed
  }

  /** Bits of any target between the two bounds pass the transition test. */
  lemma BetweenBoundsIsPermitted(rules: PowRules, height: u32, oldBits: u32, target: u256)
    requires rules.RetargetsAt(height)
    requires var t := CompactToTarget(oldBits);
             SmallestTarget(rules, t) <= target <= LargestTarget(rules, t)
    ensures PermittedDifficultyTransition(rules, height, oldBits, TargetToCompact(target))
  {
    var t := CompactToTarget(oldBits);
    RoundTripMonotone(target, LargestTarget(rules, t));
    RoundTripMonotone(SmallestTarget(rules, t), target);
  }

  /** Every adjustment lands inside the transition bounds. */
  lemma RetargetIsPermitted(rules: PowRules, height: u32, oldBits: u32, actual: u32, expected: u32)
    requires rules.RetargetsAt(height)
    requires 0 < expected <= 4 * actual && actual <= 4 * expected
    ensures PermittedDifficultyTransition(rules, height, oldBits,
              RetargetBits(rules, oldBits, actual, expected))
  {
    var prior := CompactToTarget(oldBits);
    RetargetIsExact(rules, oldBits, actual, expected);
    IdealTargetBounds(rules, prior, actual, expected);
    BetweenBoundsIsPermitted(rules, height, oldBits, IdealTarget(rules, prior, actual, expected));
  }

  /** Keeping the bits is permitted whenever they name a valid target within the limit. */
  lemma UnchangedIsPermitted(rules: PowRules, height: u32, bits: u32)
    requires !CompactOverflows(bits) && CompactToTarget(bits) <= rules.maxTarget
    ensures PermittedDifficultyTransition(rules, height, bits, bits)
  {
    var t := CompactToTarget(bits);
    if rules.RetargetsAt(height) {
      DecodedIsFixed(bits);
      BetweenBoundsIsPermitted(rules, height, bits, t);
    }
  }

  // ---- Work ----

  function BlockWork(bits: u32): u256 {
    var target: int := CompactToTarget(bits);
    if target == 0 || CompactOverflows(bits) then 0
    else
      DecodedBelowMax(bits);
      WorkFits(target);
      (U256_LIMIT - 1 - target) / (target + 1) + 1
  }

  lemma WorkFits(t: int)
    requires 0 < t && t + 1 < U256_LIMIT
    ensures (U256_LIMIT - 1 - t) / (t + 1) + 1 == U256_LIMIT / (t + 1)
    ensures 1 <= U256_LIMIT / (t + 1) < U256_LIMIT
  {
    var d := t + 1;
    var q, r := (U256_LIMIT - d) / d, (U256_LIMIT - d) % d;
    DivUnique(U256_LIMIT, d, q + 1, r);
    DivGreatest(0, U256_LIMIT - d, d);
    if q + 1 >= U256_LIMIT {
      MulMonotone(U256_LIMIT, q + 1, d);
    }
  }

  /** Block work is the expected number of hashes, and zero exactly for unusable bits. */
  lemma BlockWorkIsExpectedHashes(bits: u32)
    ensures BlockWork(bits) == 0 <==> CompactToTarget(bits) == 0 || CompactOverflows(bits)
    ensures BlockWork(bits) != 0 ==> BlockWork(bits) == U256_LIMIT / (CompactToTarget(bits) + 1)
  {
    if CompactToTarget(bits) != 0 && !CompactOverflows(bits) {
      DecodedBelowMax(bits);
      WorkFits(CompactToTarget(bits));
    }
  }

  /** A harder target never counts for less work. */
  lemma BlockWorkAntitone(easy: u32, hard: u32)
    requires BlockWork(easy) != 0 && BlockWork(hard) != 0
    requires CompactToTarget(hard) <= CompactToTarget(easy)
    ensures BlockWork(easy) <= BlockWork(hard)
  {
    BlockWorkIsExpectedHashes(easy);
    BlockWorkIsExpectedHashes(hard);
    DivAntitone(U256_LIMIT, CompactToTarget(hard) + 1, CompactToTarget(easy) + 1);
  }

  lemma DivAntitone(x: nat, c: nat, d: nat)
    requires 0 < c <= d
    ensures x / d <= x / c
  {
    var q := x / d;
    DivGreatest(0, x, d);
    MulMonotone(c, d, q);
    DivGreatest(q, x, c);
  }
}
