/** Finding the bitrate a connection can carry, and what an encoder that hears only of worthwhile changes is left
    with. */
module Governor {
  import opened Arith
  import opened Common

  const TOO_MUCH := 10
  const COMFORTABLE := 2
  const BACK_OFF := 0.7
  const CREEP := 0.05
  const FLOOR := 400

  // ------------------------------------------------------------------ one round

  datatype Report = Report(received: Word, lost: Word, wantKeyframe: bool)

  /** The total wraps at 32 bits. */
  function Total(r: Report): Word { (r.received + r.lost) % U32 }

  /** Too few pictures are not a measurement. */
  predicate Measures(r: Report) { Total(r) >= 5 }

  /** `lost.saturating_mul(100) / total`. */
  function Percent(lost: nat, total: nat): nat
    requires total > 0
  {
    Min(lost * 100, U32 - 1) / total
  }

  function Loss(r: Report): nat
    requires Measures(r)
  {
    Percent(r.lost, Total(r))
  }

  function Worse(worst: nat, r: Report): nat { if Measures(r) then Max(worst, Loss(r)) else worst }

  function Worst(reports: seq<Report>): nat {
    if reports == [] then 0 else Worse(Worst(reports[..|reports| - 1]), reports[|reports| - 1])
  }

  function Down(target: nat): nat { Max((target as real * BACK_OFF).Floor, FLOOR) }

  function Up(ceiling: nat, target: nat): nat { Min(target + (target as real * CREEP).Floor + 1, ceiling) }

  function NextTarget(ceiling: nat, target: nat, worst: nat): nat {
    if worst >= TOO_MUCH then Down(target) else if worst <= COMFORTABLE then Up(ceiling, target) else target
  }

  /** More than a twentieth of what it was. */
  predicate Worthwhile(before: nat, after: nat) { Abs(before - after) * 20 > before }

  datatype Decision = Decision(kbps: nat, changed: bool, keyframe: bool)

  /** Whether a keyframe is wanted after some reports. */
  function Wanted(reports: seq<Report>): bool {
    reports != [] && (Wanted(reports[..|reports| - 1]) || reports[|reports| - 1].wantKeyframe)
  }

  /** The decision that closes a round. */
  function DecisionAfter(ceiling: nat, target: nat, reports: seq<Report>): Decision {
    var after := NextTarget(ceiling, target, Worst(reports));
    Decision(after, Worthwhile(target, after), Wanted(reports))
  }

  /** A share of the pictures in whole hundredths, as long as nothing wraps; fewer than five are no measurement. */
  lemma LossIsHundredths(worst: nat, r: Report)
    requires r.received + r.lost < U32 && 100 * r.lost < U32
    ensures r.received + r.lost < 5 ==> Worse(worst, r) == worst
    ensures r.received + r.lost >= 5 ==>
      var loss, total := Loss(r), r.received + r.lost;
      && total * loss <= 100 * r.lost < total * (loss + 1)
      && Worse(worst, r) == if loss > worst then loss else worst
  {
    DivModUnique(r.received + r.lost, U32, 0, r.received + r.lost);
    if r.received + r.lost >= 5 { HundredthsOf(r.lost, Total(r)); }
  }

  lemma HundredthsOf(lost: nat, total: nat)
    requires total > 0 && 100 * lost < U32
    ensures total * Percent(lost, total) <= 100 * lost < total * (Percent(lost, total) + 1)
  {
    var q := 100 * lost / total;
    assert 100 * lost == total * q + 100 * lost % total;
  }

  /** In whole numbers: at a tenth lost or more, seven tenths; at a fiftieth or less, a twentieth more and one;
      in between, no change; never below 400 nor, going up, above the ceiling. */
  lemma StepsInWholeNumbers(ceiling: nat, target: nat, worst: nat)
    ensures NextTarget(ceiling, target, worst)
         == if worst >= 10 then Max(7 * target / 10, 400)
            else if worst <= 2 then Min(target + target / 20 + 1, ceiling) else target
  {
    TenthsOf(target, 7, 10, BACK_OFF);
    TenthsOf(target, 1, 20, CREEP);
  }

  lemma TenthsOf(x: nat, p: nat, q: nat, f: real)
    requires q > 0 && f * q as real == p as real
    ensures (x as real * f).Floor == p * x / q
  {
    Regrouped(x as real, f, q as real, p as real);
    RealProduct(p, x);
    FloorIs(x as real * f, q, p * x);
  }

  lemma Regrouped(x: real, f: real, q: real, p: real)
    requires f * q == p
    ensures x * f * q == p * x
  {
  }

  lemma RealProduct(a: nat, b: nat)
    ensures a as real * b as real == (a * b) as real
  {
  }

  lemma FloorIs(y: real, q: nat, n: nat)
    requires q > 0 && y * q as real == n as real
    ensures y.Floor == n / q
  {
    var k := n / q;
    Between(n, q);
    NotAbove(k, q, y, k * q, n);
    Above(k + 1, q, y, (k + 1) * q, n);
  }

  lemma NotAbove(k: nat, q: nat, y: real, kq: nat, n: nat)
    requires q > 0 && y * q as real == n as real && kq == k * q <= n
    ensures k as real <= y
  {
    RealProduct(k, q);
    Cancelled(k as real, y, q as real);
  }

  lemma Above(k: nat, q: nat, y: real, kq: nat, n: nat)
    requires q > 0 && y * q as real == n as real && n < kq == k * q
    ensures y < k as real
  {
    RealProduct(k, q);
    Cancelled(y, k as real, q as real);
  }

  lemma Between(n: nat, q: nat)
    requires q > 0
    ensures n / q * q <= n < (n / q + 1) * q
  {
  }

  lemma Cancelled(a: real, b: real, t: real)
    requires t > 0.0
    ensures a * t <= b * t ==> a <= b
    ensures a * t < b * t ==> a < b
  {
  }

  class Governor {
    const ceiling: nat
    var target: nat
    var worst: nat
    var keyframeWanted: bool
    /** The reports of this round. */
    ghost var heard: seq<Report>

    ghost predicate Valid()
      reads this
    {
      FLOOR <= target <= ceiling && worst == Worst(heard) && keyframeWanted == Wanted(heard)
    }

    constructor (asked: Word)
      ensures Valid() && ceiling == Max(asked, FLOOR) && target == ceiling && heard == []
    {
      ceiling, target, worst, keyframeWanted, heard := Max(asked, FLOOR), Max(asked, FLOOR), 0, false, [];
    }

    method Report(r: Report)
      requires Valid()
      modifies `worst, `keyframeWanted, `heard
      ensures Valid() && heard == old(heard) + [r]
    {
      assert (heard + [r])[..|heard|] == heard;
      heard := heard + [r];
      var total := Total(r);
      if total >= 5 {
        var loss := Percent(r.lost, total);
        worst := Max(worst, loss);
      }
      keyframeWanted := keyframeWanted || r.wantKeyframe;
    }

    method Decide() returns (d: Decision)
      requires Valid()
      modifies this
      ensures Valid() && d == DecisionAfter(ceiling, old(target), old(heard)) && target == d.kbps && heard == []
    {
      var before := target;
      if worst >= TOO_MUCH {
        target := Max((target as real * BACK_OFF).Floor, FLOOR);
      } else if worst <= COMFORTABLE {
        target := Min(target + (target as real * CREEP).Floor + 1, ceiling);
      }
      d := Decision(target, Abs(before - target) * 20 > before, keyframeWanted);
      worst, keyframeWanted, heard := 0, false, [];
    }
  }

  /** What a round remembers is its worst loss worth the name: no average, no order, no count. */
  lemma {:induction false} WorstIsTheMaximum(reports: seq<Report>)
    ensures forall r :: r in reports && Measures(r) ==> Loss(r) <= Worst(reports)
    ensures Worst(reports) == 0 || exists r :: r in reports && Measures(r) && Loss(r) == Worst(reports)
    decreases |reports|
  {
    if reports != [] {
      var init, last := reports[..|reports| - 1], reports[|reports| - 1];
      LastApart(reports);
      WorstIsTheMaximum(init);
      if Worst(reports) != Worst(init) { assert last in reports && Measures(last); }
      else if Worst(init) != 0 {
        var r :| r in init && Measures(r) && Loss(r) == Worst(init);
        assert r in reports;
      }
    }
  }

  lemma {:induction false} WantedIfAnyWants(reports: seq<Report>)
    ensures Wanted(reports) <==> exists r :: r in reports && r.wantKeyframe
    decreases |reports|
  {
    if reports != [] {
      WantedIfAnyWants(reports[..|reports| - 1]);
      assert reports == reports[..|reports| - 1] + [reports[|reports| - 1]];
    }
  }

  /** A whole decision, bitrate, flag and keyframe, is the same for the same reports in any order and any number. */
  lemma SameReportsSameDecision(ceiling: nat, target: nat, a: seq<Report>, b: seq<Report>)
    requires forall r :: r in a <==> r in b
    ensures DecisionAfter(ceiling, target, a) == DecisionAfter(ceiling, target, b)
  {
    WorstIsTheMaximum(a);
    WorstIsTheMaximum(b);
    WantedIfAnyWants(a);
    WantedIfAnyWants(b);
  }

  // ------------------------------------------------------------------ whole shares

  /** The controller's target after some rounds, given each round's worst loss. */
  function Target(asked: Word, rounds: seq<nat>): nat {
    if rounds == [] then Max(asked, FLOOR)
    else NextTarget(Max(asked, FLOOR), Target(asked, rounds[..|rounds| - 1]), rounds[|rounds| - 1])
  }

  /** The encoder's bitrate: what was asked for, until a change worth telling it about. */
  function Encoder(asked: Word, rounds: seq<nat>): nat {
    if rounds == [] then asked
    else
      var before, after := Target(asked, rounds[..|rounds| - 1]), Target(asked, rounds);
      if Worthwhile(before, after) then after else Encoder(asked, rounds[..|rounds| - 1])
  }

  lemma {:induction false} TargetInRange(asked: Word, rounds: seq<nat>)
    ensures FLOOR <= Target(asked, rounds) <= Max(asked, FLOOR)
  {
    if rounds != [] { TargetInRange(asked, rounds[..|rounds| - 1]); }
  }

  /** Within one twentieth of the encoder's own bitrate. */
  ghost predicate Close(encoder: nat, target: nat) { Abs(encoder - target) * 20 <= encoder }

  /** How an encoder can differ from its target at all: only by a step that a limit cut short. */
  ghost predicate Followed(ceiling: nat, target: nat, encoder: nat) {
    || encoder == target
    || ((target == ceiling || target == FLOOR) && FLOOR <= encoder <= ceiling && Close(encoder, target))
  }

  lemma FollowedStep(ceiling: nat, target: nat, encoder: nat, worst: nat)
    requires FLOOR <= target <= ceiling && Followed(ceiling, target, encoder)
    ensures var after := NextTarget(ceiling, target, worst);
      Followed(ceiling, after, if Worthwhile(target, after) then after else encoder)
  {
    if worst >= TOO_MUCH {
      if Down(target) != FLOOR { assert Worthwhile(target, Down(target)); }
    } else if worst <= COMFORTABLE {
      if Up(ceiling, target) != ceiling { assert Worthwhile(target, Up(ceiling, target)); }
    }
  }

  lemma {:induction false} EncoderFollows(asked: Word, rounds: seq<nat>)
    requires asked >= FLOOR
    ensures Followed(asked, Target(asked, rounds), Encoder(asked, rounds))
  {
    if rounds != [] {
      var init := rounds[..|rounds| - 1];
      EncoderFollows(asked, init);
      TargetInRange(asked, init);
      FollowedStep(asked, Target(asked, init), Encoder(asked, init), rounds[|rounds| - 1]);
    }
  }

  /** A share configured below the floor is never told: the controller sits at the floor and nothing is worth saying. */
  lemma {:induction false} BelowTheFloor(asked: Word, rounds: seq<nat>)
    requires asked < FLOOR
    ensures Target(asked, rounds) == FLOOR && Encoder(asked, rounds) == asked
  {
    if rounds != [] { BelowTheFloor(asked, rounds[..|rounds| - 1]); }
  }

  /** Unreported steps never add up: whatever the rounds bring, the encoder stays within a twentieth of its own bitrate
      of the target, exactly when it was not started too far below the floor, at 380 or less. */
  lemma UnreportedStepsNeverAccumulate(asked: Word, rounds: seq<nat>)
    ensures Close(Encoder(asked, rounds), Target(asked, rounds)) <==> 21 * asked >= 20 * FLOOR
  {
    if asked >= FLOOR { EncoderFollows(asked, rounds); } else { BelowTheFloor(asked, rounds); }
  }

  /** Within one twentieth of the target. */
  ghost predicate CloseToTarget(encoder: nat, target: nat) { Abs(encoder - target) * 20 <= target }

  /** Measured by the target instead, the same is true of few shares only: any that can grow to 421 from the floor is
      left there by the next backing off. */
  lemma ATwentiethOfTheTarget(asked: Word)
    ensures (forall rounds :: CloseToTarget(Encoder(asked, rounds), Target(asked, rounds))) <==> 380 <= asked <= 420
  {
    if asked > 420 {
      var rounds := TooFar(asked);
      assert !CloseToTarget(Encoder(asked, rounds), Target(asked, rounds));
    } else if asked < 380 {
      assert !CloseToTarget(Encoder(asked, []), Target(asked, []));
    } else {
      forall rounds
        ensures CloseToTarget(Encoder(asked, rounds), Target(asked, rounds))
      {
        StaysClose(asked, rounds);
      }
    }
  }

  lemma StaysClose(asked: Word, rounds: seq<nat>)
    requires 380 <= asked <= 420
    ensures CloseToTarget(Encoder(asked, rounds), Target(asked, rounds))
  {
    if asked >= FLOOR {
      EncoderFollows(asked, rounds);
      TargetInRange(asked, rounds);
    } else {
      BelowTheFloor(asked, rounds);
    }
  }

  /** Backed off to the floor, grown by one step, and backed off again. */
  lemma TooFar(asked: Word) returns (rounds: seq<nat>)
    requires asked > 420
    ensures Encoder(asked, rounds) == 421 && Target(asked, rounds) == FLOOR
  {
    var bad: seq<nat> := seq(asked, _ => TOO_MUCH);
    BadRounds(asked, bad);
    var grown: seq<nat> := bad + [0];
    assert grown[..|bad|] == bad;
    assert Target(asked, grown) == 421 && Encoder(asked, grown) == 421;
    rounds := grown + [TOO_MUCH];
    assert rounds[..|grown|] == grown;
  }

  lemma {:induction false} BadRounds(asked: Word, rounds: seq<nat>)
    requires asked >= FLOOR && forall i :: 0 <= i < |rounds| ==> rounds[i] >= TOO_MUCH
    ensures FLOOR <= Target(asked, rounds) <= Max(FLOOR, asked - |rounds|)
  {
    if rounds != [] { BadRounds(asked, rounds[..|rounds| - 1]); }
  }

  /** With the bitrates the settings allow, no product or sum here leaves 32 bits. */
  lemma NothingOverflows(asked: Word, rounds: seq<nat>, worst: nat)
    requires asked <= 200_000
    ensures var t := Target(asked, rounds);
      t + (t as real * CREEP).Floor + 1 < U32 && Abs(t - NextTarget(Max(asked, FLOOR), t, worst)) * 20 < U32
  {
    TargetInRange(asked, rounds);
    TargetInRange(asked, rounds + [worst]);
    assert (rounds + [worst])[..|rounds|] == rounds;
  }

  // ------------------------------------------------------------------ how fast

  function AfterClean(ceiling: nat, target: nat, n: nat): nat {
    if n == 0 then target else Up(ceiling, AfterClean(ceiling, target, n - 1))
  }

  lemma UpGrows(ceiling: nat, target: nat)
    ensures Up(ceiling, target) == ceiling || 20 * Up(ceiling, target) > 21 * target
    ensures target <= ceiling ==> target <= Up(ceiling, target) <= ceiling
  {
  }

  lemma FiveRounds(ceiling: nat, target: nat, n: nat)
    requires AfterClean(ceiling, target, n) <= ceiling
    ensures var a, b := AfterClean(ceiling, target, n), AfterClean(ceiling, target, n + 5);
      b <= ceiling && (b == ceiling || 1000 * b >= 1276 * a)
  {
    var a := AfterClean(ceiling, target, n);
    var b := Up(ceiling, a);
    var c := Up(ceiling, b);
    var d := Up(ceiling, c);
    var e := Up(ceiling, d);
    UpGrows(ceiling, a);
    UpGrows(ceiling, b);
    UpGrows(ceiling, c);
    UpGrows(ceiling, d);
    UpGrows(ceiling, e);
    assert AfterClean(ceiling, target, n + 1) == b;
    assert AfterClean(ceiling, target, n + 2) == c;
    assert AfterClean(ceiling, target, n + 3) == d;
    assert AfterClean(ceiling, target, n + 4) == e;
  }

  /** Fifteen clean seconds make up for a halving. */
  lemma FifteenRoundsDouble(ceiling: nat, target: nat, n: nat)
    requires AfterClean(ceiling, target, n) <= ceiling
    ensures var a, b := AfterClean(ceiling, target, n), AfterClean(ceiling, target, n + 15);
      b <= ceiling && (b == ceiling || b >= 2 * a)
  {
    FiveRounds(ceiling, target, n);
    FiveRounds(ceiling, target, n + 5);
    FiveRounds(ceiling, target, n + 10);
  }

  function Doublings(target: nat, ceiling: nat): nat
    requires target > 0
    decreases ceiling - target
  {
    if target >= ceiling then 0 else 1 + Doublings(2 * target, ceiling)
  }

  function Doubled(target: nat, k: nat): nat { if k == 0 then target else 2 * Doubled(target, k - 1) }

  lemma {:induction false} DoubledIsEnough(target: nat, ceiling: nat)
    requires target > 0
    ensures Doubled(target, Doublings(target, ceiling)) >= ceiling
    decreases ceiling - target
  {
    if target < ceiling {
      DoubledIsEnough(2 * target, ceiling);
      DoubledFirst(target, Doublings(2 * target, ceiling));
    }
  }

  lemma {:induction false} DoubledFirst(target: nat, k: nat)
    ensures Doubled(2 * target, k) == Doubled(target, k + 1)
  {
    if k > 0 { DoubledFirst(target, k - 1); }
  }

  lemma {:induction false} CleanRoundsDouble(ceiling: nat, target: nat, k: nat)
    requires target <= ceiling
    ensures Min(ceiling, Doubled(target, k)) <= AfterClean(ceiling, target, 15 * k) <= ceiling
  {
    if k > 0 {
      CleanRoundsDouble(ceiling, target, k - 1);
      FifteenRoundsDouble(ceiling, target, 15 * (k - 1));
      assert 15 * (k - 1) + 15 == 15 * k;
    }
  }

  /** From anywhere, fifteen clean rounds for every doubling that is missing bring the share back to what was asked
      for, and it stays. */
  lemma CleanRoundsReachTheCeiling(ceiling: nat, target: nat, more: nat)
    requires 0 < target <= ceiling
    ensures AfterClean(ceiling, target, 15 * Doublings(target, ceiling) + more) == ceiling
    decreases more
  {
    if more == 0 {
      DoubledIsEnough(target, ceiling);
      CleanRoundsDouble(ceiling, target, Doublings(target, ceiling));
    } else {
      CleanRoundsReachTheCeiling(ceiling, target, more - 1);
    }
  }

  /** And two bad rounds halve it, down to the floor. */
  lemma TwoBadRoundsHalve(target: nat)
    requires target >= FLOOR
    ensures FLOOR <= Down(Down(target)) <= Max(FLOOR, target / 2)
  {
    assert 10 * Down(target) <= Max(7 * target, 10 * FLOOR);
    assert 10 * Down(Down(target)) <= Max(7 * Down(target), 10 * FLOOR);
  }
}
