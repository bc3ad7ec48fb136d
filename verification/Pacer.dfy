/** A schedule that charges every datagram by its size. Times are nanoseconds on a monotone clock. */
module Pacer {
  import opened Arith
  import opened Common

  const NANOBITS := 8_000_000_000
  const FLOOR_BITS := 3_000_000
  const NOT_WORTH_SLEEPING := 100_000

  /** Bits a second: half again the target, with a floor. */
  function Ceiling(kbps: Word): (bits: nat)
    ensures bits >= FLOOR_BITS
  {
    Max(kbps * 3 * 1_000 / 2, FLOOR_BITS)
  }

  function PerByte(kbps: Word): nat { Max(NANOBITS / Ceiling(kbps), 1) }

  /** In kilobits: half as much again as was asked for, from 2000 kbit/s on, and 3000 below that. */
  lemma HalfAgain(kbps: Word)
    ensures kbps >= 2_000 ==> 2 * Ceiling(kbps) == 3 * (1_000 * kbps)
    ensures kbps < 2_000 ==> Ceiling(kbps) == 3_000_000
  {
  }

  /** The quotient is the price of a byte at the ceiling to within one nanosecond, and one is charged when a byte
      would be free. */
  lemma PerByteIsTheCeiling(kbps: Word)
    ensures PerByte(kbps) * Ceiling(kbps) <= Max(NANOBITS, Ceiling(kbps))
    ensures NANOBITS < (PerByte(kbps) + 1) * Ceiling(kbps)
    ensures 1 <= PerByte(kbps) <= NANOBITS / FLOOR_BITS
  {
    var q, c := NANOBITS / Ceiling(kbps), Ceiling(kbps);
    assert q * c <= NANOBITS < (q + 1) * c;
    DivideLess(NANOBITS, FLOOR_BITS, c);
    if q < 1 { assert (PerByte(kbps) + 1) * c >= (q + 1) * c; }
  }

  lemma DivideLess(x: nat, a: nat, b: nat)
    requires 0 < a <= b
    ensures x / b <= x / a
  {
    TimesQuotient(x, b);
    Scaled(a, b, x / b);
    AtMostQuotient(x, a, x / b);
  }

  lemma TimesQuotient(x: nat, b: nat)
    requires 0 < b
    ensures b * (x / b) <= x
  {
  }

  lemma AtMostQuotient(x: nat, a: nat, q: nat)
    requires 0 < a && a * q <= x
    ensures q <= x / a
  {
    if q > x / a { Scaled(x / a + 1, q, a); }
  }

  /** A share configured for more never pays more for a byte. */
  lemma PerByteIsAntitone(less: Word, more: Word)
    requires less <= more
    ensures PerByte(more) <= PerByte(less)
  {
    assert less * 3 * 1_000 / 2 <= more * 3 * 1_000 / 2;
    DivideLess(NANOBITS, Ceiling(less), Ceiling(more));
  }

  // ------------------------------------------------------------------ the pacer

  /** When the datagram after one of this cost may go. */
  function Charged(next: int, now: int, cost: nat): int { Max(next, now) + cost }

  /** Whether a call entered at `now` may return at `released`: never before it was made, nor before a sleep ends. */
  ghost predicate MayRelease(next: int, now: int, released: int) {
    released >= now && (next - now > NOT_WORTH_SLEEPING ==> released >= next)
  }

  class Pacer {
    var next: int
    var perByte: nat

    constructor (now: int, kbps: Word)
      ensures next == now && perByte == PerByte(kbps)
    {
      next, perByte := now, PerByte(kbps);
    }

    method AimAt(kbps: Word)
      modifies `perByte
      ensures perByte == PerByte(kbps)
    {
      var price := PerByte(kbps);
      if price != perByte { perByte := price; }
    }

    /** `late` is how long after the earliest possible moment the scheduler let the caller go on. */
    method Take(now: int, bytes: nat, late: nat) returns (released: int)
      modifies `next
      ensures next == Charged(old(next), now, perByte * bytes)
      ensures MayRelease(old(next), now, released)
      ensures late == 0 ==> released == now || released == old(next)
    {
      released := now + late;
      if next > now {
        var wait := next - now;
        if wait > NOT_WORTH_SLEEPING { released := now + wait + late; }
      } else {
        next := now;
      }
      next := next + perByte * bytes;
    }
  }

  // ------------------------------------------------------------------ whole runs

  /** One call of `take`. The price may change from call to call, as the bitrate does. */
  datatype Sent = Sent(entered: int, released: int, perByte: nat, bytes: nat)

  function Cost(s: Sent): nat { s.perByte * s.bytes }

  /** `next` after some calls. */
  function NextAfter(start: int, sends: seq<Sent>): int
    decreases |sends|
  {
    if sends == [] then start
    else
      var last := sends[|sends| - 1];
      Charged(NextAfter(start, sends[..|sends| - 1]), last.entered, Cost(last))
  }

  /** Every call returned when it was allowed to. */
  ghost predicate Schedule(start: int, sends: seq<Sent>) {
    forall k :: 0 <= k < |sends| ==> Released(start, sends, k)
  }

  ghost predicate Released(start: int, sends: seq<Sent>, k: nat)
    requires k < |sends|
  {
    MayRelease(NextAfter(start, sends[..k]), sends[k].entered, sends[k].released)
  }

  function Total(sends: seq<Sent>, i: nat, j: nat): nat
    requires i <= j <= |sends|
    decreases j
  {
    if i == j then 0 else Total(sends, i, j - 1) + Cost(sends[j - 1])
  }

  lemma NextStep(start: int, sends: seq<Sent>, j: nat)
    requires j < |sends|
    ensures NextAfter(start, sends[..j + 1]) == Charged(NextAfter(start, sends[..j]), sends[j].entered, Cost(sends[j]))
  {
    assert sends[..j + 1][..j] == sends[..j];
  }

  /** From any call on, the next may not go before that call's time and everything charged since. */
  lemma {:induction false} NextIsLate(start: int, sends: seq<Sent>, i: nat, j: nat)
    requires i < j <= |sends|
    ensures NextAfter(start, sends[..j]) >= sends[i].entered + Total(sends, i, j)
    decreases j
  {
    NextStep(start, sends, j - 1);
    if i < j - 1 {
      NextIsLate(start, sends, i, j - 1);
    } else {
      assert Total(sends, i, i) == 0;
    }
  }

  /** The bucket: in any stretch of a run, what was charged is no more than the time the stretch took, and the hundred
      microseconds not worth sleeping for. Nothing is said of the gaps between calls or of late wakers, so neither
      idling nor oversleeping ever buys a burst. */
  lemma TokenBucket(start: int, sends: seq<Sent>, i: nat, j: nat)
    requires Schedule(start, sends) && i <= j < |sends|
    ensures Total(sends, i, j) <= sends[j].released - sends[i].entered + 100_000
  {
    assert Released(start, sends, j);
    if i < j { NextIsLate(start, sends, i, j); }
  }

  /** And it holds nothing back without cause: what `next` says is what some earlier call, or the start, accounts
      for. */
  lemma {:induction false} NextIsAccountedFor(start: int, sends: seq<Sent>) returns (i: nat)
    ensures i <= |sends|
    ensures i < |sends| ==> NextAfter(start, sends) == sends[i].entered + Total(sends, i, |sends|)
    ensures i == |sends| ==> NextAfter(start, sends) == start + Total(sends, 0, |sends|)
    decreases |sends|
  {
    if sends == [] {
      i := 0;
    } else {
      var n := |sends| - 1;
      var before := NextAfter(start, sends[..n]);
      if before < sends[n].entered {
        i := n;
        assert Total(sends, n, n) == 0;
      } else {
        i := NextIsAccountedFor(start, sends[..n]);
        if i == n {
          TotalOfPrefix(sends, 0, n);
          i := n + 1;
        } else {
          TotalOfPrefix(sends, i, n);
        }
      }
    }
  }

  lemma {:induction false} TotalOfPrefix(sends: seq<Sent>, i: nat, j: nat)
    requires i <= j < |sends|
    ensures Total(sends[..|sends| - 1], i, j) == Total(sends, i, j)
    decreases j
  {
    if i < j { TotalOfPrefix(sends, i, j - 1); }
  }

  /** Bytes of a stretch. */
  function Volume(sends: seq<Sent>, i: nat, j: nat): nat
    requires i <= j <= |sends|
    decreases j
  {
    if i == j then 0 else Volume(sends, i, j - 1) + sends[j - 1].bytes
  }

  lemma {:induction false} VolumeAtOnePrice(sends: seq<Sent>, i: nat, j: nat, price: nat)
    requires i <= j <= |sends| && forall k :: i <= k < j ==> sends[k].perByte == price
    ensures Total(sends, i, j) == price * Volume(sends, i, j)
    decreases j
  {
    if i < j {
      VolumeAtOnePrice(sends, i, j - 1, price);
      assert price * Volume(sends, i, j) == price * Volume(sends, i, j - 1) + price * sends[j - 1].bytes;
    }
  }

  /** In bits: a share that keeps its bitrate never outruns one and a half times it (or the floor) by more than the
      rounding of the price and the hundred microseconds. */
  lemma NeverOutrunsTheCeiling(start: int, sends: seq<Sent>, i: nat, j: nat, kbps: Word)
    requires Schedule(start, sends) && i <= j < |sends|
    requires forall k :: i <= k < j ==> sends[k].perByte == PerByte(kbps)
    ensures Volume(sends, i, j) * (NANOBITS - Ceiling(kbps))
         <= (sends[j].released - sends[i].entered + NOT_WORTH_SLEEPING) * Ceiling(kbps)
  {
    TokenBucket(start, sends, i, j);
    VolumeAtOnePrice(sends, i, j, PerByte(kbps));
    PerByteIsTheCeiling(kbps);
    Exchange(Volume(sends, i, j), PerByte(kbps), Ceiling(kbps),
             sends[j].released - sends[i].entered + NOT_WORTH_SLEEPING);
  }

  lemma Exchange(bytes: nat, price: nat, bits: nat, time: int)
    requires price * bytes <= time && NANOBITS < (price + 1) * bits
    ensures bytes * (NANOBITS - bits) <= time * bits
  {
    Scaled(price * bytes, time, bits);
    Scaled(NANOBITS - bits, price * bits, bytes);
    assert price * bytes * bits == price * bits * bytes;
  }

  lemma Scaled(a: int, b: int, c: nat)
    requires a <= b
    ensures a * c <= b * c
  {
  }
}
