/** The ring of samples on its array, as one thread at a time sees it, and its index arithmetic. */
module Ring {
  import opened Arith
  import opened Common

  /** The 32 bits a cell holds: `f32::to_bits` in, `f32::from_bits` out. */
  type Bits = b: nat | b < 0x1_0000_0000

  // ------------------------------------------------------------------ masks

  predicate PowerOfTwo(c: nat) {
    c == 1 || (c > 1 && c % 2 == 0 && PowerOfTwo(c / 2))
  }

  /** The first power of two at or above `n`, searching upwards from `p`. */
  function NextPowerOfTwo(n: nat, p: nat := 1): (c: nat)
    requires PowerOfTwo(p) && (p == 1 || p / 2 < n)
    ensures PowerOfTwo(c) && c >= n && (c == 1 || c / 2 < n)
    decreases n - p
  {
    if p >= n then p else NextPowerOfTwo(n, 2 * p)
  }

  /** Bitwise `&`. */
  function And(x: nat, y: nat): nat {
    if x == 0 || y == 0 then 0 else (x % 2) * (y % 2) + 2 * And(x / 2, y / 2)
  }

  /** Bit `k` of a number. */
  function Bit(x: nat, k: nat): nat { if k == 0 then x % 2 else Bit(x / 2, k - 1) }

  /** Bit by bit: one exactly where both are. */
  lemma {:induction false} BitOfAnd(x: nat, y: nat, k: nat)
    ensures Bit(And(x, y), k) == if Bit(x, k) == 1 && Bit(y, k) == 1 then 1 else 0
  {
    if x == 0 || y == 0 {
      NoBits(k);
    } else if k > 0 {
      BitOfAnd(x / 2, y / 2, k - 1);
    }
  }

  lemma {:induction false} NoBits(k: nat)
    ensures Bit(0, k) == 0
  {
    if k > 0 { NoBits(k - 1); }
  }

  lemma HalveBoth(x: nat, c: nat, h: nat)
    requires c > 0 && c == 2 * h
    ensures x % c == 2 * ((x / 2) % h) + x % 2
  {
    var q, r := (x / 2) / h, (x / 2) % h;
    assert x / 2 == h * q + r;
    assert 2 * (h * q) == c * q;
    DivModUnique(x, c, q, 2 * r + x % 2);
  }

  /** Masking with `capacity - 1` is a remainder, because the capacity is a power of two. */
  lemma {:induction false} MaskIsRemainder(x: nat, c: nat)
    requires PowerOfTwo(c)
    ensures And(x, c - 1) == x % c
  {
    if c == 1 {
    } else if x == 0 {
      DivModUnique(0, c, 0, 0);
    } else {
      HalveBoth(x, c, c / 2);
      MaskIsRemainder(x / 2, c / 2);
      assert (c - 1) / 2 == c / 2 - 1 && (c - 1) % 2 == 1;
    }
  }

  lemma {:induction false} PowersDivide(a: nat, b: nat)
    requires PowerOfTwo(a) && PowerOfTwo(b) && a <= b
    ensures b / a > 0 && b == a * (b / a)
  {
    if a > 1 {
      PowersDivide(a / 2, b / 2);
      var k := (b / 2) / (a / 2);
      assert a * k == 2 * ((a / 2) * k);
      DivModUnique(b, a, k, 0);
    }
  }

  lemma {:induction false} PowersMultiply(a: nat, b: nat)
    requires PowerOfTwo(a) && PowerOfTwo(b)
    ensures PowerOfTwo(a * b)
    decreases a
  {
    if a > 1 {
      PowersMultiply(a / 2, b);
      assert a * b == 2 * ((a / 2) * b);
    }
  }

  lemma WordIsPowerOfTwo()
    ensures PowerOfTwo(U64)
  {
    PowersMultiply(16, 16);
    PowersMultiply(0x100, 0x100);
    PowersMultiply(0x1_0000, 0x1_0000);
    PowersMultiply(0x1_0000_0000, 0x1_0000_0000);
  }

  ghost predicate Capacity(cap: nat) {
    2 <= cap <= U64 && PowerOfTwo(cap)
  }

  /** Where an index less than two laps out lands. */
  function Wrap(i: int, cap: nat): int {
    if i < 0 then i + cap else if i < cap then i else i - cap
  }

  lemma WrapIsRemainder(i: int, cap: nat)
    requires cap > 0 && 0 <= i + cap && i < 2 * cap
    ensures Wrap(i, cap) == i % cap
  {
    DivModUnique(i, cap, if i < 0 then -1 else if i < cap then 0 else 1, Wrap(i, cap));
  }

  /** `i & mask`. */
  function Slot(i: nat, cap: nat): (s: nat)
    requires Capacity(cap) && i < 2 * cap
    ensures s == Wrap(i, cap) < cap
  {
    WrapIsRemainder(i, cap);
    MaskIsRemainder(i, cap);
    And(i, cap - 1)
  }

  /** `write.wrapping_sub(read) & mask`, on 64-bit words. */
  function Occupied(write: nat, read: nat, cap: nat): (n: nat)
    requires Capacity(cap) && write < cap && read < cap
    ensures n == Wrap(write - read, cap) < cap
  {
    WordIsPowerOfTwo();
    PowersDivide(cap, U64);
    ModMod(write - read, cap, U64 / cap);
    WrapIsRemainder(write - read, cap);
    MaskIsRemainder((write - read) % U64, cap);
    And((write - read) % U64, cap - 1)
  }

  // ------------------------------------------------------------------ one thread at a time

  /** The `n` cells from `from` on, going round. */
  function Window(cells: seq<Bits>, from: nat, n: nat): (w: seq<Bits>)
    requires from < |cells| && n <= |cells|
    ensures |w| == n && forall i :: 0 <= i < n ==> w[i] == cells[Wrap(from + i, |cells|)]
  {
    seq(n, i requires 0 <= i < n => cells[Wrap(from + i, |cells|)])
  }

  /** Counting on from the writer's index and from the reader's comes to the same slot. */
  lemma NextSlot(write: nat, read: nat, cap: nat, i: nat)
    requires Capacity(cap) && write < cap && read < cap && Occupied(write, read, cap) + i < cap
    ensures Slot(write + i, cap) == Wrap(read + (Occupied(write, read, cap) + i), cap)
    ensures Occupied(Slot(write + i, cap), read, cap) == Occupied(write, read, cap) + i
  {
  }

  lemma NextUnread(write: nat, read: nat, cap: nat, i: nat)
    requires Capacity(cap) && write < cap && read < cap && i <= Occupied(write, read, cap)
    ensures Slot(read + i, cap) == Wrap(read + i, cap)
    ensures Occupied(write, Slot(read + i, cap), cap) == Occupied(write, read, cap) - i
  {
  }

  lemma OneMoreCopied(waiting: seq<Bits>, tail: seq<Bits>, i: nat)
    requires i < |waiting| && i < |tail|
    ensures (waiting[..i] + tail[i..])[i := waiting[i]] == waiting[..i + 1] + tail[i + 1..]
  {
  }

  /** Storing just past a window that leaves a cell free appends to it. */
  lemma WindowAppend(cells: seq<Bits>, from: nat, n: nat, x: Bits)
    requires from < |cells| && n < |cells|
    ensures Window(cells[Wrap(from + n, |cells|) := x], from, n + 1) == Window(cells, from, n) + [x]
  {
    var after := Window(cells[Wrap(from + n, |cells|) := x], from, n + 1);
    assert forall i :: 0 <= i < n ==> after[i] == Window(cells, from, n)[i];
  }

  /** Shorter windows do not see the store. */
  lemma WindowKept(cells: seq<Bits>, from: nat, n: nat, x: Bits, k: nat)
    requires from < |cells| && k <= n < |cells|
    ensures Window(cells[Wrap(from + n, |cells|) := x], from, k) == Window(cells, from, k)
  {
    var after := Window(cells[Wrap(from + n, |cells|) := x], from, k);
    assert forall i :: 0 <= i < k ==> after[i] == Window(cells, from, k)[i];
  }

  /** Moving the start of a window on drops its oldest cells. */
  lemma WindowDrop(cells: seq<Bits>, from: nat, n: nat, k: nat)
    requires from < |cells| && k <= n < |cells|
    ensures Window(cells, Wrap(from + k, |cells|), n - k) == Window(cells, from, n)[k..]
  {
    var after := Window(cells, Wrap(from + k, |cells|), n - k);
    assert forall i :: 0 <= i < n - k ==> after[i] == Window(cells, from, n)[k + i];
  }

  /** What is stored past the unread window stays behind it when the window's start moves on. */
  lemma WindowMovesOn(cells: seq<Bits>, from: nat, accepted: seq<Bits>, c: nat, stored: seq<Bits>, k: nat)
    requires from < |cells| && c + k <= |accepted| && |accepted| - c + |stored| < |cells|
    requires Window(cells, from, |accepted| - c + |stored|) == accepted[c..] + stored
    ensures Window(cells, Wrap(from + k, |cells|), |accepted| - c - k + |stored|) == accepted[c + k..] + stored
  {
    WindowDrop(cells, from, |accepted| - c + |stored|, k);
    DropMore(accepted, c, stored, k);
  }

  class Ring {
    const cells: array<Bits>
    var read: nat
    var write: nat

    ghost predicate Valid()
      reads this
    {
      Capacity(cells.Length) && read < cells.Length && write < cells.Length
    }

    /** What is waiting, oldest first. */
    ghost function Contents(): seq<Bits>
      requires Valid()
      reads this, cells
    {
      Window(cells[..], read, Occupied(write, read, cells.Length))
    }

    constructor (wanted: nat)
      requires wanted <= 0x8000_0000_0000_0000
      ensures Valid() && fresh(cells) && Contents() == []
      ensures cells.Length >= wanted && cells.Length == Max(NextPowerOfTwo(wanted), 2)
    {
      var capacity := Max(NextPowerOfTwo(wanted), 2);
      cells := new Bits[capacity](_ => 0);
      read, write := 0, 0;
    }

    method Len() returns (n: nat)
      requires Valid()
      ensures n == |Contents()| < cells.Length
    {
      n := Occupied(write, read, cells.Length);
    }

    /** Everything that fits is appended, in order; the overflow is dropped. */
    method Push(samples: seq<Bits>) returns (taken: nat)
      requires Valid()
      modifies `write, cells
      ensures Valid() && read == old(read)
      ensures taken == Min(|samples|, cells.Length - 1 - |old(Contents())|)
      ensures Contents() == old(Contents()) + samples[..taken]
    {
      var cap := cells.Length;
      var occupied := Occupied(write, read, cap);
      var free := cap - 1 - occupied;
      taken := Min(|samples|, free);
      StoreAll(samples, taken);
      NextSlot(write, read, cap, taken);
      write := Slot(write + taken, cap);
    }

    method StoreAll(samples: seq<Bits>, taken: nat)
      requires Valid() && taken <= |samples| && Occupied(write, read, cells.Length) + taken < cells.Length
      modifies cells
      ensures Window(cells[..], read, Occupied(write, read, cells.Length) + taken)
           == old(Contents()) + samples[..taken]
    {
      ghost var waiting, occupied := Contents(), Occupied(write, read, cells.Length);
      for i := 0 to taken
        invariant Window(cells[..], read, occupied + i) == waiting + samples[..i]
      {
        Store(i, samples[i]);
        TakeMore(waiting, samples, i);
      }
    }

    method Store(i: nat, x: Bits)
      requires Valid() && Occupied(write, read, cells.Length) + i < cells.Length
      modifies cells
      ensures var n := Occupied(write, read, cells.Length) + i;
              Window(cells[..], read, n + 1) == old(Window(cells[..], read, n)) + [x]
    {
      var cap := cells.Length;
      NextSlot(write, read, cap, i);
      WindowAppend(cells[..], read, Occupied(write, read, cap) + i, x);
      cells[Slot(write + i, cap)] := x;
    }

    /** As many of the oldest waiting samples as there is room for, in order; the rest of `out` keeps what it held. */
    method Pop(out: array<Bits>) returns (taken: nat)
      requires Valid() && out != cells
      modifies `read, out
      ensures Valid() && write == old(write)
      ensures taken == Min(out.Length, |old(Contents())|)
      ensures out[..] == old(Contents())[..taken] + old(out[..])[taken..]
      ensures Contents() == old(Contents())[taken..]
    {
      taken := Min(out.Length, Occupied(write, read, cells.Length));
      CopyOut(out, taken);
      NextUnread(write, read, cells.Length, taken);
      WindowDrop(cells[..], read, Occupied(write, read, cells.Length), taken);
      read := Slot(read + taken, cells.Length);
    }

    method CopyOut(out: array<Bits>, taken: nat)
      requires Valid() && out != cells && taken <= out.Length && taken <= |Contents()|
      modifies out
      ensures out[..] == Contents()[..taken] + old(out[..])[taken..]
    {
      ghost var waiting, tail := Contents(), out[..];
      for i := 0 to taken
        invariant Contents() == waiting
        invariant out[..] == waiting[..i] + tail[i..]
      {
        OneMoreCopied(waiting, tail, i);
        out[i] := cells[Slot(read + i, cells.Length)];
      }
    }

    method Clear()
      requires Valid()
      modifies `read
      ensures Valid() && write == old(write) && Contents() == []
    {
      read := write;
    }
  }
}
