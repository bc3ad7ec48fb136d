/** From a pipe's bytes to the packets of a screen share's sound, whatever sizes the pipe hands them over in. */
module Packer {
  import opened Arith
  import opened Common

  /** Interleaved samples to a packet, and samples of each channel to one. */
  const FRAME_SAMPLES: nat := 1_920
  const VOICE_FRAME_SAMPLES: nat := 960

  // ------------------------------------------------------------------ bytes into samples

  /** A sample's bits, from its bytes, lowest first. */
  function FromLe(b: seq<Byte>): (w: Word)
    requires |b| == 4
  {
    var b0: int, b1: int, b2: int, b3: int := b[0], b[1], b[2], b[3];
    b0 + 0x100 * b1 + 0x1_0000 * b2 + 0x100_0000 * b3
  }

  function Samples(bytes: seq<Byte>): (s: seq<Word>)
    ensures 4 * |s| <= |bytes| < 4 * |s| + 4
  {
    if |bytes| < 4 then [] else [FromLe(bytes[..4])] + Samples(bytes[4..])
  }

  /** The bytes after the last whole sample. */
  function Odd(bytes: seq<Byte>): (r: seq<Byte>)
    ensures |r| < 4
  {
    if |bytes| < 4 then bytes else Odd(bytes[4..])
  }

  /** Sample `k` is made of the stream's bytes `4k` to `4k + 3`, and nothing but the tail is held back. */
  lemma {:induction false} SamplesAreGroups(bytes: seq<Byte>)
    ensures forall k :: 0 <= k < |Samples(bytes)| ==> Samples(bytes)[k] == FromLe(bytes[4 * k..4 * k + 4])
    ensures Odd(bytes) == bytes[4 * |Samples(bytes)|..]
    decreases |bytes|
  {
    if |bytes| >= 4 {
      var tail := bytes[4..];
      SamplesAreGroups(tail);
      forall k | 0 < k < |Samples(bytes)|
        ensures Samples(bytes)[k] == FromLe(bytes[4 * k..4 * k + 4])
      {
        assert Samples(bytes)[k] == Samples(tail)[k - 1];
        assert tail[4 * (k - 1)..4 * (k - 1) + 4] == bytes[4 * k..4 * k + 4];
      }
      assert tail[4 * |Samples(tail)|..] == bytes[4 * |Samples(bytes)|..];
    }
  }

  /** Within a sample the first byte is the lowest: each is the remainder by 256 of what is left above the last. */
  lemma LowestByteFirst(bytes: seq<Byte>, k: nat)
    requires k < |Samples(bytes)|
    ensures var s := Samples(bytes)[k];
      && s % 256 == bytes[4 * k] && s / 256 % 256 == bytes[4 * k + 1]
      && s / 256 / 256 % 256 == bytes[4 * k + 2] && s / 256 / 256 / 256 == bytes[4 * k + 3]
  {
    SamplesAreGroups(bytes);
    BytesOf(bytes[4 * k..4 * k + 4]);
  }

  lemma BytesOf(b: seq<Byte>)
    requires |b| == 4
    ensures var s := FromLe(b);
      s % 256 == b[0] && s / 256 % 256 == b[1] && s / 256 / 256 % 256 == b[2] && s / 256 / 256 / 256 == b[3]
  {
  }

  /** A cut between two chunks makes no difference as long as the odd bytes are carried over it. */
  lemma {:induction false} CutAnywhere(a: seq<Byte>, b: seq<Byte>)
    ensures Samples(a + b) == Samples(a) + Samples(Odd(a) + b)
    ensures Odd(a + b) == Odd(Odd(a) + b)
    decreases |a|
  {
    if |a| < 4 {
      assert Samples(a) == [];
    } else {
      assert (a + b)[..4] == a[..4] && (a + b)[4..] == a[4..] + b;
      CutAnywhere(a[4..], b);
    }
  }

  lemma OneSample(bytes: seq<Byte>, i: nat)
    requires 4 * i + 4 <= |bytes|
    ensures Samples(bytes[..4 * i + 4]) == Samples(bytes[..4 * i]) + [FromLe(bytes[4 * i..4 * i + 4])]
    ensures Odd(bytes[..4 * i + 4]) == []
  {
    var a, b := bytes[..4 * i], bytes[4 * i..4 * i + 4];
    assert bytes[..4 * i + 4] == a + b;
    NothingOdd(a, i);
    CutAnywhere(a, b);
    OneGroup(b);
  }

  lemma {:induction false} NothingOdd(bytes: seq<Byte>, i: nat)
    requires |bytes| == 4 * i
    ensures Odd(bytes) == []
  {
    if i > 0 { NothingOdd(bytes[4..], i - 1); }
  }

  lemma OneGroup(b: seq<Byte>)
    requires |b| == 4
    ensures Samples([] + b) == [FromLe(b)] && Odd([] + b) == []
  {
    assert [] + b == b && b[..4] == b && Samples(b[4..]) == [];
  }

  // ------------------------------------------------------------------ samples into packets

  datatype Packet = Packet(number: Word, timestamp: Word, block: seq<Word>)

  /** The packet sent after `n` others. */
  function Numbered(n: nat, block: seq<Word>): Packet {
    Packet((n + 1) % U32, (VOICE_FRAME_SAMPLES * (n + 1)) % U32, block)
  }

  /** What is sent of a stream of samples, `k` blocks and `n` packets into it. `encodes` says of each block whether the
      encoder takes it; one it refuses is skipped. */
  function Packed(samples: seq<Word>, encodes: nat -> bool, k: nat, n: nat): seq<Packet>
    decreases |samples|
  {
    if |samples| < FRAME_SAMPLES then []
    else
      var rest := samples[FRAME_SAMPLES..];
      if encodes(k) then [Numbered(n, samples[..FRAME_SAMPLES])] + Packed(rest, encodes, k + 1, n + 1)
      else Packed(rest, encodes, k + 1, n)
  }

  lemma PackedOne(sent: seq<Packet>, samples: seq<Word>, encodes: nat -> bool, k: nat, one: seq<Packet>)
    requires |samples| >= FRAME_SAMPLES
    requires one == if encodes(k) then [Numbered(|sent|, samples[..FRAME_SAMPLES])] else []
    ensures sent + Packed(samples, encodes, k, |sent|)
         == sent + one + Packed(samples[FRAME_SAMPLES..], encodes, k + 1, |sent + one|)
  {
  }

  function Blocks(samples: seq<Word>): nat
    decreases |samples|
  {
    if |samples| < FRAME_SAMPLES then 0 else 1 + Blocks(samples[FRAME_SAMPLES..])
  }

  function Pending(samples: seq<Word>): (r: seq<Word>)
    ensures |r| < FRAME_SAMPLES
    decreases |samples|
  {
    if |samples| < FRAME_SAMPLES then samples else Pending(samples[FRAME_SAMPLES..])
  }

  lemma {:induction false} PackedInParts(a: seq<Word>, b: seq<Word>, encodes: nat -> bool, k: nat, n: nat)
    ensures Packed(a + b, encodes, k, n)
         == Packed(a, encodes, k, n) + Packed(Pending(a) + b, encodes, k + Blocks(a), n + |Packed(a, encodes, k, n)|)
    ensures Pending(a + b) == Pending(Pending(a) + b)
    ensures Blocks(a + b) == Blocks(a) + Blocks(Pending(a) + b)
    decreases |a|
  {
    if |a| >= FRAME_SAMPLES {
      assert (a + b)[..FRAME_SAMPLES] == a[..FRAME_SAMPLES] && (a + b)[FRAME_SAMPLES..] == a[FRAME_SAMPLES..] + b;
      PackedInParts(a[FRAME_SAMPLES..], b, encodes, k + 1, if encodes(k) then n + 1 else n);
    }
  }

  /** With an encoder that takes everything, packet `i` is block `i` of the stream, none lost, repeated or spliced; the
      numbers rise by one and the timestamps by a frame; and less than a packet is held back. */
  lemma {:induction false} PacketsAreBlocks(samples: seq<Word>, k: nat, n: nat)
    ensures var packets := Packed(samples, _ => true, k, n);
      && |packets| == |samples| / 1920
      && (forall i :: 0 <= i < |packets| ==>
            && packets[i].block == samples[1920 * i..1920 * i + 1920]
            && packets[i].number == (n + i + 1) % U32 && packets[i].timestamp == 960 * (n + i + 1) % U32)
      && Pending(samples) == samples[FRAME_SAMPLES * |packets|..]
    decreases |samples|
  {
    if |samples| >= FRAME_SAMPLES {
      var rest := samples[FRAME_SAMPLES..];
      PacketsAreBlocks(rest, k + 1, n + 1);
      var packets, later := Packed(samples, _ => true, k, n), Packed(rest, _ => true, k + 1, n + 1);
      assert packets == [Numbered(n, samples[..FRAME_SAMPLES])] + later;
      forall i | 0 < i < |packets|
        ensures packets[i] == Numbered(n + i, samples[FRAME_SAMPLES * i..FRAME_SAMPLES * i + FRAME_SAMPLES])
      {
        assert packets[i] == later[i - 1];
        var from := FRAME_SAMPLES * (i - 1);
        assert rest[from..from + FRAME_SAMPLES] == samples[FRAME_SAMPLES * i..FRAME_SAMPLES * i + FRAME_SAMPLES];
      }
    }
  }

  /** From end to end: sample `j` of packet `i` is the stream's group of four bytes number `1920 i + j`. */
  lemma PacketsAreTheStream(stream: seq<Byte>, i: nat, j: nat)
    requires i < |Samples(stream)| / 1920 && j < 1920
    ensures var packets := Packed(Samples(stream), _ => true, 0, 0);
      && i < |packets| && |packets[i].block| == 1920 && 1920 * i + j < |Samples(stream)|
      && packets[i].block[j] == FromLe(stream[4 * (1920 * i + j)..4 * (1920 * i + j) + 4])
  {
    PacketsAreBlocks(Samples(stream), 0, 0);
    SamplesAreGroups(stream);
    assert Packed(Samples(stream), _ => true, 0, 0)[i].block[j] == Samples(stream)[FRAME_SAMPLES * i + j];
  }

  class Packer {
    const encodes: nat -> bool
    var pending: seq<Word>
    var number: Word
    var timestamp: Word
    /** How many blocks the encoder has been given. */
    var offered: nat
    /** Everything the transport was given. */
    var sent: seq<Packet>
    /** Everything ever fed. */
    ghost var fed: seq<Word>

    ghost predicate Valid()
      reads this
    {
      && sent == Packed(fed, encodes, 0, 0) && pending == Pending(fed) && offered == Blocks(fed)
      && number == |sent| % U32 && timestamp == (VOICE_FRAME_SAMPLES * |sent|) % U32
    }

    constructor (encodes: nat -> bool)
      ensures Valid() && fed == [] && sent == [] && this.encodes == encodes
    {
      this.encodes := encodes;
      pending, number, timestamp, offered, sent, fed := [], 0, 0, 0, [], [];
    }

    method Feed(samples: seq<Word>)
      requires Valid()
      modifies this
      ensures Valid() && fed == old(fed) + samples
    {
      ghost var was, all := sent, fed + samples;
      PackedInParts(fed, samples, encodes, 0, 0);
      pending := pending + samples;
      while |pending| >= FRAME_SAMPLES
        invariant was <= sent && Packed(all, encodes, 0, 0) == sent + Packed(pending, encodes, offered, |sent|)
        invariant Pending(all) == Pending(pending) && Blocks(all) == offered + Blocks(pending)
        invariant number == |sent| % U32 && timestamp == (VOICE_FRAME_SAMPLES * |sent|) % U32
        invariant fed == old(fed)
        decreases |pending|
      {
        ghost var one := if encodes(offered) then [Numbered(|sent|, pending[..FRAME_SAMPLES])] else [];
        PackedOne(sent, pending, encodes, offered, one);
        FeedBlock();
      }
      fed := all;
    }

    /** The first block of what is pending goes to the encoder. */
    method FeedBlock()
      requires |pending| >= FRAME_SAMPLES
      requires number == |sent| % U32 && timestamp == (VOICE_FRAME_SAMPLES * |sent|) % U32
      modifies `pending, `offered, `number, `timestamp, `sent
      ensures pending == old(pending)[FRAME_SAMPLES..] && offered == old(offered) + 1
      ensures number == |sent| % U32 && timestamp == (VOICE_FRAME_SAMPLES * |sent|) % U32
      ensures sent == old(sent) + if encodes(old(offered))
                                  then [Numbered(|old(sent)|, old(pending)[..FRAME_SAMPLES])] else []
    {
      var block := pending[..FRAME_SAMPLES];
      pending := pending[FRAME_SAMPLES..];
      var taken := encodes(offered);
      offered := offered + 1;
      if taken { SendBlock(block); }
    }

    method SendBlock(block: seq<Word>)
      requires number == |sent| % U32 && timestamp == (VOICE_FRAME_SAMPLES * |sent|) % U32
      modifies `number, `timestamp, `sent
      ensures sent == old(sent) + [Numbered(|old(sent)|, block)]
      ensures number == |sent| % U32 && timestamp == (VOICE_FRAME_SAMPLES * |sent|) % U32
    {
      ModAdd(|sent|, 1, U32);
      ModAdd(VOICE_FRAME_SAMPLES * |sent|, VOICE_FRAME_SAMPLES, U32);
      number := (number + 1) % U32;
      timestamp := (timestamp + VOICE_FRAME_SAMPLES) % U32;
      sent := sent + [Packet(number, timestamp, block)];
    }
  }

  // ------------------------------------------------------------------ the pipe

  /** The whole samples in the carried bytes and a read together, and the bytes to carry on. */
  method Split(carried: seq<Byte>, raw: seq<Byte>) returns (samples: seq<Word>, odd: seq<Byte>)
    requires |carried| < 4
    ensures samples == Samples(carried + raw) && odd == Odd(carried + raw)
  {
    samples, odd := [], carried;
    var next := 0;
    while |odd| < 4 && next < |raw|
      invariant next <= |raw| && |odd| <= 4 && odd == carried + raw[..next]
    {
      odd := odd + [raw[next]];
      next := next + 1;
    }
    var rest := raw[next..];
    ghost var whole := carried + raw;
    assert whole == odd + rest;
    if |odd| == 4 {
      samples := [FromLe(odd)];
      assert whole[..4] == odd && whole[4..] == rest;
      odd := [];
    } else {
      assert rest == [] && whole == odd;
    }
    assert samples + Samples(rest) == Samples(whole) && odd + Odd(rest) == Odd(whole);
    var more, tail := Chunks(rest);
    samples, odd := samples + more, odd + tail;
  }

  /** `chunks_exact(4)`, and the remainder. */
  method Chunks(rest: seq<Byte>) returns (samples: seq<Word>, tail: seq<Byte>)
    ensures samples == Samples(rest) && tail == Odd(rest)
  {
    samples := [];
    var groups := |rest| / 4;
    for i := 0 to groups
      invariant samples == Samples(rest[..4 * i])
    {
      OneSample(rest, i);
      samples := samples + [FromLe(rest[4 * i..4 * i + 4])];
    }
    tail := rest[4 * groups..];
    SamplesAreGroups(rest[..4 * groups]);
    CutAnywhere(rest[..4 * groups], tail);
    assert rest[..4 * groups] + tail == rest;
    assert Odd(rest[..4 * groups]) + tail == tail;
  }

  class Pump {
    const packer: Packer
    var odd: seq<Byte>
    /** Everything read from the pipe. */
    ghost var stream: seq<Byte>

    ghost predicate Valid()
      reads this, packer
    {
      packer.Valid() && packer.fed == Samples(stream) && odd == Odd(stream)
    }

    constructor (encodes: nat -> bool)
      ensures Valid() && stream == [] && fresh(packer) && packer.encodes == encodes
    {
      packer := new Packer(encodes);
      odd, stream := [], [];
    }

    /** One read, of whatever size. */
    method Read(raw: seq<Byte>)
      requires Valid()
      modifies this, packer
      ensures Valid() && stream == old(stream) + raw
    {
      CutAnywhere(stream, raw);
      var samples: seq<Word>;
      samples, odd := Split(odd, raw);
      packer.Feed(samples);
      stream := stream + raw;
    }

    /** The pump's loop: until the pipe says it is finished, with a read of nothing, or the share is stopped before a
        read. */
    method Run(chunks: seq<seq<Byte>>, stopped: nat -> bool)
      requires Valid()
      modifies this, packer
      ensures Valid() && stream == old(stream) + Flat(UntilFinished(chunks, stopped))
    {
      assert stream + Flat([]) == stream;
      for i := 0 to |chunks|
        invariant Valid() && stream == old(stream) + Flat(chunks[..i])
        invariant forall j: nat :: j < i ==> GoesOn(chunks, stopped, j)
      {
        if stopped(i) || chunks[i] == [] {
          UntilIsPrefix(chunks, stopped, i);
          return;
        }
        assert chunks[..i + 1] == chunks[..i] + [chunks[i]];
        FlatSnoc(chunks[..i], chunks[i]);
        Associative(old(stream), Flat(chunks[..i]), chunks[i]);
        Read(chunks[i]);
      }
      assert chunks[..|chunks|] == chunks;
      UntilIsPrefix(chunks, stopped, |chunks|);
    }
  }

  predicate GoesOn(chunks: seq<seq<Byte>>, stopped: nat -> bool, j: nat)
    requires j < |chunks|
  {
    !stopped(j) && chunks[j] != []
  }

  /** The reads the loop makes of those the pipe has, `k` of them made already. */
  function UntilFinished(chunks: seq<seq<Byte>>, stopped: nat -> bool, k: nat := 0): seq<seq<Byte>>
    requires k <= |chunks|
    decreases |chunks| - k
  {
    if k == |chunks| || !GoesOn(chunks, stopped, k) then [] else [chunks[k]] + UntilFinished(chunks, stopped, k + 1)
  }

  lemma UntilIsPrefix(chunks: seq<seq<Byte>>, stopped: nat -> bool, n: nat)
    requires n <= |chunks| && forall j: nat :: j < n ==> GoesOn(chunks, stopped, j)
    requires n == |chunks| || !GoesOn(chunks, stopped, n)
    ensures UntilFinished(chunks, stopped) == chunks[..n]
  {
    UntilFrom(chunks, stopped, n, 0);
  }

  lemma {:induction false} UntilFrom(chunks: seq<seq<Byte>>, stopped: nat -> bool, n: nat, k: nat)
    requires k <= n <= |chunks| && forall j: nat :: j < n ==> GoesOn(chunks, stopped, j)
    requires n == |chunks| || !GoesOn(chunks, stopped, n)
    ensures UntilFinished(chunks, stopped, k) == chunks[k..n]
    decreases n - k
  {
    if k < n { UntilFrom(chunks, stopped, n, k + 1); }
  }
}
