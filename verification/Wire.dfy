/** Sending pictures: fragments become numbered datagrams, and the pacer says when each may go. */
module Wire {
  import opened Arith
  import opened Common
  import opened Media
  import P = Pacer

  const MAX_DATAGRAM := 1200

  datatype Datagram = Datagram(header: Header, payload: seq<Byte>)

  /** Bytes on the wire, header and tag included, which is what is charged for. */
  function Size(d: Datagram): nat { |d.payload| + HEADER_LEN + TAG_LEN }

  /** A number that wraps. */
  function Later(seqno: Word, n: nat): (w: Word) { (seqno + n) % U32 }

  function Numbered(keyframe: bool, ssrc: Word, seqno: Word, timestamp: Word, i: nat): Header {
    Header(if keyframe then VideoKey else VideoDelta, ssrc, Later(seqno, i + 1), timestamp)
  }

  /** A picture's datagrams after `seqno` others: one for each fragment, in order, all with its kind and timestamp. */
  function Datagrams(picture: seq<Byte>, keyframe: bool, ssrc: Word, seqno: Word, timestamp: Word): (d: seq<Datagram>)
    ensures |d| == |Chunks(picture)|
  {
    var f := Fragments(picture);
    seq(|f|, i requires 0 <= i < |f| =>
      Datagram(Numbered(keyframe, ssrc, seqno, timestamp, i), Payload(f[i].0, f[i].1, f[i].2)))
  }

  /** Every datagram fits the network's, and what the receiver reads out of it is its piece of the picture, as long as
      the pieces can be counted in 16 bits. */
  lemma DatagramsFit(picture: seq<Byte>, keyframe: bool, ssrc: Word, seqno: Word, timestamp: Word, i: nat)
    requires i < |Chunks(picture)|
    ensures var d := Datagrams(picture, keyframe, ssrc, seqno, timestamp)[i];
      && Size(d) <= MAX_DATAGRAM
      && (|Chunks(picture)| < U16 ==> ReadFragment(d.payload) == Some((i, |Chunks(picture)|, Chunks(picture)[i])))
  {
    if |Chunks(picture)| < U16 { FragmentArrives(picture, i); }
  }

  /** Each datagram charged when it was about to go, for what it takes on the wire. */
  ghost predicate Charges(paced: seq<P.Sent>, d: seq<Datagram>, now: nat -> int, price: nat) {
    |paced| <= |d| && forall i :: 0 <= i < |paced| ==>
      paced[i].entered == now(i) && paced[i].perByte == price && paced[i].bytes == Size(d[i])
  }

  lemma OneMoreCharged(paced: seq<P.Sent>, d: seq<Datagram>, now: nat -> int, price: nat, one: P.Sent)
    requires Charges(paced, d, now, price) && |paced| < |d|
    requires one.entered == now(|paced|) && one.perByte == price && one.bytes == Size(d[|paced|])
    ensures Charges(paced + [one], d, now, price)
  {
  }

  class Wire {
    const ssrc: Word
    const pacer: P.Pacer
    var seqno: Word
    /** What the transport was given. */
    var sent: seq<Datagram>

    constructor (ssrc: Word, now: int, kbps: Word)
      ensures this.ssrc == ssrc && seqno == 0 && sent == []
      ensures fresh(pacer) && pacer.next == now && pacer.perByte == P.PerByte(kbps)
    {
      this.ssrc, seqno, sent := ssrc, 0, [];
      pacer := new P.Pacer(now, kbps);
    }

    /** Sends the picture's datagrams, numbered on from the last, at the price of the bitrate of the moment; `paced` is
        the schedule they kept. `now` is the clock as each is about to go, and `late` the scheduler's whim. */
    method Put(picture: seq<Byte>, keyframe: bool, kbps: Word, timestamp: Word, now: nat -> int, late: nat -> nat)
      returns (ghost paced: seq<P.Sent>)
      modifies this, pacer
      ensures sent == old(sent) + Datagrams(picture, keyframe, ssrc, old(seqno), timestamp)
      ensures seqno == Later(old(seqno), |Chunks(picture)|)
      ensures pacer.perByte == P.PerByte(kbps)
      ensures |paced| == |Chunks(picture)| && P.Schedule(old(pacer.next), paced)
      ensures pacer.next == P.NextAfter(old(pacer.next), paced)
      ensures Charges(paced, Datagrams(picture, keyframe, ssrc, old(seqno), timestamp), now, P.PerByte(kbps))
    {
      pacer.AimAt(kbps);
      var fragments := Fragments(picture);
      ghost var datagrams, start := Datagrams(picture, keyframe, ssrc, seqno, timestamp), pacer.next;
      paced := [];
      for i := 0 to |fragments|
        invariant sent == old(sent) + datagrams[..i] && seqno == Later(old(seqno), i)
        invariant |paced| == i && P.Schedule(start, paced) && pacer.next == P.NextAfter(start, paced)
        invariant pacer.perByte == P.PerByte(kbps) && Charges(paced, datagrams, now, P.PerByte(kbps))
      {
        var (index, count, chunk) := fragments[i];
        NextDatagram(picture, keyframe, ssrc, old(seqno), timestamp, i);
        ghost var one := SendOne(keyframe, timestamp, Payload(index, count, chunk), now(i), late(i));
        OneMorePaced(start, paced, one);
        OneMoreCharged(paced, datagrams, now, P.PerByte(kbps), one);
        paced := paced + [one];
        OneMoreSent(old(sent), datagrams, i);
      }
      assert datagrams[..|fragments|] == datagrams;
    }

    method SendOne(keyframe: bool, timestamp: Word, payload: seq<Byte>, now: int, late: nat) returns (ghost one: P.Sent)
      modifies this, pacer
      ensures seqno == Later(old(seqno), 1) && pacer.perByte == old(pacer.perByte)
      ensures sent == old(sent) + [Datagram(Numbered(keyframe, ssrc, old(seqno), timestamp, 0), payload)]
      ensures pacer.next == P.Charged(old(pacer.next), now, P.Cost(one))
        && P.MayRelease(old(pacer.next), now, one.released)
      ensures one.entered == now && one.perByte == pacer.perByte && one.bytes == |payload| + HEADER_LEN + TAG_LEN
    {
      var released := pacer.Take(now, |payload| + HEADER_LEN + TAG_LEN, late);
      one := P.Sent(now, released, pacer.perByte, |payload| + HEADER_LEN + TAG_LEN);
      seqno := (seqno + 1) % U32;
      sent := sent + [Datagram(Header(if keyframe then VideoKey else VideoDelta, ssrc, seqno, timestamp), payload)];
    }
  }

  lemma OneMoreSent(before: seq<Datagram>, d: seq<Datagram>, i: nat)
    requires i < |d|
    ensures before + d[..i] + [d[i]] == before + d[..i + 1]
  {
    assert d[..i + 1] == d[..i] + [d[i]];
  }

  lemma LaterStill(seqno: Word, i: nat, k: nat)
    ensures Later(Later(seqno, i), k) == Later(seqno, i + k)
  {
    ModAdd(seqno + i, k, U32);
  }

  /** Datagram `i` is the first after `i` others. */
  lemma NextDatagram(picture: seq<Byte>, keyframe: bool, ssrc: Word, seqno: Word, timestamp: Word, i: nat)
    requires i < |Chunks(picture)|
    ensures var f := Fragments(picture)[i];
      Datagrams(picture, keyframe, ssrc, seqno, timestamp)[i]
      == Datagram(Numbered(keyframe, ssrc, Later(seqno, i), timestamp, 0), Payload(f.0, f.1, f.2))
    ensures Later(Later(seqno, i), 1) == Later(seqno, i + 1)
  {
    LaterStill(seqno, i, 1);
  }

  lemma OneMorePaced(start: int, paced: seq<P.Sent>, one: P.Sent)
    requires P.Schedule(start, paced) && P.MayRelease(P.NextAfter(start, paced), one.entered, one.released)
    ensures P.Schedule(start, paced + [one])
    ensures P.NextAfter(start, paced + [one]) == P.Charged(P.NextAfter(start, paced), one.entered, P.Cost(one))
  {
    var all := paced + [one];
    assert all[..|paced|] == paced;
    forall k | 0 <= k < |all|
      ensures P.Released(start, all, k)
    {
      if k < |paced| {
        assert all[..k] == paced[..k];
        assert P.Released(start, paced, k);
      }
    }
  }

  function Bytes(d: seq<Datagram>): nat {
    if d == [] then 0 else Bytes(d[..|d| - 1]) + Size(d[|d| - 1])
  }

  /** When a picture's last datagram goes, the time since its first has paid for all the datagrams before, but for a
      hundred microseconds. */
  lemma PictureIsSpread(start: int, paced: seq<P.Sent>, d: seq<Datagram>, now: nat -> int, kbps: Word)
    requires d != [] && |paced| == |d| && P.Schedule(start, paced) && Charges(paced, d, now, P.PerByte(kbps))
    ensures P.PerByte(kbps) * Bytes(d[..|d| - 1]) <= paced[|d| - 1].released - now(0) + P.NOT_WORTH_SLEEPING
  {
    var n := |d| - 1;
    P.TokenBucket(start, paced, 0, n);
    P.VolumeAtOnePrice(paced, 0, n, P.PerByte(kbps));
    VolumeIsBytes(paced, d, n);
  }

  lemma {:induction false} VolumeIsBytes(paced: seq<P.Sent>, d: seq<Datagram>, n: nat)
    requires n <= |d| == |paced| && forall i :: 0 <= i < |d| ==> paced[i].bytes == Size(d[i])
    ensures P.Volume(paced, 0, n) == Bytes(d[..n])
  {
    if n > 0 {
      VolumeIsBytes(paced, d, n - 1);
      assert d[..n][..n - 1] == d[..n - 1];
    }
  }
}
