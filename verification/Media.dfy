/** The media plane's byte formats: packet headers and picture fragments. */
module Media {
  import opened Arith
  import opened Common

  // ------------------------------------------------------------------ big-endian integers

  /** The `width` bytes of `n`, most significant first; anything above is cut off. */
  function ToBe(n: nat, width: nat): (s: seq<Byte>)
    ensures |s| == width
  {
    if width == 0 then [] else ToBe(n / 256, width - 1) + [n % 256]
  }

  function Limit(width: nat): (l: nat)
    ensures l > 0
  {
    if width == 0 then 1 else 256 * Limit(width - 1)
  }

  function FromBe(s: seq<Byte>): (n: nat)
    ensures n < Limit(|s|)
  {
    if s == [] then 0 else 256 * FromBe(s[..|s| - 1]) + s[|s| - 1]
  }

  lemma {:induction false} BeRoundTrip(n: nat, width: nat)
    requires n < Limit(width)
    ensures FromBe(ToBe(n, width)) == n
  {
    if width > 0 {
      BeRoundTrip(n / 256, width - 1);
      assert ToBe(n, width)[..width - 1] == ToBe(n / 256, width - 1);
    }
  }

  lemma {:induction false} BeInverse(s: seq<Byte>)
    ensures ToBe(FromBe(s), |s|) == s
  {
    if s != [] { BeInverse(s[..|s| - 1]); }
  }

  lemma Limits()
    ensures Limit(2) == U16 && Limit(4) == U32
  {
    assert Limit(1) == 256 && Limit(3) == 256 * U16;
  }

  // ------------------------------------------------------------------ packet headers

  datatype Kind = Voice | VideoKey | VideoDelta | Keepalive | DesktopAudio

  predicate IsScreen(k: Kind) { k.VideoKey? || k.VideoDelta? || k.DesktopAudio? }

  predicate IsVideo(k: Kind) { k.VideoKey? || k.VideoDelta? }

  function KindByte(k: Kind): Byte {
    match k case Voice => 0 case VideoKey => 1 case VideoDelta => 2 case Keepalive => 3 case DesktopAudio => 4
  }

  function KindOf(b: Byte): Option<Kind> {
    if b == 0 then Some(Voice) else if b == 1 then Some(VideoKey) else if b == 2 then Some(VideoDelta)
    else if b == 3 then Some(Keepalive) else if b == 4 then Some(DesktopAudio) else None
  }

  datatype Header = Header(kind: Kind, ssrc: Word, seqno: Word, timestamp: Word)

  datatype Decoded = Ok(header: Header) | TooShort(n: nat) | BadMagic | BadVersion(v: Byte) | BadKind(k: Byte)

  const MAGIC := 0xB0A1
  const MEDIA_VERSION: Byte := 1
  const HEADER_LEN := 16
  const TAG_LEN := 16

  function Encoded(h: Header): (s: seq<Byte>)
    ensures |s| == HEADER_LEN
  {
    ToBe(MAGIC, 2) + [MEDIA_VERSION, KindByte(h.kind)] + ToBe(h.ssrc, 4) + ToBe(h.seqno, 4) + ToBe(h.timestamp, 4)
  }

  method CopyInto(out: array<Byte>, at: nat, bytes: seq<Byte>)
    requires at + |bytes| <= out.Length
    modifies out
    ensures out[..at + |bytes|] == old(out[..at]) + bytes
  {
    for i := 0 to |bytes|
      invariant out[..at + i] == old(out[..at]) + bytes[..i]
    {
      out[at + i] := bytes[i];
    }
  }

  method Encode(h: Header) returns (out: array<Byte>)
    ensures fresh(out) && out[..] == Encoded(h)
  {
    out := new Byte[HEADER_LEN](_ => 0);
    Fill(out, ToBe(MAGIC, 2), MEDIA_VERSION, KindByte(h.kind), ToBe(h.ssrc, 4), ToBe(h.seqno, 4), ToBe(h.timestamp, 4));
  }

  method Fill(out: array<Byte>, magic: seq<Byte>, version: Byte, kind: Byte,
              ssrc: seq<Byte>, seqno: seq<Byte>, time: seq<Byte>)
    requires out.Length == HEADER_LEN && |magic| == 2 && |ssrc| == |seqno| == |time| == 4
    modifies out
    ensures out[..] == magic + [version, kind] + ssrc + seqno + time
  {
    CopyInto(out, 0, magic);
    out[2] := version;
    out[3] := kind;
    assert out[..4] == out[..2] + [version, kind];
    CopyInto(out, 4, ssrc);
    CopyInto(out, 8, seqno);
    CopyInto(out, 12, time);
    assert out[..] == out[..16];
  }

  function Decode(bytes: seq<Byte>): Decoded {
    if |bytes| < HEADER_LEN then TooShort(|bytes|)
    else if FromBe(bytes[0..2]) != MAGIC then BadMagic
    else if bytes[2] != MEDIA_VERSION then BadVersion(bytes[2])
    else if KindOf(bytes[3]) == None then BadKind(bytes[3])
    else
      Limits();
      Ok(Header(KindOf(bytes[3]).value, FromBe(bytes[4..8]), FromBe(bytes[8..12]), FromBe(bytes[12..16])))
  }

  /** Decoding undoes encoding, whatever follows the header. */
  lemma HeaderRoundTrip(h: Header, payload: seq<Byte>)
    ensures Decode(Encoded(h) + payload) == Ok(h)
  {
    Limits();
    BeRoundTrip(MAGIC, 2);
    BeRoundTrip(h.ssrc, 4);
    BeRoundTrip(h.seqno, 4);
    BeRoundTrip(h.timestamp, 4);
    var bytes := Encoded(h) + payload;
    assert bytes[0..2] == ToBe(MAGIC, 2);
    assert bytes[4..8] == ToBe(h.ssrc, 4);
    assert bytes[8..12] == ToBe(h.seqno, 4);
    assert bytes[12..16] == ToBe(h.timestamp, 4);
  }

  /** Only an encoded header decodes: nothing else is taken for one. */
  lemma HeaderInverse(bytes: seq<Byte>)
    requires Decode(bytes).Ok?
    ensures bytes[..HEADER_LEN] == Encoded(Decode(bytes).header)
  {
    Limits();
    BeInverse(bytes[0..2]);
    BeInverse(bytes[4..8]);
    BeInverse(bytes[8..12]);
    BeInverse(bytes[12..16]);
    assert bytes[..16] == bytes[0..2] + [bytes[2], bytes[3]] + bytes[4..8] + bytes[8..12] + bytes[12..16];
  }

  // ------------------------------------------------------------------ the header, byte by byte

  /** The 16-bit number at a place, most significant byte first. */
  ghost function Short(bytes: seq<Byte>, at: nat): nat
    requires at + 2 <= |bytes|
  {
    var high: nat, low: nat := bytes[at], bytes[at + 1];
    0x100 * high + low
  }

  ghost function Long(bytes: seq<Byte>, at: nat): nat
    requires at + 4 <= |bytes|
  {
    0x1_0000 * Short(bytes, at) + Short(bytes, at + 2)
  }

  lemma BeIsShort(bytes: seq<Byte>, at: nat)
    requires at + 2 <= |bytes|
    ensures FromBe(bytes[at..at + 2]) == Short(bytes, at)
  {
    var s := bytes[at..at + 2];
    assert FromBe(s[..1]) == s[0] + 256 * FromBe([]) by { assert s[..1][..0] == []; }
  }

  lemma BeIsLong(bytes: seq<Byte>, at: nat)
    requires at + 4 <= |bytes|
    ensures FromBe(bytes[at..at + 4]) == Long(bytes, at)
  {
    var s := bytes[at..at + 4];
    BeIsShort(s, 0);
    assert s[..2] == s[0..2] && s[..3][..2] == s[..2];
    assert FromBe(s[..3]) == 256 * FromBe(s[..2]) + s[2];
  }

  /** The layout of a header, and what is refused, in what order. */
  lemma HeaderLayout(bytes: seq<Byte>)
    ensures match Decode(bytes)
            case TooShort(n) => n == |bytes| < 16
            case BadMagic => |bytes| >= 16 && (bytes[0] != 0xB0 || bytes[1] != 0xA1)
            case BadVersion(v) => |bytes| >= 16 && bytes[0] == 0xB0 && bytes[1] == 0xA1 && v == bytes[2] != 1
            case BadKind(k) => |bytes| >= 16 && bytes[..3] == [0xB0, 0xA1, 1] && k == bytes[3] > 4
            case Ok(h) =>
              && |bytes| >= 16 && bytes[..3] == [0xB0, 0xA1, 1]
              && h.kind == [Voice, VideoKey, VideoDelta, Keepalive, DesktopAudio][bytes[3]]
              && h.ssrc == Long(bytes, 4) && h.seqno == Long(bytes, 8) && h.timestamp == Long(bytes, 12)
  {
    if |bytes| >= 16 {
      BeIsShort(bytes, 0);
      BeIsLong(bytes, 4);
      BeIsLong(bytes, 8);
      BeIsLong(bytes, 12);
    }
  }

  // ------------------------------------------------------------------ fragments

  const MAX_VIDEO_CHUNK := 1200 - HEADER_LEN - TAG_LEN - FRAG_HEADER_LEN
  const FRAG_HEADER_LEN := 4

  /** A frame cut into pieces that fit a datagram; an empty frame has none. */
  function Chunks(frame: seq<Byte>): (c: seq<seq<Byte>>)
    ensures |c| == (|frame| + MAX_VIDEO_CHUNK - 1) / MAX_VIDEO_CHUNK
    ensures forall i :: 0 <= i < |c| ==> 0 < |c[i]| <= MAX_VIDEO_CHUNK
  {
    if frame == [] then []
    else if |frame| <= MAX_VIDEO_CHUNK then [frame]
    else [frame[..MAX_VIDEO_CHUNK]] + Chunks(frame[MAX_VIDEO_CHUNK..])
  }

  lemma {:induction false} ChunksConcat(frame: seq<Byte>)
    ensures Flat(Chunks(frame)) == frame
    decreases |frame|
  {
    if |frame| > MAX_VIDEO_CHUNK {
      ChunksConcat(frame[MAX_VIDEO_CHUNK..]);
      assert Chunks(frame)[1..] == Chunks(frame[MAX_VIDEO_CHUNK..]);
    } else if frame != [] {
      assert frame + [] == frame;
    }
  }

  /** Every chunk but the last is as long as fits a datagram of 1200 bytes with the headers and the tag. */
  lemma {:induction false} FullChunks(frame: seq<Byte>, i: nat)
    requires i + 1 < |Chunks(frame)|
    ensures |Chunks(frame)[i]| == 1164 && 16 + 4 + 1164 + 16 == 1200
    decreases i
  {
    if i > 0 { FullChunks(frame[MAX_VIDEO_CHUNK..], i - 1); }
  }

  /** `fragment`: index, count and bytes of each piece, the two numbers cut to 16 bits. */
  function Fragments(frame: seq<Byte>): (f: seq<(nat, nat, seq<Byte>)>)
    ensures |f| == |Chunks(frame)|
  {
    var c := Chunks(frame);
    seq(|c|, i requires 0 <= i < |c| => (i % U16, |c| % U16, c[i]))
  }

  function Payload(index: nat, count: nat, chunk: seq<Byte>): seq<Byte> {
    ToBe(index, 2) + ToBe(count, 2) + chunk
  }

  function ReadFragment(payload: seq<Byte>): (r: Option<(nat, nat, seq<Byte>)>)
    ensures r.Some? ==> r.value.0 < r.value.1
  {
    if |payload| < FRAG_HEADER_LEN then None
    else
      var index, count := FromBe(payload[0..2]), FromBe(payload[2..4]);
      if count == 0 || index >= count then None else Some((index, count, payload[4..]))
  }

  lemma FragmentRoundTrip(index: nat, count: nat, chunk: seq<Byte>)
    requires index < count < U16
    ensures ReadFragment(Payload(index, count, chunk)) == Some((index, count, chunk))
  {
    Limits();
    BeRoundTrip(index, 2);
    BeRoundTrip(count, 2);
    var p := Payload(index, count, chunk);
    assert p[0..2] == ToBe(index, 2) && p[2..4] == ToBe(count, 2) && p[4..] == chunk;
  }

  /** The layout of a fragment: two 16-bit numbers and the rest, read exactly when the first is below the second. */
  lemma FragmentLayout(payload: seq<Byte>)
    ensures ReadFragment(payload)
         == if |payload| >= 4 && Short(payload, 0) < Short(payload, 2)
            then Some((Short(payload, 0), Short(payload, 2), payload[4..])) else None
  {
    if |payload| >= 4 {
      BeIsShort(payload, 0);
      BeIsShort(payload, 2);
    }
  }

  /** What arrives of fragment `i`, read back. */
  function Delivered(frame: seq<Byte>, i: nat): Option<(nat, nat, seq<Byte>)>
    requires i < |Chunks(frame)|
  {
    var f := Fragments(frame)[i];
    ReadFragment(Payload(f.0, f.1, f.2))
  }

  lemma FragmentArrives(frame: seq<Byte>, i: nat)
    requires i < |Chunks(frame)| < U16
    ensures Delivered(frame, i) == Some((i, |Chunks(frame)|, Chunks(frame)[i]))
  {
    var n, chunk := |Chunks(frame)|, Chunks(frame)[i];
    FragmentRoundTrip(i, n, chunk);
    assert Fragments(frame)[i] == (i, n, chunk) by {
      DivModUnique(i, U16, 0, i);
      DivModUnique(n, U16, 0, n);
    }
  }

  lemma CountIsCut(payload: seq<Byte>)
    ensures ReadFragment(payload).Some? ==> ReadFragment(payload).value.1 < U16
  {
    Limits();
  }

  /** Every fragment of a frame arrives with its place and its bytes exactly when the frame has at most 65535 of
      them: beyond that the two 16-bit fields no longer hold the numbers. */
  lemma FragmentsArrive(frame: seq<Byte>)
    ensures |Chunks(frame)| < U16 <==>
            forall i :: 0 <= i < |Chunks(frame)| ==>
              Delivered(frame, i) == Some((i, |Chunks(frame)|, Chunks(frame)[i]))
  {
    if |Chunks(frame)| < U16 {
      forall i | 0 <= i < |Chunks(frame)|
        ensures Delivered(frame, i) == Some((i, |Chunks(frame)|, Chunks(frame)[i]))
      {
        FragmentArrives(frame, i);
      }
    } else {
      var f := Fragments(frame)[0];
      CountIsCut(Payload(f.0, f.1, f.2));
      assert Delivered(frame, 0) != Some((0, |Chunks(frame)|, Chunks(frame)[0]));
    }
  }
}
