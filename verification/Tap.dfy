/** From media packets to a bounded queue of whole pictures, with an account of every picture that is lost. */
module Tap {
  import opened Arith
  import opened Common
  import opened Media
  import opened Reassembler

  type Queued = (bool, seq<Byte>)

  /** Losses by cause, fragments seen, and how many losses were booked as keyframes. */
  datatype Loss = Loss(incomplete: nat, noRoom: nat, fragments: nat, keyframesLost: nat)

  /** The books after a packet that `gaveUp` on pictures, and completed one for which there was room or not. */
  function Booked(why: Loss, keyframe: bool, gaveUp: nat, turnedAway: nat): Loss {
    Loss(why.incomplete + gaveUp, why.noRoom + turnedAway, why.fragments + 1,
         why.keyframesLost + if keyframe then gaveUp + turnedAway else 0)
  }

  class Tap {
    const ssrc: Word
    const depth: nat
    const assembler: Assembler
    /** What the decoder has not taken yet; when it has gone away nothing more is taken in. */
    var queue: seq<Queued>
    var listening: bool
    var dropped: nat
    var why: Loss
    /** Every picture the decoder has taken, and how many were ever assembled. */
    ghost var taken: seq<Queued>
    ghost var assembled: nat

    /** The books balance: a picture assembled is taken, or waiting, or had no room, and everything lost is lost for one
        of the two reasons. */
    ghost predicate Valid()
      reads this
    {
      && |queue| <= depth
      && dropped == why.incomplete + why.noRoom && why.keyframesLost <= dropped
      && assembled == |taken| + |queue| + why.noRoom
    }

    constructor (ssrc: Word, depth: nat)
      ensures Valid() && this.ssrc == ssrc && this.depth == depth && queue == [] && listening && dropped == 0
      ensures fresh(assembler) && assembler.Abs() == INITIAL
    {
      this.ssrc, this.depth := ssrc, depth;
      assembler := new Assembler();
      queue, listening, dropped, why, taken, assembled := [], true, 0, Loss(0, 0, 0, 0), [], 0;
    }

    /** One media packet. Another stream's, or one that is not video, changes nothing; otherwise the assembler's outcome
        decides, and its picture is queued whole, in order, exactly when there is room. */
    method Feed(header: Header, payload: seq<Byte>)
      requires Valid()
      modifies this`queue, this`dropped, this`why, this`assembled, assembler
      ensures Valid()
      ensures header.ssrc != ssrc || !(header.kind.VideoKey? || header.kind.VideoDelta?) ==>
        assembler.Abs() == old(assembler.Abs()) && queue == old(queue) && dropped == old(dropped) && why == old(why)
      ensures header.ssrc == ssrc && (header.kind.VideoKey? || header.kind.VideoDelta?) ==>
        var o := Fed(old(assembler.Abs()), header.timestamp, payload);
        var room := old(listening) && |old(queue)| < depth;
        var lost := o.dropped + if o.picture.Some? && !room then 1 else 0;
        && assembler.Abs() == o.state
        && queue == old(queue) + (if o.picture.Some? && room then [(header.kind.VideoKey?, o.picture.value)] else [])
        && why.incomplete == old(why).incomplete + o.dropped && why.fragments == old(why).fragments + 1
        && why.noRoom == old(why).noRoom + (if o.picture.Some? && !room then 1 else 0)
        && why.keyframesLost == old(why).keyframesLost + (if header.kind.VideoKey? then lost else 0)
        && dropped == old(dropped) + lost
        && assembled == old(assembled) + if o.picture.Some? then 1 else 0
    {
      if header.ssrc != ssrc || !IsVideo(header.kind) { return; }
      var keyframe := header.kind.VideoKey?;
      var picture, abandoned := assembler.Feed(header.timestamp, payload);
      dropped := dropped + abandoned;
      why := Booked(why, keyframe, abandoned, 0);
      if picture.None? { return; }
      assembled := assembled + 1;
      if listening && |queue| < depth {
        queue := queue + [(keyframe, picture.value)];
      } else {
        TurnAway(keyframe);
      }
    }

    method TurnAway(keyframe: bool)
      modifies `dropped, `why
      ensures dropped == old(dropped) + 1
      ensures why.incomplete == old(why).incomplete && why.noRoom == old(why).noRoom + 1
      ensures why.fragments == old(why).fragments
      ensures why.keyframesLost == old(why).keyframesLost + if keyframe then 1 else 0
    {
      dropped := dropped + 1;
      why := why.(noRoom := why.noRoom + 1, keyframesLost := why.keyframesLost + if keyframe then 1 else 0);
    }

    /** The decoder takes the oldest picture waiting. */
    method Receive() returns (picture: Option<Queued>)
      requires Valid()
      modifies `queue, `taken
      ensures Valid()
      ensures old(queue) == [] ==> picture == None && queue == [] && taken == old(taken)
      ensures old(queue) != [] ==>
        && picture == Some(old(queue)[0]) && queue == old(queue)[1..]
        && taken == old(taken) + [old(queue)[0]]
    {
      if queue == [] { return None; }
      picture := Some(queue[0]);
      taken := taken + [queue[0]];
      queue := queue[1..];
    }
  }
}
