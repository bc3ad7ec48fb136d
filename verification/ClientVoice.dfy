/** How a client's picture of the voice channels changes with each frame. */
module ClientVoice {
  import opened Common
  import opened Control

  function Applied(voice: map<Id, VoiceState>, msg: ServerMsg): map<Id, VoiceState> {
    match msg
    case Ready(_, states) => states
    case VoiceChanged(state) => voice[state.user := state]
    // A leave counts only against the channel the client has the user in.
    case VoiceLeave(user, channel) => if user in voice && voice[user].channel == channel then voice - {user} else voice
    case ScreenStart(user, share) => if user in voice then voice[user := voice[user].(screen := Some(share))] else voice
    case ScreenStop(user) => if user in voice then voice[user := voice[user].(screen := None)] else voice
    case _ => voice
  }

  function AppliedAll(voice: map<Id, VoiceState>, queue: seq<ServerMsg>): map<Id, VoiceState>
    decreases |queue|
  {
    if queue == [] then voice else Applied(AppliedAll(voice, queue[..|queue| - 1]), queue[|queue| - 1])
  }

  lemma AppliedSnoc(voice: map<Id, VoiceState>, queue: seq<ServerMsg>, msg: ServerMsg)
    ensures AppliedAll(voice, queue + [msg]) == Applied(AppliedAll(voice, queue), msg)
  {
    assert (queue + [msg])[..|queue|] == queue;
  }

  /** The first frame of a queue may be applied before the others. */
  lemma {:induction false} AppliedHead(voice: map<Id, VoiceState>, queue: seq<ServerMsg>)
    requires queue != []
    ensures AppliedAll(voice, queue) == AppliedAll(Applied(voice, queue[0]), queue[1..])
    decreases |queue|
  {
    var init, last := queue[..|queue| - 1], queue[|queue| - 1];
    if init == [] {
      assert queue[1..] == [];
    } else {
      AppliedHead(voice, init);
      assert queue[1..] == init[1..] + [last];
      AppliedSnoc(Applied(voice, queue[0]), init[1..], last);
    }
  }
}
