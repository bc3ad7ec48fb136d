/** What the server and its clients say to each other, as far as voice, screens and messages go. */
module Control {
  import opened Common

  /** User, channel and message ids. */
  type Id = nat
  type Key = nat

  datatype Share = Share(ssrc: Word, width: nat, height: nat, fps: nat, kbps: nat, withAudio: bool)

  datatype ScreenRequest = ScreenRequest(width: nat, height: nat, fps: nat, kbps: nat, withAudio: bool)

  datatype VoiceState = VoiceState(user: Id, channel: Id, muted: bool, deafened: bool, ssrc: Word,
      screen: Option<Share>)

  datatype Message = Message(id: Id, channel: Id, author: Id, content: string, nonce: Option<string>)

  datatype ErrorCode = BadRequest | NotFound | Internal

  datatype ServerMsg =
    | Ready(me: Id, voice: map<Id, VoiceState>)
    | MessageCreate(message: Message)
    | MessageUpdate(edited: Message)
    | MessageDelete(channel: Id, id: Id)
    | History(channel: Id, messages: seq<Message>, complete: bool)
    | VoiceChanged(state: VoiceState)
    | VoiceLeave(user: Id, channel: Id)
    | ScreenStart(user: Id, share: Share)
    | ScreenStop(user: Id)
    | VoiceReady(channel: Id, ssrc: Word, key: Key)
    | Presence(user: Id, online: bool)
    | Error(code: ErrorCode)

  datatype ClientMsg =
    | JoinVoice(channel: Id)
    | LeaveVoice
    | UpdateVoiceState(muted: bool, deafened: bool)
    | StartScreen(request: ScreenRequest)
    | StopScreen
    | WatchScreen(user: Id)
    | UnwatchScreen(user: Id)
}
