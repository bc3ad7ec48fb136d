/** One connection: which frames each request and each change of the hub sends, and to whom. */
module Session {
  import opened Common
  import opened Control
  import opened Hub

  /** Whether each channel that exists carries voice. */
  type Channels = map<Id, bool>

  /** What looking something up comes to. */
  datatype Database = Answers(channels: Channels) | Fails

  predicate IsVoice(db: Database, channel: Id) { db.Answers? && channel in db.channels && db.channels[channel] }

  function CheckScreenRequest(r: ScreenRequest): bool {
    && r.width != 0 && r.height != 0 && r.width <= 16384 && r.height <= 16384
    && r.fps != 0 && r.fps <= 240 && r.kbps != 0
  }

  /** A voice channel to join, and a stream id to be had. */
  ghost predicate CanServe(h: State, user: Id, msg: ClientMsg) {
    msg.JoinVoice? ==> HasFree(Removed(h, user).bySsrc)
  }

  // ------------------------------------------------------------------ what changes

  /** Out of the call, a share first. */
  ghost function Left(h: State, user: Id): State { Removed(NotSharing(h, user), user) }

  /** The change a request makes to the hub, frames aside. */
  ghost function Changed(h: State, user: Id, msg: ClientMsg, db: Database, newKey: Key): State
    requires CanServe(h, user, msg)
  {
    match msg
    case JoinVoice(channel) => if IsVoice(db, channel) then Joined(h, user, channel, newKey) else h
    case LeaveVoice => Left(h, user)
    case UpdateVoiceState(muted, deafened) => Flagged(h, user, muted, deafened)
    case StartScreen(request) => if CheckScreenRequest(request) then Sharing(h, user, request) else h
    case StopScreen => NotSharing(h, user)
    case WatchScreen(target) => Watching(h, user, target)
    case UnwatchScreen(target) => NotWatching(h, user, target)
  }

  // ------------------------------------------------------------------ who is told

  datatype Outgoing = ToAll(msg: ServerMsg) | ToSelf(msg: ServerMsg)

  ghost function Out(h: State, conn: ConnId, o: Outgoing): State {
    match o case ToAll(msg) => Broadcast(h, msg) case ToSelf(msg) => SentTo(h, conn, msg)
  }

  ghost function Sent(h: State, conn: ConnId, os: seq<Outgoing>): State
    decreases |os|
  {
    if os == [] then h else Out(Sent(h, conn, os[..|os| - 1]), conn, os[|os| - 1])
  }

  lemma SentSnoc(h: State, conn: ConnId, os: seq<Outgoing>, o: Outgoing)
    ensures Sent(h, conn, os + [o]) == Out(Sent(h, conn, os), conn, o)
  {
    assert (os + [o])[..|os|] == os;
  }

  lemma SentOne(h: State, conn: ConnId, o: Outgoing)
    ensures Sent(h, conn, [o]) == Out(h, conn, o)
  {
    assert [o][..0] == [];
  }

  /** The leave from a previous channel to all, credentials to the joiner, the new state to all. */
  ghost function JoinAnswer(h: State, user: Id, channel: Id, newKey: Key): seq<Outgoing>
    requires HasFree(Removed(h, user).bySsrc)
  {
    var joined := Joined(h, user, channel, newKey);
    var state := StateOf(user, joined.members[user]);
    MovedAnswer(h, user) + [ToSelf(VoiceReady(channel, state.ssrc, joined.keys[channel]))]
    + [ToAll(VoiceChanged(state))]
  }

  ghost function MovedAnswer(h: State, user: Id): seq<Outgoing> {
    if user in h.members then [ToAll(VoiceLeave(user, h.members[user].channel))] else []
  }

  ghost function LeaveAnswer(h: State, user: Id): seq<Outgoing> {
    if user in h.members then [ToAll(ScreenStop(user))] + [ToAll(VoiceLeave(user, h.members[user].channel))] else []
  }

  ghost function FlagAnswer(h: State, user: Id, muted: bool, deafened: bool): seq<Outgoing> {
    if user in h.members then [ToAll(VoiceChanged(StateOf(user, Flagged(h, user, muted, deafened).members[user])))]
    else [ToSelf(Error(BadRequest))]
  }

  ghost function ShareAnswer(h: State, user: Id, request: ScreenRequest): seq<Outgoing> {
    if CheckScreenRequest(request) && user in h.members then
      [ToAll(ScreenStart(user, ShareFor(h.members[user], request)))]
    else [ToSelf(Error(BadRequest))]
  }

  function LookUpError(db: Database, channel: Id): ErrorCode {
    if db.Fails? then Internal else if channel !in db.channels then NotFound else BadRequest
  }

  /** Every frame a request has sent, in order. */
  ghost function Answer(h: State, user: Id, msg: ClientMsg, db: Database, newKey: Key): seq<Outgoing>
    requires CanServe(h, user, msg)
  {
    match msg
    case JoinVoice(channel) =>
      if IsVoice(db, channel) then JoinAnswer(h, user, channel, newKey) else [ToSelf(Error(LookUpError(db, channel)))]
    case LeaveVoice => LeaveAnswer(h, user)
    case UpdateVoiceState(muted, deafened) => FlagAnswer(h, user, muted, deafened)
    case StartScreen(request) => ShareAnswer(h, user, request)
    case StopScreen => if user in h.members then [ToAll(ScreenStop(user))] else []
    case WatchScreen(target) => if MayWatch(h, user, target) then [] else [ToSelf(Error(NotFound))]
    case UnwatchScreen(_) => []
  }

  /** A share that makes sense: it has a size up to 16384 each way, 1 to 240 frames a second and some bitrate. */
  ghost predicate Sensible(r: ScreenRequest) {
    1 <= r.width <= 16384 && 1 <= r.height <= 16384 && 1 <= r.fps <= 240 && 1 <= r.kbps
  }

  /** Why a request is refused, if it is. */
  ghost function Refusal(h: State, user: Id, msg: ClientMsg, db: Database): Option<ErrorCode> {
    match msg
    case JoinVoice(channel) =>
      if db.Fails? then Some(Internal) else if channel !in db.channels then Some(NotFound)
      else if !db.channels[channel] then Some(BadRequest) else None
    case UpdateVoiceState(_, _) => if user in h.members then None else Some(BadRequest)
    case StartScreen(r) => if Sensible(r) && user in h.members then None else Some(BadRequest)
    case WatchScreen(other) =>
      if user in h.members && other in h.members && h.members[user].channel == h.members[other].channel then None
      else Some(NotFound)
    case _ => None
  }

  /** A request that is refused changes nothing and is answered to its sender, with the reason and nothing else; one
      that is not gets no error. */
  lemma RefusedWithAReason(h: State, user: Id, msg: ClientMsg, db: Database, newKey: Key)
    requires CanServe(h, user, msg)
    ensures match Refusal(h, user, msg, db)
            case Some(code) =>
              && Answer(h, user, msg, db, newKey) == [ToSelf(Error(code))]
              && Changed(h, user, msg, db, newKey) == h
            case None =>
              forall i :: 0 <= i < |Answer(h, user, msg, db, newKey)| ==>
                !Answer(h, user, msg, db, newKey)[i].msg.Error?
  {
  }

  /** One request, with the change of the hub and every frame it enqueues. */
  ghost function Handled(h: State, conn: ConnId, user: Id, msg: ClientMsg, db: Database, newKey: Key): State
    requires CanServe(h, user, msg)
  {
    Sent(Changed(h, user, msg, db, newKey), conn, Answer(h, user, msg, db, newKey))
  }

  ghost function LeaveHandled(h: State, conn: ConnId, user: Id): State {
    Sent(Left(h, user), conn, LeaveAnswer(h, user))
  }

  /** A connection arriving: it is told how things are, and the others that its account is online. */
  ghost function Arrived(h: State, user: Id): State {
    var conn := h.nextConn;
    var t := SentTo(Connected(h, user), conn, Ready(user, VoiceStates(h.members)));
    if Online(h, user) then t else BroadcastExcept(t, conn, Presence(user, true))
  }

  /** A connection going: the account's last one takes it out of its call. */
  ghost function Departed(h: State, conn: ConnId): State
    requires conn in h.conns
  {
    var user := h.conns[conn].user;
    var t := h.(conns := h.conns - {conn});
    if Online(t, user) then t else Broadcast(LeaveHandled(t, conn, user), Presence(user, false))
  }

  class Session {
    const hub: Hub
    const conn: ConnId
    const user: Id

    /** Connect and `send_ready`. */
    constructor (hub: Hub, user: Id)
      modifies hub
      ensures this.hub == hub && this.user == user && this.conn == old(hub.nextConn)
      ensures hub.Abs() == Arrived(old(hub.Abs()), user)
    {
      var id, first := hub.Connect(user);
      this.hub, this.user, this.conn := hub, user, id;
      new;
      hub.SendToConn(id, Ready(user, VoiceStates(hub.members)));
      if first {
        hub.BroadcastToOthers(id, Presence(user, true));
      }
    }

    method Send(msg: ServerMsg)
      modifies hub`conns
      ensures hub.Abs() == SentTo(old(hub.Abs()), conn, msg)
    {
      hub.SendToConn(conn, msg);
    }

    method LeaveCall()
      modifies hub
      ensures hub.Abs() == LeaveHandled(old(hub.Abs()), conn, user)
    {
      ghost var h := hub.Abs();
      var stopped := hub.StopScreen(user);
      var left := hub.RemoveMember(user);
      if left.Some? {
        if stopped.Some? {
          hub.BroadcastTo(ScreenStop(user));
        }
        hub.BroadcastTo(VoiceLeave(user, left.value));
        SentOne(Left(h, user), conn, ToAll(ScreenStop(user)));
        SentSnoc(Left(h, user), conn, [ToAll(ScreenStop(user))], ToAll(VoiceLeave(user, left.value)));
      }
    }

    method Join(channel: Id, db: Database, newKey: Key)
      requires HasFree(Removed(hub.Abs(), user).bySsrc)
      modifies hub
      ensures hub.Abs() == Handled(old(hub.Abs()), conn, user, JoinVoice(channel), db, newKey)
    {
      if !IsVoice(db, channel) {
        SentOne(hub.Abs(), conn, ToSelf(Error(LookUpError(db, channel))));
        Send(Error(LookUpError(db, channel)));
        return;
      }
      ghost var h := hub.Abs();
      var state, key, previous := hub.JoinVoice(user, channel, newKey);
      ghost var joined := hub.Abs();
      if previous.Some? {
        hub.BroadcastTo(VoiceLeave(user, previous.value));
        SentOne(joined, conn, ToAll(VoiceLeave(user, previous.value)));
      }
      ghost var moved := MovedAnswer(h, user);
      assert hub.Abs() == Sent(joined, conn, moved);
      Send(VoiceReady(channel, state.ssrc, key));
      SentSnoc(joined, conn, moved, ToSelf(VoiceReady(channel, state.ssrc, key)));
      hub.BroadcastTo(VoiceChanged(state));
      SentSnoc(joined, conn, moved + [ToSelf(VoiceReady(channel, state.ssrc, key))], ToAll(VoiceChanged(state)));
    }

    method SetFlags(muted: bool, deafened: bool)
      modifies hub
      ensures hub.Abs() == Handled(old(hub.Abs()), conn, user, UpdateVoiceState(muted, deafened), Fails, 0)
    {
      ghost var h := hub.Abs();
      var state := hub.SetVoiceFlags(user, muted, deafened);
      if state.Some? {
        SentOne(hub.Abs(), conn, ToAll(VoiceChanged(state.value)));
        hub.BroadcastTo(VoiceChanged(state.value));
      } else {
        SentOne(hub.Abs(), conn, ToSelf(Error(BadRequest)));
        Send(Error(BadRequest));
      }
    }

    method Share(request: ScreenRequest)
      modifies hub
      ensures hub.Abs() == Handled(old(hub.Abs()), conn, user, StartScreen(request), Fails, 0)
    {
      SentOne(hub.Abs(), conn, ToSelf(Error(BadRequest)));
      if !CheckScreenRequest(request) {
        Send(Error(BadRequest));
        return;
      }
      var share := hub.StartScreen(user, request);
      if share.Some? {
        SentOne(hub.Abs(), conn, ToAll(ScreenStart(user, share.value)));
        hub.BroadcastTo(ScreenStart(user, share.value));
      } else {
        Send(Error(BadRequest));
      }
    }

    method Handle(msg: ClientMsg, db: Database, newKey: Key)
      requires CanServe(hub.Abs(), user, msg)
      modifies hub
      ensures hub.Abs() == Handled(old(hub.Abs()), conn, user, msg, db, newKey)
    {
      match msg {
        case JoinVoice(channel) =>
          Join(channel, db, newKey);
        case LeaveVoice =>
          LeaveCall();
        case UpdateVoiceState(muted, deafened) =>
          SetFlags(muted, deafened);
        case StartScreen(request) =>
          Share(request);
        case StopScreen =>
          var stopped := hub.StopScreen(user);
          SentOne(hub.Abs(), conn, ToAll(ScreenStop(user)));
          if stopped.Some? { hub.BroadcastTo(ScreenStop(user)); }
        case WatchScreen(target) =>
          var ok := hub.Watch(user, target);
          SentOne(hub.Abs(), conn, ToSelf(Error(NotFound)));
          if !ok { Send(Error(NotFound)); }
        case UnwatchScreen(target) =>
          hub.Unwatch(user, target);
      }
    }

    /** The end of `run`. */
    method TearDown()
      requires conn in hub.conns && hub.conns[conn].user == user
      modifies hub
      ensures hub.Abs() == Departed(old(hub.Abs()), conn)
    {
      var last := hub.Disconnect(conn);
      if last {
        if user in hub.members {
          LeaveCall();
        }
        hub.BroadcastTo(Presence(user, false));
      }
    }
  }
}
