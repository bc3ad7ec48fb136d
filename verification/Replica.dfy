/** The server, its connections and its clients together: every run, one handled message at a time.

    Each handler, and a connection's arrival with its first frame, is one step. A client is its queue of frames
    not yet taken and the voice map it has built from those it has. */
module Replica {
  import opened Control
  import opened Hub
  import opened HubInvariant
  import opened Session
  import opened ClientVoice

  /** Each client's voice map, from the frames it has taken. */
  type Replicas = map<ConnId, map<Id, VoiceState>>

  datatype World = World(
    hub: State, channels: Channels, replicas: Replicas,
    handed: map<Id, Key>, drawn: set<Key>, retired: set<Key>)

  datatype Event =
    | Arrive(user: Id, stale: map<Id, VoiceState>)
    | Request(conn: ConnId, msg: ClientMsg, newKey: Key, fails: bool)
    | Depart(conn: ConnId)
    | Take(conn: ConnId)
    | Bind(user: Id, addr: Addr)
    | CreateChannel(channel: Id, voice: bool)

  ghost function Start(channels: Channels): World {
    World(INITIAL, channels, map[], map[], {}, {})
  }

  /** What the database says about channels, if it says anything. */
  ghost function Asked(w: World, fails: bool): Database { if fails then Fails else Answers(w.channels) }

  ghost predicate JoinsCall(w: World, msg: ClientMsg, fails: bool) {
    msg.JoinVoice? && IsVoice(Asked(w, fails), msg.channel)
  }

  /** What may happen next: a request comes over a live connection, a join needs two free stream ids, and the key a
      random draw gives is one never drawn before. */
  ghost predicate Possible(w: World, e: Event) {
    match e
    case Arrive(_, _) => true
    case Request(conn, msg, newKey, _) =>
      conn in w.hub.conns && newKey !in w.drawn &&
      (msg.JoinVoice? ==> TwoFree(Removed(w.hub, w.hub.conns[conn].user)))
    case Depart(conn) => conn in w.hub.conns
    case Take(conn) => conn in w.hub.conns && conn in w.replicas && w.hub.conns[conn].queue != []
    case Bind(_, _) => true
    case CreateChannel(channel, _) => channel !in w.channels
  }

  /** The keys in use before that are not in use after. */
  ghost function Dropped(before: map<Id, Key>, after: map<Id, Key>): set<Key> {
    set c | c in before && (c !in after || after[c] != before[c]) :: before[c]
  }

  ghost function Moved(w: World, hub: State): World {
    w.(hub := hub, retired := w.retired + Dropped(w.hub.keys, hub.keys))
  }

  ghost function Next(w: World, e: Event): World {
    if !Possible(w, e) then w
    else
      match e
      case Arrive(user, stale) =>
        Moved(w, Arrived(w.hub, user)).(replicas := w.replicas[w.hub.nextConn := stale])
      case Request(conn, msg, newKey, fails) =>
        var user := w.hub.conns[conn].user;
        var t := Moved(w, Handled(w.hub, conn, user, msg, Asked(w, fails), newKey)).(drawn := w.drawn + {newKey});
        if JoinsCall(w, msg, fails) && msg.channel in t.hub.keys then
          t.(handed := t.handed[user := t.hub.keys[msg.channel]])
        else t
      case Depart(conn) => Moved(w, Departed(w.hub, conn)).(replicas := w.replicas - {conn})
      case Take(conn) =>
        var c := w.hub.conns[conn];
        w.(hub := w.hub.(conns := w.hub.conns[conn := c.(queue := c.queue[1..])]),
           replicas := w.replicas[conn := Applied(w.replicas[conn], c.queue[0])])
      case Bind(user, addr) => w.(hub := Bound(w.hub, user, addr))
      case CreateChannel(channel, voice) => w.(channels := w.channels[channel := voice])
  }

  ghost function Run(w: World, events: seq<Event>): World
    decreases |events|
  {
    if events == [] then w else Next(Run(w, events[..|events| - 1]), events[|events| - 1])
  }

  // ------------------------------------------------------------------ agreement

  /** Applying what each client has not taken yet to what it has gives `v`. */
  ghost predicate AgreeOn(conns: map<ConnId, Conn>, replicas: Replicas, v: map<Id, VoiceState>) {
    forall c :: c in conns ==> c in replicas && AppliedAll(replicas[c], conns[c].queue) == v
  }

  ghost predicate Agreed(h: State, replicas: Replicas) {
    AgreeOn(h.conns, replicas, VoiceStates(h.members))
  }

  lemma BroadcastAgrees(h: State, replicas: Replicas, v: map<Id, VoiceState>, msg: ServerMsg)
    requires AgreeOn(h.conns, replicas, v)
    ensures AgreeOn(Broadcast(h, msg).conns, replicas, Applied(v, msg))
  {
    forall c | c in h.conns
      ensures AppliedAll(replicas[c], h.conns[c].queue + [msg]) == Applied(v, msg)
    {
      AppliedSnoc(replicas[c], h.conns[c].queue, msg);
    }
  }

  lemma SentToAgrees(h: State, replicas: Replicas, v: map<Id, VoiceState>, conn: ConnId, msg: ServerMsg)
    requires msg.VoiceReady? || msg.Error?
    requires AgreeOn(h.conns, replicas, v)
    ensures AgreeOn(SentTo(h, conn, msg).conns, replicas, v)
  {
    if conn in h.conns {
      SilentSnoc(replicas[conn], h.conns[conn].queue, v, msg);
      OthersStand(h, replicas, v, conn, h.conns[conn].(queue := h.conns[conn].queue + [msg]));
    }
  }

  lemma SilentSnoc(replica: map<Id, VoiceState>, queue: seq<ServerMsg>, v: map<Id, VoiceState>, msg: ServerMsg)
    requires (msg.VoiceReady? || msg.Error?) && AppliedAll(replica, queue) == v
    ensures AppliedAll(replica, queue + [msg]) == v
  {
    AppliedSnoc(replica, queue, msg);
  }

  lemma OthersStand(h: State, replicas: Replicas, v: map<Id, VoiceState>, conn: ConnId, after: Conn)
    requires AgreeOn(h.conns, replicas, v) && conn in h.conns && AppliedAll(replicas[conn], after.queue) == v
    ensures AgreeOn(h.conns[conn := after], replicas, v)
  {
  }

  lemma PresenceAgrees(h: State, replicas: Replicas, v: map<Id, VoiceState>, except: ConnId, user: Id, online: bool)
    requires AgreeOn(h.conns, replicas, v)
    ensures AgreeOn(BroadcastExcept(h, except, Presence(user, online)).conns, replicas, v)
  {
    var msg := Presence(user, online);
    assert Applied(v, msg) == v;
    forall c | c in h.conns
      ensures AppliedAll(replicas[c], h.conns[c].queue + [msg]) == v
    {
      AppliedSnoc(replicas[c], h.conns[c].queue, msg);
    }
  }

  /** What the frames to all make of a voice map. */
  ghost function Told(v: map<Id, VoiceState>, os: seq<Outgoing>): map<Id, VoiceState>
    decreases |os|
  {
    if os == [] then v
    else
      var before, o := Told(v, os[..|os| - 1]), os[|os| - 1];
      if o.ToAll? then Applied(before, o.msg) else before
  }

  lemma ToldSnoc(v: map<Id, VoiceState>, os: seq<Outgoing>, o: Outgoing)
    ensures Told(v, os + [o]) == if o.ToAll? then Applied(Told(v, os), o.msg) else Told(v, os)
  {
    assert (os + [o])[..|os|] == os;
  }

  lemma ToldOne(v: map<Id, VoiceState>, o: Outgoing)
    ensures Told(v, [o]) == if o.ToAll? then Applied(v, o.msg) else v
  {
    assert [o][..0] == [];
  }

  /** What one is told alone says nothing about voice states. */
  ghost predicate SilentToSelf(os: seq<Outgoing>) {
    forall i :: 0 <= i < |os| && os[i].ToSelf? ==> os[i].msg.VoiceReady? || os[i].msg.Error?
  }

  lemma {:induction false} SentAgrees(h: State, replicas: Replicas, v: map<Id, VoiceState>,
                             conn: ConnId, os: seq<Outgoing>)
    requires AgreeOn(h.conns, replicas, v) && SilentToSelf(os)
    ensures AgreeOn(Sent(h, conn, os).conns, replicas, Told(v, os))
    decreases |os|
  {
    if os != [] {
      var init, o := os[..|os| - 1], os[|os| - 1];
      SentAgrees(h, replicas, v, conn, init);
      var t := Sent(h, conn, init);
      if o.ToAll? {
        BroadcastAgrees(t, replicas, Told(v, init), o.msg);
      } else {
        SentToAgrees(t, replicas, Told(v, init), conn, o.msg);
      }
    }
  }

  lemma {:induction false} SentKeeps(h: State, conn: ConnId, os: seq<Outgoing>)
    ensures var t := Sent(h, conn, os);
      && t.members == h.members && t.bySsrc == h.bySsrc && t.keys == h.keys && t.nextSsrc == h.nextSsrc
      && t.conns.Keys == h.conns.Keys && t.nextConn == h.nextConn
    decreases |os|
  {
    if os != [] {
      var t := Sent(h, conn, os[..|os| - 1]);
      SentKeeps(h, conn, os[..|os| - 1]);
      FramesKeepConns(t, conn, os[|os| - 1].msg);
    }
  }

  lemma FramesKeepConns(h: State, conn: ConnId, msg: ServerMsg)
    ensures Broadcast(h, msg).conns.Keys == h.conns.Keys && SentTo(h, conn, msg).conns.Keys == h.conns.Keys
  {
    if conn in h.conns { assert h.conns.Keys + {conn} == h.conns.Keys; }
  }

  // ------------------------------------------------------------------ the deltas say what changed

  lemma JoinDeltas(h: State, user: Id, channel: Id, newKey: Key)
    requires HasFree(Removed(h, user).bySsrc)
    ensures SilentToSelf(JoinAnswer(h, user, channel, newKey))
    ensures VoiceStates(Joined(h, user, channel, newKey).members)
         == Told(VoiceStates(h.members), JoinAnswer(h, user, channel, newKey))
  {
    var t, v, moved := Joined(h, user, channel, newKey), VoiceStates(h.members), MovedAnswer(h, user);
    var state := StateOf(user, t.members[user]);
    var ready := ToSelf(VoiceReady(channel, state.ssrc, t.keys[channel]));
    if user in h.members { ToldOne(v, moved[0]); }
    ToldSnoc(v, moved, ready);
    ToldSnoc(v, moved + [ready], ToAll(VoiceChanged(state)));
    JoinedStates(h, user, channel, newKey);
  }

  lemma JoinedStates(h: State, user: Id, channel: Id, newKey: Key)
    requires HasFree(Removed(h, user).bySsrc)
    ensures var t := Joined(h, user, channel, newKey);
            var v := VoiceStates(h.members);
            var left := if user in h.members then Applied(v, VoiceLeave(user, h.members[user].channel)) else v;
            VoiceStates(t.members) == Applied(left, VoiceChanged(StateOf(user, t.members[user])))
  {
  }

  lemma LeaveDeltas(h: State, user: Id)
    ensures VoiceStates(Left(h, user).members) == Told(VoiceStates(h.members), LeaveAnswer(h, user))
  {
    if user in h.members {
      var v, stop := VoiceStates(h.members), ToAll(ScreenStop(user));
      ToldOne(v, stop);
      ToldSnoc(v, [stop], ToAll(VoiceLeave(user, h.members[user].channel)));
      LeftStates(h, user);
    }
  }

  lemma LeftStates(h: State, user: Id)
    requires user in h.members
    ensures VoiceStates(Left(h, user).members)
         == Applied(Applied(VoiceStates(h.members), ScreenStop(user)), VoiceLeave(user, h.members[user].channel))
  {
  }

  lemma FlagDeltas(h: State, user: Id, muted: bool, deafened: bool)
    ensures VoiceStates(Flagged(h, user, muted, deafened).members)
         == Told(VoiceStates(h.members), FlagAnswer(h, user, muted, deafened))
  {
    ToldOne(VoiceStates(h.members), FlagAnswer(h, user, muted, deafened)[0]);
  }

  lemma ShareDeltas(h: State, user: Id, request: ScreenRequest)
    ensures VoiceStates((if CheckScreenRequest(request) then Sharing(h, user, request) else h).members)
         == Told(VoiceStates(h.members), ShareAnswer(h, user, request))
  {
    ToldOne(VoiceStates(h.members), ShareAnswer(h, user, request)[0]);
  }

  lemma StopDeltas(h: State, user: Id)
    requires user in h.members
    ensures VoiceStates(NotSharing(h, user).members) == Told(VoiceStates(h.members), [ToAll(ScreenStop(user))])
  {
    ToldOne(VoiceStates(h.members), ToAll(ScreenStop(user)));
  }

  lemma ErrorIsSilent(v: map<Id, VoiceState>, code: ErrorCode)
    ensures Told(v, [ToSelf(Error(code))]) == v
  {
    ToldOne(v, ToSelf(Error(code)));
  }

  lemma WatchIsSilent(h: State, user: Id, target: Id)
    ensures VoiceStates(Watching(h, user, target).members) == VoiceStates(h.members)
  {
  }

  lemma UnwatchIsSilent(h: State, user: Id, target: Id)
    ensures VoiceStates(NotWatching(h, user, target).members) == VoiceStates(h.members)
  {
  }

  lemma BindIsSilent(h: State, user: Id, addr: Addr)
    ensures VoiceStates(Bound(h, user, addr).members) == VoiceStates(h.members)
  {
  }

  /** Whatever is asked, the frames to all say exactly what changed. */
  lemma AnswerIsTheChange(h: State, user: Id, msg: ClientMsg, db: Database, newKey: Key)
    requires CanServe(h, user, msg)
    ensures VoiceStates(Changed(h, user, msg, db, newKey).members)
         == Told(VoiceStates(h.members), Answer(h, user, msg, db, newKey))
    ensures SilentToSelf(Answer(h, user, msg, db, newKey))
  {
    match msg
    case JoinVoice(channel) =>
      JoinDeltas(h, user, channel, newKey);
      ErrorIsSilent(VoiceStates(h.members), LookUpError(db, channel));
    case LeaveVoice => LeaveDeltas(h, user);
    case UpdateVoiceState(muted, deafened) => FlagDeltas(h, user, muted, deafened);
    case StartScreen(request) => ShareDeltas(h, user, request);
    case StopScreen => if user in h.members { StopDeltas(h, user); }
    case WatchScreen(target) =>
      WatchIsSilent(h, user, target);
      ErrorIsSilent(VoiceStates(h.members), NotFound);
    case UnwatchScreen(target) => UnwatchIsSilent(h, user, target);
  }

  // ------------------------------------------------------------------ each step keeps agreement

  lemma SameConns(h: State, user: Id, msg: ClientMsg, db: Database, newKey: Key)
    requires CanServe(h, user, msg)
    ensures Changed(h, user, msg, db, newKey).conns == h.conns
    ensures Changed(h, user, msg, db, newKey).nextConn == h.nextConn
  {
  }

  lemma RequestAgrees(h: State, replicas: Replicas, conn: ConnId, user: Id, msg: ClientMsg, db: Database, newKey: Key)
    requires Agreed(h, replicas) && CanServe(h, user, msg)
    ensures Agreed(Handled(h, conn, user, msg, db, newKey), replicas)
  {
    var t, os := Changed(h, user, msg, db, newKey), Answer(h, user, msg, db, newKey);
    AnswerIsTheChange(h, user, msg, db, newKey);
    SameConns(h, user, msg, db, newKey);
    SentAgrees(t, replicas, VoiceStates(h.members), conn, os);
    SentKeeps(t, conn, os);
  }

  lemma LeaveAgrees(h: State, replicas: Replicas, conn: ConnId, user: Id)
    requires Agreed(h, replicas)
    ensures Agreed(LeaveHandled(h, conn, user), replicas)
  {
    LeaveDeltas(h, user);
    SentAgrees(Left(h, user), replicas, VoiceStates(h.members), conn, LeaveAnswer(h, user));
    SentKeeps(Left(h, user), conn, LeaveAnswer(h, user));
  }

  lemma ArriveAgrees(h: State, replicas: Replicas, user: Id, stale: map<Id, VoiceState>)
    requires Agreed(h, replicas) && h.nextConn !in h.conns
    ensures var t := Arrived(h, user); Agreed(t, replicas[h.nextConn := stale])
  {
    var v, conn, all := VoiceStates(h.members), h.nextConn, replicas[h.nextConn := stale];
    var ready := Ready(user, v);
    AppliedSnoc(stale, [], ready);
    var t := SentTo(Connected(h, user), conn, ready);
    assert t.conns[conn].queue == [] + [ready];
    assert AgreeOn(t.conns, all, v);
    PresenceAgrees(t, all, v, conn, user, true);
  }

  lemma DepartAgrees(h: State, replicas: Replicas, conn: ConnId)
    requires Agreed(h, replicas) && conn in h.conns
    ensures var t := Departed(h, conn); Agreed(t, replicas - {conn})
  {
    var user, t, left := h.conns[conn].user, h.(conns := h.conns - {conn}), replicas - {conn};
    assert Agreed(t, left);
    if !Online(t, user) {
      LeaveAgrees(t, left, conn, user);
      OfflineAgrees(LeaveHandled(t, conn, user), left, user);
    }
  }

  lemma OfflineAgrees(h: State, replicas: Replicas, user: Id)
    requires Agreed(h, replicas)
    ensures Agreed(Broadcast(h, Presence(user, false)), replicas)
  {
    var v, msg := VoiceStates(h.members), Presence(user, false);
    BroadcastAgrees(h, replicas, v, msg);
    assert Applied(v, msg) == v;
    assert Broadcast(h, msg).members == h.members;
  }

  lemma TakeAgrees(w: World, conn: ConnId)
    requires Agreed(w.hub, w.replicas) && Possible(w, Take(conn))
    ensures var t := Next(w, Take(conn)); Agreed(t.hub, t.replicas)
  {
    AppliedHead(w.replicas[conn], w.hub.conns[conn].queue);
  }

  /** Connection ids are never reused. */
  ghost predicate ConnIds(h: State) {
    forall c :: c in h.conns ==> c < h.nextConn
  }

  lemma NextAgrees(w: World, e: Event)
    requires Agreed(w.hub, w.replicas) && ConnIds(w.hub) && Possible(w, e)
    ensures Agreed(Next(w, e).hub, Next(w, e).replicas)
  {
    match e
    case Arrive(user, stale) => ArriveAgrees(w.hub, w.replicas, user, stale);
    case Request(conn, msg, newKey, fails) =>
      RequestAgrees(w.hub, w.replicas, conn, w.hub.conns[conn].user, msg, Asked(w, fails), newKey);
    case Depart(conn) => DepartAgrees(w.hub, w.replicas, conn);
    case Take(conn) => TakeAgrees(w, conn);
    case Bind(user, addr) => BindIsSilent(w.hub, user, addr);
    case CreateChannel(_, _) =>
  }

  lemma HandledConns(h: State, conn: ConnId, user: Id, msg: ClientMsg, db: Database, newKey: Key)
    requires CanServe(h, user, msg)
    ensures var t := Handled(h, conn, user, msg, db, newKey);
            t.conns.Keys == h.conns.Keys && t.nextConn == h.nextConn
  {
    SameConns(h, user, msg, db, newKey);
    SentKeeps(Changed(h, user, msg, db, newKey), conn, Answer(h, user, msg, db, newKey));
  }

  lemma DepartedConns(h: State, conn: ConnId)
    requires conn in h.conns
    ensures Departed(h, conn).conns.Keys == h.conns.Keys - {conn} && Departed(h, conn).nextConn == h.nextConn
  {
    var user, t := h.conns[conn].user, h.(conns := h.conns - {conn});
    SentKeeps(Left(t, user), conn, LeaveAnswer(t, user));
    FramesKeepConns(LeaveHandled(t, conn, user), conn, Presence(user, false));
  }

  lemma NextConnIds(w: World, e: Event)
    requires ConnIds(w.hub) && Possible(w, e)
    ensures ConnIds(Next(w, e).hub)
  {
    match e
    case Request(conn, msg, newKey, fails) =>
      HandledConns(w.hub, conn, w.hub.conns[conn].user, msg, Asked(w, fails), newKey);
    case Depart(conn) => DepartedConns(w.hub, conn);
    case _ =>
  }

  /** In every reachable state, however joins, moves, rejoins, mutes, shares, disconnects and reconnects have
      followed one another, every client that applies the frames still queued for it has exactly the hub's voice
      states. */
  lemma {:induction false} ReplicasAgree(channels: Channels, events: seq<Event>)
    ensures var w := Run(Start(channels), events); Agreed(w.hub, w.replicas) && ConnIds(w.hub)
    decreases |events|
  {
    if events != [] {
      var w, e := Run(Start(channels), events[..|events| - 1]), events[|events| - 1];
      ReplicasAgree(channels, events[..|events| - 1]);
      if Possible(w, e) {
        NextAgrees(w, e);
        NextConnIds(w, e);
      }
    }
  }

  // ------------------------------------------------------------------ what everybody sees

  /** What a client has once it has taken all its frames. */
  ghost function View(w: World, c: ConnId): map<Id, VoiceState>
    requires c in w.hub.conns && c in w.replicas
  {
    AppliedAll(w.replicas[c], w.hub.conns[c].queue)
  }

  /** Exactly the members of the calls, each as they are. */
  ghost predicate Shows(v: map<Id, VoiceState>, members: map<Id, Member>) {
    && (forall u :: u in v <==> u in members)
    && forall u :: u in members ==>
         && v[u].user == u && v[u].channel == members[u].channel && v[u].ssrc == members[u].voiceSsrc
         && v[u].muted == members[u].muted && v[u].deafened == members[u].deafened
         && v[u].screen == members[u].screen
  }

  /** In every reachable state every client comes to see exactly who is in which call, on which stream, muted or
      deafened, and sharing what. */
  lemma ReplicasShowTheMembers(channels: Channels, events: seq<Event>, c: ConnId)
    ensures var w := Run(Start(channels), events);
            c in w.hub.conns ==> c in w.replicas && Shows(View(w, c), w.hub.members)
  {
    ReplicasAgree(channels, events);
  }

  /** Whatever a client had left from before, when it connects its first frame puts that right. */
  lemma StaleIsReplaced(channels: Channels, events: seq<Event>, user: Id, stale: map<Id, VoiceState>)
    ensures var w, t := Run(Start(channels), events), Run(Start(channels), events + [Arrive(user, stale)]);
            var c := w.hub.nextConn;
            && c in t.hub.conns && c in t.replicas && t.replicas[c] == stale
            && t.hub.members == w.hub.members && Shows(View(t, c), w.hub.members)
  {
    assert (events + [Arrive(user, stale)])[..|events|] == events;
    ReplicasAgree(channels, events + [Arrive(user, stale)]);
  }

  /** All of an entry but the two flags and the share. */
  ghost predicate SamePlace(a: VoiceState, b: VoiceState) {
    a.user == b.user && a.channel == b.channel && a.ssrc == b.ssrc
  }

  ghost predicate SameFlags(a: VoiceState, b: VoiceState) { a.muted == b.muted && a.deafened == b.deafened }

  ghost predicate SameButFor(before: map<Id, VoiceState>, after: map<Id, VoiceState>, user: Id) {
    forall u :: u != user ==> (u in after <==> u in before) && (u in after ==> after[u] == before[u])
  }

  ghost predicate JoinShown(after: map<Id, VoiceState>, user: Id, channel: Id) {
    && user in after && after[user].user == user && after[user].channel == channel
    && !after[user].muted && !after[user].deafened && after[user].screen.None?
  }

  ghost predicate FlagsShown(before: map<Id, VoiceState>, after: map<Id, VoiceState>, user: Id, muted: bool,
                             deafened: bool)
  {
    && (user in after <==> user in before)
    && (user in after ==>
          && SamePlace(after[user], before[user]) && after[user].screen == before[user].screen
          && (after[user].muted <==> muted) && (after[user].deafened <==> deafened))
  }

  ghost predicate ShareShown(before: map<Id, VoiceState>, after: map<Id, VoiceState>, user: Id, r: ScreenRequest)
    requires user in before
  {
    && user in after && SamePlace(after[user], before[user]) && SameFlags(after[user], before[user])
    && match after[user].screen
       case None => false
       case Some(s) => s.width == r.width && s.height == r.height && s.fps == r.fps && s.kbps == r.kbps
                       && s.withAudio == r.withAudio
  }

  ghost predicate StopShown(before: map<Id, VoiceState>, after: map<Id, VoiceState>, user: Id) {
    && (user in after <==> user in before)
    && (user in after ==>
          && SamePlace(after[user], before[user]) && SameFlags(after[user], before[user])
          && after[user].screen.None?)
  }

  /** What a request makes of the sender's entry; of anybody else's it makes nothing. */
  ghost predicate ShownAfter(before: map<Id, VoiceState>, after: map<Id, VoiceState>, user: Id, msg: ClientMsg,
                             db: Database)
  {
    && SameButFor(before, after, user)
    && match msg
       case JoinVoice(channel) =>
         if db.Answers? && channel in db.channels && db.channels[channel] then JoinShown(after, user, channel)
         else after == before
       case LeaveVoice => user !in after
       case UpdateVoiceState(muted, deafened) => FlagsShown(before, after, user, muted, deafened)
       case StartScreen(r) =>
         if Sensible(r) && user in before then ShareShown(before, after, user, r) else after == before
       case StopScreen => StopShown(before, after, user)
       case WatchScreen(_) => after == before
       case UnwatchScreen(_) => after == before
  }

  lemma ChangeIsShown(h: State, user: Id, msg: ClientMsg, db: Database, newKey: Key)
    requires CanServe(h, user, msg)
    ensures ShownAfter(VoiceStates(h.members), VoiceStates(Changed(h, user, msg, db, newKey).members), user, msg, db)
  {
    match msg
    case JoinVoice(channel) => if IsVoice(db, channel) { JoinIsShown(h, user, channel, newKey); }
    case LeaveVoice => LeaveIsShown(h, user);
    case UpdateVoiceState(muted, deafened) => FlagsAreShown(h, user, muted, deafened);
    case StartScreen(r) => ShareIsShown(h, user, r);
    case StopScreen => StopIsShown(h, user);
    case WatchScreen(target) => WatchIsSilent(h, user, target);
    case UnwatchScreen(target) => UnwatchIsSilent(h, user, target);
  }

  lemma JoinIsShown(h: State, user: Id, channel: Id, newKey: Key)
    requires HasFree(Removed(h, user).bySsrc)
    ensures var before, after := VoiceStates(h.members), VoiceStates(Joined(h, user, channel, newKey).members);
            SameButFor(before, after, user) && JoinShown(after, user, channel)
  {
  }

  lemma LeaveIsShown(h: State, user: Id)
    ensures var before, after := VoiceStates(h.members), VoiceStates(Left(h, user).members);
            SameButFor(before, after, user) && user !in after
  {
    if user in h.members { LeftStates(h, user); }
  }

  lemma FlagsAreShown(h: State, user: Id, muted: bool, deafened: bool)
    ensures var before, after := VoiceStates(h.members), VoiceStates(Flagged(h, user, muted, deafened).members);
            SameButFor(before, after, user) && FlagsShown(before, after, user, muted, deafened)
  {
  }

  lemma ShareIsShown(h: State, user: Id, r: ScreenRequest)
    ensures CheckScreenRequest(r) <==> Sensible(r)
    ensures var before, after := VoiceStates(h.members), VoiceStates(Sharing(h, user, r).members);
            && SameButFor(before, after, user)
            && if user in before then ShareShown(before, after, user, r) else after == before
  {
  }

  lemma StopIsShown(h: State, user: Id)
    ensures var before, after := VoiceStates(h.members), VoiceStates(NotSharing(h, user).members);
            SameButFor(before, after, user) && StopShown(before, after, user)
  {
  }

  /** After any request at any point of any run, every client comes to see of its sender what was asked for, and of
      everybody else what it saw before. */
  lemma EverybodySeesTheRequest(channels: Channels, events: seq<Event>, e: Event, c: ConnId)
    requires e.Request? && Possible(Run(Start(channels), events), e) && c in Run(Start(channels), events).hub.conns
    ensures var w, t := Run(Start(channels), events), Run(Start(channels), events + [e]);
            && c in w.replicas && c in t.hub.conns && c in t.replicas
            && ShownAfter(View(w, c), View(t, c), w.hub.conns[e.conn].user, e.msg, Asked(w, e.fails))
  {
    var w := Run(Start(channels), events);
    assert (events + [e])[..|events|] == events;
    ReplicasAgree(channels, events);
    ReplicasAgree(channels, events + [e]);
    var user, db := w.hub.conns[e.conn].user, Asked(w, e.fails);
    ChangeIsShown(w.hub, user, e.msg, db, e.newKey);
    SentKeeps(Changed(w.hub, user, e.msg, db, e.newKey), e.conn, Answer(w.hub, user, e.msg, db, e.newKey));
    SameConns(w.hub, user, e.msg, db, e.newKey);
  }
}
