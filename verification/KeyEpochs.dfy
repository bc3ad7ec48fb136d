/** Voice membership and channel keys over every run. */
module KeyEpochs {
  import opened Control
  import opened Hub
  import opened HubInvariant
  import opened Session
  import opened Replica
  import Media

  // ------------------------------------------------------------------ what a request does besides sending frames

  ghost predicate SameCall(h: State, t: State) {
    h.members == t.members && h.bySsrc == t.bySsrc && h.keys == t.keys && h.nextSsrc == t.nextSsrc
  }

  lemma HandledChanges(h: State, conn: ConnId, user: Id, msg: ClientMsg, db: Database, newKey: Key)
    requires CanServe(h, user, msg)
    ensures SameCall(Handled(h, conn, user, msg, db, newKey), Changed(h, user, msg, db, newKey))
  {
    SentKeeps(Changed(h, user, msg, db, newKey), conn, Answer(h, user, msg, db, newKey));
  }

  lemma DepartedChanges(h: State, conn: ConnId)
    requires conn in h.conns
    ensures SameCall(Departed(h, conn), h) || SameCall(Departed(h, conn), Left(h, h.conns[conn].user))
  {
    var user, t := h.conns[conn].user, h.(conns := h.conns - {conn});
    SentKeeps(Left(t, user), conn, LeaveAnswer(t, user));
  }

  lemma SoundChange(h: State, user: Id, msg: ClientMsg, db: Database, newKey: Key)
    requires Sound(h) && CanServe(h, user, msg) && (msg.JoinVoice? ==> TwoFree(Removed(h, user)))
    ensures Sound(Changed(h, user, msg, db, newKey))
  {
    match msg
    case JoinVoice(channel) => JoinedIsSound(h, user, channel, newKey);
    case LeaveVoice => LeftIsSound(h, user);
    case UpdateVoiceState(muted, deafened) => FlaggedIsSound(h, user, muted, deafened);
    case StartScreen(request) => SharingIsSound(h, user, request);
    case StopScreen => NotSharingIsSound(h, user);
    case WatchScreen(target) => WatchingIsSound(h, user, target);
    case UnwatchScreen(target) => NotWatchingIsSound(h, user, target);
  }

  lemma LeftIsSound(h: State, user: Id)
    requires Sound(h)
    ensures Sound(Left(h, user))
  {
    NotSharingIsSound(h, user);
    RemovedIsSound(NotSharing(h, user), user);
  }

  lemma SameCallIsSound(h: State, t: State)
    requires Sound(h) && SameCall(h, t)
    ensures Sound(t)
  {
  }

  lemma RequestIsSound(h: State, conn: ConnId, user: Id, msg: ClientMsg, db: Database, newKey: Key)
    requires Sound(h) && CanServe(h, user, msg) && (msg.JoinVoice? ==> TwoFree(Removed(h, user)))
    ensures Sound(Handled(h, conn, user, msg, db, newKey))
  {
    SoundChange(h, user, msg, db, newKey);
    HandledChanges(h, conn, user, msg, db, newKey);
    SameCallIsSound(Changed(h, user, msg, db, newKey), Handled(h, conn, user, msg, db, newKey));
  }

  lemma DepartIsSound(h: State, conn: ConnId)
    requires Sound(h) && conn in h.conns
    ensures Sound(Departed(h, conn))
  {
    LeftIsSound(h, h.conns[conn].user);
    DepartedChanges(h, conn);
    if SameCall(Departed(h, conn), h) {
      SameCallIsSound(h, Departed(h, conn));
    } else {
      SameCallIsSound(Left(h, h.conns[conn].user), Departed(h, conn));
    }
  }

  lemma NextIsSound(w: World, e: Event)
    requires Sound(w.hub) && Possible(w, e)
    ensures Sound(Next(w, e).hub)
  {
    match e
    case Arrive(user, _) => SameCallIsSound(w.hub, Arrived(w.hub, user));
    case Request(conn, msg, newKey, fails) =>
      RequestIsSound(w.hub, conn, w.hub.conns[conn].user, msg, Asked(w, fails), newKey);
    case Depart(conn) => DepartIsSound(w.hub, conn);
    case Take(_) => SameCallIsSound(w.hub, Next(w, e).hub);
    case Bind(user, addr) => BoundIsSound(w.hub, user, addr);
    case CreateChannel(_, _) =>
  }

  // ------------------------------------------------------------------ keys

  /** Every member was last handed its channel's key; no two channels share one; no key in use was ever given up. */
  ghost predicate KeysInv(members: map<Id, Member>, keys: map<Id, Key>, handed: map<Id, Key>,
                          drawn: set<Key>, retired: set<Key>)
  {
    && (forall u :: u in members ==> members[u].channel in keys && u in handed && handed[u] == keys[members[u].channel])
    && (forall c, d :: c in keys && d in keys && c != d ==> keys[c] != keys[d])
    && (forall c :: c in keys ==> keys[c] in drawn && keys[c] !in retired)
    && retired <= drawn
  }

  ghost predicate Epochs(w: World) {
    KeysInv(w.hub.members, w.hub.keys, w.handed, w.drawn, w.retired)
  }

  /** Members may go, and with them keys that nobody left in a channel needs. */
  lemma ShrinkKeeps(w: World, t: State)
    requires Epochs(w)
    requires forall u :: u in t.members ==> u in w.hub.members && t.members[u].channel == w.hub.members[u].channel
    requires forall c :: c in t.keys ==> c in w.hub.keys && t.keys[c] == w.hub.keys[c]
    requires forall u :: u in t.members ==> t.members[u].channel in t.keys
    ensures KeysInv(t.members, t.keys, w.handed, w.drawn, w.retired + Dropped(w.hub.keys, t.keys))
  {
  }

  /** After a removal everybody's channel still has its key. */
  lemma KeysRemain(h: State, g: State)
    requires Sound(g)
    ensures forall u :: u in g.members ==> g.members[u].channel in g.keys
  {
    forall u | u in g.members
      ensures g.members[u].channel in g.keys
    {
      assert Occupied(g.members, g.members[u].channel);
    }
  }

  lemma RemovalKeeps(w: World, user: Id)
    requires Epochs(w) && Sound(w.hub)
    ensures var g := Removed(w.hub, user);
            && KeysInv(g.members, g.keys, w.handed, w.drawn, w.retired + Dropped(w.hub.keys, g.keys))
            && forall c :: c in g.keys ==> c in w.hub.keys && g.keys[c] == w.hub.keys[c]
  {
    var g := Removed(w.hub, user);
    RemovedIsSound(w.hub, user);
    KeysRemain(w.hub, g);
    ShrinkKeeps(w, g);
  }

  /** A key no channel has is drawn for one that has none, or the one it has is handed out again. */
  lemma AddKeeps(members: map<Id, Member>, keys: map<Id, Key>, handed: map<Id, Key>, drawn: set<Key>, retired: set<Key>,
                 user: Id, m: Member, newKey: Key)
    requires KeysInv(members, keys, handed, drawn, retired) && newKey !in drawn && user !in members
    ensures var more := if m.channel in keys then keys else keys[m.channel := newKey];
            KeysInv(members[user := m], more, handed[user := more[m.channel]], drawn + {newKey}, retired)
  {
  }

  lemma DroppedByJoin(before: map<Id, Key>, middle: map<Id, Key>, channel: Id, newKey: Key)
    requires forall c :: c in middle ==> c in before && middle[c] == before[c]
    requires newKey !in before.Values && channel !in middle
    ensures Dropped(before, middle[channel := newKey]) == Dropped(before, middle)
  {
    var after := middle[channel := newKey];
    forall c | c in before
      ensures (c !in after || after[c] != before[c]) <==> (c !in middle || middle[c] != before[c])
    {
      assert before[c] in before.Values;
    }
  }

  /** A join hands out the channel's key: the one in use, or one never drawn before. */
  lemma JoinKeeps(w: World, user: Id, channel: Id, newKey: Key)
    requires Epochs(w) && Sound(w.hub) && newKey !in w.drawn && HasFree(Removed(w.hub, user).bySsrc)
    ensures var t := Joined(w.hub, user, channel, newKey);
            && channel in t.keys
            && KeysInv(t.members, t.keys, w.handed[user := t.keys[channel]], w.drawn + {newKey},
                       w.retired + Dropped(w.hub.keys, t.keys))
  {
    var g, t := Removed(w.hub, user), Joined(w.hub, user, channel, newKey);
    RemovalKeeps(w, user);
    AddKeeps(g.members, g.keys, w.handed, w.drawn,
             w.retired + Dropped(w.hub.keys, g.keys), user, t.members[user], newKey);
    if channel !in g.keys { DroppedByJoin(w.hub.keys, g.keys, channel, newKey); }
  }

  lemma OthersKeep(w: World, t: State)
    requires Epochs(w) && t.keys == w.hub.keys && t.members.Keys == w.hub.members.Keys
    requires forall u :: u in t.members ==> t.members[u].channel == w.hub.members[u].channel
    ensures KeysInv(t.members, t.keys, w.handed, w.drawn, w.retired + Dropped(w.hub.keys, t.keys))
  {
  }

  lemma LeaveKeeps(w: World, user: Id)
    requires Epochs(w) && Sound(w.hub)
    ensures var t := Left(w.hub, user);
            KeysInv(t.members, t.keys, w.handed, w.drawn, w.retired + Dropped(w.hub.keys, t.keys))
  {
    var t := Left(w.hub, user);
    LeftIsSound(w.hub, user);
    KeysRemain(w.hub, t);
    LeavingShrinks(w.hub, user);
    ShrinkKeeps(w, t);
  }

  lemma LeavingShrinks(h: State, user: Id)
    ensures var t := Left(h, user);
            && (forall u :: u in t.members ==> u in h.members && t.members[u].channel == h.members[u].channel)
            && (forall c :: c in t.keys ==> c in h.keys && t.keys[c] == h.keys[c])
  {
  }

  lemma MoreDrawn(members: map<Id, Member>, keys: map<Id, Key>, handed: map<Id, Key>,
                  drawn: set<Key>, retired: set<Key>, k: Key)
    requires KeysInv(members, keys, handed, drawn, retired)
    ensures KeysInv(members, keys, handed, drawn + {k}, retired)
  {
  }

  lemma UpdateKeepsChannels(h: State, user: Id, msg: ClientMsg, db: Database, newKey: Key)
    requires CanServe(h, user, msg) && !msg.LeaveVoice?
    requires !(msg.JoinVoice? && IsVoice(db, msg.channel))
    ensures var t := Changed(h, user, msg, db, newKey);
            && t.keys == h.keys && t.members.Keys == h.members.Keys
            && forall u :: u in t.members ==> t.members[u].channel == h.members[u].channel
  {
  }

  lemma RequestKeeps(w: World, conn: ConnId, msg: ClientMsg, newKey: Key, fails: bool)
    requires Epochs(w) && Sound(w.hub) && Possible(w, Request(conn, msg, newKey, fails))
    ensures Epochs(Next(w, Request(conn, msg, newKey, fails)))
  {
    var user := w.hub.conns[conn].user;
    var t := Changed(w.hub, user, msg, Asked(w, fails), newKey);
    HandledChanges(w.hub, conn, user, msg, Asked(w, fails), newKey);
    var dropped := w.retired + Dropped(w.hub.keys, t.keys);
    if JoinsCall(w, msg, fails) {
      JoinKeeps(w, user, msg.channel, newKey);
    } else {
      if msg.LeaveVoice? {
        LeaveKeeps(w, user);
      } else {
        UpdateKeepsChannels(w.hub, user, msg, Asked(w, fails), newKey);
        OthersKeep(w, t);
      }
      MoreDrawn(t.members, t.keys, w.handed, w.drawn, dropped, newKey);
    }
  }

  lemma DepartKeeps(w: World, conn: ConnId)
    requires Epochs(w) && Sound(w.hub) && conn in w.hub.conns
    ensures Epochs(Next(w, Depart(conn)))
  {
    DepartedChanges(w.hub, conn);
    var t := Departed(w.hub, conn);
    if SameCall(t, w.hub) { OthersKeep(w, t); } else { LeaveKeeps(w, w.hub.conns[conn].user); }
  }

  lemma NextKeepsEpochs(w: World, e: Event)
    requires Epochs(w) && Sound(w.hub) && Possible(w, e)
    ensures Epochs(Next(w, e))
  {
    match e
    case Arrive(user, stale) => ArriveKeeps(w, user, stale);
    case Request(conn, msg, newKey, fails) => RequestKeeps(w, conn, msg, newKey, fails);
    case Depart(conn) => DepartKeeps(w, conn);
    case Take(_) =>
    case Bind(user, addr) => BindKeeps(w, user, addr);
    case CreateChannel(_, _) =>
  }

  lemma ArriveKeeps(w: World, user: Id, stale: map<Id, VoiceState>)
    requires Epochs(w)
    ensures Epochs(Next(w, Arrive(user, stale)))
  {
    assert SameCall(w.hub, Arrived(w.hub, user));
    OthersKeep(w, Arrived(w.hub, user));
  }

  lemma BindKeeps(w: World, user: Id, addr: Addr)
    requires Epochs(w)
    ensures Epochs(Next(w, Bind(user, addr)))
  {
    var t := Bound(w.hub, user, addr);
    assert forall u :: u in t.members ==> u in w.hub.members && t.members[u].channel == w.hub.members[u].channel;
  }

  /** In every reachable state: stream ids, keys, subscriptions and shares are as `Sound` says; every member holds
      its channel's key; and the keys in use, all different, are none of those any channel has given up. */
  lemma {:induction false} EveryRunIsSound(channels: Channels, events: seq<Event>)
    ensures var w := Run(Start(channels), events); Sound(w.hub) && Epochs(w)
    decreases |events|
  {
    if events != [] {
      var w, e := Run(Start(channels), events[..|events| - 1]), events[|events| - 1];
      EveryRunIsSound(channels, events[..|events| - 1]);
      if Possible(w, e) {
        NextIsSound(w, e);
        NextKeepsEpochs(w, e);
      }
    }
  }

  /** A key given up never comes back into use, for any channel, whatever happens later. */
  lemma {:induction false} GivenUpForGood(channels: Channels, events: seq<Event>, later: seq<Event>)
    ensures var w, x := Run(Start(channels), events), Run(Start(channels), events + later);
            w.retired <= x.retired && forall c :: c in x.hub.keys ==> x.hub.keys[c] !in w.retired
    decreases |later|
  {
    if later == [] {
      assert events + later == events;
      EveryRunIsSound(channels, events);
    } else {
      assert (events + later)[..|events + later| - 1] == events + later[..|later| - 1];
      GivenUpForGood(channels, events, later[..|later| - 1]);
      EveryRunIsSound(channels, events + later);
    }
  }

  /** Whoever the relay forwards to was last handed the very key the sender was, and nobody now in another channel
      was. Who else has ever been handed it is the next result. */
  lemma TargetsHoldTheKey(channels: Channels, events: seq<Event>, header: Media.Header, from: Addr, u: Id)
    ensures var w := Run(Start(channels), events);
            var r := Route(w.hub, header, from);
            r.Forward? && u in r.targets ==>
              && u in w.hub.members && u in w.handed && header.ssrc in w.hub.bySsrc
              && var sender := w.hub.bySsrc[header.ssrc];
                 && sender in w.hub.members && sender in w.handed && u != sender
                 && w.hub.members[sender].channel in w.hub.keys
                 && w.handed[u] == w.handed[sender] == w.hub.keys[w.hub.members[sender].channel]
                 && forall x :: x in w.hub.members && w.hub.members[x].channel != w.hub.members[sender].channel ==>
                      x in w.handed && w.handed[x] != w.handed[sender]
  {
    EveryRunIsSound(channels, events);
  }

  // ------------------------------------------------------------------ the relay after an event

  /** At any point of any run: from when an address is registered for a member, what they say goes out from there and
      from nowhere else, and what is for them goes there. */
  lemma RegisteredFromThenOn(channels: Channels, events: seq<Event>, u: Id, addr: Addr, header: Media.Header,
                             from: Addr)
    requires u in Run(Start(channels), events).hub.members
    ensures var h := Run(Start(channels), events + [Bind(u, addr)]).hub;
            && u in h.members
            && (header.kind.Voice? && header.ssrc == h.members[u].voiceSsrc ==>
                  (Route(h, header, from).Forward? <==> from == addr))
            && (ReachedBy(h, header, from, u) ==> Route(h, header, from).targets[u] == addr)
  {
    EveryRunIsSound(channels, events);
    assert (events + [Bind(u, addr)])[..|events|] == events;
    RebindingMovesTheMember(Run(Start(channels), events).hub, u, addr, header, from);
  }

  /** A member asks to see a share, or to see it no more, and `header` is of that share. */
  ghost predicate Asks(w: World, e: Event, owner: Id, header: Media.Header) {
    && e.Request? && Possible(w, e) && (e.msg == WatchScreen(owner) || e.msg == UnwatchScreen(owner))
    && var u := w.hub.conns[e.conn].user;
       && u != owner && u in w.hub.members && owner in w.hub.members
       && w.hub.members[u].addr.Some? && w.hub.members[owner].addr.Some?
       && (header.kind.VideoKey? || header.kind.VideoDelta? || header.kind.DesktopAudio?)
       && header.ssrc == w.hub.members[owner].screenSsrc
  }

  /** From when a member has asked for a share they are sent it, if its owner is in their channel, and from when they
      ask no more they are not. */
  lemma AskedFromThenOn(channels: Channels, events: seq<Event>, e: Event, owner: Id, header: Media.Header)
    requires Asks(Run(Start(channels), events), e, owner, header)
    ensures var w, t := Run(Start(channels), events), Run(Start(channels), events + [e]);
            var u := w.hub.conns[e.conn].user;
            ReachedBy(t.hub, header, w.hub.members[owner].addr.value, u)
            <==> e.msg.WatchScreen? && MembersTogether(w.hub, u, owner)
  {
    EveryRunIsSound(channels, events);
    assert (events + [e])[..|events|] == events;
    AskedOnce(Run(Start(channels), events), e, owner, header);
  }

  lemma AskedOnce(w: World, e: Event, owner: Id, header: Media.Header)
    requires Sound(w.hub) && Asks(w, e, owner, header)
    ensures var u := w.hub.conns[e.conn].user;
            ReachedBy(Next(w, e).hub, header, w.hub.members[owner].addr.value, u)
            <==> e.msg.WatchScreen? && MembersTogether(w.hub, u, owner)
  {
    var u, from := w.hub.conns[e.conn].user, w.hub.members[owner].addr.value;
    var t := if e.msg.WatchScreen? then Watching(w.hub, u, owner) else NotWatching(w.hub, u, owner);
    AskingIsReceiving(w.hub, u, owner, header);
    AskingChanges(w, e, owner);
    RequestRoutes(w, e, header, from);
    RouteReaches(Next(w, e).hub, t, header, from, u);
  }

  lemma AskingChanges(w: World, e: Event, owner: Id)
    requires e.Request? && Possible(w, e) && (e.msg == WatchScreen(owner) || e.msg == UnwatchScreen(owner))
    ensures var u := w.hub.conns[e.conn].user;
            Changed(w.hub, u, e.msg, Asked(w, e.fails), e.newKey)
            == if e.msg.WatchScreen? then Watching(w.hub, u, owner) else NotWatching(w.hub, u, owner)
  {
  }

  lemma RouteReaches(h: State, t: State, header: Media.Header, from: Addr, u: Id)
    requires Route(h, header, from) == Route(t, header, from)
    ensures ReachedBy(h, header, from, u) <==> ReachedBy(t, header, from, u)
  {
  }

  /** A member sets their flags, and `header` is of somebody speaking in their channel. */
  ghost predicate SetsFlags(w: World, e: Event, speaker: Id, header: Media.Header) {
    && e.Request? && Possible(w, e) && e.msg.UpdateVoiceState?
    && var u := w.hub.conns[e.conn].user;
       && u != speaker && MembersTogether(w.hub, u, speaker)
       && w.hub.members[u].addr.Some? && w.hub.members[speaker].addr.Some?
       && header.kind.Voice? && header.ssrc == w.hub.members[speaker].voiceSsrc
  }

  /** From when a member has set their flags, they are sent what somebody in their channel says unless deafened. */
  lemma FlaggedFromThenOn(channels: Channels, events: seq<Event>, e: Event, speaker: Id, header: Media.Header)
    requires SetsFlags(Run(Start(channels), events), e, speaker, header)
    ensures var w, t := Run(Start(channels), events), Run(Start(channels), events + [e]);
            ReachedBy(t.hub, header, w.hub.members[speaker].addr.value, w.hub.conns[e.conn].user)
            <==> !e.msg.deafened
  {
    EveryRunIsSound(channels, events);
    assert (events + [e])[..|events|] == events;
    FlaggedOnce(Run(Start(channels), events), e, speaker, header);
  }

  lemma FlaggedOnce(w: World, e: Event, speaker: Id, header: Media.Header)
    requires Sound(w.hub) && SetsFlags(w, e, speaker, header)
    ensures ReachedBy(Next(w, e).hub, header, w.hub.members[speaker].addr.value, w.hub.conns[e.conn].user)
            <==> !e.msg.deafened
  {
    DeafenedHearNothing(w.hub, w.hub.conns[e.conn].user, speaker, e.msg.muted, e.msg.deafened, header);
    RequestRoutes(w, e, header, w.hub.members[speaker].addr.value);
  }

  /** After a request the relay is that of the change it makes. */
  lemma RequestRoutes(w: World, e: Event, header: Media.Header, from: Addr)
    requires e.Request? && Possible(w, e)
    ensures CanServe(w.hub, w.hub.conns[e.conn].user, e.msg)
    ensures Route(Next(w, e).hub, header, from)
         == Route(Changed(w.hub, w.hub.conns[e.conn].user, e.msg, Asked(w, e.fails), e.newKey), header, from)
  {
    var u, db := w.hub.conns[e.conn].user, Asked(w, e.fails);
    HandledChanges(w.hub, e.conn, u, e.msg, db, e.newKey);
    SameCallSameRoute(Handled(w.hub, e.conn, u, e.msg, db, e.newKey), Changed(w.hub, u, e.msg, db, e.newKey),
                      header, from);
  }

  lemma SameCallSameRoute(h: State, t: State, header: Media.Header, from: Addr)
    requires SameCall(h, t)
    ensures Route(h, header, from) == Route(t, header, from)
  {
  }

  // ------------------------------------------------------------------ every key ever handed out

  /** What a connection is sent in a step. */
  ghost function SentIn(w: World, e: Event, conn: ConnId): seq<ServerMsg>
    requires conn in w.hub.conns && conn in Next(w, e).hub.conns
    requires |w.hub.conns[conn].queue| <= |Next(w, e).hub.conns[conn].queue|
  {
    Next(w, e).hub.conns[conn].queue[|w.hub.conns[conn].queue|..]
  }

  ghost predicate IsJoin(w: World, e: Event) {
    e.Request? && Possible(w, e) && JoinsCall(w, e.msg, e.fails)
  }

  /** The frames for one connection among those a request has sent. */
  ghost function For(conn: ConnId, c: ConnId, os: seq<Outgoing>): seq<ServerMsg>
    decreases |os|
  {
    if os == [] then []
    else
      var o := os[|os| - 1];
      For(conn, c, os[..|os| - 1]) + if o.ToAll? || c == conn then [o.msg] else []
  }

  lemma {:induction false} SentFor(h: State, conn: ConnId, c: ConnId, os: seq<Outgoing>)
    requires c in h.conns && conn in h.conns
    ensures var t := Sent(h, conn, os); c in t.conns && t.conns[c].queue == h.conns[c].queue + For(conn, c, os)
    decreases |os|
  {
    SentKeeps(h, conn, os);
    if os == [] {
      assert h.conns[c].queue + [] == h.conns[c].queue;
    } else {
      var init, o := os[..|os| - 1], os[|os| - 1];
      SentFor(h, conn, c, init);
      SentKeeps(h, conn, init);
    }
  }

  lemma ForSnoc(conn: ConnId, c: ConnId, os: seq<Outgoing>, o: Outgoing)
    ensures For(conn, c, os + [o]) == For(conn, c, os) + if o.ToAll? || c == conn then [o.msg] else []
  {
    assert (os + [o])[..|os|] == os;
  }

  /** A join sends credentials to the joiner's connection and to no other: the joiner's stream id, and the very key the
      channel then has. */
  lemma JoinSendsTheKey(w: World, e: Event, c: ConnId)
    requires IsJoin(w, e) && c in w.hub.conns
    ensures var t := Next(w, e).hub;
      var user := w.hub.conns[e.conn].user;
      && c in t.conns && |w.hub.conns[c].queue| <= |t.conns[c].queue|
      && user in t.members && t.members[user].channel == e.msg.channel && e.msg.channel in t.keys
      && OnlyCredentials(SentIn(w, e, c), c == e.conn,
                         VoiceReady(e.msg.channel, t.members[user].voiceSsrc, t.keys[e.msg.channel]))
  {
    var user, channel := w.hub.conns[e.conn].user, e.msg.channel;
    var joined, os := Joined(w.hub, user, channel, e.newKey), JoinAnswer(w.hub, user, channel, e.newKey);
    SentFor(joined, e.conn, c, os);
    SentKeeps(joined, e.conn, os);
    JoinFrames(w.hub, e.conn, c, user, channel, e.newKey);
    assert SentIn(w, e, c) == For(e.conn, c, os);
  }

  ghost predicate OnlyCredentials(frames: seq<ServerMsg>, here: bool, ready: ServerMsg) {
    forall m :: m in frames && m.VoiceReady? <==> here && m == ready
  }

  lemma JoinFrames(h: State, conn: ConnId, c: ConnId, user: Id, channel: Id, newKey: Key)
    requires HasFree(Removed(h, user).bySsrc)
    ensures var t := Joined(h, user, channel, newKey);
      OnlyCredentials(For(conn, c, JoinAnswer(h, user, channel, newKey)), c == conn,
                      VoiceReady(channel, t.members[user].voiceSsrc, t.keys[channel]))
  {
    var t, moved := Joined(h, user, channel, newKey), MovedAnswer(h, user);
    var state := StateOf(user, t.members[user]);
    MovedFrames(h, conn, c, user);
    CredentialsBetween(conn, c, moved, VoiceReady(channel, state.ssrc, t.keys[channel]), VoiceChanged(state));
  }

  lemma MovedFrames(h: State, conn: ConnId, c: ConnId, user: Id)
    ensures forall m :: m in For(conn, c, MovedAnswer(h, user)) ==> !m.VoiceReady?
  {
    var moved := MovedAnswer(h, user);
    if user in h.members {
      ForSnoc(conn, c, [], moved[0]);
      assert [] + moved == moved;
    }
  }

  lemma CredentialsBetween(conn: ConnId, c: ConnId, moved: seq<Outgoing>, ready: ServerMsg, changed: ServerMsg)
    requires (forall m :: m in For(conn, c, moved) ==> !m.VoiceReady?) && ready.VoiceReady? && !changed.VoiceReady?
    ensures OnlyCredentials(For(conn, c, moved + [ToSelf(ready)] + [ToAll(changed)]), c == conn, ready)
  {
    ForSnoc(conn, c, moved, ToSelf(ready));
    ForSnoc(conn, c, moved + [ToSelf(ready)], ToAll(changed));
  }

  /** Who is handed what in a step. */
  ghost function Handing(w: World, e: Event): set<(Id, Key)> {
    if IsJoin(w, e) && e.msg.channel in Next(w, e).hub.keys then
      {(w.hub.conns[e.conn].user, Next(w, e).hub.keys[e.msg.channel])}
    else {}
  }

  /** Everybody who has ever been handed a key, with the key. */
  ghost function Given(channels: Channels, events: seq<Event>): set<(Id, Key)>
    decreases |events|
  {
    if events == [] then {}
    else
      var init := events[..|events| - 1];
      Given(channels, init) + Handing(Run(Start(channels), init), events[|events| - 1])
  }

  /** Whether a channel stands empty at some moment of a step. Somebody joining leaves first. */
  ghost predicate Emptied(w: World, e: Event, channel: Id) {
    if IsJoin(w, e) then !Occupied(Removed(w.hub, w.hub.conns[e.conn].user).members, channel)
    else !Occupied(Next(w, e).hub.members, channel)
  }

  ghost function SinceStep(w: World, e: Event, channel: Id, before: set<Id>): set<Id> {
    var kept := if Possible(w, e) && Emptied(w, e, channel) then {} else before;
    if IsJoin(w, e) && e.msg.channel == channel then kept + {w.hub.conns[e.conn].user} else kept
  }

  /** Everybody who has joined a channel since it last stood empty. */
  ghost function Since(channels: Channels, events: seq<Event>, channel: Id): set<Id>
    decreases |events|
  {
    if events == [] then {}
    else
      var init := events[..|events| - 1];
      SinceStep(Run(Start(channels), init), events[|events| - 1], channel, Since(channels, init, channel))
  }

  /** What a step does to the keys: only a join brings one, drawn just then, and only an emptied channel loses one. */
  lemma KeysOfStep(w: World, e: Event, c: Id)
    requires Sound(w.hub) && Possible(w, e)
    ensures var t := Next(w, e).hub;
      && (IsJoin(w, e) && e.msg.channel == c ==>
            c in t.keys && t.keys[c] == if Emptied(w, e, c) then e.newKey else w.hub.keys[c])
      && (IsJoin(w, e) && e.msg.channel == c && !Emptied(w, e, c) ==> c in w.hub.keys)
      && (!(IsJoin(w, e) && e.msg.channel == c) ==>
            && (c in t.keys <==> c in w.hub.keys && !Emptied(w, e, c))
            && (c in t.keys ==> t.keys[c] == w.hub.keys[c]))
  {
    if IsJoin(w, e) { KeysOfJoinStep(w, e, c); } else { KeysOfOtherStep(w, e, c); }
  }

  lemma KeysOfJoinStep(w: World, e: Event, c: Id)
    requires Sound(w.hub) && IsJoin(w, e)
    ensures var t := Next(w, e).hub;
      && (e.msg.channel == c ==> c in t.keys && (Emptied(w, e, c) ==> t.keys[c] == e.newKey))
      && (e.msg.channel == c && !Emptied(w, e, c) ==> c in w.hub.keys && t.keys[c] == w.hub.keys[c])
      && (e.msg.channel != c ==> (c in t.keys <==> c in w.hub.keys && !Emptied(w, e, c)))
      && (e.msg.channel != c && c in t.keys ==> t.keys[c] == w.hub.keys[c])
  {
    var user := w.hub.conns[e.conn].user;
    HandledChanges(w.hub, e.conn, user, e.msg, Asked(w, e.fails), e.newKey);
    KeysOfJoin(w.hub, user, e.msg.channel, e.newKey, c);
  }

  lemma KeysOfOtherStep(w: World, e: Event, c: Id)
    requires Sound(w.hub) && Possible(w, e) && !IsJoin(w, e)
    ensures var t := Next(w, e).hub;
      (c in t.keys <==> c in w.hub.keys && Occupied(t.members, c)) && (c in t.keys ==> t.keys[c] == w.hub.keys[c])
  {
    match e
    case Request(_, _, _, _) => KeysOfRequest(w, e, c);
    case Depart(conn) => KeysOfDepart(w, conn, c);
    case Arrive(user, stale) => assert SameCall(w.hub, Arrived(w.hub, user));
    case Bind(user, addr) => SameKeys(w.hub, Bound(w.hub, user, addr), c);
    case Take(_) =>
    case CreateChannel(_, _) =>
  }

  lemma KeysOfJoin(h: State, user: Id, channel: Id, newKey: Key, c: Id)
    requires Sound(h) && HasFree(Removed(h, user).bySsrc)
    ensures var g, t := Removed(h, user), Joined(h, user, channel, newKey);
      && (c in g.keys <==> c in h.keys && Occupied(g.members, c)) && (c in g.keys ==> g.keys[c] == h.keys[c])
      && (c == channel ==> c in t.keys && t.keys[c] == if Occupied(g.members, c) then h.keys[c] else newKey)
      && (c == channel && Occupied(g.members, c) ==> c in h.keys)
      && (c != channel ==> (c in t.keys <==> c in g.keys) && (c in t.keys ==> t.keys[c] == g.keys[c]))
  {
    RemovedIsSound(h, user);
    KeysOfLeave(h, user, c);
  }

  lemma KeysOfLeave(h: State, user: Id, c: Id)
    requires Sound(h)
    ensures var g := Removed(h, user);
      (c in g.keys <==> c in h.keys && Occupied(g.members, c)) && (c in g.keys ==> g.keys[c] == h.keys[c])
  {
    RemovedIsSound(h, user);
  }

  /** An update that keeps keys and everybody's place empties nothing that has a key. */
  lemma SameKeys(h: State, t: State, c: Id)
    requires Sound(h) && t.keys == h.keys && t.members.Keys == h.members.Keys
    requires forall u :: u in t.members ==> t.members[u].channel == h.members[u].channel
    ensures c in t.keys <==> Occupied(t.members, c)
  {
    if u :| u in h.members && h.members[u].channel == c { assert t.members[u].channel == c; }
    if u :| u in t.members && t.members[u].channel == c { assert h.members[u].channel == c; }
  }

  lemma KeysOfRequest(w: World, e: Event, c: Id)
    requires Sound(w.hub) && Possible(w, e) && e.Request? && !IsJoin(w, e)
    ensures var t := Next(w, e).hub;
      && (c in t.keys <==> c in w.hub.keys && Occupied(t.members, c)) && (c in t.keys ==> t.keys[c] == w.hub.keys[c])
  {
    var user, db := w.hub.conns[e.conn].user, Asked(w, e.fails);
    var t := Changed(w.hub, user, e.msg, db, e.newKey);
    HandledChanges(w.hub, e.conn, user, e.msg, db, e.newKey);
    if e.msg.LeaveVoice? {
      KeysOfLeft(w.hub, user, c);
    } else {
      UpdateKeepsChannels(w.hub, user, e.msg, db, e.newKey);
      SameKeys(w.hub, t, c);
    }
  }

  lemma KeysOfLeft(h: State, user: Id, c: Id)
    requires Sound(h)
    ensures var g := Left(h, user);
      (c in g.keys <==> c in h.keys && Occupied(g.members, c)) && (c in g.keys ==> g.keys[c] == h.keys[c])
  {
    NotSharingIsSound(h, user);
    KeysOfLeave(NotSharing(h, user), user, c);
  }

  lemma KeysOfDepart(w: World, conn: ConnId, c: Id)
    requires Sound(w.hub) && conn in w.hub.conns
    ensures var t := Departed(w.hub, conn);
      && (c in t.keys <==> c in w.hub.keys && Occupied(t.members, c)) && (c in t.keys ==> t.keys[c] == w.hub.keys[c])
  {
    DepartedChanges(w.hub, conn);
    if SameCall(Departed(w.hub, conn), w.hub) { SameKeys(w.hub, w.hub, c); }
    KeysOfLeft(w.hub, w.hub.conns[conn].user, c);
  }

  lemma {:induction false} GivenWasDrawn(channels: Channels, events: seq<Event>)
    ensures forall u, k :: (u, k) in Given(channels, events) ==> k in Run(Start(channels), events).drawn
    decreases |events|
  {
    if events != [] {
      var init, e := events[..|events| - 1], events[|events| - 1];
      GivenWasDrawn(channels, init);
      EveryRunIsSound(channels, events);
      DrawnGrows(Run(Start(channels), init), e);
    }
  }

  lemma DrawnGrows(w: World, e: Event)
    ensures w.drawn <= Next(w, e).drawn
  {
  }

  /** The holders of a channel's key are those who joined since it last stood empty. */
  ghost predicate Holders(keys: map<Id, Key>, given: set<(Id, Key)>, c: Id, u: Id, since: set<Id>) {
    c in keys ==> ((u, keys[c]) in given <==> u in since)
  }

  lemma HoldersOfJoined(w: World, e: Event, u: Id, given: set<(Id, Key)>, since: set<Id>)
    requires Sound(w.hub) && Possible(w, e) && IsJoin(w, e) && forall x, k :: (x, k) in given ==> k in w.drawn
    requires Holders(w.hub.keys, given, e.msg.channel, u, since)
    ensures Holders(Next(w, e).hub.keys, given + Handing(w, e), e.msg.channel, u, SinceStep(w, e, e.msg.channel, since))
  {
    KeysOfStep(w, e, e.msg.channel);
  }

  lemma HoldersOfOthers(w: World, e: Event, c: Id, u: Id, given: set<(Id, Key)>, since: set<Id>)
    requires Sound(w.hub) && Possible(w, e) && !(IsJoin(w, e) && e.msg.channel == c) && Epochs(Next(w, e))
    requires Holders(w.hub.keys, given, c, u, since)
    ensures Holders(Next(w, e).hub.keys, given + Handing(w, e), c, u, SinceStep(w, e, c, since))
  {
    KeysOfStep(w, e, c);
    OtherKeys(Next(w, e), c);
  }

  lemma OtherKeys(t: World, c: Id)
    requires Epochs(t)
    ensures forall d :: d in t.hub.keys && d != c && c in t.hub.keys ==> t.hub.keys[d] != t.hub.keys[c]
  {
  }

  /** Who can open what a channel says: somebody has been handed the key in use if and only if they have joined since
      the channel last stood empty, whether or not they are still there. */
  lemma {:induction false} KeyHolders(channels: Channels, events: seq<Event>, c: Id, u: Id)
    ensures Holders(Run(Start(channels), events).hub.keys, Given(channels, events), c, u, Since(channels, events, c))
    decreases |events|
  {
    if events != [] {
      var init, e := events[..|events| - 1], events[|events| - 1];
      var w := Run(Start(channels), init);
      KeyHolders(channels, init, c, u);
      EveryRunIsSound(channels, init);
      EveryRunIsSound(channels, events);
      GivenWasDrawn(channels, init);
      if !Possible(w, e) {
      } else if IsJoin(w, e) && e.msg.channel == c {
        HoldersOfJoined(w, e, u, Given(channels, init), Since(channels, init, c));
      } else {
        HoldersOfOthers(w, e, c, u, Given(channels, init), Since(channels, init, c));
      }
    }
  }
}
