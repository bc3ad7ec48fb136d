/** What every operation of the hub keeps, and what the relay may rely on because of it. */
module HubInvariant {
  import opened Common
  import opened Control
  import opened Hub
  import Media

  /** The stream-id table is exactly the members' two streams each: non-zero, and no id names two streams. */
  ghost predicate SsrcTable(h: State) {
    && (forall u :: u in h.members ==>
          var m := h.members[u];
          && m.voiceSsrc != 0 && m.screenSsrc != 0 && m.voiceSsrc != m.screenSsrc
          && m.voiceSsrc in h.bySsrc && h.bySsrc[m.voiceSsrc] == u
          && m.screenSsrc in h.bySsrc && h.bySsrc[m.screenSsrc] == u)
    && (forall s :: s in h.bySsrc ==>
          var u := h.bySsrc[s];
          u in h.members && (s == h.members[u].voiceSsrc || s == h.members[u].screenSsrc))
  }

  /** A channel has a key exactly while somebody is in it. */
  ghost predicate KeyPerChannel(h: State) {
    forall c: Id :: c in h.keys <==> Occupied(h.members, c)
  }

  /** Everybody watched is a member of the watcher's channel. */
  ghost predicate WatchEdges(h: State) {
    forall u, t :: u in h.members && t in h.members[u].watching ==>
      t in h.members && h.members[t].channel == h.members[u].channel
  }

  /** A live share goes out on its owner's screen stream. */
  ghost predicate Shares(h: State) {
    forall u :: u in h.members && h.members[u].screen.Some? ==>
      h.members[u].screen.value.ssrc == h.members[u].screenSsrc
  }

  ghost predicate Sound(h: State) {
    SsrcTable(h) && KeyPerChannel(h) && WatchEdges(h) && Shares(h)
  }

  /** Two ids to hand out: without a second one the screen would get the voice's id. */
  ghost predicate TwoFree(h: State) {
    HasFree(h.bySsrc) && HasFreeBut(h.bySsrc, FreeFrom(h.bySsrc, h.nextSsrc))
  }

  lemma RemovedTable(h: State, user: Id)
    requires SsrcTable(h)
    ensures SsrcTable(Removed(h, user))
  {
  }

  lemma RemovedKeys(h: State, user: Id)
    requires KeyPerChannel(h)
    ensures KeyPerChannel(Removed(h, user))
  {
    if user in h.members {
      var g := Removed(h, user);
      forall c: Id
        ensures c in g.keys <==> Occupied(g.members, c)
      {
        if u :| u in g.members && g.members[u].channel == c {
          assert h.members[u].channel == c;
        }
        if c in g.keys && c != h.members[user].channel {
          var u :| u in h.members && h.members[u].channel == c;
          assert g.members[u].channel == c;
        }
      }
    }
  }

  lemma RemovedIsSound(h: State, user: Id)
    requires Sound(h)
    ensures Sound(Removed(h, user)) && user !in Removed(h, user).members
  {
    RemovedTable(h, user);
    RemovedKeys(h, user);
  }

  /** The state a join leaves, given where it starts and what it hands out. */
  ghost predicate Added(g: State, t: State, user: Id, channel: Id, voice: Word, screen: Word, newKey: Key) {
    && user !in g.members && Usable(g.bySsrc, voice) && Usable(g.bySsrc, screen) && voice != screen
    && t.bySsrc == g.bySsrc[voice := user][screen := user]
    && t.keys == (if channel in g.keys then g.keys else g.keys[channel := newKey])
    && t.members == g.members[user := Member(channel, voice, screen, false, false, None, {}, None)]
  }

  lemma AddedTable(g: State, t: State, user: Id, channel: Id, voice: Word, screen: Word, newKey: Key)
    requires SsrcTable(g) && Added(g, t, user, channel, voice, screen, newKey)
    ensures SsrcTable(t)
  {
    forall u | u in g.members
      ensures t.members[u] == g.members[u] && g.members[u].voiceSsrc in g.bySsrc && g.members[u].screenSsrc in g.bySsrc
    {
    }
  }

  lemma AddedKeys(g: State, t: State, user: Id, channel: Id, voice: Word, screen: Word, newKey: Key)
    requires KeyPerChannel(g) && Added(g, t, user, channel, voice, screen, newKey)
    ensures KeyPerChannel(t)
  {
    forall c: Id
      ensures c in t.keys <==> Occupied(t.members, c)
    {
      if c == channel { assert t.members[user].channel == c; }
      if u :| u in g.members && g.members[u].channel == c { assert t.members[u].channel == c; }
      if u :| u in t.members && t.members[u].channel == c {
        if u != user { assert g.members[u].channel == c; }
      }
    }
  }

  lemma AddedIsSound(g: State, t: State, user: Id, channel: Id, voice: Word, screen: Word, newKey: Key)
    requires Sound(g) && Added(g, t, user, channel, voice, screen, newKey)
    ensures Sound(t)
  {
    AddedTable(g, t, user, channel, voice, screen, newKey);
    AddedKeys(g, t, user, channel, voice, screen, newKey);
    assert WatchEdges(t);
  }

  lemma JoinedIsSound(h: State, user: Id, channel: Id, newKey: Key)
    requires Sound(h) && TwoFree(Removed(h, user))
    ensures Sound(Joined(h, user, channel, newKey))
  {
    var g := Removed(h, user);
    RemovedIsSound(h, user);
    var voice := FreeFrom(g.bySsrc, g.nextSsrc);
    SecondIdDiffers(g.bySsrc, g.nextSsrc);
    AddedIsSound(g, Joined(h, user, channel, newKey), user, channel, voice,
                 FreeFrom(g.bySsrc, Successor(voice)), newKey);
  }

  /** An update of members that keeps who is where and the stream ids keeps the table and the keys. */
  lemma UpdatedIsSound(h: State, t: State)
    requires Sound(h) && t.bySsrc == h.bySsrc && t.keys == h.keys && t.members.Keys == h.members.Keys
    requires forall u :: u in h.members ==>
               && t.members[u].channel == h.members[u].channel
               && t.members[u].voiceSsrc == h.members[u].voiceSsrc && t.members[u].screenSsrc == h.members[u].screenSsrc
    requires WatchEdges(t) && Shares(t)
    ensures Sound(t)
  {
    forall c: Id
      ensures c in t.keys <==> Occupied(t.members, c)
    {
      if u :| u in h.members && h.members[u].channel == c { assert t.members[u].channel == c; }
      if u :| u in t.members && t.members[u].channel == c { assert h.members[u].channel == c; }
    }
  }

  /** A member's new record keeps where they are and their stream ids, watches only members of the channel, and shares
      on the screen's stream. */
  ghost predicate FitsIn(h: State, user: Id, m: Member) {
    && user in h.members
    && m.channel == h.members[user].channel
    && m.voiceSsrc == h.members[user].voiceSsrc && m.screenSsrc == h.members[user].screenSsrc
    && (m.screen.Some? ==> m.screen.value.ssrc == m.screenSsrc)
    && forall t :: t in m.watching ==> t in h.members && h.members[t].channel == m.channel
  }

  lemma ReplacedIsSound(h: State, user: Id, m: Member)
    requires Sound(h) && FitsIn(h, user, m)
    ensures Sound(h.(members := h.members[user := m]))
  {
    var t := h.(members := h.members[user := m]);
    assert t.members.Keys == h.members.Keys;
    forall u, v | u in t.members && v in t.members[u].watching
      ensures v in t.members && t.members[v].channel == t.members[u].channel
    {
      if u != user { assert v in h.members[u].watching; }
    }
    UpdatedIsSound(h, t);
  }

  lemma UnwatchedIsSound(h: State, user: Id)
    requires Sound(h)
    ensures Sound(h.(members := Unwatched(h.members, user)))
  {
    var t := h.(members := Unwatched(h.members, user));
    assert t.members.Keys == h.members.Keys;
    forall u, v | u in t.members && v in t.members[u].watching
      ensures v in t.members && t.members[v].channel == t.members[u].channel
    {
      assert v in h.members[u].watching;
    }
    UpdatedIsSound(h, t);
  }

  lemma FlaggedIsSound(h: State, user: Id, muted: bool, deafened: bool)
    requires Sound(h)
    ensures Sound(Flagged(h, user, muted, deafened))
  {
    if user in h.members { ReplacedIsSound(h, user, h.members[user].(muted := muted, deafened := deafened)); }
  }

  lemma SharingIsSound(h: State, user: Id, r: ScreenRequest)
    requires Sound(h)
    ensures Sound(Sharing(h, user, r))
  {
    if user in h.members { ReplacedIsSound(h, user, h.members[user].(screen := Some(ShareFor(h.members[user], r)))); }
  }

  lemma NotSharingIsSound(h: State, user: Id)
    requires Sound(h)
    ensures Sound(NotSharing(h, user))
  {
    if user in h.members {
      var m := h.members[user].(screen := None);
      ReplacedIsSound(h, user, m);
      UnwatchedIsSound(h.(members := h.members[user := m]), user);
    }
  }

  lemma WatchingIsSound(h: State, user: Id, target: Id)
    requires Sound(h)
    ensures Sound(Watching(h, user, target))
  {
    if MayWatch(h, user, target) {
      ReplacedIsSound(h, user, h.members[user].(watching := h.members[user].watching + {target}));
    }
  }

  lemma NotWatchingIsSound(h: State, user: Id, target: Id)
    requires Sound(h)
    ensures Sound(NotWatching(h, user, target))
  {
    if user in h.members {
      ReplacedIsSound(h, user, h.members[user].(watching := h.members[user].watching - {target}));
    }
  }

  lemma BoundIsSound(h: State, user: Id, addr: Addr)
    requires Sound(h)
    ensures Sound(Bound(h, user, addr))
  {
    if user in h.members { ReplacedIsSound(h, user, h.members[user].(addr := Some(addr))); }
  }

  /** Stopping a share leaves nobody subscribed to it; leaving leaves no trace of the member. */
  lemma StoppedIsForgotten(h: State, user: Id)
    requires Sound(h)
    ensures user in h.members ==>
              forall u :: u in NotSharing(h, user).members ==> user !in NotSharing(h, user).members[u].watching
    ensures forall s :: s in Removed(h, user).bySsrc ==> Removed(h, user).bySsrc[s] != user
    ensures forall u :: u in Removed(h, user).members ==> user !in Removed(h, user).members[u].watching
  {
    if user in h.members { RemovedIsSound(h, user); }
  }

  // ------------------------------------------------------------------ the relay

  /** A datagram is forwarded exactly to those it is for: the other members of the sender's channel that have an
      address and, for voice, are not deafened, or, for a screen, have asked for it. It comes from the address the
      sender registered, on the sender's own stream for that purpose. */
  lemma ForwardedToThoseItIsFor(h: State, header: Media.Header, from: Addr, u: Id)
    requires Sound(h) && Route(h, header, from).Forward?
    ensures header.ssrc in h.bySsrc
    ensures var sender, targets := h.bySsrc[header.ssrc], Route(h, header, from).targets;
            && sender in h.members && h.members[sender].addr == Some(from) && !header.kind.Keepalive?
            && header.ssrc == (if Media.IsScreen(header.kind) then h.members[sender].screenSsrc
                               else h.members[sender].voiceSsrc)
            && (u in targets <==>
                  && u in h.members && u != sender && h.members[u].addr.Some?
                  && (if Media.IsScreen(header.kind) then sender in h.members[u].watching
                      else h.members[u].channel == h.members[sender].channel && !h.members[u].deafened))
            && (u in targets ==>
                  && h.members[u].addr == Some(targets[u])
                  && h.members[u].channel == h.members[sender].channel)
  {
  }

  /** Nothing is dropped that should not be: the owner's media on its own stream always goes out, and a keepalive on
      a live stream always leads to the check of its registration under the channel's key. */
  lemma OwnStreamIsRouted(h: State, user: Id, header: Media.Header)
    requires Sound(h) && user in h.members
    ensures var m := h.members[user];
            && m.channel in h.keys
            && (header.kind.Keepalive? && (header.ssrc == m.voiceSsrc || header.ssrc == m.screenSsrc) ==>
                  forall from :: Route(h, header, from) == Register(h.keys[m.channel], user))
            && (!header.kind.Keepalive? && m.addr.Some?
                && header.ssrc == (if Media.IsScreen(header.kind) then m.screenSsrc else m.voiceSsrc) ==>
                  Route(h, header, m.addr.value).Forward?)
  {
    assert Occupied(h.members, h.members[user].channel);
  }

  // ------------------------------------------------------------------ the relay, kind by kind

  /** It goes to these and to nobody else, to each at their own address. */
  ghost predicate GoesTo(h: State, r: Routed, to: set<Id>)
    requires to <= h.members.Keys
  {
    r.Forward? && r.targets.Keys == to && forall u :: u in to ==> h.members[u].addr == Some(r.targets[u])
  }

  /** Those who have asked for a share and can be reached. */
  ghost function Watchers(h: State, owner: Id): set<Id> {
    set u | u in h.members && u != owner && h.members[u].addr.Some? && owner in h.members[u].watching
  }

  /** Those in a speaker's channel who can be reached and are not deafened. */
  ghost function Listeners(h: State, speaker: Id): set<Id>
    requires speaker in h.members
  {
    set u | u in h.members && u != speaker && h.members[u].addr.Some? && !h.members[u].deafened
            && h.members[u].channel == h.members[speaker].channel
  }

  /** Pictures and desktop audio go from the owner's address, on the screen stream, to exactly the reachable watchers;
      on the voice stream, or from elsewhere, they go nowhere. */
  lemma SharesReachWatchers(h: State, owner: Id, kind: Media.Kind, seqno: Word, time: Word, from: Addr)
    requires Sound(h) && owner in h.members && (kind.VideoKey? || kind.VideoDelta? || kind.DesktopAudio?)
    ensures var m := h.members[owner];
            var r := Route(h, Media.Header(kind, m.screenSsrc, seqno, time), from);
            && (if m.addr == Some(from) then GoesTo(h, r, Watchers(h, owner)) else r == Drop)
            && Route(h, Media.Header(kind, m.voiceSsrc, seqno, time), from) == Drop
  {
  }

  /** Voice goes from the speaker's address, on the voice stream, to exactly the reachable listeners; on the screen
      stream, or from elsewhere, nowhere. */
  lemma VoiceReachesListeners(h: State, speaker: Id, seqno: Word, time: Word, from: Addr)
    requires Sound(h) && speaker in h.members
    ensures var m := h.members[speaker];
            var r := Route(h, Media.Header(Media.Voice, m.voiceSsrc, seqno, time), from);
            && (if m.addr == Some(from) then GoesTo(h, r, Listeners(h, speaker)) else r == Drop)
            && Route(h, Media.Header(Media.Voice, m.screenSsrc, seqno, time), from) == Drop
  {
  }

  /** A keepalive on either stream, from any address, asks for its member to be registered there, under the key of
      the member's channel. */
  lemma KeepalivesRegister(h: State, u: Id, ssrc: Word, seqno: Word, time: Word, from: Addr)
    requires Sound(h) && u in h.members && (ssrc == h.members[u].voiceSsrc || ssrc == h.members[u].screenSsrc)
    ensures h.members[u].channel in h.keys
    ensures Route(h, Media.Header(Media.Keepalive, ssrc, seqno, time), from)
         == Register(h.keys[h.members[u].channel], u)
  {
    assert Occupied(h.members, h.members[u].channel);
  }

  /** What names no member's stream goes nowhere. */
  lemma StrangersAreDropped(h: State, header: Media.Header, from: Addr)
    requires Sound(h)
    requires forall u :: u in h.members ==>
               header.ssrc != h.members[u].voiceSsrc && header.ssrc != h.members[u].screenSsrc
    ensures Route(h, header, from) == Drop
  {
  }

  // ------------------------------------------------------------------ operations steer the relay

  ghost predicate ReachedBy(h: State, header: Media.Header, from: Addr, u: Id) {
    var r := Route(h, header, from); r.Forward? && u in r.targets
  }

  /** In one call with a speaker, whoever can be reached hears them exactly when the flags last set are not to; muting
      oneself makes no difference to it. */
  lemma DeafenedHearNothing(h: State, u: Id, speaker: Id, muted: bool, deafened: bool, header: Media.Header)
    requires Sound(h) && MembersTogether(h, u, speaker) && u != speaker
    requires h.members[u].addr.Some? && h.members[speaker].addr.Some?
    requires header.kind.Voice? && header.ssrc == h.members[speaker].voiceSsrc
    ensures ReachedBy(Flagged(h, u, muted, deafened), header, h.members[speaker].addr.value, u) <==> !deafened
  {
  }

  ghost predicate MembersTogether(h: State, u: Id, v: Id) {
    u in h.members && v in h.members && h.members[u].channel == h.members[v].channel
  }

  /** Between two members with addresses, asking for a share leads to being sent it exactly when they are in one
      channel, and ceasing to ask leads to not being sent it. */
  lemma AskingIsReceiving(h: State, u: Id, owner: Id, header: Media.Header)
    requires Sound(h) && u in h.members && owner in h.members && u != owner
    requires h.members[u].addr.Some? && h.members[owner].addr.Some?
    requires header.kind.VideoKey? || header.kind.VideoDelta? || header.kind.DesktopAudio?
    requires header.ssrc == h.members[owner].screenSsrc
    ensures ReachedBy(Watching(h, u, owner), header, h.members[owner].addr.value, u) <==> MembersTogether(h, u, owner)
    ensures !ReachedBy(NotWatching(h, u, owner), header, h.members[owner].addr.value, u)
  {
  }

  /** Registering an address moves a member there: what they send counts from there and from nowhere else, and what
      is for them goes there. */
  lemma RebindingMovesTheMember(h: State, u: Id, addr: Addr, header: Media.Header, from: Addr)
    requires Sound(h) && u in h.members
    ensures var g := Bound(h, u, addr);
            && (header.kind.Voice? && header.ssrc == h.members[u].voiceSsrc ==>
                  (Route(g, header, from).Forward? <==> from == addr))
            && (ReachedBy(g, header, from, u) ==> Route(g, header, from).targets[u] == addr)
  {
  }

  /** A share that has stopped reaches nobody, even if packets of it still come. */
  lemma StoppedReachesNobody(h: State, owner: Id, header: Media.Header, from: Addr, u: Id)
    requires Sound(h) && owner in h.members && header.ssrc == h.members[owner].screenSsrc
    ensures !ReachedBy(NotSharing(h, owner), header, from, u)
  {
    NotSharingIsSound(h, owner);
    StoppedIsForgotten(h, owner);
  }

  /** Whoever has left is sent nothing, and what still comes on their streams goes nowhere. */
  lemma GoneFromTheRelay(h: State, u: Id, header: Media.Header, from: Addr)
    requires Sound(h) && u in h.members
    ensures !ReachedBy(Removed(h, u), header, from, u)
    ensures header.ssrc == h.members[u].voiceSsrc || header.ssrc == h.members[u].screenSsrc ==>
      Route(Removed(h, u), header, from) == Drop
  {
  }
}
