/** The state of all connections and calls, on values and in the class that updates it: queues of frames, members with
    their stream ids, subscriptions and addresses, and one key for each occupied channel. */
module Hub {
  import opened Arith
  import opened Common
  import opened Control
  import Media

  type ConnId = nat
  type Addr = nat

  datatype Conn = Conn(user: Id, queue: seq<ServerMsg>)

  datatype Member = Member(
    channel: Id, voiceSsrc: Word, screenSsrc: Word, muted: bool, deafened: bool,
    screen: Option<Share>, watching: set<Id>, addr: Option<Addr>)

  datatype State = State(
    conns: map<ConnId, Conn>, members: map<Id, Member>, bySsrc: map<Word, Id>, keys: map<Id, Key>,
    nextConn: ConnId, nextSsrc: Word)

  const INITIAL := State(map[], map[], map[], map[], 1, 1)

  function StateOf(user: Id, m: Member): VoiceState {
    VoiceState(user, m.channel, m.muted, m.deafened, m.voiceSsrc, m.screen)
  }

  function VoiceStates(members: map<Id, Member>): map<Id, VoiceState> {
    map u | u in members :: StateOf(u, members[u])
  }

  // ------------------------------------------------------------------ stream ids

  function Successor(w: Word): Word { if w == 0xFFFF_FFFF then 0 else w + 1 }

  predicate Usable(used: map<Word, Id>, w: Word) { w != 0 && w !in used }

  ghost predicate HasFree(used: map<Word, Id>) { exists w: Word :: Usable(used, w) }

  ghost predicate HasFreeBut(used: map<Word, Id>, v: Word) { exists w: Word :: Usable(used, w) && w != v }

  ghost function AFreeId(used: map<Word, Id>): (w: Word)
    requires HasFree(used)
    ensures Usable(used, w)
  {
    var w: Word :| Usable(used, w);
    w
  }

  /** Steps from `from` up to `to`, going round through zero. */
  ghost function Steps(from: Word, to: Word): nat {
    if from <= to then to - from else to + U32 - from
  }

  lemma SuccessorIsOneStep(w: Word)
    ensures Steps(w, Successor(w)) == 1
  {
  }

  /** The first usable id met when counting up from `next`. */
  ghost function FreeFrom(used: map<Word, Id>, next: Word): (w: Word)
    requires HasFree(used)
    ensures Usable(used, w)
    ensures forall v: Word :: Usable(used, v) ==> Steps(next, w) <= Steps(next, v)
    decreases Steps(next, AFreeId(used))
  {
    if Usable(used, next) then next else FreeFrom(used, Successor(next))
  }

  /** A second id taken before the first is entered is a different one exactly when there is another to take. */
  lemma SecondIdDiffers(used: map<Word, Id>, next: Word)
    requires HasFree(used)
    ensures var first := FreeFrom(used, next);
            FreeFrom(used, Successor(first)) != first <==> HasFreeBut(used, first)
  {
    var first := FreeFrom(used, next);
    var second := FreeFrom(used, Successor(first));
    if w: Word :| Usable(used, w) && w != first {
      assert Steps(Successor(first), second) <= Steps(Successor(first), w);
    }
  }

  lemma {:induction false} RangeSize(n: nat, s: set<Word>)
    requires n < U32 && forall w: Word :: 1 <= w <= n ==> w in s
    ensures |s| >= n
  {
    if n > 0 {
      var last: Word := n;
      RangeSize(n - 1, s - {last});
    }
  }

  /** As long as two of the 4294967295 non-zero ids are not in use there is one besides any given one. */
  lemma RoomForTwo(used: map<Word, Id>, v: Word)
    requires |used| < U32 - 2
    ensures HasFree(used) && HasFreeBut(used, v)
  {
    if !HasFreeBut(used, v) {
      var taken := used.Keys + {v};
      forall w: Word | w >= 1
        ensures w in taken
      {
        if w !in used { assert Usable(used, w); }
      }
      RangeSize(U32 - 1, taken);
    }
  }

  // ------------------------------------------------------------------ each operation on values

  function Previous(h: State, user: Id): Option<Id> {
    if user in h.members then Some(h.members[user].channel) else None
  }

  ghost predicate Occupied(members: map<Id, Member>, channel: Id) {
    exists u :: u in members && members[u].channel == channel
  }

  ghost function Unwatched(members: map<Id, Member>, user: Id): map<Id, Member> {
    map u | u in members :: members[u].(watching := members[u].watching - {user})
  }

  ghost function Removed(h: State, user: Id): State {
    if user !in h.members then h
    else
      var m := h.members[user];
      var rest := Unwatched(h.members - {user}, user);
      h.(members := rest,
         bySsrc := h.bySsrc - {m.voiceSsrc, m.screenSsrc},
         keys := if Occupied(rest, m.channel) then h.keys else h.keys - {m.channel})
  }

  /** The members after a join, the stream ids handed out, and the channel's key. */
  ghost function Joined(h: State, user: Id, channel: Id, newKey: Key): State
    requires HasFree(Removed(h, user).bySsrc)
  {
    var g := Removed(h, user);
    var voice := FreeFrom(g.bySsrc, g.nextSsrc);
    var screen := FreeFrom(g.bySsrc, Successor(voice));
    g.(nextSsrc := Successor(screen),
       bySsrc := g.bySsrc[voice := user][screen := user],
       keys := if channel in g.keys then g.keys else g.keys[channel := newKey],
       members := g.members[user := Member(channel, voice, screen, false, false, None, {}, None)])
  }

  ghost function Flagged(h: State, user: Id, muted: bool, deafened: bool): State {
    if user !in h.members then h
    else h.(members := h.members[user := h.members[user].(muted := muted, deafened := deafened)])
  }

  function ShareFor(m: Member, r: ScreenRequest): Share {
    Share(m.screenSsrc, r.width, r.height, r.fps, r.kbps, r.withAudio)
  }

  ghost function Sharing(h: State, user: Id, r: ScreenRequest): State {
    if user !in h.members then h
    else h.(members := h.members[user := h.members[user].(screen := Some(ShareFor(h.members[user], r)))])
  }

  ghost function NotSharing(h: State, user: Id): State {
    if user !in h.members then h
    else h.(members := Unwatched(h.members[user := h.members[user].(screen := None)], user))
  }

  function MayWatch(h: State, viewer: Id, target: Id): bool {
    viewer in h.members && target in h.members && h.members[viewer].channel == h.members[target].channel
  }

  ghost function Watching(h: State, viewer: Id, target: Id): State {
    if !MayWatch(h, viewer, target) then h
    else h.(members := h.members[viewer := h.members[viewer].(watching := h.members[viewer].watching + {target})])
  }

  ghost function NotWatching(h: State, viewer: Id, target: Id): State {
    if viewer !in h.members then h
    else h.(members := h.members[viewer := h.members[viewer].(watching := h.members[viewer].watching - {target})])
  }

  ghost function Bound(h: State, user: Id, addr: Addr): State {
    if user !in h.members then h else h.(members := h.members[user := h.members[user].(addr := Some(addr))])
  }

  /** What the relay does with a datagram; `Forward` says for each target whose address it is. */
  datatype Routed = Register(key: Key, user: Id) | Forward(targets: map<Id, Addr>) | Drop

  function Route(h: State, header: Media.Header, from: Addr): Routed {
    if header.ssrc !in h.bySsrc || h.bySsrc[header.ssrc] !in h.members then Drop
    else
      var user := h.bySsrc[header.ssrc];
      var member := h.members[user];
      if header.kind.Keepalive? then
        if member.channel in h.keys then Register(h.keys[member.channel], user) else Drop
      else if member.addr != Some(from) then Drop
      else if header.ssrc != (if Media.IsScreen(header.kind) then member.screenSsrc else member.voiceSsrc) then Drop
      else
        Forward(map u | u in h.members && u != user && h.members[u].channel == member.channel && h.members[u].addr.Some?
                        && (if Media.IsScreen(header.kind) then user in h.members[u].watching
                            else !h.members[u].deafened)
                      :: h.members[u].addr.value)
  }

  // ------------------------------------------------------------------ frames

  ghost function Broadcast(h: State, msg: ServerMsg): State {
    h.(conns := map c | c in h.conns :: h.conns[c].(queue := h.conns[c].queue + [msg]))
  }

  ghost function BroadcastExcept(h: State, except: ConnId, msg: ServerMsg): State {
    h.(conns := map c | c in h.conns ::
                  if c == except then h.conns[c] else h.conns[c].(queue := h.conns[c].queue + [msg]))
  }

  ghost function SentTo(h: State, conn: ConnId, msg: ServerMsg): State {
    if conn !in h.conns then h
    else h.(conns := h.conns[conn := h.conns[conn].(queue := h.conns[conn].queue + [msg])])
  }

  ghost predicate Online(h: State, user: Id) {
    exists c :: c in h.conns && h.conns[c].user == user
  }

  ghost function Connected(h: State, user: Id): State {
    h.(conns := h.conns[h.nextConn := Conn(user, [])], nextConn := h.nextConn + 1)
  }

  // ------------------------------------------------------------------ the code

  class Hub {
    var conns: map<ConnId, Conn>
    var members: map<Id, Member>
    var bySsrc: map<Word, Id>
    var keys: map<Id, Key>
    var nextConn: ConnId
    var nextSsrc: Word

    ghost function Abs(): State
      reads this
    {
      State(conns, members, bySsrc, keys, nextConn, nextSsrc)
    }

    constructor ()
      ensures Abs() == INITIAL
    {
      conns, members, bySsrc, keys, nextConn, nextSsrc := map[], map[], map[], map[], 1, 1;
    }

    /** `first` when no other connection of the account is open. */
    method Connect(user: Id) returns (id: ConnId, first: bool)
      modifies `conns, `nextConn
      ensures Abs() == Connected(old(Abs()), user)
      ensures id == old(nextConn) && (first <==> !Online(old(Abs()), user))
    {
      first := !(exists c :: c in conns && conns[c].user == user);
      id := nextConn;
      nextConn := nextConn + 1;
      conns := conns[id := Conn(user, [])];
    }

    /** `last` when the account has no other. */
    method Disconnect(conn: ConnId) returns (last: bool)
      modifies `conns
      ensures Abs() == old(Abs()).(conns := old(conns) - {conn})
      ensures last <==> conn in old(conns) && !Online(Abs(), old(conns)[conn].user)
    {
      if conn !in conns {
        assert conns - {conn} == conns;
        return false;
      }
      var user := conns[conn].user;
      conns := conns - {conn};
      last := !(exists c :: c in conns && conns[c].user == user);
    }

    method BroadcastTo(msg: ServerMsg)
      modifies `conns
      ensures Abs() == Broadcast(old(Abs()), msg)
    {
      var rest := conns.Keys;
      while rest != {}
        invariant rest <= conns.Keys == old(conns).Keys
        invariant forall c :: c in conns ==>
                    conns[c] == if c in rest then old(conns)[c]
                                else old(conns)[c].(queue := old(conns)[c].queue + [msg])
        decreases |rest|
      {
        var c :| c in rest;
        rest := rest - {c};
        conns := conns[c := conns[c].(queue := conns[c].queue + [msg])];
      }
    }

    method BroadcastToOthers(except: ConnId, msg: ServerMsg)
      modifies `conns
      ensures Abs() == BroadcastExcept(old(Abs()), except, msg)
    {
      var rest := conns.Keys - {except};
      ghost var was := conns;
      while rest != {}
        invariant except !in rest && rest <= conns.Keys == was.Keys
        invariant forall c :: c in was ==>
                    conns[c] == if c in rest || c == except then was[c]
                                else was[c].(queue := was[c].queue + [msg])
        decreases |rest|
      {
        var c :| c in rest;
        rest := rest - {c};
        conns := conns[c := conns[c].(queue := conns[c].queue + [msg])];
      }
      assert conns == BroadcastExcept(old(Abs()), except, msg).conns;
    }

    method SendToConn(conn: ConnId, msg: ServerMsg)
      modifies `conns
      ensures Abs() == SentTo(old(Abs()), conn, msg)
    {
      if conn in conns {
        conns := conns[conn := conns[conn].(queue := conns[conn].queue + [msg])];
      }
    }

    /** Counts up to the first id that is neither zero nor in use, as long as there is one. */
    method TakeSsrc() returns (ssrc: Word)
      requires HasFree(bySsrc)
      modifies `nextSsrc
      ensures ssrc == FreeFrom(bySsrc, old(nextSsrc)) && nextSsrc == Successor(ssrc)
    {
      ssrc := nextSsrc;
      nextSsrc := Successor(nextSsrc);
      while !(ssrc != 0 && ssrc !in bySsrc)
        invariant nextSsrc == Successor(ssrc)
        invariant FreeFrom(bySsrc, ssrc) == FreeFrom(bySsrc, old(nextSsrc))
        decreases Steps(ssrc, AFreeId(bySsrc))
      {
        ssrc := nextSsrc;
        nextSsrc := Successor(nextSsrc);
      }
    }

    /** Nobody watches `user` any more. */
    method Forget(user: Id)
      modifies `members
      ensures members == Unwatched(old(members), user)
    {
      var rest := members.Keys;
      while rest != {}
        invariant rest <= members.Keys == old(members).Keys
        invariant forall u :: u in members ==>
                    members[u] == if u in rest then old(members)[u]
                                  else old(members)[u].(watching := old(members)[u].watching - {user})
        decreases |rest|
      {
        var u :| u in rest;
        rest := rest - {u};
        members := members[u := members[u].(watching := members[u].watching - {user})];
      }
    }

    method RemoveMember(user: Id) returns (left: Option<Id>)
      modifies `members, `bySsrc, `keys
      ensures Abs() == Removed(old(Abs()), user) && left == Previous(old(Abs()), user)
    {
      if user !in members {
        return None;
      }
      var member := members[user];
      members := members - {user};
      bySsrc := bySsrc - {member.voiceSsrc};
      bySsrc := bySsrc - {member.screenSsrc};
      assert bySsrc == old(bySsrc) - {member.voiceSsrc, member.screenSsrc};
      Forget(user);
      if !(exists u :: u in members && members[u].channel == member.channel) {
        keys := keys - {member.channel};
      }
      left := Some(member.channel);
    }

    /** `newKey` is the key a random draw would give; it is used only when the channel has none. */
    method JoinVoice(user: Id, channel: Id, newKey: Key) returns (state: VoiceState, key: Key, previous: Option<Id>)
      requires HasFree(Removed(Abs(), user).bySsrc)
      modifies this
      ensures Abs() == Joined(old(Abs()), user, channel, newKey)
      ensures user in members && state == StateOf(user, members[user])
      ensures channel in keys && key == keys[channel] && previous == Previous(old(Abs()), user)
    {
      previous := RemoveMember(user);
      var voiceSsrc := TakeSsrc();
      var screenSsrc := TakeSsrc();
      bySsrc := bySsrc[voiceSsrc := user];
      bySsrc := bySsrc[screenSsrc := user];
      if channel !in keys {
        keys := keys[channel := newKey];
      }
      key := keys[channel];
      members := members[user := Member(channel, voiceSsrc, screenSsrc, false, false, None, {}, None)];
      state := VoiceState(user, channel, false, false, voiceSsrc, None);
    }

    method SetVoiceFlags(user: Id, muted: bool, deafened: bool) returns (state: Option<VoiceState>)
      modifies `members
      ensures Abs() == Flagged(old(Abs()), user, muted, deafened)
      ensures state == if user in members then Some(StateOf(user, members[user])) else None
    {
      if user !in members {
        return None;
      }
      members := members[user := members[user].(muted := muted, deafened := deafened)];
      state := Some(StateOf(user, members[user]));
    }

    method StartScreen(user: Id, request: ScreenRequest) returns (share: Option<Share>)
      modifies `members
      ensures Abs() == Sharing(old(Abs()), user, request)
      ensures share == if user in members then members[user].screen else None
      ensures user in members ==> share == Some(ShareFor(old(members)[user], request))
    {
      if user !in members {
        return None;
      }
      share := Some(ShareFor(members[user], request));
      members := members[user := members[user].(screen := share)];
    }

    /** Every subscription to the share goes with it. */
    method StopScreen(user: Id) returns (channel: Option<Id>)
      modifies `members
      ensures Abs() == NotSharing(old(Abs()), user) && channel == Previous(old(Abs()), user)
    {
      if user !in members {
        return None;
      }
      members := members[user := members[user].(screen := None)];
      channel := Some(members[user].channel);
      Forget(user);
    }

    method Watch(viewer: Id, target: Id) returns (ok: bool)
      modifies `members
      ensures Abs() == Watching(old(Abs()), viewer, target) && ok == MayWatch(old(Abs()), viewer, target)
    {
      ok := viewer in members && target in members && members[viewer].channel == members[target].channel;
      if ok {
        members := members[viewer := members[viewer].(watching := members[viewer].watching + {target})];
      }
    }

    method Unwatch(viewer: Id, target: Id)
      modifies `members
      ensures Abs() == NotWatching(old(Abs()), viewer, target)
    {
      if viewer in members {
        members := members[viewer := members[viewer].(watching := members[viewer].watching - {target})];
      }
    }

    method BindMediaAddress(user: Id, addr: Addr) returns (answer: Option<Addr>)
      modifies `members
      ensures Abs() == Bound(old(Abs()), user, addr)
      ensures answer == if user in members then Some(addr) else None
    {
      if user !in members {
        return None;
      }
      members := members[user := members[user].(addr := Some(addr))];
      answer := Some(addr);
    }
  }
}
