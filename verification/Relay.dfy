/** Authorisation and forwarding on the data plane (internal/relay/relay.go). The membership view is the
    map from active member to stored index; it does not change during one call. */
module Relay {
  import opened Machine
  import H = Hub
  import F = Frames
  import O = OnlineRooms

  type Membership = map<H.MemberId, u16>

  datatype RelayErr = NotAuthorized | TargetNotFound | BadFrame | TooLarge

  datatype Counters = Counters(framesIn: nat, framesOut: nat, bytesIn: nat, bytesOut: nat, denied: nat, noTarget: nat)

  datatype State = State(room: H.Room, n: Counters)

  /** Who an index stands for, when the sender may reach them. */
  function Target(r: H.Room, memb: Membership, sender: H.MemberId, index: u16): Option<H.MemberId>
  {
    match H.LookupMemberByIndex(r, index)
    case None => None
    case Some(t) => if t == sender || t !in memb then None else Some(t)
  }

  function One(f: F.Frame, index: u16): (g: F.Frame)
    ensures F.Encodable(g)
  {
    f.(dstType := F.DST_UNICAST, dst := [index])
  }

  function Missed(s: State): (State, Result<nat, RelayErr>)
  {
    (s.(n := s.n.(noTarget := s.n.noTarget + 1)), Err(TargetNotFound))
  }

  function Denied(s: State, e: RelayErr): (State, Result<nat, RelayErr>)
  {
    (s.(n := s.n.(denied := s.n.denied + 1)), Err(e))
  }

  function Counted(s: State, bytes: nat): State
  {
    s.(n := s.n.(framesOut := s.n.framesOut + 1, bytesOut := s.n.bytesOut + bytes))
  }

  function Unicast(s: State, memb: Membership, sender: H.MemberId, f: F.Frame): (State, Result<nat, RelayErr>)
    requires F.Encodable(f) && f.dstType == F.DST_UNICAST
  {
    match Target(s.room, memb, sender, f.dst[0])
    case None => Missed(s)
    case Some(t) =>
      var (r, ok) := H.Deliver(s.room, t, H.Binary(F.Encoded(f)));
      if ok then (Counted(s.(room := r), |f.payload|), Ok(1)) else Missed(s.(room := r))
  }

  /** The room after each listed index had its own frame, and how many were taken. */
  function Each(r: H.Room, memb: Membership, sender: H.MemberId, f: F.Frame, dst: seq<u16>): (H.Room, nat)
    decreases |dst|
  {
    if dst == [] then (r, 0)
    else
      var (r1, k) := Each(r, memb, sender, f, dst[..|dst| - 1]);
      EachNext(r1, memb, sender, f, dst[|dst| - 1], k)
  }

  function EachNext(r: H.Room, memb: Membership, sender: H.MemberId, f: F.Frame, index: u16, k: nat): (H.Room, nat)
  {
    match Target(r, memb, sender, index)
    case None => (r, k)
    case Some(t) =>
      var (r', ok) := H.Deliver(r, t, H.Binary(F.Encoded(One(f, index))));
      (r', if ok then k + 1 else k)
  }

  function Multicast(s: State, memb: Membership, sender: H.MemberId, f: F.Frame): (State, Result<nat, RelayErr>)
  {
    var (r, k) := Each(s.room, memb, sender, f, f.dst);
    if k == 0 then Missed(s.(room := r)) else (Counted(s.(room := r), |f.payload| * k), Ok(k))
  }

  function Broadcast(s: State, sender: H.MemberId, f: F.Frame): (State, Result<nat, RelayErr>)
    requires F.Encodable(f)
  {
    var (r, k) := H.Broadcast(s.room, sender, H.Binary(F.Encoded(f)));
    if k == 0 then Missed(s.(room := r)) else (Counted(s.(room := r), |f.payload| * k), Ok(k))
  }

  /** What is forwarded of an accepted upload: the same frame with the source overwritten. */
  function Stamped(raw: Bytes, index: u16): (f: F.Frame)
    requires F.Parsed(raw).Ok?
    ensures F.Encodable(f)
  {
    F.EncodeOfParse(raw);
    F.Parsed(raw).value.(srcIndex := index)
  }

  function Forwarded(s: State, memb: Membership, maxFrame: nat, sender: H.MemberId, raw: Bytes)
    : (State, Result<nat, RelayErr>)
  {
    if sender !in memb then Denied(s, NotAuthorized)
    else if F.Parsed(raw).Err? then Denied(s, BadFrame)
    else
      var f := Stamped(raw, memb[sender]);
      if |f.payload| > maxFrame then Denied(s, TooLarge)
      else
        var s1 := s.(n := s.n.(framesIn := s.n.framesIn + 1, bytesIn := s.n.bytesIn + |f.payload|));
        if f.dstType == F.DST_UNICAST then Unicast(s1, memb, sender, f)
        else if f.dstType == F.DST_MULTICAST then Multicast(s1, memb, sender, f)
        else Broadcast(s1, sender, f)
  }

  // ---- Deliveries leave the addressing alone -----------------------------------------------

  /** Same members, same table, same connections; only queues and their flags may differ. */
  ghost predicate SameAddressing(r: H.Room, r': H.Room)
  {
    H.OnlyConns(r, r')
  }

  lemma TargetIsStable(r: H.Room, r': H.Room, memb: Membership, sender: H.MemberId, index: u16)
    requires SameAddressing(r, r')
    ensures Target(r', memb, sender, index) == Target(r, memb, sender, index)
  {
  }

  lemma EachNextAddressing(r: H.Room, memb: Membership, sender: H.MemberId, f: F.Frame, index: u16, k: nat)
    ensures SameAddressing(r, EachNext(r, memb, sender, f, index, k).0)
  {
    match Target(r, memb, sender, index)
    case None =>
    case Some(t) => H.DeliverOnlyTouchesConns(r, t, H.Binary(F.Encoded(One(f, index))));
  }

  lemma {:induction false} EachAddressing(r: H.Room, memb: Membership, sender: H.MemberId, f: F.Frame, dst: seq<u16>)
    ensures SameAddressing(r, Each(r, memb, sender, f, dst).0)
    decreases |dst|
  {
    if dst != [] {
      var (r1, k) := Each(r, memb, sender, f, dst[..|dst| - 1]);
      EachAddressing(r, memb, sender, f, dst[..|dst| - 1]);
      EachNextAddressing(r1, memb, sender, f, dst[|dst| - 1], k);
    }
  }

  lemma ForwardAddressing(s: State, memb: Membership, maxFrame: nat, sender: H.MemberId, raw: Bytes)
    ensures SameAddressing(s.room, Forwarded(s, memb, maxFrame, sender, raw).0.room)
  {
    if sender in memb && F.Parsed(raw).Ok? {
      var f := Stamped(raw, memb[sender]);
      if f.dstType == F.DST_UNICAST {
        var t := Target(s.room, memb, sender, f.dst[0]);
        if t.Some? { H.DeliverOnlyTouchesConns(s.room, t.value, H.Binary(F.Encoded(f))); }
      } else if f.dstType == F.DST_MULTICAST {
        EachAddressing(s.room, memb, sender, f, f.dst);
      } else {
        H.BroadcastOnlyTouchesConns(s.room, sender, H.Binary(F.Encoded(f)));
      }
    }
  }

  // ---- Meaning -------------------------------------------------------------------------------

  /** The frame says what the uploaded one said, about its true sender, to one of its targets. */
  ghost predicate Says(raw: Bytes, src: u16, got: H.Frame)
    requires F.Parsed(raw).Ok?
  {
    var up := F.Parsed(raw).value;
    && got.Binary? && F.Parsed(got.binary).Ok?
    && var f := F.Parsed(got.binary).value;
       && f.srcIndex == src && f.flags == up.flags && f.streamId == up.streamId && f.number == up.number
       && f.payload == up.payload
       && (if up.dstType == F.DST_BROADCAST then f.dstType == F.DST_BROADCAST
           else f.dstType == F.DST_UNICAST && |f.dst| == 1 && f.dst[0] in up.dst)
  }

  /** The member may hear it: approved, online, not the sender; for a listed target also active and named. */
  ghost predicate Meant(r: H.Room, memb: Membership, sender: H.MemberId, raw: Bytes, m: H.MemberId, got: H.Frame)
    requires F.Parsed(raw).Ok? && sender in memb && Says(raw, memb[sender], got)
  {
    && H.Hears(r, sender, m)
    && (F.Parsed(raw).value.dstType != F.DST_BROADCAST ==>
          m in memb && H.LookupMemberByIndex(r, F.Parsed(got.binary).value.dst[0]) == Some(m))
  }

  ghost predicate Proper(r: H.Room, memb: Membership, sender: H.MemberId, raw: Bytes, m: H.MemberId, got: H.Frame)
    requires F.Parsed(raw).Ok? && sender in memb
  {
    Says(raw, memb[sender], got) && Meant(r, memb, sender, raw, m, got)
  }

  /** Queues only grow, and only by proper frames. */
  ghost predicate GrewProperly(r: H.Room, now: H.Room, memb: Membership, sender: H.MemberId, raw: Bytes)
    requires F.Parsed(raw).Ok? && sender in memb
  {
    forall c :: c in r.conns ==> c in now.conns && QueueGrew(r, now, memb, sender, raw, c)
  }

  ghost predicate QueueGrew(r: H.Room, now: H.Room, memb: Membership, sender: H.MemberId, raw: Bytes, c: H.ConnRef)
    requires F.Parsed(raw).Ok? && sender in memb && c in r.conns && c in now.conns
  {
    var before, after := r.conns[c].out, now.conns[c].out;
    && before <= after
    && forall k :: |before| <= k < |after| ==> Proper(r, memb, sender, raw, r.conns[c].member, after[k])
  }

  lemma OneSays(raw: Bytes, src: u16, index: u16)
    requires F.Parsed(raw).Ok? && F.Parsed(raw).value.dstType != F.DST_BROADCAST && index in F.Parsed(raw).value.dst
    ensures Says(raw, src, H.Binary(F.Encoded(One(Stamped(raw, src), index))))
    ensures F.Parsed(F.Encoded(One(Stamped(raw, src), index))).value.dst == [index]
  {
    F.ParseOfEncode(One(Stamped(raw, src), index));
  }

  lemma TargetHears(r: H.Room, memb: Membership, sender: H.MemberId, index: u16)
    requires H.Valid(r) && H.Inverse(r) && Target(r, memb, sender, index).Some?
    ensures var t := Target(r, memb, sender, index).value;
      t in memb && H.Hears(r, sender, t) && H.LookupMemberByIndex(r, index) == Some(t)
  {
    var t := Target(r, memb, sender, index).value;
    assert H.BackedAt(r, index);
  }

  lemma OutletIsOwn(r: H.Room, m: H.MemberId, got: H.Frame)
    requires H.Valid(r) && H.IsOnline(r, m) && m in r.members
    ensures var c := H.Outlet(H.OnlineOf(r, m), got); c != None ==> c.value in r.conns && r.conns[c.value].member == m
  {
    assert H.OnlineFits(r, m);
  }

  lemma SentGrows(r: H.Room, now: H.Room, memb: Membership, sender: H.MemberId, raw: Bytes, m: H.MemberId, got: H.Frame)
    requires H.Valid(r) && SameAddressing(r, now)
    requires F.Parsed(raw).Ok? && sender in memb
    requires GrewProperly(r, now, memb, sender, raw) && Proper(r, memb, sender, raw, m, got)
    ensures GrewProperly(r, H.Deliver(now, m, got).0, memb, sender, raw)
  {
    hide Says, Proper, QueueGrew;
    var after := H.Deliver(now, m, got).0;
    if H.IsOnline(r, m) { OutletIsOwn(r, m, got); }
    hide H.Valid, H.OnlineFits, H.Inverse;
    forall c | c in r.conns ensures c in after.conns && QueueGrew(r, after, memb, sender, raw, c) {
      QueueGrewNext(r, now, memb, sender, raw, m, got, c);
    }
  }

  lemma QueueGrewNext(r: H.Room, now: H.Room, memb: Membership, sender: H.MemberId, raw: Bytes,
                      m: H.MemberId, got: H.Frame, c: H.ConnRef)
    requires SameAddressing(r, now) && c in r.conns && c in now.conns
    requires F.Parsed(raw).Ok? && sender in memb
    requires H.IsOnline(r, m) ==>
      var o := H.Outlet(H.OnlineOf(r, m), got); o == Some(c) ==> r.conns[c].member == m
    requires QueueGrew(r, now, memb, sender, raw, c) && Proper(r, memb, sender, raw, m, got)
    ensures var after := H.Deliver(now, m, got).0;
      c in after.conns && QueueGrew(r, after, memb, sender, raw, c)
  {
    hide Says, Proper;
  }

  /** One delivery to a target puts one proper frame on one of that member's own connections. */
  lemma DeliverIsProper(r: H.Room, now: H.Room, memb: Membership, sender: H.MemberId, raw: Bytes, index: u16, k: nat)
    requires H.Valid(r) && H.Inverse(r) && SameAddressing(r, now)
    requires sender in memb && F.Parsed(raw).Ok? && F.Parsed(raw).value.dstType != F.DST_BROADCAST
    requires index in F.Parsed(raw).value.dst
    requires GrewProperly(r, now, memb, sender, raw)
    ensures GrewProperly(r, EachNext(now, memb, sender, Stamped(raw, memb[sender]), index, k).0, memb, sender, raw)
  {
    hide GrewProperly, F.Parsed, F.Encoded, Stamped, H.Valid, H.Inverse;
    TargetIsStable(r, now, memb, sender, index);
    match Target(r, memb, sender, index)
    case None =>
    case Some(t) =>
      TargetHears(r, memb, sender, index);
      OneSays(raw, memb[sender], index);
      var got := H.Binary(F.Encoded(One(Stamped(raw, memb[sender]), index)));
      SentGrows(r, now, memb, sender, raw, t, got);
  }

  lemma NothingGrew(r: H.Room, memb: Membership, sender: H.MemberId, raw: Bytes)
    requires sender in memb && F.Parsed(raw).Ok?
    ensures GrewProperly(r, r, memb, sender, raw)
  {
  }

  lemma {:induction false} EachIsProper(r: H.Room, memb: Membership, sender: H.MemberId, raw: Bytes, dst: seq<u16>)
    requires H.Valid(r) && H.Inverse(r)
    requires sender in memb && F.Parsed(raw).Ok? && F.Parsed(raw).value.dstType != F.DST_BROADCAST
    requires forall i :: i in dst ==> i in F.Parsed(raw).value.dst
    ensures GrewProperly(r, Each(r, memb, sender, Stamped(raw, memb[sender]), dst).0, memb, sender, raw)
    decreases |dst|
  {
    hide GrewProperly, QueueGrew, F.Parsed, H.Valid, H.Inverse, EachNext;
    if dst == [] {
      NothingGrew(r, memb, sender, raw);
    } else {
      var f, init := Stamped(raw, memb[sender]), dst[..|dst| - 1];
      EachIsProper(r, memb, sender, raw, init);
      EachAddressing(r, memb, sender, f, init);
      var (r1, k) := Each(r, memb, sender, f, init);
      DeliverIsProper(r, r1, memb, sender, raw, dst[|dst| - 1], k);
    }
  }

  lemma BroadcastIsProper(r: H.Room, memb: Membership, sender: H.MemberId, raw: Bytes)
    requires sender in memb && F.Parsed(raw).Ok? && F.Parsed(raw).value.dstType == F.DST_BROADCAST
    ensures GrewProperly(r, H.Broadcast(r, sender, H.Binary(F.Encoded(Stamped(raw, memb[sender])))).0, memb, sender, raw)
  {
    var f := Stamped(raw, memb[sender]);
    var got := H.Binary(F.Encoded(f));
    F.ParseOfEncode(f);
    assert Says(raw, memb[sender], got);
    var after := H.Broadcast(r, sender, got).0;
    forall c | c in r.conns ensures c in after.conns && QueueGrew(r, after, memb, sender, raw, c) {
      if H.Targeted(r, sender, got, c) {
        assert Proper(r, memb, sender, raw, r.conns[c].member, got);
        hide Says, Proper, Meant;
      }
    }
  }

  /** Everything a call enqueues is the uploaded message under the sender's stored index, queued for an
      approved member online other than the sender: for a listed target, the active member it names. */
  lemma MeaningPreserved(s: State, memb: Membership, maxFrame: nat, sender: H.MemberId, raw: Bytes)
    requires H.Valid(s.room) && H.Inverse(s.room)
    ensures var s' := Forwarded(s, memb, maxFrame, sender, raw).0;
      && H.Valid(s'.room) && H.Inverse(s'.room)
      && (if sender in memb && F.Parsed(raw).Ok? then GrewProperly(s.room, s'.room, memb, sender, raw)
          else s'.room == s.room)
  {
    ForwardAddressing(s, memb, maxFrame, sender, raw);
    var s' := Forwarded(s, memb, maxFrame, sender, raw).0;
    H.OnlyConnsKeepsValid(s.room, s'.room);
    H.OnlyConnsKeepsInverse(s.room, s'.room);
    if sender in memb && F.Parsed(raw).Ok? { ForwardIsProper(s, memb, maxFrame, sender, raw); }
  }

  lemma ForwardIsProper(s: State, memb: Membership, maxFrame: nat, sender: H.MemberId, raw: Bytes)
    requires H.Valid(s.room) && H.Inverse(s.room)
    requires sender in memb && F.Parsed(raw).Ok?
    ensures GrewProperly(s.room, Forwarded(s, memb, maxFrame, sender, raw).0.room, memb, sender, raw)
  {
    var f := Stamped(raw, memb[sender]);
    NothingGrew(s.room, memb, sender, raw);
    if f.dstType == F.DST_UNICAST {
      UnicastIsEach(s.room, memb, sender, f);
      EachIsProper(s.room, memb, sender, raw, f.dst);
    } else if f.dstType == F.DST_MULTICAST {
      EachIsProper(s.room, memb, sender, raw, f.dst);
    } else {
      BroadcastIsProper(s.room, memb, sender, raw);
    }
    hide GrewProperly, H.Valid, H.Inverse, H.Broadcast, Each, F.Encoded;
  }

  lemma UnicastIsEach(r: H.Room, memb: Membership, sender: H.MemberId, f: F.Frame)
    requires F.Encodable(f) && f.dstType == F.DST_UNICAST
    ensures One(f, f.dst[0]) == f && f.dst == [f.dst[0]]
    ensures Each(r, memb, sender, f, f.dst) == EachNext(r, memb, sender, f, f.dst[0], 0)
  {
    assert f.dst == [f.dst[0]];
    assert f.dst[..0] == [];
  }

  // ---- A multicast is its unicasts -----------------------------------------------------------

  /** Forwarding one unicast per index, in order: the state, how many were taken, the bytes sent out. */
  function Unicasts(s: State, memb: Membership, sender: H.MemberId, f: F.Frame, dst: seq<u16>): (State, nat)
    decreases |dst|
  {
    if dst == [] then (s, 0)
    else
      var (s1, k) := Unicasts(s, memb, sender, f, dst[..|dst| - 1]);
      var (s2, res) := Unicast(s1, memb, sender, One(f, dst[|dst| - 1]));
      (s2, if res.Ok? then k + res.value else k)
  }

  /** Same queues, same number delivered, same bytes counted; a multicast counts as a single frame out. */
  lemma {:induction false} MulticastIsUnicasts(s: State, memb: Membership, sender: H.MemberId, f: F.Frame, dst: seq<u16>)
    ensures var (r, k) := Each(s.room, memb, sender, f, dst);
      var (s', j) := Unicasts(s, memb, sender, f, dst);
      && s'.room == r && j == k <= |dst|
      && s'.n.bytesOut == s.n.bytesOut + |f.payload| * k
      && s'.n.framesOut == s.n.framesOut + k
      && s'.n.noTarget == s.n.noTarget + |dst| - k
    decreases |dst|
  {
    if dst != [] {
      var init, index := dst[..|dst| - 1], dst[|dst| - 1];
      MulticastIsUnicasts(s, memb, sender, f, init);
      var (s1, k) := Unicasts(s, memb, sender, f, init);
      assert |f.payload| * (k + 1) == |f.payload| * k + |f.payload|;
      hide F.Encoded, H.Deliver, Target;
    }
  }

  // ---- Conservation ----------------------------------------------------------------------------

  function Queued(conns: map<H.ConnRef, H.Conn>, below: nat): nat
  {
    if below == 0 then 0
    else Queued(conns, below - 1) + if below - 1 in conns then |conns[below - 1].out| else 0
  }

  lemma {:induction false} QueuedOne(conns: map<H.ConnRef, H.Conn>, c: H.ConnRef, now: H.Conn, below: nat)
    requires c in conns
    ensures Queued(conns[c := now], below) == Queued(conns, below) + if c < below then |now.out| - |conns[c].out| else 0
  {
    if below > 0 { QueuedOne(conns, c, now, below - 1); }
  }

  lemma DeliverQueues(r: H.Room, m: H.MemberId, f: H.Frame, below: nat)
    requires forall c :: c in r.conns ==> c < below
    ensures var (r', ok) := H.Deliver(r, m, f);
      Queued(r'.conns, below) == Queued(r.conns, below) + if ok then 1 else 0
  {
    if H.IsOnline(r, m) {
      var o := H.Outlet(H.OnlineOf(r, m), f);
      if o != None && o.value in r.conns {
        QueuedOne(r.conns, o.value, H.Sent(r.conns[o.value], f).0, below);
      }
    }
  }

  lemma {:induction false} EachQueues(r: H.Room, memb: Membership, sender: H.MemberId, f: F.Frame, dst: seq<u16>, below: nat)
    requires forall c :: c in r.conns ==> c < below
    ensures var (r', k) := Each(r, memb, sender, f, dst); Queued(r'.conns, below) == Queued(r.conns, below) + k
    decreases |dst|
  {
    if dst != [] {
      var init, index := dst[..|dst| - 1], dst[|dst| - 1];
      EachQueues(r, memb, sender, f, init, below);
      EachAddressing(r, memb, sender, f, init);
      var (r1, k) := Each(r, memb, sender, f, init);
      match Target(r1, memb, sender, index)
      case None =>
      case Some(t) => DeliverQueues(r1, t, H.Binary(F.Encoded(One(f, index))), below);
      hide Queued, H.Deliver, F.Encoded;
    }
  }

  /** A unicast or multicast reports exactly the frames it queued, and none when it fails. */
  lemma ForwardReportsWhatItQueued(s: State, memb: Membership, maxFrame: nat, sender: H.MemberId, raw: Bytes)
    requires H.Valid(s.room)
    requires F.Parsed(raw).Ok? ==> F.Parsed(raw).value.dstType != F.DST_BROADCAST
    ensures var (s', res) := Forwarded(s, memb, maxFrame, sender, raw);
      && Queued(s'.room.conns, s.room.nextConn)
         == Queued(s.room.conns, s.room.nextConn) + (if res.Ok? then res.value else 0)
      && (res.Ok? ==> res.value > 0)
  {
    if sender in memb && F.Parsed(raw).Ok? {
      var f := Stamped(raw, memb[sender]);
      EachQueues(s.room, memb, sender, f, f.dst, s.room.nextConn);
      if f.dstType == F.DST_UNICAST { UnicastIsEach(s.room, memb, sender, f); }
    }
    hide Queued, H.Valid, H.Deliver, F.Encoded, F.Parsed;
  }

  // ---- The code ----------------------------------------------------------------------------------

  class Forwarder {
    const hub: O.OnlineRoom
    const maxFrame: nat
    var n: Counters

    ghost function Now(): State
      reads this, hub
    {
      State(hub.State(), n)
    }

    constructor (hub: O.OnlineRoom, maxFrame: nat)
      ensures this.hub == hub && this.maxFrame == maxFrame && n == Counters(0, 0, 0, 0, 0, 0)
    {
      this.hub, this.maxFrame, n := hub, maxFrame, Counters(0, 0, 0, 0, 0, 0);
    }

    method Forward(memb: Membership, sender: H.MemberId, raw: Bytes) returns (res: Result<nat, RelayErr>)
      requires hub.Valid()
      modifies this, hub
      ensures hub.Valid()
      ensures (Now(), res) == Forwarded(old(Now()), memb, maxFrame, sender, raw)
    {
      hide H.Valid, F.Parsed, Unicast, Multicast, Broadcast;
      if sender !in memb {
        n := n.(denied := n.denied + 1);
        return Err(NotAuthorized);
      }
      var srcIndex := memb[sender];
      var parsed := F.ParseFrame(raw);
      if parsed.Err? {
        n := n.(denied := n.denied + 1);
        return Err(BadFrame);
      }
      var f := parsed.value;
      if |f.payload| > maxFrame {
        n := n.(denied := n.denied + 1);
        return Err(TooLarge);
      }
      n := n.(framesIn := n.framesIn + 1, bytesIn := n.bytesIn + |f.payload|);
      f := f.(srcIndex := srcIndex);
      assert f == Stamped(raw, srcIndex);
      if f.dstType == F.DST_UNICAST {
        res := ForwardUnicast(memb, sender, f);
      } else if f.dstType == F.DST_MULTICAST {
        res := ForwardMulticast(memb, sender, f);
      } else {
        res := ForwardBroadcast(sender, f);
      }
    }

    method ForwardUnicast(memb: Membership, sender: H.MemberId, f: F.Frame) returns (res: Result<nat, RelayErr>)
      requires hub.Valid() && F.Encodable(f) && f.dstType == F.DST_UNICAST
      modifies this, hub
      ensures hub.Valid() && (Now(), res) == Unicast(old(Now()), memb, sender, f)
    {
      hide F.Encoded, H.Deliver, H.Valid, H.LookupMemberByIndex;
      var target := hub.LookupMemberByIndex(f.dst[0]);
      if target == None || target.value == sender || target.value !in memb {
        n := n.(noTarget := n.noTarget + 1);
        return Err(TargetNotFound);
      }
      var out := F.EncodeFrame(f);
      var ok := hub.Deliver(target.value, H.Binary(out.value[..]));
      if !ok {
        n := n.(noTarget := n.noTarget + 1);
        return Err(TargetNotFound);
      }
      Count(|f.payload|);
      return Ok(1);
    }

    method Count(bytes: nat)
      modifies this`n
      ensures n == old(n).(framesOut := old(n).framesOut + 1, bytesOut := old(n).bytesOut + bytes)
    {
      n := n.(framesOut := n.framesOut + 1, bytesOut := n.bytesOut + bytes);
    }

    method ForwardMulticast(memb: Membership, sender: H.MemberId, f: F.Frame) returns (res: Result<nat, RelayErr>)
      requires hub.Valid()
      modifies this, hub
      ensures hub.Valid() && (Now(), res) == Multicast(old(Now()), memb, sender, f)
    {
      hide H.Valid, EachNext;
      var delivered := 0;
      for i := 0 to |f.dst|
        invariant hub.Valid() && n == old(n)
        invariant (hub.State(), delivered) == Each(old(hub.State()), memb, sender, f, f.dst[..i])
      {
        assert f.dst[..i + 1][..i] == f.dst[..i];
        delivered := Forward1(memb, sender, f, f.dst[i], delivered);
      }
      assert f.dst[..|f.dst|] == f.dst;
      if delivered == 0 {
        n := n.(noTarget := n.noTarget + 1);
        return Err(TargetNotFound);
      }
      Count(|f.payload| * delivered);
      return Ok(delivered);
    }

    /** One turn of the multicast loop. */
    method Forward1(memb: Membership, sender: H.MemberId, f: F.Frame, index: u16, delivered: nat) returns (k: nat)
      requires hub.Valid()
      modifies hub
      ensures hub.Valid() && (hub.State(), k) == EachNext(old(hub.State()), memb, sender, f, index, delivered)
    {
      hide F.Encoded, H.Deliver, H.Valid, H.LookupMemberByIndex;
      var target := hub.LookupMemberByIndex(index);
      if target == None || target.value == sender || target.value !in memb {
        return delivered;
      }
      var one := F.Frame(f.flags, f.srcIndex, F.DST_UNICAST, [index], f.streamId, f.number, f.payload);
      assert one == One(f, index);
      var out := F.EncodeFrame(one);
      var ok := hub.Deliver(target.value, H.Binary(out.value[..]));
      return if ok then delivered + 1 else delivered;
    }

    method ForwardBroadcast(sender: H.MemberId, f: F.Frame) returns (res: Result<nat, RelayErr>)
      requires hub.Valid() && F.Encodable(f)
      modifies this, hub
      ensures hub.Valid() && (Now(), res) == Broadcast(old(Now()), sender, f)
    {
      hide F.Encoded, H.Broadcast, H.Valid;
      var out := F.EncodeFrame(f);
      var k := hub.Broadcast(sender, H.Binary(out.value[..]));
      if k == 0 {
        n := n.(noTarget := n.noTarget + 1);
        return Err(TargetNotFound);
      }
      Count(|f.payload| * k);
      return Ok(k);
    }
  }
}
