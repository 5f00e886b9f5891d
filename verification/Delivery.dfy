/** What the hub does to the connections, entry by entry (internal/member/hub.go), and what that means for
    the relay (internal/relay/relay.go): which of a member's two connections carries a frame, what a full
    queue does to it, and what attaching, detaching and closing leave. Stated on the fields alone. */
module Delivery {
  import opened Machine
  import H = Hub
  import F = Frames
  import R = Relay

  // ---- One frame, one connection ---------------------------------------------------------------

  /** The frame is queued last; on a full queue it is counted as dropped, and the 64th drop closes. */
  ghost predicate TookOrDropped(was: H.Conn, now: H.Conn, f: H.Frame)
  {
    if |was.out| < 256 then now == was.(out := was.out + [f])
    else if was.dropped + 1 < 64 then now == was.(dropped := was.dropped + 1)
    else now == was.(dropped := was.dropped + 1, kickReason := "slow consumer", closed := true)
  }

  ghost predicate OthersKept(was: map<H.ConnRef, H.Conn>, now: map<H.ConnRef, H.Conn>, c: H.ConnRef)
  {
    now.Keys == was.Keys && forall d :: d in was && d != c ==> now[d] == was[d]
  }

  /** The frame was offered to this connection and to no other; the answer says whether it was queued. */
  ghost predicate GoesTo(r: H.Room, r': H.Room, c: H.ConnRef, f: H.Frame, ok: bool)
  {
    && c in r.conns && OthersKept(r.conns, r'.conns, c) && r' == r.(conns := r'.conns)
    && TookOrDropped(r.conns[c], r'.conns[c], f) && (ok <==> |r.conns[c].out| < 256)
  }

  /** A member's connection for data is the relay one, or the control one while there is no relay. */
  ghost predicate ForData(om: H.Online, c: H.ConnRef)
  {
    om.relay == Some(c) || (om.relay == None && om.control == Some(c))
  }

  /** For text the other way about. */
  ghost predicate ForText(om: H.Online, c: H.ConnRef)
  {
    om.control == Some(c) || (om.control == None && om.relay == Some(c))
  }

  /** Binary frames go over relay, text over control, and each falls back only on an empty place. */
  lemma DeliveryChooses(r: H.Room, m: H.MemberId, f: H.Frame)
    requires H.Valid(r)
    ensures m !in r.members ==> H.Deliver(r, m, f) == (r, false)
    ensures m in r.members ==>
      && r.members[m] in r.people
      && var om, (r', ok) := r.people[r.members[m]], H.Deliver(r, m, f);
         && (exists c :: if f.Binary? then ForData(om, c) else ForText(om, c))
         && forall c :: (if f.Binary? then ForData(om, c) else ForText(om, c)) ==> GoesTo(r, r', c, f, ok)
  {
    if m in r.members {
      Entry(r, m);
      assert H.OnlineFits(r, m);
      var om := r.people[r.members[m]];
      var c := if f.Binary? then (if om.relay != None then om.relay else om.control)
               else (if om.control != None then om.control else om.relay);
      assert if f.Binary? then ForData(om, c.value) else ForText(om, c.value);
    }
  }

  /** Member m hears a broadcast: it is approved and not the one left out. */
  ghost predicate Listens(r: H.Room, exclude: H.MemberId, m: H.MemberId)
  {
    m in r.members && m != exclude && r.members[m] in r.people && r.people[r.members[m]].approved
  }

  /** The connection over which m hears it: as for a delivery, but text never goes over relay. */
  ghost predicate ForBroadcast(om: H.Online, f: H.Frame, c: H.ConnRef)
  {
    if f.Binary? then ForData(om, c) else om.control == Some(c)
  }

  /** Each listener gets the frame once, on that connection; nothing else changes. */
  lemma BroadcastChooses(r: H.Room, exclude: H.MemberId, f: H.Frame)
    requires H.Valid(r)
    ensures var (r', n) := H.Broadcast(r, exclude, f);
      && r' == r.(conns := r'.conns) && r'.conns.Keys == r.conns.Keys
      && n == |set m | m in r.members && Listens(r, exclude, m)|
      && forall c :: c in r.conns ==>
           var m := r.conns[c].member;
           if Listens(r, exclude, m) && ForBroadcast(r.people[r.members[m]], f, c)
           then TookOrDropped(r.conns[c], r'.conns[c], f) else r'.conns[c] == r.conns[c]
  {
    hide H.Valid;
    forall m ensures Listens(r, exclude, m) <==> H.Hears(r, exclude, m) {}
    assert (set m | m in r.members && Listens(r, exclude, m)) == set m | m in r.members && H.Hears(r, exclude, m);
  }

  // ---- The entries of the room -------------------------------------------------------------------

  ghost predicate Closed(was: H.Conn, now: H.Conn, reason: string)
  {
    now == was.(kickReason := reason, closed := true)
  }

  function Blank(m: H.MemberId): H.Online { H.Online(m, None, None, "", 0, false) }

  /** A new connection takes the member's place of its kind and the reported identity; the one it finds there
      is closed as a duplicate. */
  lemma AttachReplaces(r: H.Room, m: H.MemberId, id: H.ConnId, kind: H.Kind, index: u16, approved: bool)
    requires H.Valid(r)
    ensures m in r.members ==> r.members[m] in r.people
    ensures var (r', c, replaced) := H.Attach(r, m, id, kind, index, approved);
      var was := if m in r.members then r.people[r.members[m]] else Blank(m);
      && c !in r.conns && m in r'.members && r'.members[m] in r'.people
      && r'.people[r'.members[m]]
         == H.Online(m, if kind == H.Control then Some(c) else was.control, if kind == H.Relay then Some(c) else was.relay,
                     id, index, approved)
      && replaced == (if kind == H.Control then was.control else was.relay)
      && r'.conns.Keys == r.conns.Keys + {c} && r'.conns[c] == H.Conn(id, m, kind, [], 0, "", false)
      && (forall d :: d in r.conns ==>
            if replaced == Some(d) then Closed(r.conns[d], r'.conns[d], "duplicate connection") else r'.conns[d] == r.conns[d])
  {
    hide H.Valid, H.OnlineFits;
    NewHandle(r);
    if m in r.members { Entry(r, m); }
  }

  /** It enters its index, and nobody else's entry changes. */
  lemma AttachKeepsOthers(r: H.Room, m: H.MemberId, id: H.ConnId, kind: H.Kind, index: u16, approved: bool)
    requires H.Valid(r)
    ensures var r' := H.Attach(r, m, id, kind, index, approved).0;
      && r'.members.Keys == r.members.Keys + {m} && r'.byIndex == r.byIndex[index := r'.members[m]] && r'.hooks == r.hooks
      && (forall o :: o in r.members && o != m ==>
            r'.members[o] == r.members[o] && r.members[o] in r.people && r'.people[r.members[o]] == r.people[r.members[o]])
  {
    hide H.Valid, H.OnlineFits;
    if m in r.members { Entry(r, m); }
    forall o | o in r.members && o != m
      ensures r.members[o] in r.people && r.members[o] != r.nextRef && (m in r.members ==> r.members[o] != r.members[m])
    {
      Entry(r, o);
    }
  }

  lemma NewHandle(r: H.Room)
    requires H.Valid(r)
    ensures r.nextConn !in r.conns
  {
  }

  lemma Entry(r: H.Room, m: H.MemberId)
    requires H.Valid(r) && m in r.members
    ensures r.members[m] in r.people && r.members[m] != r.nextRef
    ensures var om := r.people[r.members[m]];
      && om.member == m
      && (om.control != None ==> om.control.value in r.conns && r.conns[om.control.value].member == m)
      && (om.relay != None ==> om.relay.value in r.conns && r.conns[om.relay.value].member == m)
  {
    assert H.OnlineFits(r, m);
  }

  /** The current connection gives up its place; the member's last one takes its entry and its index along
      and reports it offline; connections and everybody else's entries stay. */
  lemma DetachVacates(r: H.Room, c: H.ConnRef)
    requires H.Valid(r) && c in r.conns && H.Current(r, c)
    ensures var r', m := H.Detach(r, c), r.conns[c].member;
      var om, control := r.people[r.members[m]], r.conns[c].kind == H.Control;
      var left := if control then om.(control := None) else om.(relay := None);
      var last := left.control == None && left.relay == None;
      && r'.conns == r.conns && r'.attached == r.attached - {c}
      && r'.members == (if last then r.members - {m} else r.members)
      && r'.byIndex == (if last then r.byIndex - {om.index} else r.byIndex)
      && r'.hooks == (if last then r.hooks + [(m, r.conns[c].id)] else r.hooks)
      && (!last ==> r'.people[r'.members[m]] == left)
      && (forall o :: o in r.members && o != m ==>
            o in r'.members && r'.members[o] == r.members[o] && r'.people[r.members[o]] == r.people[r.members[o]])
  {
    var m := r.conns[c].member;
    hide H.Valid, H.OnlineFits;
    Entry(r, m);
    forall o | o in r.members && o != m ensures r.members[o] in r.people && r.members[o] != r.members[m] { Entry(r, o); }
  }

  /** Closing a member closes both its connections for the given reason, and no other. */
  lemma CloseClosesBoth(r: H.Room, m: H.MemberId, reason: string)
    requires H.Valid(r)
    ensures var r' := H.CloseMember(r, m, reason);
      && r' == r.(conns := r'.conns) && r'.conns.Keys == r.conns.Keys
      && (m in r.members ==> r.members[m] in r.people)
      && forall c :: c in r.conns ==>
           if m in r.members && (r.people[r.members[m]].control == Some(c) || r.people[r.members[m]].relay == Some(c))
           then Closed(r.conns[c], r'.conns[c], reason) else r'.conns[c] == r.conns[c]
  {
    hide H.Valid, H.OnlineFits;
    if m in r.members { Entry(r, m); }
  }

  /** Approval sets the flag and the index and enters it; the old index is released if it was the member's. */
  lemma ApprovalEnters(r: H.Room, m: H.MemberId, index: u16)
    requires H.Valid(r)
    ensures var (r', ok) := H.MakeApproved(r, m, index);
      && ok == (m in r.members) && (!ok ==> r' == r)
      && (ok ==>
            && r.members[m] in r.people && r' == r.(people := r'.people, byIndex := r'.byIndex)
            && r'.people == r.people[r.members[m] := r.people[r.members[m]].(index := index, approved := true)]
            && index in r'.byIndex && r'.byIndex[index] == r.members[m]
            && (forall i :: i in r'.byIndex && i != index ==> i in r.byIndex && r'.byIndex[i] == r.byIndex[i])
            && (forall i :: i in r.byIndex && i != index ==>
                  (i in r'.byIndex <==> !(i == r.people[r.members[m]].index && r.byIndex[i] == r.members[m]))))
    ensures forall approved :: var (r', ok) := H.SetApproved(r, m, approved);
      && ok == (m in r.members) && (!ok ==> r' == r)
      && (ok ==> r' == r.(people := r.people[r.members[m] := r.people[r.members[m]].(approved := approved)]))
  {
    hide H.Valid, H.OnlineFits;
    if m in r.members { Entry(r, m); }
  }

  /** So every step of a run does to the room what its name says. */
  lemma EveryStepActs(r: H.Room, e: H.Event)
    requires H.Valid(r)
    ensures var r' := H.Step(r, e);
      match e
      case Attaches(m, id, kind, index, approved) =>
        && m in r'.members && r'.members[m] in r'.people && r'.conns.Keys > r.conns.Keys
        && var om := r'.people[r'.members[m]];
           om.connId == id && om.index == index && om.approved == approved
           && (if kind == H.Control then om.control else om.relay) == Some(r.nextConn)
      case Detaches(c) => c in r.conns && H.Current(r, c) ==> r'.conns == r.conns && r'.attached == r.attached - {c} && !H.Current(r', c)
      case Closes(m, reason) =>
        m in r.members ==>
          && r.members[m] in r.people
          && forall c :: c in r.conns && (ForData(r.people[r.members[m]], c) || ForText(r.people[r.members[m]], c)) ==>
               c in r'.conns && Closed(r.conns[c], r'.conns[c], reason)
      case Delivers(m, f) =>
        m in r.members ==>
          && r.members[m] in r.people
          && forall c :: (if f.Binary? then ForData(r.people[r.members[m]], c) else ForText(r.people[r.members[m]], c)) ==>
               c in r.conns && c in r'.conns && TookOrDropped(r.conns[c], r'.conns[c], f)
      case Broadcasts(exclude, f) =>
        forall c :: c in r.conns && Listens(r, exclude, r.conns[c].member)
                    && ForBroadcast(r.people[r.members[r.conns[c].member]], f, c) ==>
          c in r'.conns && TookOrDropped(r.conns[c], r'.conns[c], f)
      case Approves(m, index) =>
        m in r.members ==>
          r'.members == r.members && r.members[m] in r'.people
          && r'.people[r.members[m]].approved && r'.people[r.members[m]].index == index
      case SetsApproved(m, approved) =>
        m in r.members ==>
          r'.members == r.members && r.members[m] in r'.people && r'.people[r.members[m]].approved == approved
  {
    hide H.Valid, H.OnlineFits, TookOrDropped, Closed, H.Attach, H.Detach, H.CloseMember, H.Deliver, H.Broadcast, H.MakeApproved, H.SetApproved;
    match e
    case Attaches(m, id, kind, index, approved) =>
      AttachReplaces(r, m, id, kind, index, approved);
      HandleIsNext(r, m, id, kind, index, approved);
    case Detaches(c) => if c in r.conns && H.Current(r, c) { DetachVacates(r, c); VacatedIsNotCurrent(r, c); }
    case Closes(m, reason) => CloseClosesBoth(r, m, reason);
    case Delivers(m, f) => DeliveryChooses(r, m, f);
    case Broadcasts(exclude, f) => BroadcastChooses(r, exclude, f);
    case Approves(m, index) => ApprovalEnters(r, m, index);
    case SetsApproved(m, approved) => ApprovalEnters(r, m, 0);
  }

  lemma HandleIsNext(r: H.Room, m: H.MemberId, id: H.ConnId, kind: H.Kind, index: u16, approved: bool)
    ensures H.Attach(r, m, id, kind, index, approved).1 == r.nextConn
  {
    hide H.Kick, H.Entered;
  }

  lemma VacatedIsNotCurrent(r: H.Room, c: H.ConnRef)
    requires H.Valid(r) && c in r.conns && H.Current(r, c)
    ensures !H.Current(H.Detach(r, c), c)
  {
    hide H.Valid;
  }

  // ---- The data plane ----------------------------------------------------------------------------

  ghost predicate CarriesData(r: H.Room, c: H.ConnRef)
    requires c in r.conns
  {
    var m := r.conns[c].member;
    m in r.members && r.members[m] in r.people && ForData(r.people[r.members[m]], c)
  }

  /** Of the connections there at the start, only those for data may have changed. */
  ghost predicate OnlyData(r: H.Room, now: H.Room)
  {
    R.SameAddressing(r, now) && forall c :: c in r.conns && !CarriesData(r, c) ==> now.conns[c] == r.conns[c]
  }

  lemma DeliverIsData(r: H.Room, now: H.Room, m: H.MemberId, f: H.Frame)
    requires H.Valid(r) && OnlyData(r, now) && f.Binary?
    ensures OnlyData(r, H.Deliver(now, m, f).0)
  {
    hide H.Valid, H.Deliver, TookOrDropped, H.OnlineFits;
    H.OnlyConnsKeepsValid(r, now);
    H.DeliverOnlyTouchesConns(now, m, f);
    DeliveryChooses(now, m, f);
    if m in r.members {
      Entry(r, m);
      var c :| ForData(r.people[r.members[m]], c);
      assert GoesTo(now, H.Deliver(now, m, f).0, c, f, H.Deliver(now, m, f).1);
      assert CarriesData(r, c);
    }
  }

  lemma {:induction false} EachIsData(r: H.Room, memb: R.Membership, sender: H.MemberId, f: F.Frame, dst: seq<u16>)
    requires H.Valid(r)
    ensures OnlyData(r, R.Each(r, memb, sender, f, dst).0)
    decreases |dst|
  {
    hide H.Valid, OnlyData, F.Encoded, H.Deliver, R.Target;
    if dst == [] {
      SameIsData(r);
    } else {
      var (r1, k) := R.Each(r, memb, sender, f, dst[..|dst| - 1]);
      EachIsData(r, memb, sender, f, dst[..|dst| - 1]);
      match R.Target(r1, memb, sender, dst[|dst| - 1])
      case None =>
      case Some(t) => DeliverIsData(r, r1, t, H.Binary(F.Encoded(R.One(f, dst[|dst| - 1]))));
    }
  }

  lemma SameIsData(r: H.Room)
    ensures OnlyData(r, r)
  {
  }

  lemma BroadcastIsData(r: H.Room, sender: H.MemberId, f: H.Frame)
    requires H.Valid(r) && f.Binary?
    ensures OnlyData(r, H.Broadcast(r, sender, f).0)
  {
    BroadcastChooses(r, sender, f);
    H.BroadcastOnlyTouchesConns(r, sender, f);
    hide H.Valid, H.Broadcast, TookOrDropped;
  }

  /** Whatever is forwarded, to one, several or all, and whoever sends it: no data frame is offered to a
      control connection while its member has a relay connection. */
  lemma DataSparesControl(s: R.State, memb: R.Membership, maxFrame: nat, sender: H.MemberId, raw: Bytes)
    requires H.Valid(s.room)
    ensures var r, r' := s.room, R.Forwarded(s, memb, maxFrame, sender, raw).0.room;
      && OnlyData(r, r')
      && forall m :: m in r.members && r.people[r.members[m]].relay != None && r.people[r.members[m]].control != None ==>
           var c := r.people[r.members[m]].control.value;
           c in r.conns && r'.conns[c] == r.conns[c]
  {
    hide H.Deliver, H.Broadcast, F.Parsed, F.Encoded, R.Target, OnlyData, R.Each, H.Valid;
    SameIsData(s.room);
    if sender in memb && F.Parsed(raw).Ok? {
      var f := R.Stamped(raw, memb[sender]);
      if f.dstType == F.DST_UNICAST {
        var t := R.Target(s.room, memb, sender, f.dst[0]);
        if t.Some? { DeliverIsData(s.room, s.room, t.value, H.Binary(F.Encoded(f))); }
      } else if f.dstType == F.DST_MULTICAST {
        EachIsData(s.room, memb, sender, f, f.dst);
      } else {
        BroadcastIsData(s.room, sender, H.Binary(F.Encoded(f)));
      }
    }
    ControlIsNotData(s.room, R.Forwarded(s, memb, maxFrame, sender, raw).0.room);
  }

  lemma ControlIsNotData(r: H.Room, r': H.Room)
    requires H.Valid(r) && OnlyData(r, r')
    ensures forall m :: m in r.members ==> r.members[m] in r.people
    ensures forall m :: m in r.members && r.people[r.members[m]].relay != None && r.people[r.members[m]].control != None ==>
      var c := r.people[r.members[m]].control.value;
      c in r.conns && r'.conns[c] == r.conns[c]
  {
    forall m | m in r.members ensures H.OnlineFits(r, m) {}
  }

  /** The member an index stands for, as the tables have it. */
  ghost predicate Reachable(r: H.Room, memb: R.Membership, sender: H.MemberId, index: u16, t: H.MemberId)
  {
    && index in r.byIndex && t in r.members && r.byIndex[index] == r.members[t]
    && r.members[t] in r.people && r.people[r.members[t]].approved && t != sender && t in memb
  }

  /** An accepted unicast is offered, under the sender's stored index, to the member its index stands for, on
      that member's connection for data, and to nobody else; with no such member nothing changes hands. */
  lemma UnicastReaches(s: R.State, memb: R.Membership, maxFrame: nat, sender: H.MemberId, raw: Bytes)
    requires H.Valid(s.room) && H.Inverse(s.room) && sender in memb
    requires F.Parsed(raw).Ok? && F.Parsed(raw).value.dstType == F.DST_UNICAST
    requires |F.Parsed(raw).value.payload| <= maxFrame
    ensures var (s', res) := R.Forwarded(s, memb, maxFrame, sender, raw);
      var up := F.Parsed(raw).value;
      && |up.dst| == 1 && F.Encodable(up.(srcIndex := memb[sender]))
      && (forall t, c :: Reachable(s.room, memb, sender, up.dst[0], t) && ForData(s.room.people[s.room.members[t]], c) ==>
            GoesTo(s.room, s'.room, c, H.Binary(F.Encoded(up.(srcIndex := memb[sender]))), res == Ok(1)))
      && ((forall t :: !Reachable(s.room, memb, sender, up.dst[0], t)) ==> s'.room == s.room && res == Err(R.TargetNotFound))
  {
    F.EncodeOfParse(raw);
    var f := R.Stamped(raw, memb[sender]);
    TargetIsReachable(s.room, memb, sender, f.dst[0]);
    var t := R.Target(s.room, memb, sender, f.dst[0]);
    if t.Some? {
      DeliveryChooses(s.room, t.value, H.Binary(F.Encoded(f)));
      assert Reachable(s.room, memb, sender, f.dst[0], t.value);
    }
    hide H.Valid, H.Inverse, H.Deliver, F.Encoded, F.Parsed, GoesTo, R.Target;
  }

  lemma TargetIsReachable(r: H.Room, memb: R.Membership, sender: H.MemberId, index: u16)
    requires H.Valid(r) && H.Inverse(r)
    ensures forall t :: Reachable(r, memb, sender, index, t) <==> R.Target(r, memb, sender, index) == Some(t)
  {
    if index in r.byIndex { assert H.BackedAt(r, index); }
    forall t | t in r.members ensures H.OnlineFits(r, t) {}
  }

  // ---- What the caller is told -------------------------------------------------------------------

  function Accepted(n: R.Counters, bytes: nat): R.Counters
  {
    n.(framesIn := n.framesIn + 1, bytesIn := n.bytesIn + bytes)
  }

  /** The answer and the counters of every upload: refused in this order with nothing queued, or taken in and
      then sent out or without anybody to take it. */
  lemma ForwardAnswers(s: R.State, memb: R.Membership, maxFrame: nat, sender: H.MemberId, raw: Bytes)
    ensures var (s', res) := R.Forwarded(s, memb, maxFrame, sender, raw);
      var refused := s.(n := s.n.(denied := s.n.denied + 1));
      if sender !in memb then s' == refused && res == Err(R.NotAuthorized)
      else if F.Parsed(raw).Err? then s' == refused && res == Err(R.BadFrame)
      else
        var bytes := |F.Parsed(raw).value.payload|;
        var n := Accepted(s.n, bytes);
        if bytes > maxFrame then s' == refused && res == Err(R.TooLarge)
        else if res.Ok? then
          && res.value > 0
          && s'.n == n.(framesOut := n.framesOut + 1, bytesOut := n.bytesOut + bytes * res.value)
        else res == Err(R.TargetNotFound) && s'.n == n.(noTarget := n.noTarget + 1)
  {
    hide H.Deliver, H.Broadcast, F.Parsed, F.Encoded, R.Target, R.Each;
  }
}
