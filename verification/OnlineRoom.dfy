/** The methods of the hub (internal/member/hub.go) on a room's fields, each proved to be the step of
    module Hub that carries its name. */
module OnlineRooms {
  import opened Machine
  import opened Hub

  /** The connections once the members in `done` have had their share of a broadcast. */
  ghost function Partly(r: Room, exclude: MemberId, f: Frame, done: set<MemberId>): map<ConnRef, Conn>
  {
    map c | c in r.conns ::
      if Targeted(r, exclude, f, c) && r.conns[c].member in done then Sent(r.conns[c], f).0 else r.conns[c]
  }

  ghost function Reached(r: Room, exclude: MemberId, done: set<MemberId>): set<MemberId>
  {
    set m | m in done && Hears(r, exclude, m)
  }

  lemma OutletFits(r: Room, m: MemberId, f: Frame)
    requires Valid(r) && m in r.members
    ensures OnlineFits(r, m)
    ensures var c := BroadcastOutlet(OnlineOf(r, m), f);
      c != None ==> c.value in r.conns && r.conns[c.value].member == m
  {
    assert OnlineFits(r, m);
  }

  lemma PartlyNext(r: Room, exclude: MemberId, f: Frame, done: set<MemberId>, m: MemberId)
    requires Valid(r) && m in r.members && m !in done
    ensures IsOnline(r, m)
    ensures var c := BroadcastOutlet(OnlineOf(r, m), f);
      c != None ==> c.value in r.conns && c.value in Partly(r, exclude, f, done)
                    && Partly(r, exclude, f, done)[c.value] == r.conns[c.value]
    ensures var c := BroadcastOutlet(OnlineOf(r, m), f);
      Partly(r, exclude, f, done + {m})
      == if Hears(r, exclude, m) && c != None && c.value in r.conns
         then Partly(r, exclude, f, done)[c.value := Sent(r.conns[c.value], f).0]
         else Partly(r, exclude, f, done)
  {
    OutletFits(r, m, f);
    hide Valid, OnlineFits, Sent, BroadcastOutlet;
  }

  lemma ReachedNext(r: Room, exclude: MemberId, done: set<MemberId>, m: MemberId)
    requires m !in done
    ensures |Reached(r, exclude, done + {m})| == |Reached(r, exclude, done)| + if Hears(r, exclude, m) then 1 else 0
  {
    hide Hears;
    assert Reached(r, exclude, done + {m})
        == if Hears(r, exclude, m) then Reached(r, exclude, done) + {m} else Reached(r, exclude, done);
  }

  lemma EntersWell(r: Room, m: MemberId, id: ConnId, kind: Kind, index: u16, approved: bool)
    requires Valid(r)
    ensures Valid(Attach(r, m, id, kind, index, approved).0)
    ensures m in r.members ==> r.members[m] in r.people
    ensures IsOnline(Entered(r, m), m)
    ensures var s := Slot(OnlineOf(Entered(r, m), m), kind); s != None ==> s.value in r.conns
  {
    AttachKeepsValid(r, m, id, kind, index, approved);
    if m in r.members { assert OnlineFits(r, m); }
  }

  lemma KickNone(r: Room, reason: string)
    ensures Kick(r, None, reason) == r
  {
  }

  lemma PartlyAll(r: Room, exclude: MemberId, f: Frame)
    requires Valid(r)
    ensures Valid(Broadcast(r, exclude, f).0)
    ensures Partly(r, exclude, f, {}) == r.conns && |Reached(r, exclude, {})| == 0
    ensures Broadcast(r, exclude, f) == (r.(conns := Partly(r, exclude, f, r.members.Keys)),
                                         |Reached(r, exclude, r.members.Keys)|)
  {
    hide Valid, Sent, BroadcastOutlet;
    BroadcastOnlyTouchesConns(r, exclude, f);
    OnlyConnsKeepsValid(r, Broadcast(r, exclude, f).0);
    assert Reached(r, exclude, r.members.Keys) == set m | m in r.members && Hears(r, exclude, m);
    assert Partly(r, exclude, f, r.members.Keys) == Broadcast(r, exclude, f).0.conns;
  }

  class OnlineRoom {
    var members: map<MemberId, MemberRef>
    var byIndex: map<u16, MemberRef>
    var people: map<MemberRef, Online>
    var nextRef: MemberRef
    var conns: map<ConnRef, Conn>
    var nextConn: ConnRef
    ghost var attached: set<ConnRef>
    var hooks: seq<(MemberId, ConnId)>

    ghost function State(): Room
      reads this
    {
      Room(members, byIndex, people, nextRef, conns, nextConn, attached, hooks)
    }

    ghost predicate Valid()
      reads this
    {
      Hub.Valid(State())
    }

    constructor ()
      ensures State() == EMPTY && Valid()
    {
      members, byIndex, people, nextRef := map[], map[], map[], 0;
      conns, nextConn, attached, hooks := map[], 0, {}, [];
    }

    method KickConn(c: ConnRef, reason: string)
      requires c in conns
      modifies this`conns
      ensures State() == Kick(old(State()), Some(c), reason)
    {
      conns := conns[c := conns[c].(kickReason := reason)];
      if !conns[c].closed {
        conns := conns[c := conns[c].(closed := true)];
      }
      assert conns == old(conns)[c := Kicked(old(conns)[c], reason)];
    }

    method Send(c: ConnRef, f: Frame) returns (ok: bool)
      requires c in conns
      modifies this`conns
      ensures (State(), ok) == SendTo(old(State()), Some(c), f)
    {
      if |conns[c].out| < SEND_QUEUE {
        conns := conns[c := conns[c].(out := conns[c].out + [f])];
        return true;
      }
      conns := conns[c := conns[c].(dropped := conns[c].dropped + 1)];
      if conns[c].dropped >= SLOW_DROP_LIMIT {
        KickConn(c, "slow consumer");
        assert conns == old(conns)[c := Sent(old(conns)[c], f).0];
      }
      return false;
    }

    /** The member's entry, created if it has none. */
    method Enter(m: MemberId) returns (ref: MemberRef)
      requires m in members ==> members[m] in people
      modifies this`members, this`people, this`nextRef
      ensures State() == Entered(old(State()), m)
      ensures m in members && members[m] == ref && ref in people
    {
      if m !in members {
        members, people, nextRef :=
          members[m := nextRef], people[nextRef := Online(m, None, None, "", 0, false)], nextRef + 1;
      }
      return members[m];
    }

    /** Enters the new connection and the reported index; the slot's previous connection is handed back. */
    method Place(ref: MemberRef, c: ConnRef, id: ConnId, kind: Kind, index: u16, approved: bool)
      returns (replaced: Option<ConnRef>)
      requires ref in people
      modifies this`people, this`byIndex
      ensures replaced == Slot(old(people[ref]), kind)
      ensures people == old(people)[ref :=
        SetSlot(old(people[ref]), kind, Some(c)).(connId := id, index := index, approved := approved)]
      ensures byIndex == old(byIndex)[index := ref]
    {
      people := people[ref := people[ref].(connId := id, index := index, approved := approved)];
      byIndex := byIndex[index := ref];
      if kind == Control {
        replaced := people[ref].control;
        people := people[ref := people[ref].(control := Some(c))];
      } else {
        replaced := people[ref].relay;
        people := people[ref := people[ref].(relay := Some(c))];
      }
    }

    method Attach(m: MemberId, id: ConnId, kind: Kind, index: u16, approved: bool)
      returns (c: ConnRef, replaced: Option<ConnRef>)
      requires Valid()
      modifies this
      ensures Valid()
      ensures (State(), c, replaced) == Hub.Attach(old(State()), m, id, kind, index, approved)
    {
      ghost var was := State();
      hide Hub.Valid, Entered, Kick, Slot, SetSlot;
      EntersWell(was, m, id, kind, index, approved);
      var ref := Enter(m);
      c := nextConn;
      conns, nextConn, attached := conns[c := Conn(id, m, kind, [], 0, "", false)], nextConn + 1, attached + {c};
      replaced := Place(ref, c, id, kind, index, approved);
      ghost var placed := State();
      if replaced == None {
        KickNone(placed, "duplicate connection");
      } else {
        KickConn(replaced.value, "duplicate connection");
      }
    }

    method Detach(c: ConnRef)
      requires Valid() && c in conns
      modifies this
      ensures Valid() && State() == Hub.Detach(old(State()), c)
    {
      DetachKeepsValid(State(), c);
      if conns[c].member in members { assert OnlineFits(State(), conns[c].member); }
      hide Hub.Valid;
      attached := attached - {c};
      var m := conns[c].member;
      if m in members {
        var ref := members[m];
        if conns[c].kind == Control {
          if people[ref].control == Some(c) { people := people[ref := people[ref].(control := None)]; }
        } else {
          if people[ref].relay == Some(c) { people := people[ref := people[ref].(relay := None)]; }
        }
        assert people == old(people)[ref := people[ref]];
        if people[ref].control == None && people[ref].relay == None {
          byIndex := byIndex - {people[ref].index};
          members := members - {m};
          hooks := hooks + [(m, conns[c].id)];
        }
      }
    }

    method Deliver(m: MemberId, f: Frame) returns (ok: bool)
      requires Valid()
      modifies this`conns
      ensures Valid() && (State(), ok) == Hub.Deliver(old(State()), m, f)
    {
      ghost var was := State();
      DeliverOnlyTouchesConns(was, m, f);
      OnlyConnsKeepsValid(was, Hub.Deliver(was, m, f).0);
      if m !in members { return false; }
      assert OnlineFits(was, m);
      hide Hub.Valid;
      var om := people[members[m]];
      ok := false;
      if f.Binary? {
        if om.relay != None { ok := Send(om.relay.value, f); }
        else if om.control != None { ok := Send(om.control.value, f); }
        return;
      }
      if om.control != None { ok := Send(om.control.value, f); }
      else if om.relay != None { ok := Send(om.relay.value, f); }
    }

    /** One turn of the broadcast: whether the member counts as reached, and what its connection got. */
    method Offer(ghost was: Room, exclude: MemberId, f: Frame, m: MemberId) returns (heard: bool)
      requires m in members && members[m] in people && State() == was.(conns := conns)
      requires var c := BroadcastOutlet(OnlineOf(was, m), f);
        c != None ==> c.value in conns && c.value in was.conns && conns[c.value] == was.conns[c.value]
      modifies this`conns
      ensures heard <==> Hears(was, exclude, m)
      ensures var c := BroadcastOutlet(OnlineOf(was, m), f);
        conns == if heard && c != None then old(conns)[c.value := Sent(was.conns[c.value], f).0] else old(conns)
    {
      var om := people[members[m]];
      if m == exclude || !om.approved { return false; }
      if f.Binary? {
        if om.relay != None { var _ := Send(om.relay.value, f); }
        else if om.control != None { var _ := Send(om.control.value, f); }
      } else if om.control != None { var _ := Send(om.control.value, f); }
      return true;
    }

    method Broadcast(exclude: MemberId, f: Frame) returns (n: nat)
      requires Valid()
      modifies this`conns
      ensures Valid() && (State(), n) == Hub.Broadcast(old(State()), exclude, f)
    {
      ghost var was := State();
      hide Hub.Valid, Partly, Reached, Hub.Broadcast, SendTo, Hears, BroadcastOutlet, Sent;
      PartlyAll(was, exclude, f);
      n := 0;
      var snapshot := members.Keys;
      assert members.Keys - snapshot == {};
      while snapshot != {}
        invariant snapshot <= members.Keys
        invariant conns == Partly(was, exclude, f, members.Keys - snapshot)
        invariant n == |Reached(was, exclude, members.Keys - snapshot)|
      {
        var m :| m in snapshot;
        ghost var done := members.Keys - snapshot;
        PartlyNext(was, exclude, f, done, m);
        ReachedNext(was, exclude, done, m);
        assert done + {m} == members.Keys - (snapshot - {m});
        var heard := Offer(was, exclude, f, m);
        if heard { n := n + 1; }
        snapshot := snapshot - {m};
      }
      assert members.Keys - snapshot == members.Keys;
    }

    method LookupMemberByIndex(index: u16) returns (found: Option<MemberId>)
      ensures found == Hub.LookupMemberByIndex(State(), index)
    {
      if index !in byIndex || byIndex[index] !in people || !people[byIndex[index]].approved { return None; }
      return Some(people[byIndex[index]].member);
    }

    method MakeApproved(m: MemberId, index: u16) returns (ok: bool)
      requires Valid()
      modifies this
      ensures Valid() && (State(), ok) == Hub.MakeApproved(old(State()), m, index)
    {
      ApprovalKeepsValid(State(), m, index, true);
      if m !in members { return false; }
      assert OnlineFits(State(), m);
      hide Hub.Valid;
      var ref := members[m];
      if people[ref].index in byIndex && byIndex[people[ref].index] == ref && people[ref].index != index {
        byIndex := byIndex - {people[ref].index};
      }
      people := people[ref := people[ref].(index := index, approved := true)];
      byIndex := byIndex[index := ref];
      return true;
    }

    method SetApproved(m: MemberId, approved: bool) returns (ok: bool)
      requires Valid()
      modifies this`people
      ensures Valid() && (State(), ok) == Hub.SetApproved(old(State()), m, approved)
    {
      ApprovalKeepsValid(State(), m, 0, approved);
      if m !in members { return false; }
      assert OnlineFits(State(), m);
      people := people[members[m] := people[members[m]].(approved := approved)];
      return true;
    }

    method CloseMember(m: MemberId, reason: string)
      requires Valid()
      modifies this`conns
      ensures Valid() && State() == Hub.CloseMember(old(State()), m, reason)
    {
      ghost var was := State();
      CloseMemberOnlyTouchesConns(was, m, reason);
      OnlyConnsKeepsValid(was, Hub.CloseMember(was, m, reason));
      if m !in members { return; }
      assert OnlineFits(was, m);
      hide Hub.Valid;
      var om := people[members[m]];
      if om.control != None { KickConn(om.control.value, reason); }
      if om.relay != None { KickConn(om.relay.value, reason); }
    }
  }
}
