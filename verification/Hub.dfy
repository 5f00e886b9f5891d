/** The online connections of one session: at most one current connection per member and kind, and the
    table from data-plane index to member (internal/member/hub.go, Room and the Hub methods on it).
    Connections and online members are compared by identity in the source, so they are handles into an
    arena here; a handle is never reused. A room the hub has not created yet is an empty room. */
module Hub {
  import opened Machine

  const SEND_QUEUE: nat := 256
  const SLOW_DROP_LIMIT: nat := 64

  type MemberId = string
  type ConnId = string
  type ConnRef = nat
  type MemberRef = nat

  datatype Kind = Control | Relay

  datatype Frame = Text(text: Bytes) | Binary(binary: Bytes)

  datatype Conn = Conn(
    id: ConnId, member: MemberId, kind: Kind,
    out: seq<Frame>, dropped: nat, kickReason: string, closed: bool)

  datatype Online = Online(
    member: MemberId, control: Option<ConnRef>, relay: Option<ConnRef>,
    connId: ConnId, index: u16, approved: bool)

  /** `attached` holds the connections attached and not yet detached; `hooks` every offline callback. */
  datatype Room = Room(
    members: map<MemberId, MemberRef>, byIndex: map<u16, MemberRef>, people: map<MemberRef, Online>,
    nextRef: MemberRef, conns: map<ConnRef, Conn>, nextConn: ConnRef,
    attached: set<ConnRef>, hooks: seq<(MemberId, ConnId)>)

  const EMPTY := Room(map[], map[], map[], 0, map[], 0, {}, [])

  // ---- Connections -----------------------------------------------------------------

  function Kicked(c: Conn, reason: string): Conn
  {
    c.(kickReason := reason, closed := true)
  }

  /** A non-blocking send; the SLOW_DROP_LIMIT-th dropped frame closes the connection. */
  function Sent(c: Conn, f: Frame): (Conn, bool)
  {
    if |c.out| < SEND_QUEUE then (c.(out := c.out + [f]), true)
    else
      var d := c.(dropped := c.dropped + 1);
      (if d.dropped >= SLOW_DROP_LIMIT then Kicked(d, "slow consumer") else d, false)
  }

  function Kick(r: Room, c: Option<ConnRef>, reason: string): Room
  {
    if c != None && c.value in r.conns then r.(conns := r.conns[c.value := Kicked(r.conns[c.value], reason)]) else r
  }

  function SendTo(r: Room, c: Option<ConnRef>, f: Frame): (Room, bool)
  {
    if c != None && c.value in r.conns then
      var (conn, ok) := Sent(r.conns[c.value], f);
      (r.(conns := r.conns[c.value := conn]), ok)
    else (r, false)
  }

  // ---- Rooms -----------------------------------------------------------------------

  function Slot(om: Online, kind: Kind): Option<ConnRef>
  {
    if kind == Control then om.control else om.relay
  }

  function SetSlot(om: Online, kind: Kind, c: Option<ConnRef>): Online
  {
    if kind == Control then om.(control := c) else om.(relay := c)
  }

  predicate IsOnline(r: Room, m: MemberId)
  {
    m in r.members && r.members[m] in r.people
  }

  function OnlineOf(r: Room, m: MemberId): Online
    requires IsOnline(r, m)
  {
    r.people[r.members[m]]
  }

  function SetOnline(r: Room, m: MemberId, om: Online): Room
    requires IsOnline(r, m)
  {
    r.(people := r.people[r.members[m] := om])
  }

  /** The member's entry, created if it has none. */
  function Entered(r: Room, m: MemberId): Room
  {
    if IsOnline(r, m) then r
    else r.(members := r.members[m := r.nextRef],
            people := r.people[r.nextRef := Online(m, None, None, "", 0, false)],
            nextRef := r.nextRef + 1)
  }

  /** The new state, the new connection, and the one it replaced. */
  function Attach(r: Room, m: MemberId, id: ConnId, kind: Kind, index: u16, approved: bool)
    : (Room, ConnRef, Option<ConnRef>)
  {
    var e, c := Entered(r, m), r.nextConn;
    var om := OnlineOf(e, m);
    var placed := SetOnline(e, m, SetSlot(om, kind, Some(c)).(connId := id, index := index, approved := approved));
    var added := placed.(byIndex := placed.byIndex[index := placed.members[m]],
                         conns := placed.conns[c := Conn(id, m, kind, [], 0, "", false)],
                         nextConn := c + 1, attached := placed.attached + {c});
    (Kick(added, Slot(om, kind), "duplicate connection"), c, Slot(om, kind))
  }

  /** Only the current connection vacates its slot; the last one takes the member with it. */
  function Detach(r: Room, c: ConnRef): Room
    requires c in r.conns
  {
    var conn, gone := r.conns[c], r.(attached := r.attached - {c});
    if !IsOnline(r, conn.member) then gone
    else
      var om := OnlineOf(r, conn.member);
      var om' := if Slot(om, conn.kind) == Some(c) then SetSlot(om, conn.kind, None) else om;
      var left := SetOnline(gone, conn.member, om');
      if om'.control == None && om'.relay == None then
        left.(members := left.members - {conn.member}, byIndex := left.byIndex - {om.index},
              hooks := left.hooks + [(conn.member, conn.id)])
      else left
  }

  /** Binary frames prefer the relay connection, text frames the control connection. */
  function Outlet(om: Online, f: Frame): Option<ConnRef>
  {
    if f.Binary? then (if om.relay != None then om.relay else om.control)
    else (if om.control != None then om.control else om.relay)
  }

  function Deliver(r: Room, m: MemberId, f: Frame): (Room, bool)
  {
    if IsOnline(r, m) then SendTo(r, Outlet(OnlineOf(r, m), f), f) else (r, false)
  }

  function LookupMemberByIndex(r: Room, index: u16): Option<MemberId>
  {
    if index in r.byIndex && r.byIndex[index] in r.people && r.people[r.byIndex[index]].approved
    then Some(r.people[r.byIndex[index]].member) else None
  }

  function MakeApproved(r: Room, m: MemberId, index: u16): (Room, bool)
  {
    if !IsOnline(r, m) then (r, false)
    else
      var om := OnlineOf(r, m);
      var freed := if om.index in r.byIndex && r.byIndex[om.index] == r.members[m] && om.index != index
        then r.byIndex - {om.index} else r.byIndex;
      (SetOnline(r, m, om.(index := index, approved := true)).(byIndex := freed[index := r.members[m]]), true)
  }

  function SetApproved(r: Room, m: MemberId, approved: bool): (Room, bool)
  {
    if !IsOnline(r, m) then (r, false)
    else (SetOnline(r, m, OnlineOf(r, m).(approved := approved)), true)
  }

  function CloseMember(r: Room, m: MemberId, reason: string): Room
  {
    if !IsOnline(r, m) then r
    else Kick(Kick(r, OnlineOf(r, m).control, reason), OnlineOf(r, m).relay, reason)
  }

  /** A broadcast reaches the approved members but one; text goes over control only. */
  predicate Hears(r: Room, exclude: MemberId, m: MemberId)
  {
    IsOnline(r, m) && m != exclude && OnlineOf(r, m).approved
  }

  function BroadcastOutlet(om: Online, f: Frame): Option<ConnRef>
  {
    if f.Binary? then Outlet(om, f) else om.control
  }

  predicate Targeted(r: Room, exclude: MemberId, f: Frame, c: ConnRef)
    requires c in r.conns
  {
    var m := r.conns[c].member;
    Hears(r, exclude, m) && BroadcastOutlet(OnlineOf(r, m), f) == Some(c)
  }

  /** The new state and how many members count as reached. */
  function Broadcast(r: Room, exclude: MemberId, f: Frame): (Room, nat)
  {
    var conns := map c | c in r.conns :: if Targeted(r, exclude, f, c) then Sent(r.conns[c], f).0 else r.conns[c];
    (r.(conns := conns), |set m | m in r.members && Hears(r, exclude, m)|)
  }

  // ---- What every step keeps ---------------------------------------------------------

  ghost predicate SlotFits(r: Room, m: MemberId, kind: Kind, slot: Option<ConnRef>)
  {
    slot != None ==>
      var c := slot.value;
      c in r.attached && c in r.conns && r.conns[c].member == m && r.conns[c].kind == kind
  }

  ghost predicate OnlineFits(r: Room, m: MemberId)
  {
    IsOnline(r, m) &&
    var om := OnlineOf(r, m);
    && om.member == m && (om.control != None || om.relay != None)
    && SlotFits(r, m, Control, om.control) && SlotFits(r, m, Relay, om.relay)
  }

  /** An attached connection that nobody kicked is its member's current one of its kind. */
  ghost predicate Current(r: Room, c: ConnRef)
    requires c in r.conns
  {
    IsOnline(r, r.conns[c].member) && Slot(OnlineOf(r, r.conns[c].member), r.conns[c].kind) == Some(c)
  }

  ghost predicate Valid(r: Room)
  {
    && (forall m :: m in r.members ==> OnlineFits(r, m))
    && (forall ref :: ref in r.people ==> ref < r.nextRef)
    && (forall c :: c in r.conns ==> c < r.nextConn)
    && r.attached <= r.conns.Keys
    && (forall c :: c in r.attached && !r.conns[c].closed ==> Current(r, c))
  }

  /** At most one attached, un-kicked connection per member and kind. */
  lemma AtMostOneCurrent(r: Room, c: ConnRef, d: ConnRef)
    requires Valid(r) && c in r.attached && d in r.attached
    requires !r.conns[c].closed && !r.conns[d].closed
    requires r.conns[c].member == r.conns[d].member && r.conns[c].kind == r.conns[d].kind
    ensures c == d
  {
    assert Current(r, c) && Current(r, d);
  }

  lemma AttachFits(r: Room, m: MemberId, id: ConnId, kind: Kind, index: u16, approved: bool, o: MemberId)
    requires Valid(r)
    requires var r' := Attach(r, m, id, kind, index, approved).0; o in r'.members
    ensures OnlineFits(Attach(r, m, id, kind, index, approved).0, o)
  {
    if m in r.members { assert OnlineFits(r, m); }
    if o != m { assert OnlineFits(r, o); }
  }

  lemma AttachCurrent(r: Room, m: MemberId, id: ConnId, kind: Kind, index: u16, approved: bool, k: ConnRef)
    requires Valid(r)
    requires var r' := Attach(r, m, id, kind, index, approved).0; k in r'.attached && k in r'.conns && !r'.conns[k].closed
    ensures Current(Attach(r, m, id, kind, index, approved).0, k)
  {
    if m in r.members { assert OnlineFits(r, m); }
    if k != r.nextConn {
      assert Current(r, k);
      assert OnlineFits(r, r.conns[k].member);
    }
  }

  /** The replaced connection is closed, so the new one is the member's only current one of its kind. */
  lemma AttachKeepsValid(r: Room, m: MemberId, id: ConnId, kind: Kind, index: u16, approved: bool)
    requires Valid(r)
    ensures var (r', c, replaced) := Attach(r, m, id, kind, index, approved);
      && Valid(r') && c !in r.conns && c in r'.attached && Current(r', c) && r'.conns[c].member == m
      && (replaced != None ==> replaced.value in r.conns && r'.conns[replaced.value].closed)
  {
    var (r', c, replaced) := Attach(r, m, id, kind, index, approved);
    if m in r.members { assert OnlineFits(r, m); }
    forall o | o in r'.members ensures OnlineFits(r', o) { AttachFits(r, m, id, kind, index, approved, o); }
    forall k | k in r'.attached && !r'.conns[k].closed ensures Current(r', k) {
      AttachCurrent(r, m, id, kind, index, approved, k);
    }
    hide OnlineFits;
  }

  lemma DetachFits(r: Room, c: ConnRef, o: MemberId)
    requires Valid(r) && c in r.conns && o in Detach(r, c).members
    ensures OnlineFits(Detach(r, c), o)
  {
    assert OnlineFits(r, o);
    hide Valid;
  }

  lemma DetachCurrent(r: Room, c: ConnRef, k: ConnRef)
    requires Valid(r) && c in r.conns
    requires k in r.attached && k != c && !r.conns[k].closed
    ensures Current(Detach(r, c), k)
  {
    assert Current(r, k);
    assert OnlineFits(r, r.conns[k].member);
  }

  lemma DetachKeepsValid(r: Room, c: ConnRef)
    requires Valid(r) && c in r.conns
    ensures Valid(Detach(r, c))
  {
    var r' := Detach(r, c);
    forall o | o in r'.members ensures OnlineFits(r', o) { DetachFits(r, c, o); }
    forall k | k in r'.attached && !r'.conns[k].closed ensures Current(r', k) { DetachCurrent(r, c, k); }
    hide OnlineFits;
  }

  /** Steps that only touch connections: same owners, nothing reopened. */
  ghost predicate OnlyConns(r: Room, r': Room)
  {
    && r' == r.(conns := r'.conns) && r'.conns.Keys == r.conns.Keys
    && forall c :: c in r.conns ==>
         r'.conns[c].member == r.conns[c].member && r'.conns[c].kind == r.conns[c].kind
         && r'.conns[c].id == r.conns[c].id && (r.conns[c].closed ==> r'.conns[c].closed)
  }

  lemma OnlyConnsKeepsValid(r: Room, r': Room)
    requires Valid(r) && OnlyConns(r, r')
    ensures Valid(r')
  {
    forall o | o in r'.members ensures OnlineFits(r', o) { assert OnlineFits(r, o); }
    forall k | k in r'.attached && !r'.conns[k].closed ensures Current(r', k) { assert Current(r, k); }
  }

  lemma DeliverOnlyTouchesConns(r: Room, m: MemberId, f: Frame)
    ensures OnlyConns(r, Deliver(r, m, f).0)
  {
  }

  lemma BroadcastOnlyTouchesConns(r: Room, exclude: MemberId, f: Frame)
    ensures OnlyConns(r, Broadcast(r, exclude, f).0)
  {
    hide Targeted;
  }

  lemma KickOnlyTouchesConns(r: Room, c: Option<ConnRef>, reason: string)
    ensures OnlyConns(r, Kick(r, c, reason))
  {
  }

  lemma CloseMemberOnlyTouchesConns(r: Room, m: MemberId, reason: string)
    ensures OnlyConns(r, CloseMember(r, m, reason))
  {
    hide Kick;
    if IsOnline(r, m) {
      var om := OnlineOf(r, m);
      KickOnlyTouchesConns(r, om.control, reason);
      KickOnlyTouchesConns(Kick(r, om.control, reason), om.relay, reason);
    }
  }

  lemma ApprovalKeepsValid(r: Room, m: MemberId, index: u16, approved: bool)
    requires Valid(r)
    ensures Valid(MakeApproved(r, m, index).0) && Valid(SetApproved(r, m, approved).0)
  {
    var p, q := MakeApproved(r, m, index).0, SetApproved(r, m, approved).0;
    forall o | o in r.members ensures OnlineFits(p, o) && OnlineFits(q, o) {
      assert OnlineFits(r, o);
      if m in r.members { assert OnlineFits(r, m); }
    }
    forall k | k in r.attached && !r.conns[k].closed ensures Current(p, k) && Current(q, k) { assert Current(r, k); }
  }

  // ---- The index table -----------------------------------------------------------------

  ghost predicate ListedAt(r: Room, m: MemberId)
  {
    IsOnline(r, m) && OnlineOf(r, m).index in r.byIndex && r.byIndex[OnlineOf(r, m).index] == r.members[m]
  }

  ghost predicate BackedAt(r: Room, i: u16)
    requires i in r.byIndex
  {
    var ref := r.byIndex[i];
    ref in r.people && r.people[ref].index == i
    && r.people[ref].member in r.members && r.members[r.people[ref].member] == ref
  }

  /** `members` and `byIndex` are inverse to each other through the members' own indices. */
  ghost predicate Inverse(r: Room)
  {
    (forall m :: m in r.members ==> ListedAt(r, m)) && (forall i :: i in r.byIndex ==> BackedAt(r, i))
  }

  /** What the caller must respect: an index belongs to one member at a time, and a member online keeps its own. */
  predicate IndexIsOwn(r: Room, m: MemberId, index: u16)
  {
    && (forall o :: o in r.members && IsOnline(r, o) && OnlineOf(r, o).index == index ==> o == m)
    && (IsOnline(r, m) ==> OnlineOf(r, m).index == index)
  }

  predicate IndexIsFree(r: Room, m: MemberId, index: u16)
  {
    forall o :: o in r.members && IsOnline(r, o) && OnlineOf(r, o).index == index ==> o == m
  }

  lemma AttachWithOwnIndex(r: Room, m: MemberId, id: ConnId, kind: Kind, index: u16, approved: bool)
    requires Valid(r) && Inverse(r) && IndexIsOwn(r, m, index)
    ensures Inverse(Attach(r, m, id, kind, index, approved).0)
  {
    Owners(r);
    var r' := Attach(r, m, id, kind, index, approved).0;
    forall o | o in r'.members ensures ListedAt(r', o) {
      AttachLists(r, m, id, kind, index, approved, o);
    }
    forall i | i in r'.byIndex ensures BackedAt(r', i) {
      AttachBacks(r, m, id, kind, index, approved, i);
    }
  }

  /** What an attach does to the tables. */
  lemma AttachEffect(r: Room, m: MemberId, id: ConnId, kind: Kind, index: u16, approved: bool) returns (ref: MemberRef)
    requires Valid(r)
    ensures ref == if m in r.members then r.members[m] else r.nextRef
    ensures var r' := Attach(r, m, id, kind, index, approved).0;
      && r'.members == r.members[m := ref] && r'.byIndex == r.byIndex[index := ref]
      && ref in r'.people && r'.people[ref].member == m && r'.people[ref].index == index
      && (forall k :: k in r.people && k != ref ==> k in r'.people && r'.people[k] == r.people[k])
  {
    hide Valid, OnlineFits;
    Owners(r);
    ref := if m in r.members then r.members[m] else r.nextRef;
  }

  lemma AttachLists(r: Room, m: MemberId, id: ConnId, kind: Kind, index: u16, approved: bool, o: MemberId)
    requires Valid(r) && Inverse(r) && IndexIsOwn(r, m, index)
    requires o in Attach(r, m, id, kind, index, approved).0.members
    ensures ListedAt(Attach(r, m, id, kind, index, approved).0, o)
  {
    hide Valid, OnlineFits, BackedAt, Attach;
    Owners(r);
    var ref := AttachEffect(r, m, id, kind, index, approved);
    if o != m { assert ListedAt(r, o); }
  }

  lemma AttachBacks(r: Room, m: MemberId, id: ConnId, kind: Kind, index: u16, approved: bool, i: u16)
    requires Valid(r) && Inverse(r) && IndexIsOwn(r, m, index)
    requires i in Attach(r, m, id, kind, index, approved).0.byIndex
    ensures BackedAt(Attach(r, m, id, kind, index, approved).0, i)
  {
    hide Valid, OnlineFits, Attach;
    Owners(r);
    if m in r.members { assert ListedAt(r, m); }
    var ref := AttachEffect(r, m, id, kind, index, approved);
    if i != index { assert BackedAt(r, i); }
    hide Inverse;
  }

  lemma AttachWithForeignIndex(r: Room, m: MemberId, id: ConnId, kind: Kind, index: u16, approved: bool)
    requires Valid(r) && Inverse(r) && !IndexIsOwn(r, m, index)
    ensures !Inverse(Attach(r, m, id, kind, index, approved).0)
  {
    hide Valid, OnlineFits, Attach;
    Owners(r);
    var r' := Attach(r, m, id, kind, index, approved).0;
    var ref := AttachEffect(r, m, id, kind, index, approved);
    if o :| o in r.members && OnlineOf(r, o).index == index && o != m {
      assert !ListedAt(r', o);
      assert o in r'.members;
    } else {
      var was := OnlineOf(r, m).index;
      assert ListedAt(r, m);
      assert was in r'.byIndex && r'.byIndex[was] == ref;
      assert !BackedAt(r', was);
    }
  }

  lemma Owners(r: Room)
    requires Valid(r)
    ensures forall o :: o in r.members ==> IsOnline(r, o) && OnlineOf(r, o).member == o
    ensures forall ref :: ref in r.people ==> ref < r.nextRef
  {
    forall o | o in r.members ensures IsOnline(r, o) && OnlineOf(r, o).member == o { assert OnlineFits(r, o); }
  }

  /** Attach keeps the table exact if and only if the index is the member's own. */
  lemma AttachKeepsInverse(r: Room, m: MemberId, id: ConnId, kind: Kind, index: u16, approved: bool)
    requires Valid(r) && Inverse(r)
    ensures Inverse(Attach(r, m, id, kind, index, approved).0) <==> IndexIsOwn(r, m, index)
  {
    hide *;
    if IndexIsOwn(r, m, index) {
      AttachWithOwnIndex(r, m, id, kind, index, approved);
    } else {
      AttachWithForeignIndex(r, m, id, kind, index, approved);
    }
  }

  /** MakeApproved releases the old index first, so the new one only has to be free. */
  lemma MakeApprovedKeepsInverse(r: Room, m: MemberId, index: u16)
    requires Valid(r) && Inverse(r) && IsOnline(r, m)
    ensures Inverse(MakeApproved(r, m, index).0) <==> IndexIsFree(r, m, index)
  {
    hide Valid, OnlineFits;
    Owners(r);
    var r' := MakeApproved(r, m, index).0;
    assert ListedAt(r, m);
    if IndexIsFree(r, m, index) {
      forall o | o in r'.members ensures ListedAt(r', o) { assert ListedAt(r, o); }
      forall i | i in r'.byIndex ensures BackedAt(r', i) { if i != index { assert BackedAt(r, i); } }
    }
    if !IndexIsFree(r, m, index) {
      var o :| o in r.members && OnlineOf(r, o).index == index && o != m;
      assert o in r'.members && OnlineOf(r', o).index == index && r'.byIndex[index] == r'.members[m];
      assert !ListedAt(r', o);
      assert OnlineOf(r', m).member == m && OnlineOf(r', o).member == o;
    }
  }

  /** What a detach does to the tables: nothing, or the member and its index go. */
  lemma DetachEffect(r: Room, c: ConnRef)
    requires c in r.conns
    ensures var r', m := Detach(r, c), r.conns[c].member;
      && (if r'.members == r.members then r'.byIndex == r.byIndex
          else IsOnline(r, m) && r'.members == r.members - {m} && r'.byIndex == r.byIndex - {OnlineOf(r, m).index})
      && r'.people.Keys == r.people.Keys
      && (forall k :: k in r.people ==> r'.people[k].index == r.people[k].index && r'.people[k].member == r.people[k].member)
  {
    var m := r.conns[c].member;
    if IsOnline(r, m) { assert m in r.members && m !in r.members - {m}; }
  }

  lemma DetachLists(r: Room, c: ConnRef, o: MemberId)
    requires Valid(r) && Inverse(r) && c in r.conns && o in Detach(r, c).members
    ensures ListedAt(Detach(r, c), o)
  {
    hide Valid, OnlineFits, BackedAt, Detach;
    Owners(r);
    DetachEffect(r, c);
    assert ListedAt(r, o);
    if r.conns[c].member in r.members { assert ListedAt(r, r.conns[c].member); }
    hide Inverse;
  }

  lemma DetachBacks(r: Room, c: ConnRef, i: u16)
    requires Valid(r) && Inverse(r) && c in r.conns && i in Detach(r, c).byIndex
    ensures BackedAt(Detach(r, c), i)
  {
    hide Valid, OnlineFits, ListedAt, Detach;
    Owners(r);
    DetachEffect(r, c);
    assert BackedAt(r, i);
  }

  lemma DetachKeepsInverse(r: Room, c: ConnRef)
    requires Valid(r) && Inverse(r) && c in r.conns
    ensures Inverse(Detach(r, c))
  {
    var r' := Detach(r, c);
    forall o | o in r'.members ensures ListedAt(r', o) { DetachLists(r, c, o); }
    forall i | i in r'.byIndex ensures BackedAt(r', i) { DetachBacks(r, c, i); }
    hide ListedAt, BackedAt;
  }

  // ---- Detaching -------------------------------------------------------------------------

  /** A stale or repeated detach changes nothing but the connection's own bookkeeping. */
  lemma StaleDetachIsHarmless(r: Room, c: ConnRef)
    requires Valid(r) && c in r.conns && !Current(r, c)
    ensures Detach(r, c) == r.(attached := r.attached - {c})
  {
    var m := r.conns[c].member;
    if IsOnline(r, m) {
      assert OnlineFits(r, m);
      assert r.people[r.members[m] := OnlineOf(r, m)] == r.people;
    }
  }

  /** The offline callback fires exactly when a detach takes the member from online to offline, once,
      and carries the connection that left last. */
  lemma HookFiresOnTransition(r: Room, c: ConnRef)
    requires Valid(r) && c in r.conns
    ensures var r', m := Detach(r, c), r.conns[c].member;
      r'.hooks == r.hooks + if IsOnline(r, m) && !IsOnline(r', m) then [(m, r.conns[c].id)] else []
    ensures forall o :: o in r.members && o != r.conns[c].member ==> IsOnline(Detach(r, c), o)
  {
    forall o | o in r.members ensures OnlineFits(r, o) {}
    if IsOnline(r, r.conns[c].member) { assert OnlineFits(r, r.conns[c].member); }
  }

  // ---- Runs --------------------------------------------------------------------------------

  datatype Event =
    | Attaches(m: MemberId, id: ConnId, kind: Kind, index: u16, approved: bool)
    | Detaches(c: ConnRef)
    | Closes(m: MemberId, reason: string)
    | Delivers(m: MemberId, f: Frame)
    | Broadcasts(exclude: MemberId, f: Frame)
    | Approves(m: MemberId, index: u16)
    | SetsApproved(m: MemberId, approved: bool)

  function Step(r: Room, e: Event): Room
  {
    match e
    case Attaches(m, id, kind, index, approved) => Attach(r, m, id, kind, index, approved).0
    case Detaches(c) => if c in r.conns then Detach(r, c) else r
    case Closes(m, reason) => CloseMember(r, m, reason)
    case Delivers(m, f) => Deliver(r, m, f).0
    case Broadcasts(exclude, f) => Broadcast(r, exclude, f).0
    case Approves(m, index) => MakeApproved(r, m, index).0
    case SetsApproved(m, approved) => SetApproved(r, m, approved).0
  }

  function Exec(run: seq<Event>): Room
  {
    if run == [] then EMPTY else Step(Exec(run[..|run| - 1]), run[|run| - 1])
  }

  /** Indices are handed in as the session store hands them out. */
  predicate OwnIndices(run: seq<Event>)
  {
    run == [] ||
    var init, e := run[..|run| - 1], run[|run| - 1];
    OwnIndices(init)
    && (e.Attaches? ==> IndexIsOwn(Exec(init), e.m, e.index))
    && (e.Approves? ==> IndexIsFree(Exec(init), e.m, e.index))
  }

  lemma StepKeepsValid(r: Room, e: Event)
    requires Valid(r)
    ensures Valid(Step(r, e))
  {
    match e
    case Attaches(m, id, kind, index, approved) => AttachKeepsValid(r, m, id, kind, index, approved);
    case Detaches(c) => if c in r.conns { DetachKeepsValid(r, c); }
    case Closes(m, reason) =>
      CloseMemberOnlyTouchesConns(r, m, reason);
      OnlyConnsKeepsValid(r, CloseMember(r, m, reason));
    case Delivers(m, f) =>
      DeliverOnlyTouchesConns(r, m, f);
      OnlyConnsKeepsValid(r, Deliver(r, m, f).0);
    case Broadcasts(exclude, f) =>
      BroadcastOnlyTouchesConns(r, exclude, f);
      OnlyConnsKeepsValid(r, Broadcast(r, exclude, f).0);
    case Approves(m, index) => ApprovalKeepsValid(r, m, index, true);
    case SetsApproved(m, approved) => ApprovalKeepsValid(r, m, 0, approved);
  }

  lemma {:induction false} RunsStayValid(run: seq<Event>)
    ensures Valid(Exec(run))
    decreases |run|
  {
    if run != [] {
      RunsStayValid(run[..|run| - 1]);
      StepKeepsValid(Exec(run[..|run| - 1]), run[|run| - 1]);
    }
  }

  lemma StepKeepsInverse(r: Room, e: Event)
    requires Valid(r) && Inverse(r)
    requires e.Attaches? ==> IndexIsOwn(r, e.m, e.index)
    requires e.Approves? ==> IndexIsFree(r, e.m, e.index)
    ensures Inverse(Step(r, e))
  {
    match e
    case Attaches(m, id, kind, index, approved) => AttachKeepsInverse(r, m, id, kind, index, approved);
    case Detaches(c) => if c in r.conns { DetachKeepsInverse(r, c); }
    case Closes(m, reason) =>
      CloseMemberOnlyTouchesConns(r, m, reason);
      OnlyConnsKeepsInverse(r, CloseMember(r, m, reason));
    case Delivers(m, f) =>
      DeliverOnlyTouchesConns(r, m, f);
      OnlyConnsKeepsInverse(r, Deliver(r, m, f).0);
    case Broadcasts(exclude, f) =>
      BroadcastOnlyTouchesConns(r, exclude, f);
      OnlyConnsKeepsInverse(r, Broadcast(r, exclude, f).0);
    case Approves(m, index) => if IsOnline(r, m) { MakeApprovedKeepsInverse(r, m, index); }
    case SetsApproved(m, approved) => SetApprovedKeepsInverse(r, m, approved);
  }

  lemma OnlyConnsKeepsInverse(r: Room, r': Room)
    requires Inverse(r) && OnlyConns(r, r')
    ensures Inverse(r')
  {
    forall m | m in r'.members ensures ListedAt(r', m) { assert ListedAt(r, m); }
    forall i | i in r'.byIndex ensures BackedAt(r', i) { assert BackedAt(r, i); }
  }

  lemma SetApprovedKeepsInverse(r: Room, m: MemberId, approved: bool)
    requires Inverse(r)
    ensures Inverse(SetApproved(r, m, approved).0)
  {
    var r' := SetApproved(r, m, approved).0;
    forall o | o in r'.members ensures ListedAt(r', o) { assert ListedAt(r, o); }
    forall i | i in r'.byIndex ensures BackedAt(r', i) { assert BackedAt(r, i); }
  }

  /** With indices owned, lookup by index and the member list agree at every moment of every run. */
  lemma {:induction false} RunsKeepTheTable(run: seq<Event>)
    requires OwnIndices(run)
    ensures Inverse(Exec(run))
    decreases |run|
  {
    if run != [] {
      RunsStayValid(run[..|run| - 1]);
      RunsKeepTheTable(run[..|run| - 1]);
      StepKeepsInverse(Exec(run[..|run| - 1]), run[|run| - 1]);
    }
  }

  lemma {:induction false} LookupIsExact(run: seq<Event>, index: u16, m: MemberId)
    requires OwnIndices(run)
    ensures var r := Exec(run);
      LookupMemberByIndex(r, index) == Some(m)
      <==> (m in r.members && IsOnline(r, m) && OnlineOf(r, m).index == index && OnlineOf(r, m).approved)
  {
    RunsStayValid(run);
    RunsKeepTheTable(run);
    var r := Exec(run);
    if m in r.members { assert OnlineFits(r, m); assert ListedAt(r, m); }
    if index in r.byIndex { assert BackedAt(r, index); }
  }

  function IndexReused(): seq<Event>
  {
    [Attaches("a", "c1", Control, 1, true)] + [Attaches("b", "c2", Control, 1, true)] + [Detaches(0)]
  }

  lemma SecondTakesTheIndex()
    ensures var r1 := Attach(EMPTY, "a", "c1", Control, 1, true).0;
      var r2 := Attach(r1, "b", "c2", Control, 1, true).0;
      && 0 in r2.conns && r2.conns[0].member == "a" && r2.conns[0].kind == Control
      && IsOnline(r2, "a") && OnlineOf(r2, "a").control == Some(0) && OnlineOf(r2, "a").relay == None
      && OnlineOf(r2, "a").index == 1 && IsOnline(r2, "b") && OnlineOf(r2, "b").index == 1 && OnlineOf(r2, "b").approved
      && r2.members["a"] != r2.members["b"]
  {
  }

  lemma FirstTakesItAway(r: Room)
    requires 0 in r.conns && r.conns[0].member == "a" && r.conns[0].kind == Control
    requires IsOnline(r, "a") && OnlineOf(r, "a").control == Some(0) && OnlineOf(r, "a").relay == None
    requires OnlineOf(r, "a").index == 1 && IsOnline(r, "b") && r.members["a"] != r.members["b"]
    ensures var r' := Detach(r, 0);
      IsOnline(r', "b") && OnlineOf(r', "b") == OnlineOf(r, "b") && LookupMemberByIndex(r', 1) == None
  {
  }

  /** From an empty room: a member leaves, its index goes to another that attaches before the first one's
      connection is gone; the first one's detach then makes the other unreachable by its index. */
  lemma ReusedIndexIsUnreachable()
    ensures var r := Exec(IndexReused());
      IsOnline(r, "b") && OnlineOf(r, "b").approved && OnlineOf(r, "b").index == 1 && LookupMemberByIndex(r, 1) == None
  {
    var x, y := Attaches("a", "c1", Control, 1, true), Attaches("b", "c2", Control, 1, true);
    assert IndexReused()[..2] == [x] + [y] && ([x] + [y])[..1] == [x] && [x][..0] == [];
    SecondTakesTheIndex();
    hide Attach, Detach, LookupMemberByIndex;
    assert Exec([]) == EMPTY;
    assert Exec([x]) == Attach(EMPTY, "a", "c1", Control, 1, true).0;
    assert Exec([x] + [y]) == Attach(Exec([x]), "b", "c2", Control, 1, true).0;
    FirstTakesItAway(Exec([x] + [y]));
  }

  /** How often m came online in the run, and how often its offline callback ran. */
  function Ups(run: seq<Event>, m: MemberId): nat
  {
    if run == [] then 0
    else
      var init, e := run[..|run| - 1], run[|run| - 1];
      Ups(init, m) + if e.Attaches? && e.m == m && !IsOnline(Exec(init), m) then 1 else 0
  }

  function Hooks(hooks: seq<(MemberId, ConnId)>, m: MemberId): nat
  {
    if hooks == [] then 0
    else Hooks(hooks[..|hooks| - 1], m) + if hooks[|hooks| - 1].0 == m then 1 else 0
  }

  /** Over every run: as many offline callbacks as times online, but for the time that has not ended. */
  lemma {:induction false} HooksBalance(run: seq<Event>, m: MemberId)
    ensures Ups(run, m) == Hooks(Exec(run).hooks, m) + if IsOnline(Exec(run), m) then 1 else 0
    decreases |run|
  {
    if run != [] {
      var init, e := run[..|run| - 1], run[|run| - 1];
      HooksBalance(init, m);
      RunsStayValid(init);
      StepBalances(Exec(init), e, m);
    }
  }

  /** Being online and the callbacks so far, as one number. */
  ghost function Tally(r: Room, m: MemberId): nat
  {
    Hooks(r.hooks, m) + if IsOnline(r, m) then 1 else 0
  }

  lemma OnlyConnsKeepsTally(r: Room, r': Room, m: MemberId)
    requires OnlyConns(r, r')
    ensures Tally(r', m) == Tally(r, m)
  {
  }

  lemma AttachTally(r: Room, e: Event, m: MemberId)
    requires Valid(r) && e.Attaches?
    ensures Tally(Step(r, e), m) == Tally(r, m) + if e.m == m && !IsOnline(r, m) then 1 else 0
  {
    hide Valid, OnlineFits, Hooks;
    Owners(r);
  }

  lemma DetachTally(r: Room, c: ConnRef, m: MemberId)
    requires Valid(r) && c in r.conns
    ensures Tally(Detach(r, c), m) == Tally(r, m)
  {
    Owners(r);
    hide Valid, OnlineFits, Detach;
    HookFiresOnTransition(r, c);
    DetachEffect(r, c);
    var r', o := Detach(r, c), r.conns[c].member;
    var more := if IsOnline(r, o) && !IsOnline(r', o) then [(o, r.conns[c].id)] else [];
    assert (r.hooks + more)[..|r.hooks|] == r.hooks;
    assert m != o ==> (IsOnline(r, m) <==> IsOnline(r', m));
  }

  lemma ApprovalTally(r: Room, e: Event, m: MemberId)
    requires Valid(r) && (e.Approves? || e.SetsApproved?)
    ensures Tally(Step(r, e), m) == Tally(r, m)
  {
    hide Valid, OnlineFits, Hooks;
    Owners(r);
  }

  lemma StepBalances(r: Room, e: Event, m: MemberId)
    requires Valid(r)
    ensures Tally(Step(r, e), m) == Tally(r, m) + if e.Attaches? && e.m == m && !IsOnline(r, m) then 1 else 0
  {
    hide Valid, Tally, OnlyConns, Attach, Detach, Deliver, Broadcast, CloseMember, MakeApproved, SetApproved;
    match e
    case Attaches(_, _, _, _, _) => AttachTally(r, e, m);
    case Detaches(c) => if c in r.conns { DetachTally(r, c, m); }
    case Closes(o, reason) =>
      CloseMemberOnlyTouchesConns(r, o, reason);
      OnlyConnsKeepsTally(r, CloseMember(r, o, reason), m);
    case Delivers(o, f) =>
      DeliverOnlyTouchesConns(r, o, f);
      OnlyConnsKeepsTally(r, Deliver(r, o, f).0, m);
    case Broadcasts(exclude, f) =>
      BroadcastOnlyTouchesConns(r, exclude, f);
      OnlyConnsKeepsTally(r, Broadcast(r, exclude, f).0, m);
    case Approves(_, _) => ApprovalTally(r, e, m);
    case SetsApproved(_, _) => ApprovalTally(r, e, m);
  }
}
