/** The hub and the store together: a member's last connection closing marks the stored record offline
    through the hub's offline callback (internal/server/server.go, internal/member/hub.go,
    internal/storage/memory.go). Service operations are atomic here. */
module Presence {
  import opened Machine
  import opened Records
  import opened Sessions
  import opened Service
  import H = Hub

  /** `latest` is the connection ID each member's latest join came with. */
  datatype World = World(room: H.Room, s: Session, latest: map<MemberId, string>)

  datatype Event =
    | Joins(req: JoinRequest, now: Time, rand: Random)
    | Attaches(mid: MemberId, conn: string, kind: H.Kind)
    | Detaches(c: H.ConnRef, now: Time)
    | Changes(change: Change)
    | Removes(mid: MemberId)

  ghost function Kept(s: Session, r: Result<(Session, Out), StoreErr>): Session
  {
    match r case Ok((s', _)) => s' case Err(_) => s
  }

  ghost function JoinNext(w: World, req: JoinRequest, now: Time, rand: Random): World
  {
    match Joining(w.s, req, now, rand)
    case Ok((s', Joined(_, m, _, _))) => w.(s := s', latest := w.latest[m.id := req.connectionId])
    case _ => w
  }

  /** Detach, then whatever the callback does. */
  ghost function DetachNext(w: World, c: H.ConnRef, now: Time): World
  {
    if c !in w.room.conns then w
    else
      var room := H.Detach(w.room, c);
      if |room.hooks| == |w.room.hooks| then w.(room := room)
      else
        var (mid, conn) := room.hooks[|room.hooks| - 1];
        w.(room := room, s := Kept(w.s, Offlining(w.s, mid, conn, now)))
  }

  ghost function Next(w: World, e: Event): World
  {
    match e
    case Joins(req, now, rand) => JoinNext(w, req, now, rand)
    case Attaches(mid, conn, kind) =>
      if mid !in w.s.members || (kind == H.Relay && w.s.members[mid].status != Active) then w
      else
        var m := w.s.members[mid];
        w.(room := H.Attach(w.room, mid, conn, kind, m.index, m.status == Active).0)
    case Detaches(c, now) => DetachNext(w, c, now)
    case Changes(c) =>
      w.(s := match Decide(w.s, c) case Ok(m) => Kept(w.s, Updating(w.s, m)) case Err(_) => w.s)
    case Removes(mid) => w.(s := Kept(w.s, Removing(w.s, mid)))
  }

  ghost function Exec(h: Head, run: seq<Event>): World
  {
    if run == [] then World(H.EMPTY, Session(h, map[]), map[])
    else Next(Exec(h, run[..|run| - 1]), run[|run| - 1])
  }

  /** Connections carry an ID. */
  predicate Named(run: seq<Event>)
  {
    forall i :: 0 <= i < |run| ==> run[i].Attaches? ==> run[i].conn != ""
  }

  /** A record names its latest join's connection or none. */
  ghost predicate Tracks(s: Session, latest: map<MemberId, string>)
  {
    forall id :: id in s.members ==>
      id in latest && (s.members[id].connectionId == "" || s.members[id].connectionId == latest[id])
  }

  ghost predicate AllNamed(r: H.Room) { forall c :: c in r.conns ==> r.conns[c].id != "" }

  ghost predicate Inv(sid: SessionId, w: World)
  {
    SessionOk(sid, w.s) && H.Valid(w.room) && Tracks(w.s, w.latest) && AllNamed(w.room)
  }

  lemma JoinKeepsTracks(sid: SessionId, w: World, req: JoinRequest, now: Time, rand: Random)
    requires SessionOk(sid, w.s) && Tracks(w.s, w.latest)
    ensures var w' := JoinNext(w, req, now, rand); SessionOk(sid, w'.s) && Tracks(w'.s, w'.latest)
  {
    if Joining(w.s, req, now, rand).Ok? {
      JoiningKeeps(sid, w.s, req, now, rand);
      match ByNode(w.s.members, req.nodeId)
      case Some(id) =>
        assert w.s.members[id].id == id;
      case None =>
    }
    hide SessionOk;
  }

  lemma OfflineKeeps(sid: SessionId, w: World, mid: MemberId, conn: string, now: Time)
    requires SessionOk(sid, w.s) && Tracks(w.s, w.latest)
    ensures var s' := Kept(w.s, Offlining(w.s, mid, conn, now)); SessionOk(sid, s') && Tracks(s', w.latest)
  {
  }

  lemma ChangeKeeps(sid: SessionId, w: World, c: Change)
    requires SessionOk(sid, w.s) && Tracks(w.s, w.latest)
    ensures var w' := Next(w, Changes(c)); SessionOk(sid, w'.s) && Tracks(w'.s, w'.latest)
  {
    if Decide(w.s, c).Ok? { DecideKeepsIdentity(sid, w.s, c); }
  }

  lemma DetachKeepsInv(sid: SessionId, w: World, c: H.ConnRef, now: Time)
    requires Inv(sid, w)
    ensures Inv(sid, DetachNext(w, c, now))
  {
    if c in w.room.conns {
      H.DetachKeepsValid(w.room, c);
      var room := H.Detach(w.room, c);
      if |room.hooks| != |w.room.hooks| {
        OfflineKeeps(sid, w, room.hooks[|room.hooks| - 1].0, room.hooks[|room.hooks| - 1].1, now);
      }
    }
    hide SessionOk, Tracks, H.Valid, Offlining;
  }

  lemma AttachKeepsInv(sid: SessionId, w: World, mid: MemberId, conn: string, kind: H.Kind)
    requires Inv(sid, w) && conn != ""
    ensures Inv(sid, Next(w, Attaches(mid, conn, kind)))
  {
    hide SessionOk, Tracks, H.Valid, AllNamed;
    if mid in w.s.members {
      var m := w.s.members[mid];
      H.AttachKeepsValid(w.room, mid, conn, kind, m.index, m.status == Active);
      AttachKeepsNamed(w.room, mid, conn, kind, m.index, m.status == Active);
    }
  }

  lemma AttachKeepsNamed(r: H.Room, mid: MemberId, conn: string, kind: H.Kind, index: u16, approved: bool)
    requires AllNamed(r) && conn != ""
    ensures AllNamed(H.Attach(r, mid, conn, kind, index, approved).0)
  {
  }

  lemma NextKeepsInv(sid: SessionId, w: World, e: Event)
    requires Inv(sid, w) && (e.Attaches? ==> e.conn != "")
    ensures Inv(sid, Next(w, e))
  {
    match e
    case Joins(req, now, rand) =>
      JoinKeepsTracks(sid, w, req, now, rand);
      hide SessionOk, Tracks, H.Valid;
    case Attaches(mid, conn, kind) => AttachKeepsInv(sid, w, mid, conn, kind);
    case Detaches(c, now) => DetachKeepsInv(sid, w, c, now);
    case Changes(c) =>
      ChangeKeeps(sid, w, c);
      hide SessionOk, Tracks, H.Valid;
    case Removes(mid) =>
  }

  lemma {:induction false} RunsKeepInv(h: Head, run: seq<Event>)
    requires h.id != "" && Named(run)
    ensures Inv(h.id, Exec(h, run))
    decreases |run|
  {
    if run == [] {
      assert Keyed(h.id, map[]) && DistinctIndices(map[]) && DistinctNodes(map[]);
    } else {
      assert Named(run[..|run| - 1]);
      RunsKeepInv(h, run[..|run| - 1]);
      NextKeepsInv(h.id, Exec(h, run[..|run| - 1]), run[|run| - 1]);
    }
  }

  /** A detach reaches the store exactly when it takes the member off the hub and the closing connection is
      the one on record; the record then has no connection and its grace clock starts now. */
  lemma DetachMarksOfflineIff(sid: SessionId, w: World, c: H.ConnRef, now: Time)
    requires Inv(sid, w) && c in w.room.conns
    ensures var w', m := Next(w, Detaches(c, now)), w.room.conns[c].member;
      if H.IsOnline(w.room, m) && !H.IsOnline(w'.room, m) && m in w.s.members && w.s.members[m].connectionId == w.room.conns[c].id
      then w'.s == w.s.(members := w.s.members[m := w.s.members[m].(connectionId := "", leaveAt := now)])
      else w'.s == w.s
  {
    H.HookFiresOnTransition(w.room, c);
    hide H.Valid, H.Detach, SessionOk, Tracks;
  }

  /** Over every run: a socket of an earlier join, closing when it may, never touches the record of a
      member that has joined again. */
  lemma {:induction false} OldSocketsAreIgnored(h: Head, run: seq<Event>, c: H.ConnRef, now: Time)
    requires h.id != "" && Named(run)
    requires var w := Exec(h, run);
      c in w.room.conns && w.room.conns[c].member in w.latest && w.room.conns[c].id != w.latest[w.room.conns[c].member]
    ensures Next(Exec(h, run), Detaches(c, now)).s == Exec(h, run).s
  {
    RunsKeepInv(h, run);
    DetachMarksOfflineIff(h.id, Exec(h, run), c, now);
  }

  /** The other side: when the socket that closes last is not the recorded one, the hub has lost the member
      and the store still shows it online. */
  lemma OldSocketLastLeavesMemberOnline(sid: SessionId, w: World, c: H.ConnRef, now: Time)
    requires Inv(sid, w) && c in w.room.conns
    requires var m := w.room.conns[c].member;
      && H.IsOnline(w.room, m) && !H.IsOnline(H.Detach(w.room, c), m)
      && m in w.s.members && w.s.members[m].connectionId != ""
    ensures var w', m := Next(w, Detaches(c, now)), w.room.conns[c].member;
      Online(w'.s.members[m]) <==> w.s.members[m].connectionId != w.room.conns[c].id
  {
    DetachMarksOfflineIff(sid, w, c, now);
    hide H.Valid, SessionOk, Tracks;
  }

  // ---- A run that ends so ------------------------------------------------------------------------

  /** The one member's slots, the next handle and the callbacks so far. */
  ghost predicate Holds(r: H.Room, control: Option<H.ConnRef>, relay: Option<H.ConnRef>, next: H.ConnRef)
  {
    && H.IsOnline(r, "a") && H.OnlineOf(r, "a").control == control && H.OnlineOf(r, "a").relay == relay
    && r.nextConn == next && r.hooks == []
  }

  ghost predicate SameSocket(r: H.Room, r': H.Room, c: H.ConnRef)
    requires c in r.conns
  {
    c in r'.conns && r'.conns[c].id == r.conns[c].id && r'.conns[c].member == r.conns[c].member
    && r'.conns[c].kind == r.conns[c].kind
  }

  lemma Attaching(r: H.Room, conn: string, kind: H.Kind, control: Option<H.ConnRef>, relay: Option<H.ConnRef>,
        next: H.ConnRef)
    requires (r == H.EMPTY && next == 0 && control == relay == None) || Holds(r, control, relay, next)
    ensures var r' := H.Attach(r, "a", conn, kind, 1, true).0;
      && Holds(r', if kind == H.Control then Some(next) else control,
               if kind == H.Relay then Some(next) else relay, next + 1)
      && next in r'.conns && r'.conns[next].id == conn && r'.conns[next].member == "a" && r'.conns[next].kind == kind
      && forall c :: c in r.conns && c != next ==> SameSocket(r, r', c)
  {
  }

  const FIRST := JoinRequest("A", "k", "c1", [], [], 5)
  const SECOND := JoinRequest("A", "k", "c2", [], [], 6)
  const RAND := Random(["a"], "")

  function PlainHead(owner: MemberId, joins: nat): Head
  {
    Head("s", "group", "", "t", 0, joins, 0, false, owner, false, false, 1, 0, 0)
  }

  function Owner(conn: string, seen: Time): Member
  {
    Member("a", "s", 1, "A", "k", OwnerRole, Status.Active, [], [], conn, 5, seen, 0)
  }

  function Alone(conn: string, seen: Time): Session { Session(PlainHead("a", 1), map["a" := Owner(conn, seen)]) }

  lemma OwnerJoins()
    ensures Joining(Session(PlainHead("", 0), map[]), FIRST, 5, RAND)
         == Ok((Alone("c1", 5), Joined(Alone("c1", 5), Owner("c1", 5), false, true)))
  {
    var ms: Members := map[];
    assert Indices(ms) == {} && ActiveIds(ms) == {};
  }

  lemma OwnerJoinsAgain()
    ensures Joining(Alone("c1", 5), SECOND, 6, RAND)
         == Ok((Alone("c2", 6), Joined(Alone("c2", 6), Owner("c2", 6), true, true)))
  {
    var ms := Alone("c1", 5).members;
    assert "a" in ms && ms["a"].nodeId == "A";
    assert ByNode(ms, "A") == Some("a");
    assert ms["a" := Owner("c2", 6)] == Alone("c2", 6).members;
  }

  ghost function TwoSockets(): H.Room
  {
    H.Attach(H.Attach(H.EMPTY, "a", "c1", H.Control, 1, true).0, "a", "c1", H.Relay, 1, true).0
  }

  ghost function ThreeSockets(): H.Room { H.Attach(TwoSockets(), "a", "c2", H.Control, 1, true).0 }

  lemma SocketsOpen()
    ensures var r := ThreeSockets();
      Holds(r, Some(2), Some(1), 3) && 1 in r.conns && r.conns[1].id == "c1" && r.conns[1].member == "a"
      && r.conns[1].kind == H.Relay && 2 in r.conns && r.conns[2].member == "a" && r.conns[2].kind == H.Control
  {
    hide H.Attach, Holds;
    var r := H.Attach(H.EMPTY, "a", "c1", H.Control, 1, true).0;
    Attaching(H.EMPTY, "c1", H.Control, None, None, 0);
    Attaching(r, "c1", H.Relay, Some(0), None, 1);
    Attaching(TwoSockets(), "c2", H.Control, Some(0), Some(1), 2);
  }

  lemma NewControlCloses(r: H.Room)
    requires Holds(r, Some(2), Some(1), 3) && 2 in r.conns && r.conns[2].member == "a" && r.conns[2].kind == H.Control
    ensures var r' := H.Detach(r, 2); Holds(r', None, Some(1), 3) && r'.conns == r.conns && r'.hooks == r.hooks == []
  {
  }

  lemma OldRelayCloses(r: H.Room)
    requires Holds(r, None, Some(1), 3) && 1 in r.conns && r.conns[1].member == "a" && r.conns[1].kind == H.Relay
    requires r.conns[1].id == "c1"
    ensures var r' := H.Detach(r, 1); !H.IsOnline(r', "a") && r'.hooks == [("a", "c1")]
  {
  }

  const STORY: seq<Event> :=
    [Joins(FIRST, 5, RAND)] + [Attaches("a", "c1", H.Control)] + [Attaches("a", "c1", H.Relay)]
    + [Joins(SECOND, 6, RAND)] + [Attaches("a", "c2", H.Control)] + [Detaches(2, 7)] + [Detaches(1, 8)]

  lemma ExecNext(h: Head, run: seq<Event>, e: Event)
    ensures Exec(h, run + [e]) == Next(Exec(h, run), e)
  {
    assert (run + [e])[..|run|] == run;
    hide Next;
  }

  lemma NobodyYet(h: Head)
    ensures Exec(h, []) == World(H.EMPTY, Session(h, map[]), map[])
  {
  }

  lemma FirstComes(w: World)
    requires w == World(H.EMPTY, Session(PlainHead("", 0), map[]), map[])
    ensures Next(w, Joins(FIRST, 5, RAND)) == World(H.EMPTY, Alone("c1", 5), map["a" := "c1"])
  {
    OwnerJoins();
    hide Joining;
  }

  lemma SocketOpens(w: World, kind: H.Kind)
    requires w.s == Alone("c1", 5)
    ensures Next(w, Attaches("a", "c1", kind)) == w.(room := H.Attach(w.room, "a", "c1", kind, 1, true).0)
  {
    hide H.Attach;
  }

  lemma FirstComesBack(w: World)
    requires w.s == Alone("c1", 5) && w.latest == map["a" := "c1"]
    ensures Next(w, Joins(SECOND, 6, RAND)) == World(w.room, Alone("c2", 6), map["a" := "c2"])
  {
    OwnerJoinsAgain();
    assert map["a" := "c1"]["a" := "c2"] == map["a" := "c2"];
    hide Joining;
  }

  lemma UpToRejoin()
    ensures Exec(PlainHead("", 0), STORY[..4]) == World(TwoSockets(), Alone("c2", 6), map["a" := "c2"])
  {
    hide Exec, Next, H.Attach, Alone;
    var h := PlainHead("", 0);
    var j, c := Joins(FIRST, 5, RAND), Attaches("a", "c1", H.Control);
    var r, k := Attaches("a", "c1", H.Relay), Joins(SECOND, 6, RAND);
    assert STORY[..4] == [j] + [c] + [r] + [k] && [] + [j] == [j];
    NobodyYet(h);
    FirstComes(Exec(h, []));
    ExecNext(h, [], j);
    SocketOpens(Exec(h, [j]), H.Control);
    ExecNext(h, [j], c);
    SocketOpens(Exec(h, [j] + [c]), H.Relay);
    ExecNext(h, [j] + [c], r);
    FirstComesBack(Exec(h, [j] + [c] + [r]));
    ExecNext(h, [j] + [c] + [r], k);
  }

  lemma TheSocketsClose(w: World)
    requires w == World(TwoSockets(), Alone("c2", 6), map["a" := "c2"])
    ensures var w' := Next(Next(Next(w, Attaches("a", "c2", H.Control)), Detaches(2, 7)), Detaches(1, 8));
      w'.s == w.s && !H.IsOnline(w'.room, "a")
  {
    hide Next, TwoSockets, ThreeSockets, H.Detach, H.IsOnline, Holds;
    SocketsOpen();
    NewControlAttaches(w);
    NewControlCloses(ThreeSockets());
    var w1 := w.(room := ThreeSockets());
    NoCallback(w1, 2, 7);
    OldRelayCloses(H.Detach(ThreeSockets(), 2));
    OldCallback(w1.(room := H.Detach(ThreeSockets(), 2)), 1, 8);
  }

  lemma NewControlAttaches(w: World)
    requires w == World(TwoSockets(), Alone("c2", 6), map["a" := "c2"])
    ensures Next(w, Attaches("a", "c2", H.Control)) == w.(room := ThreeSockets())
  {
    hide H.Attach, TwoSockets;
  }

  lemma NoCallback(w: World, c: H.ConnRef, now: Time)
    requires c in w.room.conns && w.room.hooks == H.Detach(w.room, c).hooks
    ensures Next(w, Detaches(c, now)) == w.(room := H.Detach(w.room, c))
  {
    hide H.Detach;
  }

  lemma OldCallback(w: World, c: H.ConnRef, now: Time)
    requires c in w.room.conns && w.room.hooks == [] && H.Detach(w.room, c).hooks == [("a", "c1")] && w.s == Alone("c2", 6)
    ensures Next(w, Detaches(c, now)) == w.(room := H.Detach(w.room, c))
  {
    hide H.Detach;
  }

  /** From a new session: a member attaches both sockets, joins again and attaches only a new control
      socket, which closes before the old relay socket does. The hub has lost it; the store shows it online. */
  lemma ShownOnlineForGood()
    ensures exists h: Head, run: seq<Event> ::
      && h.id != "" && Named(run) && !H.IsOnline(Exec(h, run).room, "a")
      && "a" in Exec(h, run).s.members && Online(Exec(h, run).s.members["a"])
  {
    var h := PlainHead("", 0);
    var x, y, z := Attaches("a", "c2", H.Control), Detaches(2, 7), Detaches(1, 8);
    var start := STORY[..4];
    assert STORY == start + [x] + [y] + [z];
    assert Named(STORY);
    UpToRejoin();
    TheSocketsClose(Exec(h, start));
    hide Exec, Next, TwoSockets, H.IsOnline, Named;
    ExecNext(h, start, x);
    ExecNext(h, start + [x], y);
    ExecNext(h, start + [x] + [y], z);
    assert "a" in Exec(h, STORY).s.members && Online(Exec(h, STORY).s.members["a"]);
  }

  // ---- The steps are the store's and the hub's ---------------------------------------------------

  /** Only members on record attach, to the relay only active ones, and they are entered in the hub as the record
      has them: under its index, approved while active. */
  lemma AttachReportsTheRecord(sid: SessionId, w: World, mid: MemberId, conn: string, kind: H.Kind)
    requires Inv(sid, w)
    ensures var w' := Next(w, Attaches(mid, conn, kind));
      && w'.s == w.s && w'.latest == w.latest
      && (mid !in w.s.members || (kind == H.Relay && w.s.members[mid].status != Active) ==> w' == w)
      && (mid in w.s.members && (kind == H.Control || w.s.members[mid].status == Active) ==>
            && H.IsOnline(w'.room, mid) && H.OnlineOf(w'.room, mid).index == w.s.members[mid].index
            && (H.OnlineOf(w'.room, mid).approved <==> w.s.members[mid].status == Active)
            && H.OnlineOf(w'.room, mid).connId == conn
            && w.room.nextConn in w'.room.conns && w'.room.conns[w.room.nextConn].kind == kind)
  {
    hide Inv;
  }

  /** The other steps leave the session as the store's call or the service's operation does; a detach calls
      MarkOffline for the member and the connection the hub reports. */
  lemma StepIsTheCall(st: Store, sid: SessionId, w: World, e: Event)
    requires Inv(sid, w) && sid in st && st[sid] == w.s && "" !in w.s.members
    ensures var st' := match e
        case Joins(req, now, rand) => Step(st, Op.Join(sid, req.(now := now), now, rand)).0
        case Changes(c) => Atomically(st, sid, c).0
        case Removes(mid) => Step(st, RemoveMember(sid, mid)).0
        case Attaches(_, _, _) => st
        case Detaches(c, now) =>
          if c in w.room.conns && H.IsOnline(w.room, w.room.conns[c].member) && !H.IsOnline(H.Detach(w.room, c), w.room.conns[c].member)
          then Step(st, MarkOffline(sid, w.room.conns[c].member, w.room.conns[c].id, now, now)).0 else st;
      sid in st' && st'[sid] == Next(w, e).s
  {
    if e.Detaches? {
      hide Inv, H.IsOnline, H.Detach, Offlining, Next, Step;
      DetachIsTheCall(st, sid, w, e.c, e.now);
    } else {
      if e.Changes? && Decide(w.s, e.change).Ok? { DecideKeepsIdentity(sid, w.s, e.change); }
      hide Inv, Decide, FreeIndex, Draw, Indices, ActiveIds, H.Attach, H.IsOnline;
    }
  }

  lemma DetachIsTheCall(st: Store, sid: SessionId, w: World, c: H.ConnRef, now: Time)
    requires Inv(sid, w) && sid in st && st[sid] == w.s
    ensures var st' :=
        if c in w.room.conns && H.IsOnline(w.room, w.room.conns[c].member) && !H.IsOnline(H.Detach(w.room, c), w.room.conns[c].member)
        then Step(st, MarkOffline(sid, w.room.conns[c].member, w.room.conns[c].id, now, now)).0 else st;
      sid in st' && st'[sid] == Next(w, Detaches(c, now)).s
  {
    if c in w.room.conns {
      ConnectionsAreNamed(sid, w, c);
      DetachMarksOfflineIff(sid, w, c, now);
    }
    hide Inv, H.Detach, H.IsOnline;
  }

  lemma ConnectionsAreNamed(sid: SessionId, w: World, c: H.ConnRef)
    requires Inv(sid, w) && c in w.room.conns
    ensures w.room.conns[c].id != "" && H.Valid(w.room)
  {
    hide H.Valid, Tracks, SessionOk;
  }
}
