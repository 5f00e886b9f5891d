/** What the store interface promises (internal/storage/store.go), over sessions whose members are found
    by ID: the common meaning of the locked map and the SQL tables. */
module Sessions {
  import opened Machine
  import opened Records

  type Store = map<SessionId, Session>

  datatype Filter = Filter(expiredBefore: Time, closedOnly: bool)

  /** `now` is the time the caller passed in, `clock` the store's own; a zero time means the latter. */
  datatype Op =
    | Create(rec: Record, clock: Time)
    | Get(sid: SessionId)
    | GetByJoinCode(code: string)
    | Join(sid: SessionId, req: JoinRequest, clock: Time, rand: Random)
    | UpdateMember(sid: SessionId, m: Member)
    | RemoveMember(sid: SessionId, mid: MemberId)
    | MarkOffline(sid: SessionId, mid: MemberId, conn: string, now: Time, clock: Time)
    | Revoke(sid: SessionId)
    | RotateToken(sid: SessionId, hash: string, code: string)
    | Close(sid: SessionId)
    | Delete(sid: SessionId)
    | List(filter: Filter)

  datatype Out =
    | Done
    | Found(s: Session)
    | Joined(s: Session, m: Member, rejoined: bool, isOwner: bool)
    | Listed(ss: Store)

  type Response = Result<Out, StoreErr>

  function When(now: Time, clock: Time): Time { if now == 0 then clock else now }

  // ---- One session -----------------------------------------------------------------------

  ghost predicate FirstWithNode(ms: Members, node: NodeId, id: MemberId)
  {
    id in ms && ms[id].nodeId == node
    && forall o :: o in ms && ms[o].nodeId == node ==> ms[id].index <= ms[o].index
  }

  ghost function WithNode(ms: Members, node: NodeId): set<MemberId>
  {
    set id | id in ms && ms[id].nodeId == node
  }

  lemma {:induction false} LeastExists(ms: Members, ids: set<MemberId>)
    requires ids != {} && ids <= ms.Keys
    ensures exists id :: id in ids && forall o :: o in ids ==> ms[id].index <= ms[o].index
    decreases |ids|
  {
    var id :| id in ids;
    var rest := ids - {id};
    if rest == {} {
      assert ids == {id};
    } else {
      LeastExists(ms, rest);
      var best :| best in rest && forall o :: o in rest ==> ms[best].index <= ms[o].index;
      var least := if ms[best].index < ms[id].index then best else id;
      assert least in ids && forall o :: o in ids ==> ms[least].index <= ms[o].index;
    }
  }

  lemma FirstExists(ms: Members, node: NodeId)
    requires WithNode(ms, node) != {}
    ensures exists id :: FirstWithNode(ms, node, id)
  {
    LeastExists(ms, WithNode(ms, node));
    var id :| id in WithNode(ms, node) && forall o :: o in WithNode(ms, node) ==> ms[id].index <= ms[o].index;
    assert FirstWithNode(ms, node, id);
  }

  /** The member with this NodeID; the least index wins where there are several. */
  ghost function ByNode(ms: Members, node: NodeId): (r: Option<MemberId>)
    ensures r == None <==> forall id :: id in ms ==> ms[id].nodeId != node
    ensures r != None ==> FirstWithNode(ms, node, r.value)
  {
    if WithNode(ms, node) == {} then
      assert forall id :: id in ms && ms[id].nodeId == node ==> id in WithNode(ms, node);
      None
    else
      FirstExists(ms, node);
      var id :| FirstWithNode(ms, node, id);
      Some(id)
  }

  function Refreshed(h: Head, m: Member, req: JoinRequest, now: Time): Member
  {
    m.(connectionId := req.connectionId, lastSeen := now, leaveAt := 0,
       capabilities := if req.capabilities != [] then req.capabilities else m.capabilities,
       candidates := if req.candidates != [] then req.candidates else m.candidates,
       status := if m.status == Active then Active else if h.requireApproval then Pending else Active)
  }

  predicate Pends(h: Head) { h.requireApproval && h.owner != "" }

  function Newcomer(h: Head, id: MemberId, index: u16, req: JoinRequest, now: Time): Member
  {
    Member(id, h.id, index, req.nodeId, req.publicKey,
           if h.owner == "" then OwnerRole else MemberRole,
           if Pends(h) then Pending else Active,
           req.capabilities, req.candidates, req.connectionId, now, now, 0)
  }

  function Admitted(h: Head, id: MemberId): Head
  {
    h.(owner := if h.owner == "" then id else h.owner, joinsUsed := h.joinsUsed + 1)
  }

  /** Why a newcomer is turned away, if they are. */
  function Refusal(h: Head, active: nat, index: u16): Option<StoreErr>
  {
    if h.revoked then Some(Revoked)
    else if h.joinLimit > 0 && h.joinsUsed >= h.joinLimit then Some(JoinLimit)
    else if !Pends(h) && h.maxMembers > 0 && active >= h.maxMembers then Some(Full)
    else if index == 0 then Some(Full)
    else None
  }

  ghost function Rejoin(s: Session, id: MemberId, req: JoinRequest, now: Time): (Session, Out)
    requires id in s.members
  {
    var m := Refreshed(s.head, s.members[id], req, now);
    var s' := s.(members := s.members[id := m]);
    (s', Joined(s', m, true, s.head.owner == id))
  }

  ghost function Enter(s: Session, id: MemberId, index: u16, req: JoinRequest, now: Time): (Session, Out)
  {
    var m := Newcomer(s.head, id, index, req, now);
    var s' := Session(Admitted(s.head, id), s.members[id := m]);
    (s', Joined(s', m, false, s.head.owner == ""))
  }

  ghost function Joining(s: Session, req: JoinRequest, now: Time, rand: Random): Result<(Session, Out), StoreErr>
  {
    if s.head.closed then Err(Closed)
    else if IsExpired(s.head, now) then Err(Expired)
    else
      match ByNode(s.members, req.nodeId)
      case Some(id) => Ok(Rejoin(s, id, req, now))
      case None =>
        var index := FreeIndex(Indices(s.members));
        match Refusal(s.head, |ActiveIds(s.members)|, index)
        case Some(e) => Err(e)
        case None => Ok(Enter(s, Draw(rand, s.members.Keys), index, req, now))
  }

  function Updating(s: Session, m: Member): Result<(Session, Out), StoreErr>
  {
    if m.id !in s.members then Err(MemberMissing)
    else Ok((s.(members := s.members[m.id := m]), Done))
  }

  function Removing(s: Session, mid: MemberId): Result<(Session, Out), StoreErr>
  {
    if mid !in s.members then Err(MemberMissing) else Ok((s.(members := s.members - {mid}), Done))
  }

  function Offlining(s: Session, mid: MemberId, conn: string, now: Time): Result<(Session, Out), StoreErr>
  {
    if mid !in s.members then Err(MemberMissing)
    else if conn != "" && s.members[mid].connectionId != conn then Err(Conflict)
    else Ok((s.(members := s.members[mid := s.members[mid].(connectionId := "", leaveAt := now)]), Done))
  }

  /** The operations that work on one session that exists. */
  ghost function Applied(s: Session, op: Op): Result<(Session, Out), StoreErr>
  {
    match op
    case Get(_) => Ok((s, Found(s)))
    case Join(_, req, clock, rand) => Joining(s, req, When(req.now, clock), rand)
    case UpdateMember(_, m) => Updating(s, m)
    case RemoveMember(_, mid) => Removing(s, mid)
    case MarkOffline(_, mid, conn, now, clock) => Offlining(s, mid, conn, When(now, clock))
    case Revoke(_) => Ok((s.(head := s.head.(revoked := true)), Done))
    case Close(_) => Ok((s.(head := s.head.(closed := true)), Done))
    case RotateToken(_, hash, code) =>
      Ok((s.(head := s.head.(joinCode := code, tokenHash := hash, revoked := false)), Done))
    case _ => Err(NotFound)
  }

  // ---- The store ---------------------------------------------------------------------------

  ghost predicate HasCode(st: Store, c: string, sid: SessionId)
  {
    sid in st && c != "" && Normalize(st[sid].head.joinCode) == c
  }

  ghost predicate CodeTaken(st: Store, c: string) { exists sid :: HasCode(st, c, sid) }

  ghost function ByCode(st: Store, c: string): Option<SessionId>
  {
    if CodeTaken(st, c) then var sid :| HasCode(st, c, sid); Some(sid) else None
  }

  predicate Matches(f: Filter, h: Head)
  {
    (f.closedOnly ==> h.closed)
    && (f.expiredBefore != 0 ==> h.expiresAt != 0 && h.expiresAt < f.expiredBefore)
  }

  predicate OnOneSession(op: Op)
  {
    op.Get? || op.Join? || op.UpdateMember? || op.RemoveMember? || op.MarkOffline? || op.Revoke? || op.Close?
  }

  ghost function Lifted(st: Store, op: Op): (Store, Response)
    requires OnOneSession(op) || op.RotateToken?
  {
    if op.UpdateMember? && op.m.id == "" then (st, Err(MemberMissing))
    else if op.sid !in st then (st, Err(NotFound))
    else
      match Applied(st[op.sid], op)
      case Err(e) => (st, Err(e))
      case Ok((s, out)) => (st[op.sid := s], Ok(out))
  }

  ghost function Step(st: Store, op: Op): (Store, Response)
  {
    match op
    case Create(rec, _) =>
      if rec.head.id in st || CodeTaken(st, Normalize(rec.head.joinCode)) then (st, Err(Conflict))
      else (st[rec.head.id := View(rec)], Ok(Done))
    case GetByJoinCode(code) =>
      (match ByCode(st, Normalize(code))
       case None => (st, Err(NotFound))
       case Some(sid) => if sid in st then (st, Ok(Found(st[sid]))) else (st, Err(NotFound)))
    case RotateToken(sid, _, code) =>
      if sid in st && Normalize(code) != Normalize(st[sid].head.joinCode) && CodeTaken(st, Normalize(code))
      then (st, Err(Conflict)) else Lifted(st, op)
    case Delete(sid) => if sid in st then (st - {sid}, Ok(Done)) else (st, Err(NotFound))
    case List(f) => (st, Ok(Listed(map sid | sid in st && Matches(f, st[sid].head) :: st[sid])))
    case _ => Lifted(st, op)
  }

  // ---- What the operations must respect, and what they keep ----------------------------------

  ghost predicate Keyed(sid: SessionId, ms: Members)
  {
    forall id :: id in ms ==> ms[id].id == id && ms[id].session == sid
  }

  ghost predicate DistinctIndices(ms: Members)
  {
    forall a, b :: a in ms && b in ms && ms[a].index == ms[b].index ==> a == b
  }

  ghost predicate DistinctNodes(ms: Members)
  {
    forall a, b :: a in ms && b in ms && ms[a].nodeId == ms[b].nodeId ==> a == b
  }

  ghost predicate SessionOk(sid: SessionId, s: Session)
  {
    sid != "" && s.head.id == sid && Keyed(sid, s.members) && DistinctIndices(s.members) && DistinctNodes(s.members)
  }

  ghost predicate CodesDistinct(st: Store)
  {
    forall c, a, b :: HasCode(st, c, a) && HasCode(st, c, b) ==> a == b
  }

  ghost predicate StoreOk(st: Store)
  {
    (forall sid :: sid in st ==> SessionOk(sid, st[sid])) && CodesDistinct(st)
  }

  /** A new session with a usable name and code, and members that fit together. */
  ghost predicate WellMade(rec: Record)
  {
    && rec.head.id != "" && rec.head.createdAt != 0
    && (rec.head.joinCode != "" ==> Normalize(rec.head.joinCode) != "")
    && DistinctIds(rec.members) && SessionOk(rec.head.id, View(rec))
  }

  /** The written-back member belongs here and takes nobody else's index or node. */
  ghost predicate FitsIn(sid: SessionId, ms: Members, m: Member)
  {
    m.session == sid
    && forall o :: o in ms && o != m.id ==> ms[o].index != m.index && ms[o].nodeId != m.nodeId
  }

  /** Where both stores must mean the same. */
  ghost predicate Admissible(st: Store, op: Op)
  {
    match op
    case Create(rec, _) => rec.head.id in st || CodeTaken(st, Normalize(rec.head.joinCode)) || WellMade(rec)
    case UpdateMember(sid, m) =>
      m.id == "" || sid !in st || m.id !in st[sid].members || FitsIn(sid, st[sid].members, m)
    case RotateToken(sid, _, code) =>
      sid !in st || Normalize(code) != "" || Normalize(st[sid].head.joinCode) == ""
    case _ => true
  }

  lemma FreshIndex(ms: Members, o: MemberId)
    requires o in ms && FreeIndex(Indices(ms)) != 0
    ensures ms[o].index != FreeIndex(Indices(ms))
  {
    FreeFromIsLeast(Indices(ms), 1);
    assert ms[o].index in Indices(ms);
  }

  lemma EnterKeeps(sid: SessionId, s: Session, id: MemberId, index: u16, req: JoinRequest, now: Time)
    requires SessionOk(sid, s) && id !in s.members
    requires forall o :: o in s.members ==> s.members[o].index != index && s.members[o].nodeId != req.nodeId
    ensures SessionOk(sid, Enter(s, id, index, req, now).0)
  {
  }

  lemma RejoinKeeps(sid: SessionId, s: Session, id: MemberId, req: JoinRequest, now: Time)
    requires SessionOk(sid, s) && id in s.members
    ensures SessionOk(sid, Rejoin(s, id, req, now).0)
  {
  }

  lemma JoiningKeeps(sid: SessionId, s: Session, req: JoinRequest, now: Time, rand: Random)
    requires SessionOk(sid, s) && Joining(s, req, now, rand).Ok?
    ensures SessionOk(sid, Joining(s, req, now, rand).value.0)
  {
    hide SessionOk, Enter, Rejoin;
    match ByNode(s.members, req.nodeId)
    case Some(id) => RejoinKeeps(sid, s, id, req, now);
    case None =>
      forall o | o in s.members ensures s.members[o].index != FreeIndex(Indices(s.members)) { FreshIndex(s.members, o); }
      EnterKeeps(sid, s, Draw(rand, s.members.Keys), FreeIndex(Indices(s.members)), req, now);
  }

  lemma AppliedKeeps(sid: SessionId, s: Session, op: Op)
    requires SessionOk(sid, s) && Applied(s, op).Ok?
    requires op.UpdateMember? ==> FitsIn(sid, s.members, op.m)
    ensures SessionOk(sid, Applied(s, op).value.0)
    ensures !op.RotateToken? ==> Applied(s, op).value.0.head.joinCode == s.head.joinCode
  {
    if op.Join? { JoiningKeeps(sid, s, op.req, When(op.req.now, op.clock), op.rand); }
  }

  lemma LiftedKeeps(st: Store, op: Op)
    requires StoreOk(st) && Admissible(st, op) && OnOneSession(op)
    ensures StoreOk(Lifted(st, op).0)
  {
    var st' := Lifted(st, op).0;
    if st' != st && Applied(st[op.sid], op).Ok? { AppliedKeeps(op.sid, st[op.sid], op); }
    hide SessionOk, Applied, FitsIn, Normalize;
    forall c, a | HasCode(st', c, a) ensures HasCode(st, c, a) {}
  }

  lemma RotateKeeps(st: Store, op: Op)
    requires StoreOk(st) && op.RotateToken?
    ensures StoreOk(Step(st, op).0)
  {
    RotateKeepsCodes(st, op);
    if op.sid in st { AppliedKeeps(op.sid, st[op.sid], op); }
    hide SessionOk, CodesDistinct;
  }

  /** Admissible operations keep names, indices, nodes and codes distinct. */
  lemma StepKeepsStoreOk(st: Store, op: Op)
    requires StoreOk(st) && Admissible(st, op)
    ensures StoreOk(Step(st, op).0)
  {
    if OnOneSession(op) {
      LiftedKeeps(st, op);
      assert Step(st, op) == Lifted(st, op);
      hide *;
    } else if op.RotateToken? {
      RotateKeeps(st, op);
      hide *;
    } else {
      var st' := Step(st, op).0;
      hide SessionOk, Normalize;
      forall c, a | HasCode(st', c, a) && (op.Create? ==> a != op.rec.head.id) ensures HasCode(st, c, a) {}
    }
  }

  lemma RotatedCode(st: Store, op: Op, c: string, sid: SessionId)
    requires op.RotateToken? && HasCode(Step(st, op).0, c, sid)
    ensures HasCode(st, c, sid) || (sid == op.sid && !CodeTaken(st, c))
  {
    hide Normalize;
  }

  lemma RotateKeepsCodes(st: Store, op: Op)
    requires CodesDistinct(st) && op.RotateToken?
    ensures CodesDistinct(Step(st, op).0)
  {
    hide Step, HasCode;
    var st' := Step(st, op).0;
    forall c, a, b | HasCode(st', c, a) && HasCode(st', c, b) ensures a == b {
      RotatedCode(st, op, c, a);
      RotatedCode(st, op, c, b);
    }
  }

  // ---- Results as the code returns them --------------------------------------------------

  datatype JoinOutcome = JoinOutcome(session: Record, member: Member, rejoined: bool, isOwner: bool)

  ghost function SeenDone(err: Option<StoreErr>): Response
  {
    match err case None => Ok(Done) case Some(e) => Err(e)
  }

  ghost function SeenFound(r: Result<Record, StoreErr>): Response
  {
    match r case Ok(rec) => Ok(Found(View(rec))) case Err(e) => Err(e)
  }

  ghost function SeenJoined(r: Result<JoinOutcome, StoreErr>): Response
  {
    match r
    case Ok(o) => Ok(Joined(View(o.session), o.member, o.rejoined, o.isOwner))
    case Err(e) => Err(e)
  }

  method Refresh(h: Head, existing: Member, req: JoinRequest, now: Time) returns (m: Member)
    ensures m == Refreshed(h, existing, req, now)
  {
    m := existing.(connectionId := req.connectionId, lastSeen := now, leaveAt := 0);
    if |req.capabilities| > 0 { m := m.(capabilities := req.capabilities); }
    if |req.candidates| > 0 { m := m.(candidates := req.candidates); }
    if m.status != Active {
      m := m.(status := if h.requireApproval then Pending else Active);
    }
  }
}
