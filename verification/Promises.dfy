/** What each store call promises, field by field (internal/storage/store.go, with internal/storage/memory.go
    and internal/storage/sqlite.go): stated on the records alone, and kept by both stores. */
module Promises {
  import opened Machine
  import opened Records
  import opened Sessions
  import M = MemoryStores
  import Q = SqliteStores

  /** Only this session may differ. */
  ghost predicate OnlyThis(st: Store, st': Store, sid: SessionId)
  {
    st'.Keys == st.Keys && forall o :: o in st && o != sid ==> st'[o] == st[o]
  }

  ghost predicate Refused(st: Store, st': Store, out: Response, e: StoreErr) { st' == st && out == Err(e) }

  /** Nothing of the session but one flag or code differs. */
  ghost predicate HeadIs(st: Store, st': Store, sid: SessionId, head: Head)
  {
    sid in st && OnlyThis(st, st', sid) && st'[sid].head == head && st'[sid].members == st[sid].members
  }

  /** One member of one session is now m, everything else is as before. */
  ghost predicate MemberIs(st: Store, st': Store, sid: SessionId, id: MemberId, m: Member)
  {
    && sid in st && OnlyThis(st, st', sid) && st'[sid].head == st[sid].head
    && id in st'[sid].members && st'[sid].members[id] == m
    && st'[sid].members.Keys == st[sid].members.Keys + {id}
    && forall o :: o in st[sid].members && o != id ==> st'[sid].members[o] == st[sid].members[o]
  }

  // ---- Joining ---------------------------------------------------------------------------------

  /** A known node comes back: same identity, new connection, and what it brings; revocation, limits and
      capacity do not matter to it. */
  ghost predicate Returns(st: Store, sid: SessionId, id: MemberId, req: JoinRequest, now: Time, st': Store, out: Response)
    requires sid in st && id in st[sid].members
  {
    var h, was := st[sid].head, st[sid].members[id];
    && sid in st' && id in st'[sid].members
    && var m := st'[sid].members[id];
    && MemberIs(st, st', sid, id, m)
    && out == Ok(Joined(st'[sid], m, true, h.owner == id))
    && m.id == was.id && m.session == was.session && m.index == was.index && m.nodeId == was.nodeId
    && m.publicKey == was.publicKey && m.role == was.role && m.joinedAt == was.joinedAt
    && m.connectionId == req.connectionId && m.lastSeen == now && m.leaveAt == 0
    && m.capabilities == (if req.capabilities == [] then was.capabilities else req.capabilities)
    && m.candidates == (if req.candidates == [] then was.candidates else req.candidates)
    && (was.status == Active ==> m.status == Active)
    && (was.status != Active ==> m.status == if h.requireApproval then Pending else Active)
  }

  ghost predicate IndexLeft(ms: Members)
  {
    exists i: u16 :: i >= 1 && IndexUnused(ms, i)
  }

  ghost predicate IndexUnused(ms: Members, i: u16)
  {
    forall id :: id in ms ==> ms[id].index != i
  }

  /** The session holds as many active members as it may. */
  ghost predicate AtCapacity(s: Session)
  {
    s.head.maxMembers > 0 && |set id | id in s.members && s.members[id].status == Active| >= s.head.maxMembers
  }

  ghost predicate MustWait(h: Head) { h.requireApproval && h.owner != "" }

  /** A new node comes in: with an ID nobody has, the least index nobody has, and what it brought; the first
      one owns the session, and where approval is on the others wait for it. */
  ghost predicate Enters(st: Store, sid: SessionId, req: JoinRequest, now: Time, st': Store, out: Response)
    requires sid in st
  {
    && out.Ok? && out.value.Joined? && OnlyThis(st, st', sid)
    && var h, m, first := st[sid].head, out.value.m, st[sid].head.owner == "";
    && out.value.s == st'[sid] && !out.value.rejoined && out.value.isOwner == first
    && m.id !in st[sid].members && st'[sid].members == st[sid].members[m.id := m]
    && st'[sid].head == h.(owner := if first then m.id else h.owner, joinsUsed := h.joinsUsed + 1)
    && m.session == sid && m.nodeId == req.nodeId && m.publicKey == req.publicKey
    && m.index >= 1 && IndexUnused(st[sid].members, m.index)
    && (forall i: u16 :: 1 <= i < m.index ==> !IndexUnused(st[sid].members, i))
    && m.role == (if first then OwnerRole else MemberRole)
    && m.status == (if MustWait(h) then Pending else Active)
    && m.capabilities == req.capabilities && m.candidates == req.candidates && m.connectionId == req.connectionId
    && m.joinedAt == now && m.lastSeen == now && m.leaveAt == 0
  }

  /** A node not on record, in the order the refusals are made. */
  ghost predicate NewNodeJoins(st: Store, sid: SessionId, req: JoinRequest, now: Time, st': Store, out: Response)
    requires sid in st
  {
    var s := st[sid];
    if s.head.revoked then Refused(st, st', out, Revoked)
    else if s.head.joinLimit > 0 && s.head.joinsUsed >= s.head.joinLimit then Refused(st, st', out, JoinLimit)
    else if !MustWait(s.head) && AtCapacity(s) then Refused(st, st', out, Full)
    else if !IndexLeft(s.members) then Refused(st, st', out, Full)
    else Enters(st, sid, req, now, st', out)
  }

  ghost predicate Joins(st: Store, sid: SessionId, req: JoinRequest, clock: Time, st': Store, out: Response)
  {
    var now := if req.now == 0 then clock else req.now;
    if sid !in st then Refused(st, st', out, NotFound)
    else if st[sid].head.closed then Refused(st, st', out, Closed)
    else if st[sid].head.expiresAt != 0 && now > st[sid].head.expiresAt then Refused(st, st', out, Expired)
    else if exists id :: id in st[sid].members && st[sid].members[id].nodeId == req.nodeId then
      forall id :: id in st[sid].members && st[sid].members[id].nodeId == req.nodeId ==>
        Returns(st, sid, id, req, now, st', out)
    else NewNodeJoins(st, sid, req, now, st', out)
  }

  // ---- Every call ----------------------------------------------------------------------------------

  ghost predicate Opens(st: Store, c: string, sid: SessionId)
  {
    sid in st && c != "" && Normalize(st[sid].head.joinCode) == c
  }

  ghost predicate Creates(st: Store, rec: Record, st': Store, out: Response)
  {
    if rec.head.id in st || exists sid :: Opens(st, Normalize(rec.head.joinCode), sid) then Refused(st, st', out, Conflict)
    else
      && out == Ok(Done) && st'.Keys == st.Keys + {rec.head.id} && (forall o :: o in st ==> st'[o] == st[o])
      && st'[rec.head.id].head == rec.head
      && (forall m :: m in rec.members ==> m.id in st'[rec.head.id].members && st'[rec.head.id].members[m.id] == m)
      && (forall id :: id in st'[rec.head.id].members ==> st'[rec.head.id].members[id] in rec.members)
  }

  ghost predicate Updates(st: Store, sid: SessionId, m: Member, st': Store, out: Response)
  {
    if m.id == "" then Refused(st, st', out, MemberMissing)
    else if sid !in st then Refused(st, st', out, NotFound)
    else if m.id !in st[sid].members then Refused(st, st', out, MemberMissing)
    else out == Ok(Done) && MemberIs(st, st', sid, m.id, m)
  }

  ghost predicate Removes(st: Store, sid: SessionId, mid: MemberId, st': Store, out: Response)
  {
    if sid !in st then Refused(st, st', out, NotFound)
    else if mid !in st[sid].members then Refused(st, st', out, MemberMissing)
    else
      && out == Ok(Done) && OnlyThis(st, st', sid) && st'[sid].head == st[sid].head
      && st'[sid].members.Keys == st[sid].members.Keys - {mid}
      && forall o :: o in st'[sid].members ==> st'[sid].members[o] == st[sid].members[o]
  }

  /** Only for the connection on record; no connection given means any. */
  ghost predicate GoesOffline(st: Store, sid: SessionId, mid: MemberId, conn: string, now: Time, st': Store, out: Response)
  {
    if sid !in st then Refused(st, st', out, NotFound)
    else if mid !in st[sid].members then Refused(st, st', out, MemberMissing)
    else
      var was := st[sid].members[mid];
      if conn != "" && was.connectionId != conn then Refused(st, st', out, Conflict)
      else out == Ok(Done) && MemberIs(st, st', sid, mid, was.(connectionId := "", leaveAt := now))
  }

  ghost predicate HeadBecomes(st: Store, sid: SessionId, head: Head, st': Store, out: Response)
  {
    if sid !in st then Refused(st, st', out, NotFound) else out == Ok(Done) && HeadIs(st, st', sid, head)
  }

  ghost predicate Rotates(st: Store, sid: SessionId, hash: string, code: string, st': Store, out: Response)
  {
    if sid !in st then Refused(st, st', out, NotFound)
    else if exists o :: o != sid && Opens(st, Normalize(code), o) then Refused(st, st', out, Conflict)
    else out == Ok(Done) && HeadIs(st, st', sid, st[sid].head.(joinCode := code, tokenHash := hash, revoked := false))
  }

  ghost predicate Lists(st: Store, f: Filter, st': Store, out: Response)
  {
    && st' == st && out.Ok? && out.value.Listed?
    && forall sid :: sid in out.value.ss <==>
         && sid in st && (f.closedOnly ==> st[sid].head.closed)
         && (f.expiredBefore != 0 ==> st[sid].head.expiresAt != 0 && st[sid].head.expiresAt < f.expiredBefore)
  }

  ghost predicate Fulfils(st: Store, op: Op, st': Store, out: Response)
  {
    match op
    case Create(rec, _) => Creates(st, rec, st', out)
    case Get(sid) => st' == st && (if sid in st then out == Ok(Found(st[sid])) else out == Err(NotFound))
    case GetByJoinCode(code) =>
      && st' == st
      && (forall sid :: Opens(st, Normalize(code), sid) ==> out == Ok(Found(st[sid])))
      && ((forall sid :: !Opens(st, Normalize(code), sid)) ==> out == Err(NotFound))
    case Join(sid, req, clock, _) => Joins(st, sid, req, clock, st', out)
    case UpdateMember(sid, m) => Updates(st, sid, m, st', out)
    case RemoveMember(sid, mid) => Removes(st, sid, mid, st', out)
    case MarkOffline(sid, mid, conn, now, clock) => GoesOffline(st, sid, mid, conn, if now == 0 then clock else now, st', out)
    case Revoke(sid) => HeadBecomes(st, sid, if sid in st then st[sid].head.(revoked := true) else NO_HEAD, st', out)
    case Close(sid) => HeadBecomes(st, sid, if sid in st then st[sid].head.(closed := true) else NO_HEAD, st', out)
    case RotateToken(sid, hash, code) => Rotates(st, sid, hash, code, st', out)
    case Delete(sid) =>
      if sid !in st then Refused(st, st', out, NotFound)
      else out == Ok(Done) && st'.Keys == st.Keys - {sid} && forall o :: o in st' ==> st'[o] == st[o]
    case List(f) => Lists(st, f, st', out) && forall sid :: sid in out.value.ss ==> out.value.ss[sid] == st[sid]
  }

  const NO_HEAD := Head("", "", "", "", 0, 0, 0, false, "", false, false, 0, 0, 0)

  // ---- The interface keeps its promises ------------------------------------------------------------

  lemma ReturnIsPromised(st: Store, op: Op, id: MemberId)
    requires StoreOk(st) && op.Join? && op.sid in st && !st[op.sid].head.closed
    requires var now := if op.req.now == 0 then op.clock else op.req.now;
      st[op.sid].head.expiresAt == 0 || now <= st[op.sid].head.expiresAt
    requires id in st[op.sid].members && st[op.sid].members[id].nodeId == op.req.nodeId
    ensures var now := if op.req.now == 0 then op.clock else op.req.now;
      Returns(st, op.sid, id, op.req, now, Step(st, op).0, Step(st, op).1)
  {
    var s := st[op.sid];
    assert SessionOk(op.sid, s);
    assert ByNode(s.members, op.req.nodeId) == Some(id);
    hide StoreOk, FreeIndex, Refusal;
  }

  lemma LeastUnused(ms: Members)
    ensures FreeIndex(Indices(ms)) == 0 <==> !IndexLeft(ms)
    ensures FreeIndex(Indices(ms)) != 0 ==> IndexUnused(ms, FreeIndex(Indices(ms)))
    ensures forall i: u16 :: FreeIndex(Indices(ms)) != 0 && 1 <= i < FreeIndex(Indices(ms)) ==> !IndexUnused(ms, i)
  {
    FreeFromIsLeast(Indices(ms), 1);
    forall i: u16 ensures i in Indices(ms) <==> !IndexUnused(ms, i) {}
    hide FreeFrom, IndexUnused, Indices;
  }

  lemma NewNodeIsPromised(st: Store, op: Op)
    requires StoreOk(st) && op.Join? && op.sid in st && !st[op.sid].head.closed
    requires var now := if op.req.now == 0 then op.clock else op.req.now;
      st[op.sid].head.expiresAt == 0 || now <= st[op.sid].head.expiresAt
    requires forall id :: id in st[op.sid].members ==> st[op.sid].members[id].nodeId != op.req.nodeId
    ensures var now := if op.req.now == 0 then op.clock else op.req.now;
      NewNodeJoins(st, op.sid, op.req, now, Step(st, op).0, Step(st, op).1)
  {
    hide StoreOk, SessionOk, FreeIndex, IndexLeft, Draw, Indices, Enter, Enters, AtCapacity, Step;
    var s := st[op.sid];
    var now, index := if op.req.now == 0 then op.clock else op.req.now, FreeIndex(Indices(s.members));
    OwnName(st, op.sid);
    LeastUnused(s.members);
    NewNodeCases(st, op, now);
    if index != 0 { EntryIsPromised(st, op.sid, Draw(op.rand, s.members.Keys), index, op.req, now); }
  }

  lemma OwnName(st: Store, sid: SessionId)
    requires StoreOk(st) && sid in st
    ensures SessionOk(sid, st[sid]) && st[sid].head.id == sid
  {
  }

  /** The refusals in the order the interface makes them. */
  lemma NewNodeCases(st: Store, op: Op, now: Time)
    requires op.Join? && op.sid in st && !st[op.sid].head.closed && now == if op.req.now == 0 then op.clock else op.req.now
    requires st[op.sid].head.expiresAt == 0 || now <= st[op.sid].head.expiresAt
    requires forall id :: id in st[op.sid].members ==> st[op.sid].members[id].nodeId != op.req.nodeId
    ensures var s, index := st[op.sid], FreeIndex(Indices(st[op.sid].members));
      Step(st, op) ==
        if s.head.revoked then (st, Err(Revoked))
        else if s.head.joinLimit > 0 && s.head.joinsUsed >= s.head.joinLimit then (st, Err(JoinLimit))
        else if (!MustWait(s.head) && AtCapacity(s)) || index == 0 then (st, Err(Full))
        else
          var (s', out) := Enter(s, Draw(op.rand, s.members.Keys), index, op.req, now);
          (st[op.sid := s'], Ok(out))
  {
    hide FreeIndex, Draw, Indices, Enter;
    var s := st[op.sid];
    assert ByNode(s.members, op.req.nodeId) == None;
    assert ActiveIds(s.members) == set id | id in s.members && s.members[id].status == Active;
  }

  lemma EntryIsPromised(st: Store, sid: SessionId, id: MemberId, index: u16, req: JoinRequest, now: Time)
    requires sid in st && st[sid].head.id == sid && id !in st[sid].members
    requires index >= 1 && IndexUnused(st[sid].members, index)
    requires forall i: u16 :: 1 <= i < index ==> !IndexUnused(st[sid].members, i)
    ensures var (s', out) := Enter(st[sid], id, index, req, now); Enters(st, sid, req, now, st[sid := s'], Ok(out))
  {
    hide IndexUnused;
  }

  lemma JoinIsPromised(st: Store, op: Op)
    requires StoreOk(st) && op.Join?
    ensures Fulfils(st, op, Step(st, op).0, Step(st, op).1)
  {
    var now := if op.req.now == 0 then op.clock else op.req.now;
    if op.sid in st && !st[op.sid].head.closed && (st[op.sid].head.expiresAt == 0 || now <= st[op.sid].head.expiresAt) {
      var ms := st[op.sid].members;
      hide StoreOk, Returns, NewNodeJoins, Step;
      if exists id :: id in ms && ms[id].nodeId == op.req.nodeId {
        forall id | id in ms && ms[id].nodeId == op.req.nodeId
          ensures Returns(st, op.sid, id, op.req, now, Step(st, op).0, Step(st, op).1)
        {
          ReturnIsPromised(st, op, id);
        }
      } else {
        NewNodeIsPromised(st, op);
      }
    } else {
      hide StoreOk, FreeIndex, Refusal;
    }
  }

  lemma ListedById(ms: seq<Member>)
    requires DistinctIds(ms)
    ensures forall m :: m in ms ==> m.id in ById(ms) && ById(ms)[m.id] == m
    ensures forall id :: id in ById(ms) ==> ById(ms)[id] in ms
  {
    forall m | m in ms ensures m.id in ById(ms) && ById(ms)[m.id] == m {
      var i :| 0 <= i < |ms| && ms[i] == m;
      ByIdAt(ms, i);
    }
    forall id | id in ById(ms) ensures ById(ms)[id] in ms { ByIdKeys(ms, id); }
  }

  lemma OpensIsHasCode(st: Store, c: string)
    ensures forall sid :: Opens(st, c, sid) <==> HasCode(st, c, sid)
    ensures (exists sid :: Opens(st, c, sid)) <==> CodeTaken(st, c)
  {
    hide Normalize;
    if CodeTaken(st, c) {
      var sid :| HasCode(st, c, sid);
      assert Opens(st, c, sid);
    }
  }

  lemma CreateIsPromised(st: Store, rec: Record, clock: Time)
    requires StoreOk(st) && Admissible(st, Create(rec, clock))
    ensures Fulfils(st, Create(rec, clock), Step(st, Create(rec, clock)).0, Step(st, Create(rec, clock)).1)
  {
    OpensIsHasCode(st, Normalize(rec.head.joinCode));
    hide Normalize, StoreOk, CodeTaken, SessionOk;
    if rec.head.id !in st && !CodeTaken(st, Normalize(rec.head.joinCode)) { ListedById(rec.members); }
    hide DistinctIds, ById;
  }

  lemma CodeIsPromised(st: Store, op: Op)
    requires StoreOk(st) && (op.GetByJoinCode? || op.RotateToken?)
    ensures Fulfils(st, op, Step(st, op).0, Step(st, op).1)
  {
    var c := Normalize(op.code);
    OpensIsHasCode(st, c);
    assert CodesDistinct(st);
    hide Normalize, SessionOk;
    if CodeTaken(st, c) {
      assert HasCode(st, c, ByCode(st, c).value);
      forall sid | HasCode(st, c, sid) ensures sid == ByCode(st, c).value {}
    }
    if op.RotateToken? && op.sid in st {
      assert HasCode(st, c, op.sid) <==> c != "" && Normalize(st[op.sid].head.joinCode) == c;
      assert (exists o :: o != op.sid && Opens(st, c, o)) <==> CodeTaken(st, c) && !HasCode(st, c, op.sid) by {
        if CodeTaken(st, c) && !HasCode(st, c, op.sid) { assert Opens(st, c, ByCode(st, c).value); }
      }
    }
    hide StoreOk, CodesDistinct;
  }

  /** Every admissible call does to the records exactly what is promised, and answers so. */
  lemma StepFulfils(st: Store, op: Op)
    requires StoreOk(st) && Admissible(st, op)
    ensures Fulfils(st, op, Step(st, op).0, Step(st, op).1)
  {
    match op
    case Create(rec, clock) => CreateIsPromised(st, rec, clock);
    case Join(_, _, _, _) => JoinIsPromised(st, op);
    case GetByJoinCode(_) => CodeIsPromised(st, op);
    case RotateToken(_, _, _) => CodeIsPromised(st, op);
    case UpdateMember(_, _) => MemberCallIsPromised(st, op);
    case RemoveMember(_, _) => MemberCallIsPromised(st, op);
    case MarkOffline(_, _, _, _, _) => MemberCallIsPromised(st, op);
    case Get(sid) => assert sid in st ==> st[sid := st[sid]] == st;
    case _ => hide StoreOk, Normalize;
  }

  lemma MemberCallIsPromised(st: Store, op: Op)
    requires StoreOk(st) && (op.UpdateMember? || op.RemoveMember? || op.MarkOffline?)
    ensures Fulfils(st, op, Step(st, op).0, Step(st, op).1)
  {
    hide StoreOk, Normalize, Joining;
  }

  // ---- So do both stores -----------------------------------------------------------------------------

  /** The locked map does to the records exactly what is promised. */
  lemma MemoryFulfils(mem: M.Mem, op: Op)
    requires M.MemOk(mem) && Admissible(M.Abs(mem), op)
    ensures var (mem', out) := M.MemStep(mem, op); Fulfils(M.Abs(mem), op, M.Abs(mem'), out)
  {
    assert StoreOk(M.Abs(mem));
    hide M.MemOk, M.MemStep, StoreOk, Admissible, Step, Fulfils, M.Abs;
    M.MemRefines(mem, op);
    StepFulfils(M.Abs(mem), op);
  }

  /** So do the tables. */
  lemma TablesFulfil(t: Q.Tables, op: Op)
    requires Q.SqlOk(t) && Admissible(Q.Abs(t), op)
    ensures var (t', out) := Q.SqlStep(t, op); Fulfils(Q.Abs(t), op, Q.Abs(t'), out)
  {
    assert StoreOk(Q.Abs(t));
    hide Q.SqlOk, Q.SqlStep, StoreOk, Admissible, Step, Fulfils, Q.Abs;
    Q.SqlRefines(t, op);
    StepFulfils(Q.Abs(t), op);
  }

  /** A session created without a time is stored in memory with the store's own, as if it had come with it. */
  lemma UndatedIsDated(mem: M.Mem, rec: Record, clock: Time)
    requires rec.head.createdAt == 0
    ensures var dated := rec.(head := rec.head.(createdAt := clock));
      && M.MemStep(mem, Create(rec, clock)) == M.MemStep(mem, Create(dated, clock))
      && (M.MemStep(mem, Create(rec, clock)).1.Ok? ==>
            var byID := M.MemStep(mem, Create(rec, clock)).0.byID; rec.head.id in byID && byID[rec.head.id] == dated)
  {
    hide Normalize;
  }
}
