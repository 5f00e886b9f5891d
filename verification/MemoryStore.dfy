/** The locked in-memory store (internal/storage/memory.go): records by ID, and an index from normalised
    join code to session ID. */
module MemoryStores {
  import opened Machine
  import opened Records
  import opened Sessions

  datatype Mem = Mem(byID: map<SessionId, Record>, byCode: map<string, SessionId>)

  // ---- What the code does to one record ----------------------------------------------------

  ghost function Kept(rec: Record, out: Out): Result<(Record, Out), StoreErr> { Ok((rec, out)) }

  ghost function RecRejoin(rec: Record, i: nat, req: JoinRequest, now: Time): (Record, Out)
    requires i < |rec.members|
  {
    var m := Refreshed(rec.head, rec.members[i], req, now);
    var rec' := rec.(members := rec.members[i := m]);
    (rec', Joined(View(rec'), m, true, rec.head.owner == m.id))
  }

  ghost function RecEnter(rec: Record, id: MemberId, index: u16, req: JoinRequest, now: Time): (Record, Out)
  {
    var m := Newcomer(rec.head, id, index, req, now);
    var rec' := Record(Admitted(rec.head, id), rec.members + [m]);
    (rec', Joined(View(rec'), m, false, rec.head.owner == ""))
  }

  ghost function RecJoin(rec: Record, req: JoinRequest, now: Time, rand: Random): Result<(Record, Out), StoreErr>
  {
    if rec.head.closed then Err(Closed)
    else if IsExpired(rec.head, now) then Err(Expired)
    else
      var i := IndexOfNode(rec.members, req.nodeId);
      if i < |rec.members| then Ok(RecRejoin(rec, i, req, now))
      else
        var index := FreeIndex(UsedIn(rec.members));
        match Refusal(rec.head, ActiveCount(rec.members), index)
        case Some(e) => Err(e)
        case None => Ok(RecEnter(rec, Draw(rand, ById(rec.members).Keys), index, req, now))
  }

  ghost function RecUpdate(rec: Record, m: Member): Result<(Record, Out), StoreErr>
  {
    var i := IndexOfId(rec.members, m.id);
    if i == |rec.members| then Err(MemberMissing) else Ok((rec.(members := rec.members[i := m]), Done))
  }

  ghost function RecRemove(rec: Record, mid: MemberId): Result<(Record, Out), StoreErr>
  {
    var i := IndexOfId(rec.members, mid);
    if i == |rec.members| then Err(MemberMissing)
    else Ok((rec.(members := rec.members[..i] + rec.members[i + 1..]), Done))
  }

  ghost function RecOffline(rec: Record, mid: MemberId, conn: string, now: Time): Result<(Record, Out), StoreErr>
  {
    var i := IndexOfId(rec.members, mid);
    if i == |rec.members| then Err(MemberMissing)
    else if conn != "" && rec.members[i].connectionId != conn then Err(Conflict)
    else Ok((rec.(members := rec.members[i := rec.members[i].(connectionId := "", leaveAt := now)]), Done))
  }

  ghost function RecApplied(rec: Record, op: Op): Result<(Record, Out), StoreErr>
  {
    match op
    case Get(_) => Ok((rec, Found(View(rec))))
    case Join(_, req, clock, rand) => RecJoin(rec, req, When(req.now, clock), rand)
    case UpdateMember(_, m) => RecUpdate(rec, m)
    case RemoveMember(_, mid) => RecRemove(rec, mid)
    case MarkOffline(_, mid, conn, now, clock) => RecOffline(rec, mid, conn, When(now, clock))
    case Revoke(_) => Ok((rec.(head := rec.head.(revoked := true)), Done))
    case Close(_) => Ok((rec.(head := rec.head.(closed := true)), Done))
    case RotateToken(_, hash, code) =>
      Ok((rec.(head := rec.head.(joinCode := code, tokenHash := hash, revoked := false)), Done))
    case _ => Err(NotFound)
  }

  // ---- The store -----------------------------------------------------------------------------

  ghost function Abs(mem: Mem): Store { map sid | sid in mem.byID :: View(mem.byID[sid]) }

  ghost function RecLifted(mem: Mem, op: Op): (Mem, Response)
    requires OnOneSession(op) || op.RotateToken?
  {
    if op.UpdateMember? && op.m.id == "" then (mem, Err(MemberMissing))
    else if op.sid !in mem.byID then (mem, Err(NotFound))
    else
      match RecApplied(mem.byID[op.sid], op)
      case Err(e) => (mem, Err(e))
      case Ok((rec, out)) => (mem.(byID := mem.byID[op.sid := rec]), Ok(out))
  }

  /** The code index once a session's code changes. */
  ghost function Recoded(mem: Mem, sid: SessionId, old': string, new': string): Mem
  {
    if new' == "" || new' == old' then mem
    else mem.(byCode := (if old' != "" then mem.byCode - {old'} else mem.byCode)[new' := sid])
  }

  function Dated(rec: Record, clock: Time): Record
  {
    if rec.head.createdAt == 0 then rec.(head := rec.head.(createdAt := clock)) else rec
  }

  ghost function MemCreate(mem: Mem, rec: Record, clock: Time): (Mem, Response)
  {
    var code, named := Normalize(rec.head.joinCode), rec.head.joinCode != "";
    if rec.head.id in mem.byID || (named && code in mem.byCode) then (mem, Err(Conflict))
    else
      (Mem(mem.byID[rec.head.id := Dated(rec, clock)],
           if named then mem.byCode[code := rec.head.id] else mem.byCode), Ok(Done))
  }

  ghost function MemRotate(mem: Mem, op: Op): (Mem, Response)
    requires op.RotateToken?
  {
    if op.sid !in mem.byID then (mem, Err(NotFound))
    else
      var old', new' := Normalize(mem.byID[op.sid].head.joinCode), Normalize(op.code);
      if new' != "" && new' != old' && new' in mem.byCode then (mem, Err(Conflict))
      else RecLifted(Recoded(mem, op.sid, old', new'), op)
  }

  ghost function MemDelete(mem: Mem, sid: SessionId): (Mem, Response)
  {
    if sid !in mem.byID then (mem, Err(NotFound))
    else
      var code := mem.byID[sid].head.joinCode;
      (Mem(mem.byID - {sid}, if code != "" then mem.byCode - {Normalize(code)} else mem.byCode), Ok(Done))
  }

  ghost function MemStep(mem: Mem, op: Op): (Mem, Response)
  {
    match op
    case Create(rec, clock) => MemCreate(mem, rec, clock)
    case GetByJoinCode(code) =>
      var c := Normalize(code);
      if c in mem.byCode && mem.byCode[c] in mem.byID then (mem, Ok(Found(View(mem.byID[mem.byCode[c]]))))
      else (mem, Err(NotFound))
    case RotateToken(_, _, _) => MemRotate(mem, op)
    case Delete(sid) => MemDelete(mem, sid)
    case List(f) => (mem, Ok(Listed(map sid | sid in mem.byID && Matches(f, mem.byID[sid].head) :: View(mem.byID[sid]))))
    case _ => RecLifted(mem, op)
  }

  // ---- It means what the interface promises ----------------------------------------------------

  /** The index is the linear scan over normalised codes. */
  ghost predicate CodesIndexed(mem: Mem)
  {
    forall c, sid :: (c in mem.byCode && mem.byCode[c] == sid) <==> HasCode(Abs(mem), c, sid)
  }

  ghost predicate MemOk(mem: Mem)
  {
    && (forall sid :: sid in mem.byID ==> DistinctIds(mem.byID[sid].members))
    && StoreOk(Abs(mem)) && CodesIndexed(mem)
  }

  /** A record-level result as the interface sees it. */
  ghost function Seen(r: Result<(Record, Out), StoreErr>): Result<(Session, Out), StoreErr>
  {
    match r
    case Err(e) => Err(e)
    case Ok((rec, out)) => Ok((View(rec), out))
  }

  lemma NodeAgrees(ms: seq<Member>, node: NodeId)
    requires DistinctIds(ms) && DistinctNodes(ById(ms))
    ensures var i := IndexOfNode(ms, node);
      ByNode(ById(ms), node) == if i < |ms| then Some(ms[i].id) else None
  {
    var i := IndexOfNode(ms, node);
    if i < |ms| {
      ByIdAt(ms, i);
    } else if ByNode(ById(ms), node) != None {
      var id := ByNode(ById(ms), node).value;
      ByIdKeys(ms, id);
      assert false;
    }
  }

  lemma RecJoinViews(rec: Record, req: JoinRequest, now: Time, rand: Random)
    requires DistinctIds(rec.members) && DistinctNodes(ById(rec.members))
    ensures Seen(RecJoin(rec, req, now, rand)) == Joining(View(rec), req, now, rand)
    ensures RecJoin(rec, req, now, rand).Ok? ==> DistinctIds(RecJoin(rec, req, now, rand).value.0.members)
  {
    var ms := rec.members;
    NodeAgrees(ms, req.nodeId);
    var i := IndexOfNode(ms, req.nodeId);
    if i < |ms| {
      ByIdAt(ms, i);
      ByIdUpdate(ms, i, Refreshed(rec.head, ms[i], req, now));
    } else {
      IndicesOfList(ms);
      ActiveCountIsSize(ms);
      var id, index := Draw(rand, ById(ms).Keys), FreeIndex(UsedIn(ms));
      var m := Newcomer(rec.head, id, index, req, now);
      ByIdAppend(ms, m);
      AppendKeepsDistinct(ms, m);
    }
    hide DistinctIds, DistinctNodes, ById, Newcomer, Refreshed;
  }

  lemma AppendKeepsDistinct(ms: seq<Member>, m: Member)
    requires DistinctIds(ms) && m.id !in ById(ms)
    ensures DistinctIds(ms + [m])
  {
    forall i | 0 <= i < |ms| ensures ms[i].id != m.id { ByIdAt(ms, i); }
  }

  lemma RecUpdateViews(rec: Record, m: Member)
    requires DistinctIds(rec.members)
    ensures Seen(RecUpdate(rec, m)) == Updating(View(rec), m)
    ensures RecUpdate(rec, m).Ok? ==> DistinctIds(RecUpdate(rec, m).value.0.members)
  {
    var ms, i := rec.members, IndexOfId(rec.members, m.id);
    IndexDecides(ms, m.id);
    if i < |ms| { ByIdUpdate(ms, i, m); }
    hide DistinctIds, ById;
  }

  lemma RecRemoveViews(rec: Record, mid: MemberId)
    requires DistinctIds(rec.members)
    ensures Seen(RecRemove(rec, mid)) == Removing(View(rec), mid)
    ensures RecRemove(rec, mid).Ok? ==> DistinctIds(RecRemove(rec, mid).value.0.members)
  {
    var ms, i := rec.members, IndexOfId(rec.members, mid);
    IndexDecides(ms, mid);
    if i < |ms| { ByIdRemove(ms, i); RemoveKeepsDistinct(ms, i); }
    hide DistinctIds, ById;
  }

  lemma RecOfflineViews(rec: Record, mid: MemberId, conn: string, now: Time)
    requires DistinctIds(rec.members)
    ensures Seen(RecOffline(rec, mid, conn, now)) == Offlining(View(rec), mid, conn, now)
    ensures RecOffline(rec, mid, conn, now).Ok? ==> DistinctIds(RecOffline(rec, mid, conn, now).value.0.members)
  {
    var ms, i := rec.members, IndexOfId(rec.members, mid);
    IndexDecides(ms, mid);
    if i < |ms| {
      ByIdAt(ms, i);
      ByIdUpdate(ms, i, ms[i].(connectionId := "", leaveAt := now));
    }
    hide DistinctIds, ById;
  }

  lemma RecAppliedViews(rec: Record, op: Op)
    requires DistinctIds(rec.members) && DistinctNodes(ById(rec.members))
    ensures Seen(RecApplied(rec, op)) == Applied(View(rec), op)
    ensures RecApplied(rec, op).Ok? ==> DistinctIds(RecApplied(rec, op).value.0.members)
  {
    hide DistinctIds, ById, RecJoin, RecUpdate, RecRemove, RecOffline, Joining, Updating, Removing, Offlining;
    match op
    case Join(_, req, clock, rand) => RecJoinViews(rec, req, When(req.now, clock), rand);
    case UpdateMember(_, m) => RecUpdateViews(rec, m);
    case RemoveMember(_, mid) => RecRemoveViews(rec, mid);
    case MarkOffline(_, mid, conn, now, clock) => RecOfflineViews(rec, mid, conn, When(now, clock));
    case _ =>
  }

  lemma LookupByCode(mem: Mem, c: string)
    requires MemOk(mem)
    ensures c in mem.byCode <==> CodeTaken(Abs(mem), c)
    ensures ByCode(Abs(mem), c) == if c in mem.byCode then Some(mem.byCode[c]) else None
    ensures c in mem.byCode ==> c != "" && mem.byCode[c] in mem.byID
  {
    if c in mem.byCode { assert HasCode(Abs(mem), c, mem.byCode[c]); }
    if CodeTaken(Abs(mem), c) { assert HasCode(Abs(mem), c, ByCode(Abs(mem), c).value); }
  }

  lemma SameCodes(mem: Mem, sid: SessionId, rec: Record)
    requires CodesIndexed(mem) && sid in mem.byID && rec.head.joinCode == mem.byID[sid].head.joinCode
    ensures CodesIndexed(mem.(byID := mem.byID[sid := rec]))
  {
    var mem' := mem.(byID := mem.byID[sid := rec]);
    hide Normalize, ById;
    forall c, o ensures HasCode(Abs(mem'), c, o) <==> HasCode(Abs(mem), c, o) {}
  }

  lemma AbsAfterWrite(mem: Mem, sid: SessionId, rec: Record)
    ensures Abs(mem.(byID := mem.byID[sid := rec])) == Abs(mem)[sid := View(rec)]
  {
    hide ById;
  }

  lemma LiftedMeans(mem: Mem, op: Op)
    requires MemOk(mem) && OnOneSession(op)
    ensures (Abs(RecLifted(mem, op).0), RecLifted(mem, op).1) == Lifted(Abs(mem), op)
  {
    if op.sid in mem.byID {
      var rec := mem.byID[op.sid];
      assert SessionOk(op.sid, Abs(mem)[op.sid]);
      RecAppliedViews(rec, op);
      hide MemOk, SessionOk, RecApplied, Applied, DistinctIds, ById, View;
      match RecApplied(rec, op)
      case Err(_) =>
      case Ok((rec', _)) => AbsAfterWrite(mem, op.sid, rec');
    }
  }

  lemma LiftedKeepsIndex(mem: Mem, op: Op)
    requires MemOk(mem) && OnOneSession(op)
    ensures CodesIndexed(RecLifted(mem, op).0)
    ensures forall sid :: sid in RecLifted(mem, op).0.byID ==> DistinctIds(RecLifted(mem, op).0.byID[sid].members)
  {
    if op.sid in mem.byID {
      var rec := mem.byID[op.sid];
      assert SessionOk(op.sid, Abs(mem)[op.sid]);
      RecAppliedViews(rec, op);
      hide SessionOk, RecApplied, Applied, DistinctIds, ById, CodesIndexed, StoreOk;
      if RecApplied(rec, op).Ok? {
        AppliedKeepsCode(rec, op);
        SameCodes(mem, op.sid, RecApplied(rec, op).value.0);
      }
    }
  }

  lemma LiftedRefines(mem: Mem, op: Op)
    requires MemOk(mem) && Admissible(Abs(mem), op) && OnOneSession(op)
    ensures var (mem', out) := RecLifted(mem, op);
      MemOk(mem') && (Abs(mem'), out) == Lifted(Abs(mem), op)
  {
    LiftedMeans(mem, op);
    LiftedKeepsIndex(mem, op);
    LiftedKeeps(Abs(mem), op);
    hide CodesIndexed, StoreOk, RecLifted, Lifted, DistinctIds, Abs;
  }

  lemma AppliedKeepsCode(rec: Record, op: Op)
    requires OnOneSession(op) && RecApplied(rec, op).Ok?
    ensures RecApplied(rec, op).value.0.head.joinCode == rec.head.joinCode
  {
  }

  lemma CreateRefines(mem: Mem, rec: Record, clock: Time)
    requires MemOk(mem) && Admissible(Abs(mem), Create(rec, clock))
    ensures var (mem', out) := MemCreate(mem, rec, clock);
      MemOk(mem') && (Abs(mem'), out) == Step(Abs(mem), Create(rec, clock))
  {
    var (mem', out) := MemCreate(mem, rec, clock);
    var code := Normalize(rec.head.joinCode);
    LookupByCode(mem, code);
    StepKeepsStoreOk(Abs(mem), Create(rec, clock));
    assert Normalize("") == "";
    if out.Ok? {
      assert Dated(rec, clock) == rec;
      hide SessionOk, Normalize, DistinctIds, ById;
      assert Abs(mem') == Abs(mem)[rec.head.id := View(rec)];
      forall c, sid ensures HasCode(Abs(mem'), c, sid) <==> (c in mem'.byCode && mem'.byCode[c] == sid) {
        assert sid != rec.head.id ==> (HasCode(Abs(mem'), c, sid) <==> HasCode(Abs(mem), c, sid));
        assert c in mem.byCode ==> HasCode(Abs(mem), c, mem.byCode[c]);
        assert HasCode(Abs(mem), c, sid) ==> CodeTaken(Abs(mem), c);
      }
    }
  }

  lemma DeleteRefines(mem: Mem, sid: SessionId)
    requires MemOk(mem)
    ensures var (mem', out) := MemDelete(mem, sid);
      MemOk(mem') && (Abs(mem'), out) == Step(Abs(mem), Delete(sid))
  {
    var (mem', out) := MemDelete(mem, sid);
    StepKeepsStoreOk(Abs(mem), Delete(sid));
    if sid in mem.byID {
      var code := Normalize(mem.byID[sid].head.joinCode);
      LookupByCode(mem, code);
      assert Normalize("") == "";
      hide SessionOk, Normalize, DistinctIds, ById;
      assert Abs(mem') == Abs(mem) - {sid};
      forall c, o ensures HasCode(Abs(mem'), c, o) <==> (c in mem'.byCode && mem'.byCode[c] == o) {
        assert o != sid ==> (HasCode(Abs(mem'), c, o) <==> HasCode(Abs(mem), c, o));
        assert code != "" ==> HasCode(Abs(mem), code, sid);
        assert HasCode(Abs(mem), c, sid) ==> c == code;
      }
    }
  }

  /** Writing the new code to the record and to the index together keeps the index exact. */
  lemma RecodedIsIndexed(mem: Mem, sid: SessionId, rec: Record)
    requires MemOk(mem) && sid in mem.byID
    requires var was, now := Normalize(mem.byID[sid].head.joinCode), Normalize(rec.head.joinCode);
      (now == "" ==> was == "") && (now != was ==> !CodeTaken(Abs(mem), now))
    ensures var was, now := Normalize(mem.byID[sid].head.joinCode), Normalize(rec.head.joinCode);
      CodesIndexed(Mem(mem.byID[sid := rec], Recoded(mem, sid, was, now).byCode))
  {
    var was, now := Normalize(mem.byID[sid].head.joinCode), Normalize(rec.head.joinCode);
    LookupByCode(mem, now);
    assert CodesDistinct(Abs(mem));
    hide Normalize, DistinctIds, ById, StoreOk;
    var mem' := Mem(mem.byID[sid := rec], Recoded(mem, sid, was, now).byCode);
    forall c, o ensures HasCode(Abs(mem'), c, o) <==> (c in mem'.byCode && mem'.byCode[c] == o) {
      assert o != sid ==> (HasCode(Abs(mem'), c, o) <==> HasCode(Abs(mem), c, o));
      assert was != "" ==> HasCode(Abs(mem), was, sid);
      assert HasCode(Abs(mem), c, sid) ==> c == was;
    }
  }

  lemma RotateRefines(mem: Mem, op: Op)
    requires MemOk(mem) && op.RotateToken? && Admissible(Abs(mem), op)
    ensures var (mem', out) := MemRotate(mem, op);
      MemOk(mem') && (Abs(mem'), out) == Step(Abs(mem), op)
  {
    var (mem', out) := MemRotate(mem, op);
    StepKeepsStoreOk(Abs(mem), op);
    LookupByCode(mem, Normalize(op.code));
    if op.sid in mem.byID && out.Ok? {
      RecodedIsIndexed(mem, op.sid, mem'.byID[op.sid]);
      hide SessionOk, Normalize, DistinctIds, ById, CodesIndexed, CodeTaken, StoreOk;
      assert Abs(mem') == Step(Abs(mem), op).0;
    }
  }

  /** The map and its code index carry out every admissible operation as the interface means it. */
  lemma MemRefines(mem: Mem, op: Op)
    requires MemOk(mem) && Admissible(Abs(mem), op)
    ensures var (mem', out) := MemStep(mem, op);
      MemOk(mem') && (Abs(mem'), out) == Step(Abs(mem), op)
  {
    hide MemCreate, MemRotate, MemDelete, RecLifted, Lifted, Admissible, Normalize, MemOk, StoreOk;
    match op
    case Create(rec, clock) => CreateRefines(mem, rec, clock);
    case GetByJoinCode(code) => LookupByCode(mem, Normalize(code));
    case RotateToken(_, _, _) => RotateRefines(mem, op);
    case Delete(sid) => DeleteRefines(mem, sid);
    case List(f) =>
      assert (map sid | sid in mem.byID && Matches(f, mem.byID[sid].head) :: View(mem.byID[sid]))
          == (map sid | sid in Abs(mem) && Matches(f, Abs(mem)[sid].head) :: Abs(mem)[sid]);
    case _ => LiftedRefines(mem, op);
  }

  // ---- The code --------------------------------------------------------------------------------

  ghost predicate NoRepeats(ids: seq<SessionId>)
  {
    forall i, j :: 0 <= i < j < |ids| ==> ids[i] != ids[j]
  }

  ghost predicate ByCreation(recs: map<SessionId, Record>, ids: seq<SessionId>)
  {
    (forall i :: 0 <= i < |ids| ==> ids[i] in recs)
    && forall i, j :: 0 <= i < j < |ids| ==> recs[ids[i]].head.createdAt <= recs[ids[j]].head.createdAt
  }

  /** A listing: the matching sessions among those seen, each once, by creation time. */
  ghost predicate Lists(recs: map<SessionId, Record>, seen: set<SessionId>, f: Filter, ids: seq<SessionId>)
  {
    && NoRepeats(ids) && ByCreation(recs, ids)
    && forall sid :: sid in ids <==> sid in recs && sid in seen && Matches(f, recs[sid].head)
  }

  function Inserted(ids: seq<SessionId>, i: nat, sid: SessionId): (r: seq<SessionId>)
    requires i <= |ids|
    ensures |r| == |ids| + 1 && r[i] == sid
    ensures forall k :: 0 <= k < i ==> r[k] == ids[k]
    ensures forall k :: i < k < |r| ==> r[k] == ids[k - 1]
  {
    ids[..i] + [sid] + ids[i..]
  }

  lemma InsertedMembers(ids: seq<SessionId>, i: nat, sid: SessionId, o: SessionId)
    requires i <= |ids|
    ensures o in Inserted(ids, i, sid) <==> o == sid || o in ids
  {
    var r := Inserted(ids, i, sid);
    hide Inserted;
    if o == sid { assert r[i] == o; }
    if k :| 0 <= k < |ids| && ids[k] == o { assert r[if k < i then k else k + 1] == o; }
  }

  lemma InsertedIsDistinct(ids: seq<SessionId>, i: nat, sid: SessionId)
    requires i <= |ids| && NoRepeats(ids) && sid !in ids
    ensures NoRepeats(Inserted(ids, i, sid))
  {
    hide Inserted;
  }

  lemma InsertedIsOrdered(recs: map<SessionId, Record>, ids: seq<SessionId>, i: nat, sid: SessionId)
    requires i <= |ids| && ByCreation(recs, ids) && sid in recs
    requires i < |ids| ==> recs[sid].head.createdAt < recs[ids[i]].head.createdAt
    requires i > 0 ==> recs[ids[i - 1]].head.createdAt <= recs[sid].head.createdAt
    ensures ByCreation(recs, Inserted(ids, i, sid))
  {
    hide Inserted;
  }

  class MemoryStore {
    var byID: map<SessionId, Record>
    var byCode: map<string, SessionId>

    ghost function State(): Mem
      reads this
    {
      Mem(byID, byCode)
    }

    constructor ()
      ensures State() == Mem(map[], map[]) && MemOk(State())
    {
      byID, byCode := map[], map[];
    }

    method Create(rec: Record, clock: Time) returns (err: Option<StoreErr>)
      modifies this
      ensures (State(), SeenDone(err)) == MemStep(old(State()), Op.Create(rec, clock))
    {
      if rec.head.id in byID { return Some(Conflict); }
      if rec.head.joinCode != "" {
        if Normalize(rec.head.joinCode) in byCode { return Some(Conflict); }
        byCode := byCode[Normalize(rec.head.joinCode) := rec.head.id];
      }
      var stored := rec;
      if stored.head.createdAt == 0 {
        stored := stored.(head := stored.head.(createdAt := clock));
      }
      byID := byID[rec.head.id := stored];
      return None;
    }

    method Get(sid: SessionId) returns (r: Result<Record, StoreErr>)
      ensures (State(), SeenFound(r)) == MemStep(State(), Op.Get(sid))
      ensures if sid in byID then r == Ok(byID[sid]) else r == Err(NotFound)
    {
      if sid !in byID { return Err(NotFound); }
      assert byID[sid := byID[sid]] == byID;
      return Ok(byID[sid]);
    }

    method GetByJoinCode(code: string) returns (r: Result<Record, StoreErr>)
      ensures (State(), SeenFound(r)) == MemStep(State(), Op.GetByJoinCode(code))
    {
      var key := Normalize(code);
      if key !in byCode || byCode[key] !in byID { return Err(NotFound); }
      return Ok(byID[byCode[key]]);
    }

    method Join(sid: SessionId, req: JoinRequest, clock: Time, rand: Random) returns (r: Result<JoinOutcome, StoreErr>)
      modifies this`byID
      ensures (State(), SeenJoined(r)) == MemStep(old(State()), Op.Join(sid, req, clock, rand))
    {
      hide FreeIndex, Draw;
      var now := if req.now == 0 then clock else req.now;
      if sid !in byID { return Err(NotFound); }
      var rec := byID[sid];
      if rec.head.closed { return Err(Closed); }
      if IsExpired(rec.head, now) { return Err(Expired); }
      var i := MemberByNodeId(rec.members, req.nodeId);
      if i < |rec.members| {
        var existing := Refresh(rec.head, rec.members[i], req, now);
        rec := rec.(members := rec.members[i := existing]);
        byID := byID[sid := rec];
        return Ok(JoinOutcome(rec, existing, true, rec.head.owner == existing.id));
      }
      if rec.head.revoked { return Err(Revoked); }
      if rec.head.joinLimit > 0 && rec.head.joinsUsed >= rec.head.joinLimit { return Err(JoinLimit); }
      var isFirst := rec.head.owner == "";
      var pending := rec.head.requireApproval && !isFirst;
      var active := ActiveMembers(rec.members);
      if !pending && rec.head.maxMembers > 0 && active >= rec.head.maxMembers { return Err(Full); }
      var index := FreeIndexOf(rec.members);
      if index == 0 { return Err(Full); }
      var id := NewMemberId(rec.members, rand);
      var m := Member(id, rec.head.id, index, req.nodeId, req.publicKey, MemberRole, if pending then Pending else Active,
                      req.capabilities, req.candidates, req.connectionId, now, now, 0);
      if isFirst {
        m := m.(role := OwnerRole);
        rec := rec.(head := rec.head.(owner := m.id));
      }
      rec := Record(rec.head.(joinsUsed := rec.head.joinsUsed + 1), rec.members + [m]);
      byID := byID[sid := rec];
      return Ok(JoinOutcome(rec, m, false, isFirst));
    }

    method UpdateMember(sid: SessionId, m: Member) returns (err: Option<StoreErr>)
      modifies this`byID
      ensures (State(), SeenDone(err)) == MemStep(old(State()), Op.UpdateMember(sid, m))
    {
      if m.id == "" { return Some(MemberMissing); }
      if sid !in byID { return Some(NotFound); }
      var rec := byID[sid];
      var i := MemberById(rec.members, m.id);
      if i == |rec.members| { return Some(MemberMissing); }
      byID := byID[sid := rec.(members := rec.members[i := m])];
      return None;
    }

    method RemoveMember(sid: SessionId, mid: MemberId) returns (err: Option<StoreErr>)
      modifies this`byID
      ensures (State(), SeenDone(err)) == MemStep(old(State()), Op.RemoveMember(sid, mid))
    {
      if sid !in byID { return Some(NotFound); }
      var rec := byID[sid];
      var i := MemberById(rec.members, mid);
      if i == |rec.members| { return Some(MemberMissing); }
      byID := byID[sid := rec.(members := rec.members[..i] + rec.members[i + 1..])];
      return None;
    }

    method MarkOffline(sid: SessionId, mid: MemberId, conn: string, now: Time, clock: Time) returns (err: Option<StoreErr>)
      modifies this`byID
      ensures (State(), SeenDone(err)) == MemStep(old(State()), Op.MarkOffline(sid, mid, conn, now, clock))
    {
      var at := if now == 0 then clock else now;
      if sid !in byID { return Some(NotFound); }
      var rec := byID[sid];
      var i := MemberById(rec.members, mid);
      if i == |rec.members| { return Some(MemberMissing); }
      var m := rec.members[i];
      if conn != "" && m.connectionId != conn { return Some(Conflict); }
      byID := byID[sid := rec.(members := rec.members[i := m.(connectionId := "", leaveAt := at)])];
      return None;
    }

    method Revoke(sid: SessionId) returns (err: Option<StoreErr>)
      modifies this`byID
      ensures (State(), SeenDone(err)) == MemStep(old(State()), Op.Revoke(sid))
    {
      if sid !in byID { return Some(NotFound); }
      byID := byID[sid := byID[sid].(head := byID[sid].head.(revoked := true))];
      return None;
    }

    method RotateToken(sid: SessionId, newHash: string, newCode: string) returns (err: Option<StoreErr>)
      modifies this
      ensures (State(), SeenDone(err)) == MemStep(old(State()), Op.RotateToken(sid, newHash, newCode))
    {
      if sid !in byID { return Some(NotFound); }
      var rec := byID[sid];
      var oldKey, newKey := Normalize(rec.head.joinCode), Normalize(newCode);
      if newKey != "" && newKey != oldKey {
        if newKey in byCode { return Some(Conflict); }
        if oldKey != "" { byCode := byCode - {oldKey}; }
        byCode := byCode[newKey := sid];
      }
      byID := byID[sid := rec.(head := rec.head.(joinCode := newCode, tokenHash := newHash, revoked := false))];
      return None;
    }

    method Close(sid: SessionId) returns (err: Option<StoreErr>)
      modifies this`byID
      ensures (State(), SeenDone(err)) == MemStep(old(State()), Op.Close(sid))
    {
      if sid !in byID { return Some(NotFound); }
      byID := byID[sid := byID[sid].(head := byID[sid].head.(closed := true))];
      return None;
    }

    method Delete(sid: SessionId) returns (err: Option<StoreErr>)
      modifies this
      ensures (State(), SeenDone(err)) == MemStep(old(State()), Op.Delete(sid))
    {
      if sid !in byID { return Some(NotFound); }
      if byID[sid].head.joinCode != "" { byCode := byCode - {Normalize(byID[sid].head.joinCode)}; }
      byID := byID - {sid};
      return None;
    }

    method List(f: Filter) returns (out: seq<Record>, ghost ids: seq<SessionId>)
      ensures Lists(byID, byID.Keys, f, ids) && |out| == |ids|
      ensures forall k :: 0 <= k < |ids| ==> out[k] == byID[ids[k]]
      ensures forall rec :: rec in out <==> exists sid :: sid in byID && byID[sid] == rec && Matches(f, rec.head)
      ensures forall i, j :: 0 <= i < j < |out| ==> out[i].head.createdAt <= out[j].head.createdAt
    {
      var found := Select(f);
      ids, out := found, [];
      for k := 0 to |found|
        invariant |out| == k && forall j :: 0 <= j < k ==> out[j] == byID[found[j]]
      {
        out := out + [byID[found[k]]];
      }
    }

    method Select(f: Filter) returns (ids: seq<SessionId>)
      ensures Lists(byID, byID.Keys, f, ids)
    {
      ids := [];
      var rest := byID.Keys;
      while rest != {}
        invariant rest <= byID.Keys && Lists(byID, byID.Keys - rest, f, ids)
      {
        var sid :| sid in rest;
        ghost var seen := byID.Keys - rest;
        rest := rest - {sid};
        assert byID.Keys - rest == seen + {sid};
        if Matches(f, byID[sid].head) {
          ids := Insert(seen, f, ids, sid);
        }
      }
    }

    /** sort.Slice by creation time, one session at a time. */
    method Insert(ghost seen: set<SessionId>, f: Filter, ids: seq<SessionId>, sid: SessionId) returns (ids': seq<SessionId>)
      requires Lists(byID, seen, f, ids) && sid in byID && sid !in seen && Matches(f, byID[sid].head)
      ensures Lists(byID, seen + {sid}, f, ids')
    {
      hide Inserted, Matches;
      var i := |ids|;
      while i > 0 && byID[sid].head.createdAt < byID[ids[i - 1]].head.createdAt
        invariant 0 <= i <= |ids|
        invariant i < |ids| ==> byID[sid].head.createdAt < byID[ids[i]].head.createdAt
      {
        i := i - 1;
      }
      ids' := Inserted(ids, i, sid);
      InsertedIsDistinct(ids, i, sid);
      InsertedIsOrdered(byID, ids, i, sid);
      forall o ensures o in ids' <==> o == sid || o in ids { InsertedMembers(ids, i, sid, o); }
    }
  }
}
