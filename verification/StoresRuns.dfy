/** The two stores over whole sequences of calls, whatever the calls: exactly when they give the same results
    throughout (internal/storage/memory.go against internal/storage/sqlite.go). */
module StoresRuns {
  import opened Machine
  import opened Records
  import opened Sessions
  import opened StoresAgree
  import M = MemoryStores
  import Q = SqliteStores

  /** The same sessions; the tables keep their constraints, and no list in memory has an ID twice. The code
      index and the NodeIDs may be in any state. */
  ghost predicate Matched(mem: M.Mem, t: Q.Tables)
  {
    M.Abs(mem) == Q.Abs(t) && Q.Schema(t) && Lists(mem)
  }

  ghost predicate Lists(mem: M.Mem)
  {
    forall sid :: sid in mem.byID ==> DistinctIds(mem.byID[sid].members)
  }

  /** A list whose members can be inserted one after the other. */
  ghost predicate Insertable(ms: seq<Member>) { DistinctIds(ms) && DistinctIndices(ById(ms)) }

  predicate MemoryRefuses(mem: M.Mem, rec: Record)
  {
    rec.head.id in mem.byID || (rec.head.joinCode != "" && Normalize(rec.head.joinCode) in mem.byCode)
  }

  /** What must hold for the answers to be the same, read off the call and memory's state before it. */
  ghost predicate SameAnswer(mem: M.Mem, op: Op)
  {
    var st := M.Abs(mem);
    match op
    case Create(rec, _) =>
      var taken := CodeTaken(st, Normalize(rec.head.joinCode));
      if MemoryRefuses(mem, rec)
      then rec.head.id == "" || rec.head.id in mem.byID || taken || !Insertable(rec.members)
      else rec.head.id != "" && !taken && rec.head.createdAt != 0 && Storable(rec.head.id, rec.members)
    case GetByJoinCode(code) =>
      var c := Normalize(code);
      if c in mem.byCode && mem.byCode[c] in mem.byID then HasCode(st, c, mem.byCode[c]) else !CodeTaken(st, c)
    case Join(sid, req, clock, _) =>
      sid !in mem.byID || mem.byID[sid].head.closed || IsExpired(mem.byID[sid].head, When(req.now, clock))
      || FirstIsLeast(mem.byID[sid].members, req.nodeId)
    case UpdateMember(_, _) => SameEffect(st, op)
    case RotateToken(sid, _, code) =>
      sid !in mem.byID || Normalize(code) == "" || Normalize(code) == Normalize(mem.byID[sid].head.joinCode)
      || (Normalize(code) in mem.byCode <==> CodeTaken(st, Normalize(code)))
    case _ => true
  }

  // ---- What the rows say about a session ---------------------------------------------------------

  lemma RowsTell(mem: M.Mem, t: Q.Tables, sid: SessionId)
    requires Matched(mem, t) && sid in mem.byID
    ensures sid in t.sessions && Q.Load(t, sid) == View(mem.byID[sid]) == M.Abs(mem)[sid]
    ensures sid != "" && mem.byID[sid].head.id == sid
    ensures Storable(sid, mem.byID[sid].members)
  {
    assert sid in M.Abs(mem) && sid in Q.Abs(t);
    assert Q.RowOk(t, sid);
    var s := Q.Load(t, sid);
    forall id | id in s.members ensures s.members[id].id == id && s.members[id].session == sid {
      Q.MemberRows(t, sid, id);
      Q.SchemaKeys(t, (sid, id));
    }
    forall a, b | a in s.members && b in s.members && s.members[a].index == s.members[b].index ensures a == b {
      Q.MemberRows(t, sid, a);
      Q.MemberRows(t, sid, b);
      assert (sid, a) == (sid, b);
    }
    hide Q.RowsOk, Q.LoadMembers, DistinctIds, ById, Normalize;
  }

  lemma SameKeys(mem: M.Mem, t: Q.Tables, sid: SessionId)
    requires M.Abs(mem) == Q.Abs(t)
    ensures sid in mem.byID <==> sid in t.sessions
    ensures sid in mem.byID <==> sid in M.Abs(mem)
  {
    assert sid in M.Abs(mem) <==> sid in Q.Abs(t);
  }

  lemma CodeInTables(t: Q.Tables, norm: string)
    requires Q.RowsOk(t)
    ensures Q.NormUsed(t, norm) <==> CodeTaken(Q.Abs(t), norm)
    ensures forall sid ::
      HasCode(Q.Abs(t), norm, sid) <==> sid in t.sessions && norm != "" && t.sessions[sid].norm == norm
  {
    hide Normalize, Q.LoadMembers;
    forall sid
      ensures HasCode(Q.Abs(t), norm, sid) <==> sid in t.sessions && norm != "" && t.sessions[sid].norm == norm
    {
      if sid in t.sessions { assert Q.RowOk(t, sid); }
    }
  }

  // ---- Calls on one session -----------------------------------------------------------------------

  predicate Plain(op: Op)
  {
    op.Get? || op.RemoveMember? || op.MarkOffline? || op.Revoke? || op.Close?
  }

  lemma PlainInMemory(mem: M.Mem, op: Op)
    requires Plain(op) && Lists(mem)
    ensures (M.Abs(M.MemStep(mem, op).0), M.MemStep(mem, op).1) == Lifted(M.Abs(mem), op)
    ensures Lists(M.MemStep(mem, op).0)
  {
    hide DistinctIds, ById, M.RecRemove, M.RecOffline, Removing, Offlining;
    if op.sid in mem.byID {
      var rec := mem.byID[op.sid];
      if op.RemoveMember? { M.RecRemoveViews(rec, op.mid); }
      if op.MarkOffline? { M.RecOfflineViews(rec, op.mid, op.conn, When(op.now, op.clock)); }
      assert M.Seen(M.RecApplied(rec, op)) == Applied(View(rec), op);
      match M.RecApplied(rec, op)
      case Err(_) =>
      case Ok((rec', _)) => M.AbsAfterWrite(mem, op.sid, rec');
    }
  }

  lemma AbsAt(t: Q.Tables, sid: SessionId)
    ensures sid in Q.Abs(t) <==> sid in t.sessions
    ensures sid in t.sessions ==> Q.Abs(t)[sid] == Q.Load(t, sid)
  {
    hide Q.Load;
  }

  lemma RemovedInTables(t: Q.Tables, sid: SessionId, mid: MemberId)
    ensures (Q.Abs(Q.SqlRemove(t, sid, mid).0), Q.SqlRemove(t, sid, mid).1) == Lifted(Q.Abs(t), RemoveMember(sid, mid))
  {
    hide Q.Load, Q.Abs;
    AbsAt(t, sid);
    if sid in t.sessions {
      Q.MemberRows(t, sid, mid);
      Q.AbsAfterRemove(t, sid, mid);
    }
  }

  lemma OfflineInTables(t: Q.Tables, sid: SessionId, mid: MemberId, conn: string, now: Time, clock: Time)
    requires Q.Schema(t)
    ensures var (t', out) := Q.SqlOffline(t, sid, mid, conn, When(now, clock));
      (Q.Abs(t'), out) == Lifted(Q.Abs(t), MarkOffline(sid, mid, conn, now, clock))
  {
    hide Q.Load, Q.Abs, Q.Schema;
    AbsAt(t, sid);
    if sid in t.sessions { Q.MemberRows(t, sid, mid); }
    if (sid, mid) in t.members {
      Q.SchemaKeys(t, (sid, mid));
      Q.AbsAfterRow(t, sid, t.members[(sid, mid)].(connectionId := "", leaveAt := When(now, clock)));
    }
  }

  lemma PlainInTables(t: Q.Tables, op: Op)
    requires Plain(op) && Q.Schema(t)
    ensures (Q.Abs(Q.SqlStep(t, op).0), Q.SqlStep(t, op).1) == Lifted(Q.Abs(t), op)
  {
    hide Q.Schema, Q.SqlRemove, Q.SqlOffline, Removing, Offlining, Q.LoadMembers;
    AbsAt(t, op.sid);
    match op
    case RemoveMember(sid, mid) => RemovedInTables(t, sid, mid);
    case MarkOffline(sid, mid, conn, now, clock) => OfflineInTables(t, sid, mid, conn, now, clock);
    case Get(sid) => assert sid in t.sessions ==> Q.Abs(t)[sid := Q.Load(t, sid)] == Q.Abs(t);
    case Revoke(sid) =>
      if sid in t.sessions { Q.AbsAfterHead(t, sid, t.sessions[sid].(head := t.sessions[sid].head.(revoked := true))); }
    case Close(sid) =>
      if sid in t.sessions { Q.AbsAfterHead(t, sid, t.sessions[sid].(head := t.sessions[sid].head.(closed := true))); }
  }

  lemma PlainAgrees(mem: M.Mem, t: Q.Tables, op: Op)
    requires Matched(mem, t) && Plain(op)
    ensures Agrees(mem, t, op) && Lists(M.MemStep(mem, op).0)
  {
    PlainInMemory(mem, op);
    PlainInTables(t, op);
    hide M.MemStep, Q.SqlStep, Lifted, M.Abs, Q.Abs, Lists, Q.Schema;
  }

  // ---- Whole sessions and codes -----------------------------------------------------------------

  lemma DeleteAgrees(mem: M.Mem, t: Q.Tables, sid: SessionId)
    requires Matched(mem, t)
    ensures Agrees(mem, t, Delete(sid)) && Lists(M.MemStep(mem, Delete(sid)).0)
  {
    hide Normalize, DistinctIds, Q.Schema, View, Q.Load;
    SameKeys(mem, t, sid);
    if sid in t.sessions {
      Q.AbsAfterDelete(t, sid);
      assert M.Abs(M.MemDelete(mem, sid).0) == M.Abs(mem) - {sid};
    }
  }

  lemma ListAgrees(mem: M.Mem, t: Q.Tables, f: Filter)
    requires Matched(mem, t)
    ensures Agrees(mem, t, List(f))
  {
    hide DistinctIds, Q.Schema, View, Q.LoadMembers;
    Q.ListRefines(t, f);
    assert (map sid | sid in mem.byID && Matches(f, mem.byID[sid].head) :: View(mem.byID[sid]))
        == (map sid | sid in M.Abs(mem) && Matches(f, M.Abs(mem)[sid].head) :: M.Abs(mem)[sid]) by {
      HeadsOfViews(mem);
    }
  }

  lemma HeadsOfViews(mem: M.Mem)
    ensures forall sid :: sid in mem.byID ==> View(mem.byID[sid]).head == mem.byID[sid].head
  {
    hide ById;
  }

  lemma OneCodeHolder(t: Q.Tables, c: string, a: SessionId, b: SessionId)
    requires Q.Schema(t) && HasCode(Q.Abs(t), c, a) && HasCode(Q.Abs(t), c, b)
    ensures a == b
  {
    CodeInTables(t, c);
    hide HasCode, Q.RowsOk, Q.Abs;
  }

  /** The tables find the one holder of a code. */
  lemma LookupInTables(t: Q.Tables, c: string)
    requires Q.Schema(t)
    ensures Q.SqlByCode(t, c).0 == t
    ensures !CodeTaken(Q.Abs(t), c) ==> Q.SqlByCode(t, c).1 == Err(NotFound)
    ensures forall sid :: HasCode(Q.Abs(t), c, sid) ==> Q.SqlByCode(t, c).1 == Ok(Found(Q.Abs(t)[sid]))
  {
    CodeInTables(t, c);
    hide Normalize, Q.LoadMembers, Q.RowsOk;
    forall sid | HasCode(Q.Abs(t), c, sid) ensures Q.SqlByCode(t, c).1 == Ok(Found(Q.Abs(t)[sid])) {
      forall o | o in t.sessions && t.sessions[o].norm == c ensures o == sid {}
    }
  }

  lemma LookupInMemory(mem: M.Mem, code: string)
    ensures var c, (mem', out) := Normalize(code), M.MemStep(mem, GetByJoinCode(code));
      && mem' == mem
      && out == (if c in mem.byCode && mem.byCode[c] in mem.byID then Ok(Found(M.Abs(mem)[mem.byCode[c]]))
                 else Err(NotFound))
  {
    hide Normalize, View;
  }

  lemma LookupAgreesIff(mem: M.Mem, t: Q.Tables, code: string)
    requires Matched(mem, t)
    ensures Agrees(mem, t, GetByJoinCode(code)) <==> SameAnswer(mem, GetByJoinCode(code))
  {
    hide Normalize, Q.SqlByCode, Q.Schema, Lists, M.MemStep, HasCode, M.Abs, Q.Abs;
    var c := Normalize(code);
    LookupInTables(t, c);
    LookupInMemory(mem, code);
    if c in mem.byCode && mem.byCode[c] in mem.byID && CodeTaken(M.Abs(mem), c) {
      var o :| HasCode(M.Abs(mem), c, o);
      HolderIsThere(M.Abs(mem), c, o);
      SameKeys(mem, t, mem.byCode[c]);
      if o != mem.byCode[c] {
        DifferentSessions(mem, t, mem.byCode[c], o);
        if HasCode(M.Abs(mem), c, mem.byCode[c]) { OneCodeHolder(t, c, o, mem.byCode[c]); }
      }
    }
  }

  lemma HolderIsThere(st: Store, c: string, sid: SessionId)
    requires HasCode(st, c, sid)
    ensures sid in st
  {
  }

  lemma DifferentSessions(mem: M.Mem, t: Q.Tables, a: SessionId, b: SessionId)
    requires Matched(mem, t) && a in M.Abs(mem) && b in M.Abs(mem) && a != b
    ensures M.Abs(mem)[a] != M.Abs(mem)[b]
  {
    RowsTell(mem, t, a);
    RowsTell(mem, t, b);
    hide Matched, ById;
  }

  lemma RotateInMemory(mem: M.Mem, op: Op)
    requires op.RotateToken? && op.sid in mem.byID
    ensures var old', new' := Normalize(mem.byID[op.sid].head.joinCode), Normalize(op.code);
      var (mem', out) := M.MemStep(mem, op);
      var head := mem.byID[op.sid].head.(joinCode := op.code, tokenHash := op.hash, revoked := false);
      if new' != "" && new' != old' && new' in mem.byCode then mem' == mem && out == Err(Conflict)
      else out == Ok(Done) && M.Abs(mem') == M.Abs(mem)[op.sid := M.Abs(mem)[op.sid].(head := head)]
           && mem'.byID == mem.byID[op.sid := mem.byID[op.sid].(head := head)]
  {
    hide Normalize, ById;
    var head := mem.byID[op.sid].head.(joinCode := op.code, tokenHash := op.hash, revoked := false);
    var mem' := M.MemStep(mem, op).0;
    var rec' := mem.byID[op.sid].(head := head);
    if M.MemStep(mem, op).1.Ok? {
      assert mem'.byID == mem.byID[op.sid := rec'];
      M.AbsAfterWrite(mem, op.sid, rec');
      assert M.Abs(mem') == M.Abs(mem.(byID := mem.byID[op.sid := rec']));
    }
  }

  lemma RotateInTables(t: Q.Tables, sid: SessionId, hash: string, code: string)
    requires sid in t.sessions && Q.RowsOk(t)
    ensures var old', new' := Normalize(t.sessions[sid].head.joinCode), Normalize(code);
      var (t', out) := Q.SqlStep(t, RotateToken(sid, hash, code));
      var head := t.sessions[sid].head.(joinCode := code, tokenHash := hash, revoked := false);
      if new' != old' && CodeTaken(Q.Abs(t), new') then t' == t && out == Err(Conflict)
      else out == Ok(Done) && Q.Abs(t') == Q.Abs(t)[sid := Q.Abs(t)[sid].(head := head)]
  {
    CodeInTables(t, Normalize(code));
    hide Normalize, Q.LoadMembers, Q.RowsOk, Q.NormUsed, CodeTaken, HasCode;
    AbsAt(t, sid);
    var head := t.sessions[sid].head.(joinCode := code, tokenHash := hash, revoked := false);
    Q.AbsAfterHead(t, sid, Q.Row(head, Normalize(code)));
  }

  lemma RotateAgreesIff(mem: M.Mem, t: Q.Tables, op: Op)
    requires Matched(mem, t) && op.RotateToken?
    ensures Agrees(mem, t, op) <==> SameAnswer(mem, op)
  {
    SameKeys(mem, t, op.sid);
    if op.sid in mem.byID {
      RotateAgreesWhenThere(mem, t, op);
    } else {
      hide Normalize, CodeTaken, Q.Schema, Lists, M.Abs, Q.Abs;
    }
  }

  /** Where memory refuses a new code, and where the tables do. */
  predicate MemoryRefusesCode(mem: M.Mem, was: string, code: string) { code != "" && code != was && code in mem.byCode }

  ghost predicate TablesRefuseCode(st: Store, was: string, code: string) { code != was && CodeTaken(st, code) }

  lemma RotateGuard(mem: M.Mem, op: Op)
    requires op.RotateToken? && op.sid in mem.byID
    ensures var was, code := Normalize(mem.byID[op.sid].head.joinCode), Normalize(op.code);
      SameAnswer(mem, op) <==> (MemoryRefusesCode(mem, was, code) <==> TablesRefuseCode(M.Abs(mem), was, code))
  {
    BlankNeverTaken(M.Abs(mem));
    hide Normalize, CodeTaken, M.Abs, FirstIsLeast, SameEffect, Storable, Insertable;
  }

  lemma RotateAgreesWhenThere(mem: M.Mem, t: Q.Tables, op: Op)
    requires Matched(mem, t) && op.RotateToken? && op.sid in mem.byID
    ensures Agrees(mem, t, op) <==> SameAnswer(mem, op)
  {
    assert Q.RowsOk(t);
    hide Normalize, M.MemStep, Q.SqlStep, CodeTaken, Q.Schema, Lists, M.Abs, Q.Abs, Storable, Q.RowsOk, View, Q.Load;
    hide SameAnswer;
    RowsTell(mem, t, op.sid);
    SameHead(mem, t, op.sid);
    RotateInMemory(mem, op);
    RotateInTables(t, op.sid, op.hash, op.code);
    RotateGuard(mem, op);
  }

  lemma SameHead(mem: M.Mem, t: Q.Tables, sid: SessionId)
    requires sid in mem.byID && sid in t.sessions && Q.Load(t, sid) == View(mem.byID[sid])
    ensures t.sessions[sid].head == mem.byID[sid].head
  {
    hide ById, Q.LoadMembers;
  }

  // ---- Create ------------------------------------------------------------------------------------

  lemma {:induction false} InsertableGoesIn(t: Q.Tables, sid: SessionId, ms: seq<Member>)
    requires sid in t.sessions && Q.LoadMembers(t, sid) == map[] && Insertable(ms)
    ensures Q.InsertAll(t, sid, ms).Ok?
    decreases |ms|
  {
    if ms != [] {
      var init, m := ms[..|ms| - 1], ms[|ms| - 1];
      InitIsInsertable(ms);
      hide Q.LoadMembers, Insertable, ById, Q.IndexUsed;
      InsertableGoesIn(t, sid, init);
      InsertedMeans(t, sid, init);
      LastGoesIn(Q.InsertAll(t, sid, init).value, sid, init, m);
    }
  }

  lemma InitIsInsertable(ms: seq<Member>)
    requires ms != [] && Insertable(ms)
    ensures var init, m := ms[..|ms| - 1], ms[|ms| - 1];
      Insertable(init) && m.id !in ById(init) && forall o :: o in ById(init) ==> ById(init)[o].index != m.index
  {
    var init, m := ms[..|ms| - 1], ms[|ms| - 1];
    ByIdLacks(init, m.id);
    assert m.id in ById(ms) && ById(ms)[m.id] == m;
    assert forall id :: id in ById(init) ==> id != m.id && id in ById(ms) && ById(init)[id] == ById(ms)[id];
  }

  lemma LastGoesIn(t: Q.Tables, sid: SessionId, init: seq<Member>, m: Member)
    requires sid in t.sessions && WentIn(sid, t, init) && m.id !in ById(init)
    requires forall o :: o in ById(init) ==> ById(init)[o].index != m.index
    ensures Q.InsertMember(t, sid, m).Ok?
  {
    Q.MemberRows(t, sid, m.id);
    Q.IndexUsedMeans(t, sid, m.index, m.id);
    hide Q.LoadMembers, ById, DistinctIds, DistinctIndices, Q.IndexUsed;
  }

  lemma {:induction false} InsertsOnlyConflict(t: Q.Tables, sid: SessionId, ms: seq<Member>)
    ensures Q.InsertAll(t, sid, ms).Err? ==> Q.InsertAll(t, sid, ms).error == Conflict
    decreases |ms|
  {
    if ms != [] { InsertsOnlyConflict(t, sid, ms[..|ms| - 1]); }
    hide Q.IndexUsed;
  }

  /** The tables refuse a new session for an unusable name, a taken code or members that cannot all go in. */
  lemma RefusedInTables(t: Q.Tables, rec: Record)
    requires Q.RowsOk(t)
    ensures var (t', out) := Q.SqlCreate(t, rec);
      var refused := rec.head.id == "" || rec.head.id in t.sessions
                     || CodeTaken(Q.Abs(t), Normalize(rec.head.joinCode)) || !Insertable(rec.members);
      if refused then t' == t && out == Err(Conflict) else out == Ok(Done)
  {
    var sid, norm := rec.head.id, Normalize(rec.head.joinCode);
    CodeInTables(t, norm);
    hide Normalize, Insertable, CodeTaken, Q.NormUsed, Q.LoadMembers;
    if sid != "" && sid !in t.sessions && !Q.NormUsed(t, norm) {
      var row := Q.Row(rec.head, norm);
      var t1 := t.(sessions := t.sessions[sid := row]);
      Q.NewRow(t, sid, row);
      hide Q.RowsOk;
      InsertsOnlyConflict(t1, sid, rec.members);
      if Insertable(rec.members) { InsertableGoesIn(t1, sid, rec.members); }
      if Q.InsertAll(t1, sid, rec.members).Ok? {
        InsertedMeans(t1, sid, rec.members);
        InsertableMeans(sid, Q.InsertAll(t1, sid, rec.members).value, rec.members);
      }
    }
  }

  lemma InsertableMeans(sid: SessionId, t: Q.Tables, ms: seq<Member>)
    requires WentIn(sid, t, ms)
    ensures Insertable(ms)
  {
  }

  lemma CreateInMemory(mem: M.Mem, rec: Record, clock: Time)
    ensures var (mem', out) := M.MemStep(mem, Create(rec, clock));
      if MemoryRefuses(mem, rec) then mem' == mem && out == Err(Conflict)
      else out == Ok(Done) && mem'.byID == mem.byID[rec.head.id := M.Dated(rec, clock)]
           && M.Abs(mem') == M.Abs(mem)[rec.head.id := View(M.Dated(rec, clock))]
  {
    hide Normalize, View;
  }

  /** What the tables make of a new session is what memory makes of it exactly when its members are storable
      and it brings a creation time. */
  lemma SameNewSession(t: Q.Tables, rec: Record, clock: Time)
    requires Q.RowsOk(t) && rec.head.id != "" && rec.head.id !in t.sessions && clock != 0
    requires !Q.NormUsed(t, Normalize(rec.head.joinCode))
    ensures var (t', out) := Q.SqlCreate(t, rec);
      out == Ok(Done) && Q.Abs(t') == Q.Abs(t)[rec.head.id := View(M.Dated(rec, clock))]
      <==> rec.head.createdAt != 0 && Storable(rec.head.id, rec.members)
  {
    var id := rec.head.id;
    CreateInTables(t, rec);
    DatedHead(rec, clock);
    if Q.SqlCreate(t, rec).1.Ok? { AbsAfterInsert(t, rec); }
    hide Normalize, Q.RowsOk, Q.Abs, Q.SqlCreate, Storable, Q.NormUsed, Stamped;
    var abs' := Q.Abs(t)[id := View(M.Dated(rec, clock))];
    assert id in abs' && abs'[id] == View(M.Dated(rec, clock));
  }

  lemma CreateAgreesIffMatched(mem: M.Mem, t: Q.Tables, rec: Record, clock: Time)
    requires Matched(mem, t) && clock != 0
    ensures Agrees(mem, t, Create(rec, clock)) <==> SameAnswer(mem, Create(rec, clock))
  {
    var id, norm := rec.head.id, Normalize(rec.head.joinCode);
    assert Q.RowsOk(t);
    hide Normalize, Q.RowsOk, Q.Schema, Lists, Q.NormUsed, CodeTaken, M.Abs, Q.Abs, Q.SqlCreate, M.MemCreate;
    hide Storable, Insertable;
    SameKeys(mem, t, id);
    CreateInMemory(mem, rec, clock);
    RefusedInTables(t, rec);
    CodeInTables(t, norm);
    if !MemoryRefuses(mem, rec) && id != "" && !CodeTaken(M.Abs(mem), norm) {
      SameNewSession(t, rec, clock);
    }
  }

  lemma DatedHead(rec: Record, clock: Time)
    requires clock != 0
    ensures View(M.Dated(rec, clock)) == View(rec) <==> rec.head.createdAt != 0
    ensures View(M.Dated(rec, clock)).head == rec.head <==> rec.head.createdAt != 0
  {
    hide ById;
  }

  lemma StorableIsInsertable(sid: SessionId, ms: seq<Member>)
    requires Storable(sid, ms)
    ensures Insertable(ms)
  {
  }

  // ---- Join --------------------------------------------------------------------------------------

  /** A join for which `who` is taken to be the node's member. */
  ghost function JoiningAs(s: Session, who: Option<MemberId>, req: JoinRequest, now: Time, rand: Random)
    : Result<(Session, Out), StoreErr>
    requires who == None || who.value in s.members
  {
    if s.head.closed then Err(Closed)
    else if IsExpired(s.head, now) then Err(Expired)
    else
      match who
      case Some(id) => Ok(Rejoin(s, id, req, now))
      case None =>
        var index := FreeIndex(Indices(s.members));
        match Refusal(s.head, |ActiveIds(s.members)|, index)
        case Some(e) => Err(e)
        case None => Ok(Enter(s, Draw(rand, s.members.Keys), index, req, now))
  }

  /** Whom the list picks: the first with the node. */
  ghost function ListPick(ms: seq<Member>, node: NodeId): (who: Option<MemberId>)
    ensures who != None ==> who.value in ById(ms)
  {
    var i := IndexOfNode(ms, node);
    if i < |ms| then IndexDecides(ms, ms[i].id); ByIdKeys(ms, ms[i].id); Some(ms[i].id) else None
  }

  lemma RecJoinPicks(rec: Record, req: JoinRequest, now: Time, rand: Random)
    requires DistinctIds(rec.members)
    ensures var who := ListPick(rec.members, req.nodeId);
      M.Seen(M.RecJoin(rec, req, now, rand)) == JoiningAs(View(rec), who, req, now, rand)
    ensures M.RecJoin(rec, req, now, rand).Ok? ==> DistinctIds(M.RecJoin(rec, req, now, rand).value.0.members)
  {
    var ms := rec.members;
    var i := IndexOfNode(ms, req.nodeId);
    if i < |ms| {
      ByIdAt(ms, i);
      ByIdUpdate(ms, i, Refreshed(rec.head, ms[i], req, now));
    } else {
      IndicesOfList(ms);
      ActiveCountIsSize(ms);
      var m := Newcomer(rec.head, Draw(rand, ById(ms).Keys), FreeIndex(UsedIn(ms)), req, now);
      ByIdAppend(ms, m);
      M.AppendKeepsDistinct(ms, m);
    }
    hide DistinctIds, ById, Newcomer, Refreshed, FreeIndex, Draw;
  }

  /** A result written into the store. */
  ghost function Stored(st: Store, sid: SessionId, r: Result<(Session, Out), StoreErr>): (Store, Response)
  {
    match r
    case Err(e) => (st, Err(e))
    case Ok((s, out)) => (st[sid := s], Ok(out))
  }

  lemma JoinInMemory(mem: M.Mem, op: Op)
    requires op.Join? && op.sid in mem.byID && Lists(mem)
    ensures var rec, now := mem.byID[op.sid], When(op.req.now, op.clock);
      var who := ListPick(rec.members, op.req.nodeId);
      (M.Abs(M.MemStep(mem, op).0), M.MemStep(mem, op).1)
        == Stored(M.Abs(mem), op.sid, JoiningAs(View(rec), who, op.req, now, op.rand))
    ensures Lists(M.MemStep(mem, op).0)
  {
    var rec := mem.byID[op.sid];
    RecJoinPicks(rec, op.req, When(op.req.now, op.clock), op.rand);
    hide DistinctIds, ById, M.RecJoin, JoiningAs, ListPick;
    match M.RecApplied(rec, op)
    case Err(_) =>
    case Ok((rec', _)) => M.AbsAfterWrite(mem, op.sid, rec');
  }

  lemma RejoinInTables(t: Q.Tables, sid: SessionId, id: MemberId, req: JoinRequest, now: Time)
    requires Q.Schema(t) && sid in t.sessions && id in Q.Load(t, sid).members
    ensures var s := Q.Load(t, sid);
      (Q.Abs(Q.SqlRejoin(t, sid, id, req, now).0), Q.SqlRejoin(t, sid, id, req, now).1)
        == (Q.Abs(t)[sid := Rejoin(s, id, req, now).0], Ok(Rejoin(s, id, req, now).1))
    ensures Q.Schema(Q.SqlRejoin(t, sid, id, req, now).0)
  {
    var s := Q.Load(t, sid);
    Q.MemberRows(t, sid, id);
    Q.SchemaKeys(t, (sid, id));
    var m := Refreshed(s.head, s.members[id], req, now);
    OwnIndexIsFree(t, sid, id);
    hide Q.Load, Q.Schema, Q.IndexUsed, Q.Abs;
    assert m.id == id && m.session == sid && m.index == s.members[id].index;
    assert m.(session := sid) == m;
    hide Refreshed;
    Q.AbsAfterRow(t, sid, m);
    Q.WriteKeepsSchema(t, sid, m);
  }

  lemma OwnIndexIsFree(t: Q.Tables, sid: SessionId, id: MemberId)
    requires Q.Schema(t) && (sid, id) in t.members
    ensures !Q.IndexUsed(t, sid, t.members[(sid, id)].index, id)
  {
    hide Q.RowsOk, Q.NormUnique;
  }

  lemma EnterInTables(t: Q.Tables, sid: SessionId, req: JoinRequest, now: Time, rand: Random)
    requires Q.Schema(t) && sid in t.sessions && FreeIndex(Indices(Q.Load(t, sid).members)) != 0
    ensures var s := Q.Load(t, sid);
      var id, index := Draw(rand, s.members.Keys), FreeIndex(Indices(s.members));
      var (t', out) := Q.SqlEnter(t, sid, id, index, req, now);
      && (Q.Abs(t'), out) == (Q.Abs(t)[sid := Enter(s, id, index, req, now).0], Ok(Enter(s, id, index, req, now).1))
      && Q.Schema(t')
  {
    var s := Q.Load(t, sid);
    var id, index := Draw(rand, s.members.Keys), FreeIndex(Indices(s.members));
    Q.MemberRows(t, sid, id);
    Q.IndexUsedMeans(t, sid, index, id);
    forall o | o in s.members ensures s.members[o].index != index { FreshIndex(s.members, o); }
    assert Q.RowOk(t, sid);
    var m := Newcomer(s.head, id, index, req, now);
    assert m.(session := sid) == m && m.id == id && m.index == index;
    hide Q.IndexUsed, Q.LoadMembers, FreeIndex, Draw, Newcomer;
    assert Q.InsertMember(t, sid, m) == Ok(t.(members := t.members[(sid, id) := m]));
    Q.EnterWrites(t, sid, m, Admitted(s.head, id));
    Q.EnteredSchema(t, sid, m, t.sessions[sid].(head := Admitted(s.head, id)));
    hide Q.Schema, Q.RowsOk, Q.Abs;
  }

  /** The tables as they stand after a join by that member, or by a newcomer. */
  ghost predicate JoinedInto(t: Q.Tables, sid: SessionId, r: (Q.Tables, Response), s': Session, out: Out)
  {
    Q.Abs(r.0) == Q.Abs(t)[sid := s'] && r.1 == Ok(out) && Q.Schema(r.0)
  }

  lemma SqlJoinCases(t: Q.Tables, sid: SessionId, req: JoinRequest, now: Time, rand: Random)
    requires sid in t.sessions && Q.Schema(t)
    ensures var s := Q.Load(t, sid);
      var r := Q.SqlJoin(t, sid, req, now, rand);
      match JoiningAs(s, ByNode(s.members, req.nodeId), req, now, rand)
      case Err(e) => r == (t, Err(e))
      case Ok((s', out)) => JoinedInto(t, sid, r, s', out)
  {
    hide Q.Load, Q.Schema, Q.Abs, Q.SqlRejoin, Q.SqlEnter, Rejoin, Enter, Refusal, IsExpired, FreeIndex, Draw;
    var s := Q.Load(t, sid);
    if ByNode(s.members, req.nodeId).Some? {
      RejoinInTables(t, sid, ByNode(s.members, req.nodeId).value, req, now);
    } else if FreeIndex(Indices(s.members)) == 0 {
      Q.NoIndexNoEntry(s.head, |ActiveIds(s.members)|);
    } else {
      EnterInTables(t, sid, req, now, rand);
    }
  }

  lemma JoinInTables(t: Q.Tables, op: Op)
    requires op.Join? && op.sid in t.sessions && Q.Schema(t)
    ensures var s := Q.Load(t, op.sid);
      (Q.Abs(Q.SqlStep(t, op).0), Q.SqlStep(t, op).1)
        == Stored(Q.Abs(t), op.sid,
                  JoiningAs(s, ByNode(s.members, op.req.nodeId), op.req, When(op.req.now, op.clock), op.rand))
    ensures Q.Schema(Q.SqlStep(t, op).0)
  {
    hide Q.Load, Q.Schema, Q.Abs, Q.SqlJoin, JoiningAs;
    SqlJoinCases(t, op.sid, op.req, When(op.req.now, op.clock), op.rand);
  }

  lemma PicksMeet(sid: SessionId, ms: seq<Member>, node: NodeId)
    requires Storable(sid, ms)
    ensures ListPick(ms, node) == ByNode(ById(ms), node) <==> FirstIsLeast(ms, node)
    ensures ListPick(ms, node) == None <==> ByNode(ById(ms), node) == None
  {
    if IndexOfNode(ms, node) < |ms| {
      LeastByNode(sid, ms, node);
    } else if ByNode(ById(ms), node) != None {
      ByIdKeys(ms, ByNode(ById(ms), node).value);
      assert false;
    }
    hide ById, DistinctIds;
  }

  /** Different picks give different answers, where the session lets anyone in. */
  lemma PicksShow(s: Session, a: Option<MemberId>, b: Option<MemberId>, req: JoinRequest, now: Time, rand: Random)
    requires (a == None || a.value in s.members) && (b == None || b.value in s.members) && (a == None <==> b == None)
    requires forall id :: id in s.members ==> s.members[id].id == id
    ensures JoiningAs(s, a, req, now, rand) == JoiningAs(s, b, req, now, rand)
       <==> a == b || s.head.closed || IsExpired(s.head, now)
    ensures JoiningAs(s, a, req, now, rand) != JoiningAs(s, b, req, now, rand) ==>
      && JoiningAs(s, a, req, now, rand).Ok? && JoiningAs(s, b, req, now, rand).Ok?
      && JoiningAs(s, a, req, now, rand).value.1 != JoiningAs(s, b, req, now, rand).value.1
  {
    hide FreeIndex, Draw, Enter;
  }

  lemma JoinAgreesIff(mem: M.Mem, t: Q.Tables, op: Op)
    requires Matched(mem, t) && op.Join?
    ensures Agrees(mem, t, op) <==> SameAnswer(mem, op)
  {
    SameKeys(mem, t, op.sid);
    if op.sid in mem.byID {
      JoinAgreesWhenThere(mem, t, op);
    } else {
      hide Lists, Q.Schema, M.Abs, Q.Abs, FirstIsLeast;
    }
  }

  lemma JoinAgreesWhenThere(mem: M.Mem, t: Q.Tables, op: Op)
    requires Matched(mem, t) && op.Join? && op.sid in mem.byID
    ensures Agrees(mem, t, op) <==> SameAnswer(mem, op)
  {
    hide Lists, Q.Schema, M.MemStep, Q.SqlStep, M.Abs, Q.Abs, Q.Load, ById, JoiningAs, ListPick, FirstIsLeast;
    hide IsExpired, DistinctIds, DistinctIndices;
    RowsTell(mem, t, op.sid);
    var rec, now := mem.byID[op.sid], When(op.req.now, op.clock);
    assert Keyed(op.sid, ById(rec.members));
    JoinInMemory(mem, op);
    JoinInTables(t, op);
    PicksMeet(op.sid, rec.members, op.req.nodeId);
    hide Storable;
    var a, b := ListPick(rec.members, op.req.nodeId), ByNode(ById(rec.members), op.req.nodeId);
    PicksShow(View(rec), a, b, op.req, now, op.rand);
  }

  // ---- One step ----------------------------------------------------------------------------------

  /** A clock never reads the zero time. */
  predicate Timely(op: Op) { op.Create? ==> op.clock != 0 }

  /** From matched states, whatever the code index and the NodeIDs: one call is answered alike and leaves the
      same sessions if and only if the guard holds. */
  lemma StepAgreesIff(mem: M.Mem, t: Q.Tables, op: Op)
    requires Matched(mem, t) && Timely(op)
    ensures Agrees(mem, t, op) <==> SameAnswer(mem, op)
  {
    assert M.Abs(mem) == Q.Abs(t) && Lists(mem);
    hide Matched, Agrees, DistinctIds;
    match op
    case Create(rec, clock) => CreateAgreesIffMatched(mem, t, rec, clock);
    case GetByJoinCode(code) => LookupAgreesIff(mem, t, code);
    case Join(_, _, _, _) => JoinAgreesIff(mem, t, op);
    case UpdateMember(sid, m) => UpdateAgreesIff(mem, t, sid, m);
    case RotateToken(_, _, _) => RotateAgreesIff(mem, t, op);
    case Delete(sid) => DeleteAgrees(mem, t, sid);
    case List(f) => ListAgrees(mem, t, f);
    case _ => PlainAgrees(mem, t, op);
  }

  lemma FlagKeepsSchema(t: Q.Tables, op: Op)
    requires Q.Schema(t) && (op.Revoke? || op.Close?)
    ensures Q.Schema(Q.SqlStep(t, op).0)
  {
    if op.sid in t.sessions {
      assert Q.RowOk(t, op.sid);
      var head := t.sessions[op.sid].head;
      var head' := if op.Revoke? then head.(revoked := true) else head.(closed := true);
      hide Q.Schema, Normalize;
      Q.SessionWriteKeepsSchema(t, op.sid, t.sessions[op.sid].(head := head'));
    }
  }

  lemma RotateKeepsSchema(t: Q.Tables, sid: SessionId, hash: string, code: string)
    requires Q.Schema(t)
    ensures Q.Schema(Q.SqlRotate(t, sid, hash, code).0)
  {
    if sid in t.sessions {
      assert Q.RowOk(t, sid);
      hide Q.Schema, Normalize, Q.NormUsed;
      var head := t.sessions[sid].head.(joinCode := code, tokenHash := hash, revoked := false);
      if Q.SqlRotate(t, sid, hash, code).1.Ok? { Q.SessionWriteKeepsSchema(t, sid, Q.Row(head, Normalize(code))); }
    }
  }

  lemma UpdateKeepsSchema(t: Q.Tables, sid: SessionId, m: Member)
    requires Q.Schema(t)
    ensures Q.Schema(Q.SqlUpdate(t, sid, m).0)
  {
    hide Q.Schema, Q.IndexUsed;
    if Q.SqlUpdate(t, sid, m).1.Ok? { Q.WriteKeepsSchema(t, sid, m); }
  }

  /** Every call keeps the keys and the unique constraints of the tables. */
  lemma StepKeepsSchema(t: Q.Tables, op: Op)
    requires Q.Schema(t)
    ensures Q.Schema(Q.SqlStep(t, op).0)
  {
    hide Q.Schema, Q.SqlCreate, Q.SqlJoin, Q.SqlUpdate, Q.SqlRemove, Q.SqlOffline, Q.SqlRotate, Q.SqlDelete, Q.SqlByCode;
    match op
    case Create(rec, _) => Q.CreateKeepsSchema(t, rec);
    case Join(sid, _, _, _) => if sid in t.sessions { JoinInTables(t, op); } else { JoinsNowhere(t, op); }
    case UpdateMember(sid, m) => UpdateKeepsSchema(t, sid, m);
    case RemoveMember(sid, mid) => Q.RemoveKeepsSchema(t, sid, mid);
    case MarkOffline(sid, mid, conn, now, clock) => Q.OfflineKeepsSchema(t, sid, mid, conn, When(now, clock));
    case Revoke(_) => FlagKeepsSchema(t, op);
    case Close(_) => FlagKeepsSchema(t, op);
    case RotateToken(sid, hash, code) => RotateKeepsSchema(t, sid, hash, code);
    case Delete(sid) => Q.DeleteKeepsSchema(t, sid);
    case GetByJoinCode(code) => LookupInTables(t, Normalize(code));
    case _ =>
  }

  lemma JoinsNowhere(t: Q.Tables, op: Op)
    requires op.Join? && op.sid !in t.sessions
    ensures Q.SqlStep(t, op).0 == t
  {
  }

  lemma UpdateKeepsLists(mem: M.Mem, sid: SessionId, m: Member)
    requires Lists(mem)
    ensures Lists(M.MemStep(mem, UpdateMember(sid, m)).0)
  {
    if sid in mem.byID { M.RecUpdateViews(mem.byID[sid], m); }
    hide DistinctIds, M.RecUpdate, ById;
  }

  lemma OthersKeepLists(mem: M.Mem, op: Op)
    requires Lists(mem) && (op.GetByJoinCode? || op.List? || op.Delete? || op.RotateToken?)
    ensures Lists(M.MemStep(mem, op).0)
  {
    hide DistinctIds, Normalize, View;
    if op.RotateToken? && op.sid in mem.byID { RotateInMemory(mem, op); }
  }

  lemma AgreeingStepKeepsLists(mem: M.Mem, t: Q.Tables, op: Op)
    requires Matched(mem, t) && Timely(op) && SameAnswer(mem, op)
    ensures Lists(M.MemStep(mem, op).0)
  {
    match op
    case Create(rec, clock) =>
      CreateInMemory(mem, rec, clock);
      hide DistinctIds, Normalize, M.MemStep, ById;
    case Join(sid, _, _, _) =>
      hide DistinctIds, M.RecJoin;
      if sid in mem.byID { JoinInMemory(mem, op); }
    case UpdateMember(sid, m) => UpdateKeepsLists(mem, sid, m);
    case Get(_) => PlainInMemory(mem, op);
    case RemoveMember(_, _) => PlainInMemory(mem, op);
    case MarkOffline(_, _, _, _, _) => PlainInMemory(mem, op);
    case Revoke(_) => PlainInMemory(mem, op);
    case Close(_) => PlainInMemory(mem, op);
    case _ => OthersKeepLists(mem, op);
  }

  lemma StepStaysMatched(mem: M.Mem, t: Q.Tables, op: Op)
    requires Matched(mem, t) && Timely(op) && Agrees(mem, t, op)
    ensures Matched(M.MemStep(mem, op).0, Q.SqlStep(t, op).0)
  {
    hide M.MemStep, Q.SqlStep, Q.Schema, Lists, M.Abs, Q.Abs, SameAnswer;
    StepAgreesIff(mem, t, op);
    AgreeingStepKeepsLists(mem, t, op);
    StepKeepsSchema(t, op);
  }

  // ---- Whole runs ----------------------------------------------------------------------------------

  /** So far every call has been answered alike and left the same sessions. */
  ghost predicate AlikeThroughout(ops: seq<Op>)
  {
    forall i :: 0 <= i < |ops| ==> Agrees(MemRun(ops[..i]).0, SqlRun(ops[..i]).0, ops[i])
  }

  /** The guard, at every call, on the memory store alone. */
  ghost predicate GuardedThroughout(ops: seq<Op>)
  {
    forall i :: 0 <= i < |ops| ==> SameAnswer(MemRun(ops[..i]).0, ops[i])
  }

  predicate AllTimely(ops: seq<Op>) { forall i :: 0 <= i < |ops| ==> Timely(ops[i]) }

  lemma EmptyIsMatched()
    ensures Matched(MemRun([]).0, SqlRun([]).0)
  {
    assert M.Abs(M.Mem(map[], map[])) == map[] == Q.Abs(Q.Tables(map[], map[]));
  }

  lemma PrefixNext(ops: seq<Op>, i: nat)
    requires i < |ops|
    ensures MemRun(ops[..i + 1]).0 == M.MemStep(MemRun(ops[..i]).0, ops[i]).0
    ensures SqlRun(ops[..i + 1]).0 == Q.SqlStep(SqlRun(ops[..i]).0, ops[i]).0
  {
    assert ops[..i + 1] == ops[..i] + [ops[i]];
    RunNext(ops[..i], ops[i]);
    hide M.MemStep, Q.SqlStep;
  }

  lemma {:induction false} MatchedWhileAlike(ops: seq<Op>, i: nat)
    requires i <= |ops| && AllTimely(ops)
    requires forall j :: 0 <= j < i ==> Agrees(MemRun(ops[..j]).0, SqlRun(ops[..j]).0, ops[j])
    ensures Matched(MemRun(ops[..i]).0, SqlRun(ops[..i]).0)
    decreases i
  {
    hide MemRun, SqlRun, Matched, Agrees;
    if i == 0 {
      EmptyIsMatched();
      assert ops[..0] == [];
    } else {
      MatchedWhileAlike(ops, i - 1);
      StepStaysMatched(MemRun(ops[..i - 1]).0, SqlRun(ops[..i - 1]).0, ops[i - 1]);
      PrefixNext(ops, i - 1);
    }
  }

  lemma {:induction false} AlikeWhileGuarded(ops: seq<Op>, i: nat)
    requires i <= |ops| && AllTimely(ops) && GuardedThroughout(ops)
    ensures forall j :: 0 <= j < i ==> Agrees(MemRun(ops[..j]).0, SqlRun(ops[..j]).0, ops[j])
    decreases i
  {
    hide MemRun, SqlRun, Matched, Agrees, SameAnswer;
    if i > 0 {
      AlikeWhileGuarded(ops, i - 1);
      MatchedWhileAlike(ops, i - 1);
      StepAgreesIff(MemRun(ops[..i - 1]).0, SqlRun(ops[..i - 1]).0, ops[i - 1]);
    }
  }

  /** Over every sequence of calls whatsoever, from two empty stores: every call is answered alike and leaves
      the same sessions if and only if the guard holds at every call, on what is in the memory store. */
  lemma {:induction false} RunsAgreeIff(ops: seq<Op>)
    requires AllTimely(ops)
    ensures AlikeThroughout(ops) <==> GuardedThroughout(ops)
  {
    hide MemRun, SqlRun, Matched, Agrees, SameAnswer;
    if GuardedThroughout(ops) { AlikeWhileGuarded(ops, |ops|); }
    if AlikeThroughout(ops) {
      forall i | 0 <= i < |ops| ensures SameAnswer(MemRun(ops[..i]).0, ops[i]) {
        MatchedWhileAlike(ops, i);
        StepAgreesIff(MemRun(ops[..i]).0, SqlRun(ops[..i]).0, ops[i]);
      }
    }
  }

  lemma AgreesMeansSame(mem: M.Mem, t: Q.Tables, op: Op)
    requires Agrees(mem, t, op)
    ensures M.MemStep(mem, op).1 == Q.SqlStep(t, op).1
    ensures M.Abs(M.MemStep(mem, op).0) == Q.Abs(Q.SqlStep(t, op).0)
  {
    hide M.MemStep, Q.SqlStep, M.Abs, Q.Abs;
  }

  lemma AlikeBefore(ops: seq<Op>)
    requires ops != [] && AlikeThroughout(ops)
    ensures var init := ops[..|ops| - 1];
      AlikeThroughout(init) && Agrees(MemRun(init).0, SqlRun(init).0, ops[|ops| - 1])
  {
    hide MemRun, SqlRun, Agrees;
    var init := ops[..|ops| - 1];
    forall i | 0 <= i < |init| ensures Agrees(MemRun(init[..i]).0, SqlRun(init[..i]).0, init[i]) {
      assert init[..i] == ops[..i] && init[i] == ops[i];
    }
  }

  lemma NothingDone()
    ensures MemRun([]).1 == SqlRun([]).1 && M.Abs(MemRun([]).0) == Q.Abs(SqlRun([]).0)
  {
    EmptyIsMatched();
  }

  /** Alike throughout means the same list of results and, at the end, the same sessions. */
  lemma {:induction false} AlikeMeansSameResults(ops: seq<Op>)
    requires AlikeThroughout(ops)
    ensures MemRun(ops).1 == SqlRun(ops).1 && M.Abs(MemRun(ops).0) == Q.Abs(SqlRun(ops).0)
    decreases |ops|
  {
    hide AlikeThroughout, MemRun, SqlRun, Agrees, M.MemStep, Q.SqlStep, M.Abs, Q.Abs;
    if ops == [] {
      NothingDone();
    } else {
      var init, last := ops[..|ops| - 1], ops[|ops| - 1];
      AlikeBefore(ops);
      AlikeMeansSameResults(init);
      AgreesMeansSame(MemRun(init).0, SqlRun(init).0, last);
      RunNext(init, last);
      assert ops == init + [last];
    }
  }

  // ---- A code of blanks and dashes ------------------------------------------------------------------

  lemma IndexTells(mem: M.Mem, c: string)
    requires M.CodesIndexed(mem)
    ensures c in mem.byCode <==> CodeTaken(M.Abs(mem), c)
    ensures c in mem.byCode ==> HasCode(M.Abs(mem), c, mem.byCode[c]) && mem.byCode[c] in mem.byID
  {
    hide Normalize, View;
    if CodeTaken(M.Abs(mem), c) {
      var sid :| HasCode(M.Abs(mem), c, sid);
    }
    if c in mem.byCode { assert HasCode(M.Abs(mem), c, mem.byCode[c]); }
  }

  lemma BlankNeverTaken(st: Store)
    ensures !CodeTaken(st, "") && Normalize("") == ""
  {
  }

  /** With an exact index, lookups are answered alike, and so are new sessions the tables would take. */
  lemma ExactIndexAgrees(mem: M.Mem, t: Q.Tables, op: Op)
    requires Matched(mem, t) && M.CodesIndexed(mem) && Timely(op)
    requires op.GetByJoinCode? || (op.Create? && SameEffect(M.Abs(mem), op))
    ensures Agrees(mem, t, op)
  {
    var c := Normalize(if op.Create? then op.rec.head.joinCode else op.code);
    IndexTells(mem, c);
    BlankNeverTaken(M.Abs(mem));
    StepAgreesIff(mem, t, op);
    hide Agrees, Matched, M.CodesIndexed, CodeTaken, HasCode, Normalize;
    if op.Create? {
      assert op.rec.head.id in M.Abs(mem) <==> op.rec.head.id in mem.byID;
      if Storable(op.rec.head.id, op.rec.members) { StorableIsInsertable(op.rec.head.id, op.rec.members); }
      hide Storable, Insertable, M.Abs;
    }
  }

  lemma HolderAfter(st: Store, id: SessionId, s: Session, c: string, sid: SessionId)
    requires id !in st
    ensures HasCode(st[id := s], c, sid)
       <==> if sid == id then c != "" && Normalize(s.head.joinCode) == c else HasCode(st, c, sid)
  {
    hide Normalize;
  }

  lemma CreatedIsIndexed(mem: M.Mem, t: Q.Tables, rec: Record, clock: Time)
    requires Matched(mem, t) && M.CodesIndexed(mem) && clock != 0
    requires Agrees(mem, t, Create(rec, clock)) && !MemoryRefuses(mem, rec) && !BlankButNamed(rec)
    ensures M.CodesIndexed(M.MemStep(mem, Create(rec, clock)).0)
  {
    var (mem', id, code) := (M.MemStep(mem, Create(rec, clock)).0, rec.head.id, Normalize(rec.head.joinCode));
    StepAgreesIff(mem, t, Create(rec, clock));
    assert rec.head.createdAt != 0;
    CreateInMemory(mem, rec, clock);
    BlankNeverTaken(M.Abs(mem));
    IndexTells(mem, code);
    ViewHead(rec);
    assert id !in M.Abs(mem) by { hide Normalize, View; }
    IndexAfterCreate(mem, rec, clock);
    assert M.Dated(rec, clock) == rec;
    hide Matched, Agrees, Normalize, View, CodeTaken, Storable, HasCode, M.Abs, MemoryRefuses, M.MemStep;
    forall c, sid ensures (c in mem'.byCode && mem'.byCode[c] == sid) <==> HasCode(M.Abs(mem'), c, sid) {
      HolderAfter(M.Abs(mem), id, View(rec), c, sid);
      KnownHolder(M.Abs(mem), c, id);
      if HasCode(M.Abs(mem), code, sid) { Taken(M.Abs(mem), code, sid); }
    }
  }

  lemma KnownHolder(st: Store, c: string, id: SessionId)
    ensures id !in st ==> !HasCode(st, c, id)
  {
  }

  lemma IndexAfterCreate(mem: M.Mem, rec: Record, clock: Time)
    requires !MemoryRefuses(mem, rec)
    ensures M.MemStep(mem, Create(rec, clock)).0.byCode
         == if rec.head.joinCode != "" then mem.byCode[Normalize(rec.head.joinCode) := rec.head.id] else mem.byCode
  {
    hide Normalize;
  }

  lemma Taken(st: Store, c: string, sid: SessionId)
    requires HasCode(st, c, sid)
    ensures CodeTaken(st, c)
  {
  }

  lemma ViewHead(rec: Record)
    ensures View(rec).head == rec.head
  {
  }

  lemma BlankIsIndexed(mem: M.Mem, rec: Record, clock: Time)
    requires !MemoryRefuses(mem, rec) && BlankButNamed(rec)
    ensures var mem' := M.MemStep(mem, Create(rec, clock)).0;
      "" in mem'.byCode && mem'.byCode[""] == rec.head.id && rec.head.id in mem'.byID
  {
    hide Normalize, View;
  }

  /** A new session under any such code, with no members and a name nobody has. */
  function Another(id: SessionId, code: string): Record
  {
    Record(Head(id, "", code, "", 0, 0, 0, false, "", false, false, 1, 0, 0), [])
  }

  lemma AnotherHasSameEffect(st: Store, id: SessionId, code: string)
    requires id != "" && id !in st
    ensures SameEffect(st, Create(Another(id, code), 1)) && Insertable([])
  {
  }

  lemma BlankShows(mem: M.Mem, t: Q.Tables, code: string) returns (next: Record)
    requires Matched(mem, t) && "" in mem.byCode && mem.byCode[""] in mem.byID && code != "" && Normalize(code) == ""
    ensures !Agrees(mem, t, GetByJoinCode(code))
    ensures SameEffect(M.Abs(mem), Create(next, 1)) && !Agrees(mem, t, Create(next, 1)) && next.head.joinCode == code
  {
    var id := Probe("s", mem.byID.Keys + {""}, 0);
    next := Another(id, code);
    BlankNeverTaken(M.Abs(mem));
    assert id !in mem.byID && id != "" && id !in M.Abs(mem);
    AnotherHasSameEffect(M.Abs(mem), id, code);
    StepAgreesIff(mem, t, GetByJoinCode(code));
    StepAgreesIff(mem, t, Create(next, 1));
    hide Agrees, Matched, Normalize, Insertable, Storable, Probe;
    assert !HasCode(M.Abs(mem), "", mem.byCode[""]);
    hide CodeTaken, M.Abs;
  }

  /** Where the index was exact and a new session was taken alike: some later lookup is answered differently
      if and only if its code is named but blank, and so is some later session that memory and tables would
      both take but for that. */
  lemma BlankCodeShowsIff(mem: M.Mem, t: Q.Tables, rec: Record, clock: Time)
    requires Matched(mem, t) && M.CodesIndexed(mem) && clock != 0
    requires Agrees(mem, t, Create(rec, clock)) && !MemoryRefuses(mem, rec)
    ensures var (mem', t') := (M.MemStep(mem, Create(rec, clock)).0, Q.SqlStep(t, Create(rec, clock)).0);
      && (BlankButNamed(rec) <==> exists code :: !Agrees(mem', t', GetByJoinCode(code)))
      && (BlankButNamed(rec) <==> exists next, clock' ::
            clock' != 0 && SameEffect(M.Abs(mem'), Create(next, clock')) && !Agrees(mem', t', Create(next, clock')))
  {
    var (mem', t') := (M.MemStep(mem, Create(rec, clock)).0, Q.SqlStep(t, Create(rec, clock)).0);
    StepStaysMatched(mem, t, Create(rec, clock));
    if BlankButNamed(rec) {
      BlankIsIndexed(mem, rec, clock);
      hide Agrees, Matched, M.MemStep, Q.SqlStep, Normalize, SameEffect, M.CodesIndexed;
      var next := BlankShows(mem', t', rec.head.joinCode);
    } else {
      CreatedIsIndexed(mem, t, rec, clock);
      hide Agrees, Matched, M.MemStep, Q.SqlStep, Normalize, SameEffect, M.CodesIndexed;
      forall code ensures Agrees(mem', t', GetByJoinCode(code)) { ExactIndexAgrees(mem', t', GetByJoinCode(code)); }
      forall next, clock' | clock' != 0 && SameEffect(M.Abs(mem'), Create(next, clock'))
        ensures Agrees(mem', t', Create(next, clock'))
      {
        ExactIndexAgrees(mem', t', Create(next, clock'));
      }
    }
  }

  lemma DashIsBlank()
    ensures Normalize("-") == ""
  {
    assert TrimRight("-") == "-" && TrimLeft("-") == "-";
    assert Compact("-") == Compact([]);
  }

  lemma AnotherFits(mem: M.Mem, code: string)
    requires mem == M.Mem(map[], map[])
    ensures SameAnswer(mem, Create(Another("s", code), 1)) && !MemoryRefuses(mem, Another("s", code))
  {
    assert !CodeTaken(M.Abs(mem), Normalize(code));
    hide Normalize;
  }

  lemma DashIsTaken()
    ensures var (mem, t) := (MemRun([Create(Another("s", "-"), 1)]).0, SqlRun([Create(Another("s", "-"), 1)]).0);
      && MemRun([Create(Another("s", "-"), 1)]).1 == SqlRun([Create(Another("s", "-"), 1)]).1
      && Matched(mem, t) && "" in mem.byCode && mem.byCode[""] in mem.byID
  {
    var none: seq<Op> := [];
    var rec := Another("s", "-");
    assert MemRun(none) == (M.Mem(map[], map[]), []) && SqlRun(none) == (Q.Tables(map[], map[]), []);
    hide Normalize, SqlRun, MemRun, Matched, Agrees, M.MemStep, Q.SqlStep, MemoryRefuses, SameAnswer;
    DashIsBlank();
    EmptyIsMatched();
    var (mem0, t0) := (MemRun(none).0, SqlRun(none).0);
    AnotherFits(mem0, "-");
    StepAgreesIff(mem0, t0, Create(rec, 1));
    StepStaysMatched(mem0, t0, Create(rec, 1));
    AgreesMeansSame(mem0, t0, Create(rec, 1));
    BlankIsIndexed(mem0, rec, 1);
    RunNext(none, Create(rec, 1));
    assert none + [Create(rec, 1)] == [Create(rec, 1)];
  }

  /** From two empty stores: a session created under the code "-", alike; then the lookup of "-" and a second
      such session are answered differently. */
  lemma DashSplitsTheStores()
    ensures var (mem, t) := (MemRun([Create(Another("s", "-"), 1)]).0, SqlRun([Create(Another("s", "-"), 1)]).0);
      && MemRun([Create(Another("s", "-"), 1)]).1 == SqlRun([Create(Another("s", "-"), 1)]).1
      && !Agrees(mem, t, GetByJoinCode("-"))
      && exists next: Record :: BlankButNamed(next) && !Agrees(mem, t, Create(next, 1))
  {
    hide Normalize, SqlRun, MemRun, Matched, Agrees;
    DashIsBlank();
    DashIsTaken();
    var ops := [Create(Another("s", "-"), 1)];
    var next := BlankShows(MemRun(ops).0, SqlRun(ops).0, "-");
    assert BlankButNamed(next);
  }
}
