/** The two stores side by side: the same calls, clock and random strings give the same results, and
    exactly when (internal/storage/memory.go against internal/storage/sqlite.go). */
module StoresAgree {
  import opened Machine
  import opened Records
  import opened Sessions
  import M = MemoryStores
  import Q = SqliteStores

  /** Same sessions, and in each store its own invariant. */
  ghost predicate InStep(mem: M.Mem, t: Q.Tables)
  {
    M.MemOk(mem) && Q.SqlOk(t) && M.Abs(mem) == Q.Abs(t)
  }

  /** One call as a caller sees it: the same answer from both, and the same sessions after it. */
  ghost predicate Agrees(mem: M.Mem, t: Q.Tables, op: Op)
  {
    var (mem', out) := M.MemStep(mem, op);
    var (t', out') := Q.SqlStep(t, op);
    out == out' && M.Abs(mem') == Q.Abs(t')
  }

  lemma AdmissibleStays(mem: M.Mem, t: Q.Tables, op: Op)
    requires InStep(mem, t) && Admissible(M.Abs(mem), op)
    ensures Agrees(mem, t, op) && InStep(M.MemStep(mem, op).0, Q.SqlStep(t, op).0)
    ensures M.Abs(M.MemStep(mem, op).0) == Step(M.Abs(mem), op).0 && M.MemStep(mem, op).1 == Step(M.Abs(mem), op).1
  {
    M.MemRefines(mem, op);
    Q.SqlRefines(t, op);
    hide M.MemOk, Q.SqlOk, M.MemStep, Q.SqlStep, Admissible, Step;
  }

  // ---- One call --------------------------------------------------------------------------------

  /** A member list the tables take as it is: no ID and no index twice, each member naming this session. */
  ghost predicate Storable(sid: SessionId, ms: seq<Member>)
  {
    DistinctIds(ms) && Keyed(sid, ById(ms)) && DistinctIndices(ById(ms))
  }

  /** What must hold before a call for the two stores to answer it alike. Neither NodeIDs nor blank codes
      matter to the call itself. */
  ghost predicate SameEffect(st: Store, op: Op)
  {
    match op
    case Create(rec, _) =>
      rec.head.id in st || CodeTaken(st, Normalize(rec.head.joinCode))
      || (rec.head.id != "" && rec.head.createdAt != 0 && Storable(rec.head.id, rec.members))
    case UpdateMember(sid, m) =>
      m.id == "" || sid !in st || m.id !in st[sid].members
      || (m.session == sid && forall o :: o in st[sid].members && o != m.id ==> st[sid].members[o].index != m.index)
    case _ => true
  }

  lemma BlankIsUnindexed(mem: M.Mem)
    requires M.MemOk(mem)
    ensures "" !in mem.byCode
  {
    M.LookupByCode(mem, "");
  }

  /** The rows a list of members becomes: the session column is filled in. */
  ghost predicate Stamped(sid: SessionId, rows: Members, ms: Members)
  {
    rows.Keys == ms.Keys && forall id :: id in ms ==> rows[id] == ms[id].(session := sid)
  }

  /** The members went in under this session, and they could: no ID and no index comes twice. */
  ghost predicate WentIn(sid: SessionId, t: Q.Tables, ms: seq<Member>)
  {
    DistinctIds(ms) && DistinctIndices(ById(ms)) && Stamped(sid, Q.LoadMembers(t, sid), ById(ms))
  }

  lemma {:induction false} InsertedMeans(t: Q.Tables, sid: SessionId, ms: seq<Member>)
    requires sid in t.sessions && Q.LoadMembers(t, sid) == map[] && Q.InsertAll(t, sid, ms).Ok?
    ensures Q.InsertAll(t, sid, ms).value.sessions == t.sessions && WentIn(sid, Q.InsertAll(t, sid, ms).value, ms)
    decreases |ms|
  {
    if ms == [] {
      hide Q.LoadMembers;
    } else {
      hide WentIn, Q.LoadMembers, Q.InsertMember;
      var init, m := ms[..|ms| - 1], ms[|ms| - 1];
      InsertedMeans(t, sid, init);
      LastInserted(Q.InsertAll(t, sid, init).value, sid, init, m);
      assert ms == init + [m];
    }
  }

  lemma LastIsNew(t: Q.Tables, sid: SessionId, init: seq<Member>, m: Member)
    requires sid in t.sessions && DistinctIds(init) && Stamped(sid, Q.LoadMembers(t, sid), ById(init))
    requires Q.InsertMember(t, sid, m).Ok?
    ensures m.id !in ById(init) && DistinctIds(init + [m])
    ensures forall o :: o in ById(init) ==> ById(init)[o].index != m.index
  {
    Q.MemberRows(t, sid, m.id);
    Q.IndexUsedMeans(t, sid, m.index, m.id);
    hide Q.IndexUsed, Q.LoadMembers, DistinctIds, ById;
    assert m.id !in ById(init);
    M.AppendKeepsDistinct(init, m);
    forall o | o in ById(init) ensures ById(init)[o].index != m.index { assert o in Q.Load(t, sid).members; }
  }

  lemma LastIsStamped(t: Q.Tables, sid: SessionId, init: seq<Member>, m: Member)
    requires sid in t.sessions && Stamped(sid, Q.LoadMembers(t, sid), ById(init))
    requires Q.InsertMember(t, sid, m).Ok?
    ensures Stamped(sid, Q.LoadMembers(Q.InsertMember(t, sid, m).value, sid), ById(init)[m.id := m])
  {
    hide Q.IndexUsed, Q.LoadMembers, ById;
    var row := m.(session := sid);
    Q.RowWritten(t, sid, row, sid);
    var t' := t.(members := t.members[(sid, row.id) := row]);
    assert Q.InsertMember(t, sid, m).value == t';
    assert Q.LoadMembers(t', sid) == Q.LoadMembers(t, sid)[m.id := row];
  }

  lemma LastInserted(t: Q.Tables, sid: SessionId, init: seq<Member>, m: Member)
    requires sid in t.sessions && WentIn(sid, t, init) && Q.InsertMember(t, sid, m).Ok?
    ensures Q.InsertMember(t, sid, m).value.sessions == t.sessions
    ensures WentIn(sid, Q.InsertMember(t, sid, m).value, init + [m])
  {
    hide Q.IndexUsed, Q.LoadMembers, DistinctIds, ById, Stamped;
    LastIsNew(t, sid, init, m);
    LastIsStamped(t, sid, init, m);
    ByIdAppend(init, m);
  }

  lemma AbsAfterInsert(t: Q.Tables, rec: Record)
    requires Q.RowsOk(t) && rec.head.id !in t.sessions && Q.SqlCreate(t, rec).1.Ok?
    ensures var t', sid := Q.SqlCreate(t, rec).0, rec.head.id;
      sid in t'.sessions && Q.Abs(t')[sid].head == rec.head && DistinctIds(rec.members)
      && DistinctIndices(ById(rec.members)) && Stamped(sid, Q.Abs(t')[sid].members, ById(rec.members))
  {
    var sid, row := rec.head.id, Q.Row(rec.head, Normalize(rec.head.joinCode));
    Q.NewRow(t, sid, row);
    InsertedMeans(t.(sessions := t.sessions[sid := row]), sid, rec.members);
    hide Q.RowsOk, Q.LoadMembers, Stamped, Normalize, DistinctIds, DistinctIndices, ById, Q.InsertAll, StoreOk;
  }

  /** The tables take a new session exactly when its members are storable, up to the session column. */
  lemma CreateInTables(t: Q.Tables, rec: Record)
    requires Q.RowsOk(t) && rec.head.id != "" && rec.head.id !in t.sessions
    requires !Q.NormUsed(t, Normalize(rec.head.joinCode))
    ensures Storable(rec.head.id, rec.members) ==>
      var (t', out) := Q.SqlCreate(t, rec);
      out == Ok(Done) && Q.RowsOk(t') && Q.Abs(t') == Q.Abs(t)[rec.head.id := View(rec)]
    ensures Q.SqlCreate(t, rec).1.Ok? ==>
      rec.head.id in Q.Abs(Q.SqlCreate(t, rec).0)
      && (Q.Abs(Q.SqlCreate(t, rec).0)[rec.head.id] == View(rec) ==> Storable(rec.head.id, rec.members))
  {
    var sid := rec.head.id;
    if Storable(sid, rec.members) {
      Q.CreateFills(t, rec);
      hide Q.RowsOk, Q.Load, Normalize, DistinctIds, DistinctIndices, Keyed, ById, Q.InsertAll, StoreOk, Q.NormUsed;
    } else if Q.SqlCreate(t, rec).1.Ok? {
      AbsAfterInsert(t, rec);
      hide Q.RowsOk, Q.SqlCreate, Q.Abs, Normalize, DistinctIds, DistinctIndices;
      forall id | id in ById(rec.members) ensures ById(rec.members)[id].id == id { ByIdKeys(rec.members, id); }
    }
  }

  lemma CreateAgreesIff(mem: M.Mem, t: Q.Tables, rec: Record, clock: Time)
    requires InStep(mem, t) && clock != 0
    ensures Agrees(mem, t, Create(rec, clock)) <==> SameEffect(M.Abs(mem), Create(rec, clock))
  {
    var id, norm := rec.head.id, Normalize(rec.head.joinCode);
    var (mem', out) := M.MemCreate(mem, rec, clock);
    M.LookupByCode(mem, norm);
    BlankIsUnindexed(mem);
    Q.NormUsedMeans(t, norm);
    assert Normalize("") == "";
    assert id in M.Abs(mem) ==> id != "" by {
      hide Normalize;
      if id in M.Abs(mem) { assert SessionOk(id, M.Abs(mem)[id]); }
    }
    hide M.MemOk, Normalize, Q.NormUsed, CodeTaken, Storable, Q.InsertAll;
    if id !in M.Abs(mem) && !CodeTaken(M.Abs(mem), norm) {
      assert out == Ok(Done);
      M.AbsAfterWrite(mem, id, M.Dated(rec, clock));
      assert M.Abs(mem') == M.Abs(mem)[id := View(M.Dated(rec, clock))];
      if id != "" {
        CreateInTables(t, rec);
        if Q.SqlCreate(t, rec).1.Ok? {
          AbsAfterInsert(t, rec);
        }
      }
      hide Q.SqlOk, M.Abs, Q.Abs, Stamped;
    }
  }

  lemma UpdateInMemory(mem: M.Mem, sid: SessionId, m: Member)
    requires m.id != "" && sid in mem.byID && DistinctIds(mem.byID[sid].members)
    ensures var s, (mem', out) := M.Abs(mem)[sid], M.MemStep(mem, UpdateMember(sid, m));
      if m.id in s.members
      then out == Ok(Done) && M.Abs(mem') == M.Abs(mem)[sid := s.(members := s.members[m.id := m])]
      else mem' == mem && out == Err(MemberMissing)
  {
    M.RecUpdateViews(mem.byID[sid], m);
    hide M.RecUpdate, ById, DistinctIds;
    match M.RecUpdate(mem.byID[sid], m)
    case Err(_) =>
    case Ok((rec', _)) => M.AbsAfterWrite(mem, sid, rec');
  }

  lemma UpdateInTables(t: Q.Tables, sid: SessionId, m: Member)
    requires m.id != "" && sid in t.sessions
    ensures var s, row, (t', out) := Q.Abs(t)[sid], m.(session := sid), Q.SqlStep(t, UpdateMember(sid, m));
      if m.id !in s.members then t' == t && out == Err(MemberMissing)
      else if exists o :: o in s.members && o != m.id && s.members[o].index == m.index
      then t' == t && out == Err(Conflict)
      else out == Ok(Done) && Q.Abs(t') == Q.Abs(t)[sid := s.(members := s.members[m.id := row])]
  {
    hide Q.IndexUsed, Q.LoadMembers;
    var row := m.(session := sid);
    Q.MemberRows(t, sid, m.id);
    Q.IndexUsedMeans(t, sid, m.index, m.id);
    Q.AbsAfterRow(t, sid, row);
    assert Q.Abs(t)[sid] == Q.Load(t, sid);
    hide Q.Load, Q.Abs;
  }

  lemma UpdateAgreesIff(mem: M.Mem, t: Q.Tables, sid: SessionId, m: Member)
    requires M.Abs(mem) == Q.Abs(t) && (sid in mem.byID ==> DistinctIds(mem.byID[sid].members))
    ensures Agrees(mem, t, UpdateMember(sid, m)) <==> SameEffect(M.Abs(mem), UpdateMember(sid, m))
  {
    assert sid in mem.byID <==> sid in M.Abs(mem);
    assert sid in t.sessions <==> sid in Q.Abs(t);
    if m.id != "" && sid in mem.byID {
      hide M.MemStep, Q.SqlStep, M.Abs, Q.Abs;
      UpdateInMemory(mem, sid, m);
      UpdateInTables(t, sid, m);
      var s := M.Abs(mem)[sid];
      OnlyThatSession(M.Abs(mem), sid, s, m, m.(session := sid));
    } else {
      hide M.Abs, Q.Abs;
    }
  }

  /** Two entries written for one member make the same store only if they are the same. */
  lemma OnlyThatSession(st: Store, sid: SessionId, s: Session, m: Member, row: Member)
    requires m.id == row.id
    ensures st[sid := s.(members := s.members[m.id := m])] == st[sid := s.(members := s.members[m.id := row])] <==> m == row
  {
    var a, b := st[sid := s.(members := s.members[m.id := m])], st[sid := s.(members := s.members[m.id := row])];
    assert a[sid].members[m.id] == m && b[sid].members[m.id] == row;
  }

  lemma RotateAgrees(mem: M.Mem, t: Q.Tables, sid: SessionId, hash: string, code: string)
    requires InStep(mem, t)
    ensures Agrees(mem, t, RotateToken(sid, hash, code))
  {
    var op := RotateToken(sid, hash, code);
    if Admissible(M.Abs(mem), op) {
      AdmissibleStays(mem, t, op);
    } else {
      assert Q.Load(t, sid) == Q.Abs(t)[sid] == M.Abs(mem)[sid] == View(mem.byID[sid]);
      var head := mem.byID[sid].head.(joinCode := code, tokenHash := hash, revoked := false);
      M.AbsAfterWrite(mem, sid, mem.byID[sid].(head := head));
      Q.AbsAfterHead(t, sid, Q.Row(head, Normalize(code)));
      hide M.MemOk, Q.SqlOk, Normalize, ById, Q.LoadMembers;
    }
  }

  lemma StoredAsList(mem: M.Mem, sid: SessionId)
    requires M.MemOk(mem) && sid in mem.byID
    ensures DistinctIds(mem.byID[sid].members)
  {
    hide DistinctIds;
  }

  /** From stores in step, one call gets the same answer and leaves the same sessions if and only if the
      guard holds, which a caller can read off the sessions and the call. */
  lemma AgreesIff(mem: M.Mem, t: Q.Tables, op: Op)
    requires InStep(mem, t) && (op.Create? ==> op.clock != 0)
    ensures Agrees(mem, t, op) <==> SameEffect(M.Abs(mem), op)
  {
    match op
    case Create(rec, clock) => CreateAgreesIff(mem, t, rec, clock);
    case UpdateMember(sid, m) =>
      if sid in mem.byID { StoredAsList(mem, sid); }
      UpdateAgreesIff(mem, t, sid, m);
    case RotateToken(sid, hash, code) => RotateAgrees(mem, t, sid, hash, code);
    case _ => AdmissibleStays(mem, t, op);
    hide M.MemOk, Q.SqlOk, M.MemStep, Q.SqlStep;
  }

  // ---- What a call leaves behind unseen --------------------------------------------------------

  // An inadmissible call that both stores answer alike has put something out of step that the sessions do
  // not show: the code index, or which of two members with one NodeID comes first. A later call shows it.

  lemma RotatedToBlank(mem: M.Mem, sid: SessionId, hash: string, code: string)
    requires M.MemOk(mem) && !Admissible(M.Abs(mem), RotateToken(sid, hash, code))
    ensures var (mem', out) := M.MemRotate(mem, RotateToken(sid, hash, code));
      out == Ok(Done) && M.MemStep(mem', GetByJoinCode(mem.byID[sid].head.joinCode)).1.Ok?
  {
    var was := Normalize(mem.byID[sid].head.joinCode);
    hide Normalize;
    assert HasCode(M.Abs(mem), was, sid);
  }

  lemma OldCodeIsFree(t: Q.Tables, sid: SessionId, hash: string, code: string)
    requires Q.SqlOk(t) && sid in t.sessions && Normalize(code) == ""
    ensures !Q.NormUsed(Q.SqlRotate(t, sid, hash, code).0, Normalize(t.sessions[sid].head.joinCode))
  {
    var t' := Q.SqlRotate(t, sid, hash, code).0;
    var c := Normalize(t.sessions[sid].head.joinCode);
    assert Q.RowOk(t, sid);
    hide Normalize;
    if c != "" {
      forall o | o in t.sessions && o != sid ensures t.sessions[o].norm != c { OneHolder(t, sid, o); }
    }
    hide Q.SqlOk;
  }

  lemma OneHolder(t: Q.Tables, sid: SessionId, o: SessionId)
    requires Q.SqlOk(t) && sid in t.sessions && o in t.sessions && o != sid && t.sessions[sid].norm != ""
    ensures t.sessions[o].norm != t.sessions[sid].norm
  {
    hide Normalize;
    var c := t.sessions[sid].norm;
    assert Q.RowOk(t, o) && Q.RowOk(t, sid);
    assert HasCode(Q.Abs(t), c, sid);
    assert t.sessions[o].norm == c ==> HasCode(Q.Abs(t), c, o);
  }

  /** After a rotation, looking the old code up answers alike in both stores if and only if the session had
      no code or the new one is not blank; otherwise memory still opens the session with the old code. */
  lemma OldCodeAgreesIff(mem: M.Mem, t: Q.Tables, sid: SessionId, hash: string, code: string)
    requires InStep(mem, t) && sid in mem.byID
    ensures var op, look := RotateToken(sid, hash, code), GetByJoinCode(mem.byID[sid].head.joinCode);
      var (mem', t') := (M.MemStep(mem, op).0, Q.SqlStep(t, op).0);
      && (Agrees(mem', t', look) <==> Admissible(M.Abs(mem), op))
      && (!Admissible(M.Abs(mem), op) ==> M.MemStep(mem', look).1.Ok? && Q.SqlStep(t', look).1 == Err(NotFound))
  {
    var op, look := RotateToken(sid, hash, code), GetByJoinCode(mem.byID[sid].head.joinCode);
    if Admissible(M.Abs(mem), op) {
      AdmissibleStays(mem, t, op);
      AdmissibleStays(M.MemStep(mem, op).0, Q.SqlStep(t, op).0, look);
      hide M.MemStep, Q.SqlStep, InStep;
    } else {
      RotatedToBlank(mem, sid, hash, code);
      assert sid in M.Abs(mem) && sid in t.sessions && Q.Abs(t)[sid] == View(mem.byID[sid]);
      OldCodeIsFree(t, sid, hash, code);
      hide Normalize, M.MemOk, Q.SqlOk, Q.NormUsed, Q.Load, M.MemRotate, Q.SqlRotate;
    }
  }

  lemma NothingBlankTaken(mem: M.Mem, t: Q.Tables)
    requires InStep(mem, t)
    ensures !CodeTaken(M.Abs(mem), "") && forall t' :: !Q.NormUsed(t', "")
  {
    hide M.MemOk, Q.SqlOk;
  }

  lemma KnownToNeither(mem: M.Mem, t: Q.Tables, sid: SessionId)
    requires InStep(mem, t) && sid !in mem.byID
    ensures sid !in M.Abs(mem) && sid !in Q.Abs(t) && sid !in t.sessions
  {
    hide M.MemOk, Q.SqlOk;
    assert sid !in M.Abs(mem);
  }

  predicate BlankButNamed(rec: Record) { rec.head.joinCode != "" && Normalize(rec.head.joinCode) == "" }

  lemma BlankCodeInMemory(mem: M.Mem, rec: Record, clock: Time, next: Record, clock': Time)
    requires M.MemOk(mem) && BlankButNamed(rec) && rec.head.id !in mem.byID && BlankButNamed(next)
    ensures var (mem', out) := M.MemStep(mem, Create(rec, clock));
      && out == Ok(Done) && rec.head.id in mem'.byID
      && M.MemStep(mem', GetByJoinCode(next.head.joinCode)).1 == Ok(Found(M.Abs(mem')[rec.head.id]))
      && M.MemStep(mem', Create(next, clock')).1 == Err(Conflict)
  {
    BlankIsUnindexed(mem);
    hide M.MemOk, Normalize, View;
  }

  lemma BlankCodeInTables(t: Q.Tables, rec: Record, next: Record)
    requires Q.RowsOk(t) && BlankButNamed(rec) && BlankButNamed(next) && rec.head.id !in t.sessions && rec.head.id != ""
    requires Storable(rec.head.id, rec.members) && Storable(next.head.id, next.members)
    requires next.head.id !in t.sessions && next.head.id != rec.head.id && next.head.id != ""
    ensures var (t', out) := Q.SqlCreate(t, rec);
      && out == Ok(Done)
      && Q.SqlStep(t', GetByJoinCode(next.head.joinCode)).1 == Err(NotFound)
      && Q.SqlCreate(t', next).1 == Ok(Done)
  {
    hide Q.RowsOk, Storable, Normalize, Q.Load, Q.SqlCreate;
    var t' := Q.SqlCreate(t, rec).0;
    CreateInTables(t, rec);
    assert next.head.id !in Q.Abs(t) && next.head.id !in Q.Abs(t');
    CreateInTables(t', next);
  }

  /** A session created under a code that is only blanks and dashes takes the empty key of the code index:
      memory opens it with any such code and refuses every further one, the tables do neither. */
  lemma BlankCodeTakesTheIndex(mem: M.Mem, t: Q.Tables, rec: Record, clock: Time, next: Record, clock': Time)
    requires InStep(mem, t) && clock != 0 && BlankButNamed(rec) && rec.head.id !in mem.byID
    requires SameEffect(M.Abs(mem), Create(rec, clock)) && BlankButNamed(next) && next.head.id != ""
    requires next.head.id != rec.head.id && next.head.id !in mem.byID && Storable(next.head.id, next.members)
    ensures Agrees(mem, t, Create(rec, clock))
    ensures var (mem', t') := (M.MemStep(mem, Create(rec, clock)).0, Q.SqlStep(t, Create(rec, clock)).0);
      && rec.head.id in mem'.byID
      && M.MemStep(mem', GetByJoinCode(next.head.joinCode)).1 == Ok(Found(M.Abs(mem')[rec.head.id]))
      && Q.SqlStep(t', GetByJoinCode(next.head.joinCode)).1 == Err(NotFound)
      && M.MemStep(mem', Create(next, clock')).1 == Err(Conflict)
      && Q.SqlStep(t', Create(next, clock')).1 == Ok(Done)
  {
    assert Q.RowsOk(t);
    hide Q.RowsOk, M.MemOk, Storable, Normalize, M.MemCreate, Q.SqlCreate, CodeTaken;
    NothingBlankTaken(mem, t);
    KnownToNeither(mem, t, rec.head.id);
    KnownToNeither(mem, t, next.head.id);
    BlankCodeInMemory(mem, rec, clock, next, clock');
    BlankCodeInTables(t, rec, next);
    AgreesIff(mem, t, Create(rec, clock));
    hide Q.SqlOk, InStep, Agrees, Q.Abs, SameEffect, Q.SqlByCode;
  }

  /** Nothing that shows tells the two stores apart on this session. */
  ghost predicate Alike(mem: M.Mem, t: Q.Tables, sid: SessionId)
  {
    && sid in mem.byID && sid in t.sessions && Q.Load(t, sid) == View(mem.byID[sid])
    && Storable(sid, mem.byID[sid].members)
  }

  lemma AbsTellsAlike(mem: M.Mem, t: Q.Tables, sid: SessionId)
    requires M.Abs(mem) == Q.Abs(t) && sid in mem.byID && Storable(sid, mem.byID[sid].members)
    ensures Alike(mem, t, sid)
  {
    hide Storable, Q.Load, View;
    assert sid in M.Abs(mem) && sid in Q.Abs(t);
  }

  lemma StoredIsStorable(mem: M.Mem, sid: SessionId)
    requires M.MemOk(mem) && sid in mem.byID
    ensures Storable(sid, mem.byID[sid].members)
  {
    hide DistinctIds, Keyed, DistinctIndices, DistinctNodes, M.CodesIndexed, CodesDistinct;
    assert SessionOk(sid, M.Abs(mem)[sid]);
  }

  lemma WrittenIsStorable(sid: SessionId, rec: Record, m: Member)
    requires Storable(sid, rec.members) && m.id in ById(rec.members) && m.session == sid
    requires forall o :: o in ById(rec.members) && o != m.id ==> ById(rec.members)[o].index != m.index
    ensures M.RecUpdate(rec, m).Ok? && Storable(sid, M.RecUpdate(rec, m).value.0.members)
  {
    hide ById, DistinctIds, M.RecUpdate;
    M.RecUpdateViews(rec, m);
  }

  /** A member written back alike, whatever its NodeID, leaves a session that shows no difference. */
  lemma WriteLeavesAlike(mem: M.Mem, t: Q.Tables, sid: SessionId, m: Member)
    requires InStep(mem, t) && SameEffect(M.Abs(mem), UpdateMember(sid, m))
    requires m.id != "" && sid in mem.byID && IndexOfId(mem.byID[sid].members, m.id) < |mem.byID[sid].members|
    ensures var (mem', t') := (M.MemStep(mem, UpdateMember(sid, m)).0, Q.SqlStep(t, UpdateMember(sid, m)).0);
      var rec := mem.byID[sid];
      && Agrees(mem, t, UpdateMember(sid, m)) && Alike(mem', t', sid)
      && mem'.byID == mem.byID[sid := rec.(members := rec.members[IndexOfId(rec.members, m.id) := m])]
  {
    var rec := mem.byID[sid];
    hide M.MemOk, Q.SqlOk, Storable, ById, M.MemStep, Q.SqlStep, Alike, Q.Abs, M.RecUpdate;
    IndexDecides(rec.members, m.id);
    AgreesIff(mem, t, UpdateMember(sid, m));
    StoredIsStorable(mem, sid);
    assert M.Abs(mem)[sid].members == ById(rec.members);
    hide M.Abs;
    WrittenIsStorable(sid, rec, m);
    WrittenInMemory(mem, sid, m);
    AbsTellsAlike(M.MemStep(mem, UpdateMember(sid, m)).0, Q.SqlStep(t, UpdateMember(sid, m)).0, sid);
  }

  lemma WrittenInMemory(mem: M.Mem, sid: SessionId, m: Member)
    requires m.id != "" && sid in mem.byID && IndexOfId(mem.byID[sid].members, m.id) < |mem.byID[sid].members|
    ensures var rec := mem.byID[sid];
      var rec' := rec.(members := rec.members[IndexOfId(rec.members, m.id) := m]);
      M.RecUpdate(rec, m) == Ok((rec', Done)) && M.MemStep(mem, UpdateMember(sid, m)).0.byID == mem.byID[sid := rec']
  {
    hide IndexOfId;
  }

  /** So does a session created alike, whatever its code and its members' NodeIDs. */
  lemma CreateLeavesAlike(mem: M.Mem, t: Q.Tables, rec: Record, clock: Time)
    requires InStep(mem, t) && clock != 0 && SameEffect(M.Abs(mem), Create(rec, clock))
    requires M.MemStep(mem, Create(rec, clock)).1.Ok?
    ensures var (mem', t') := (M.MemStep(mem, Create(rec, clock)).0, Q.SqlStep(t, Create(rec, clock)).0);
      Agrees(mem, t, Create(rec, clock)) && Alike(mem', t', rec.head.id) && mem'.byID[rec.head.id] == rec
  {
    AgreesIff(mem, t, Create(rec, clock));
    M.LookupByCode(mem, Normalize(rec.head.joinCode));
    BlankIsUnindexed(mem);
    assert Normalize("") == "";
    hide M.MemOk, Q.SqlOk, Storable, ById, Q.SqlStep, Alike, Normalize, CodeTaken, Q.Abs;
    assert rec.head.id !in M.Abs(mem);
    AbsTellsAlike(M.MemStep(mem, Create(rec, clock)).0, Q.SqlStep(t, Create(rec, clock)).0, rec.head.id);
  }

  /** The first member in the list with this NodeID also has the least index of them. */
  ghost predicate FirstIsLeast(ms: seq<Member>, node: NodeId)
  {
    forall k :: 0 <= k < |ms| && ms[k].nodeId == node ==> ms[IndexOfNode(ms, node)].index <= ms[k].index
  }

  lemma LeastByNode(sid: SessionId, ms: seq<Member>, node: NodeId)
    requires Storable(sid, ms) && IndexOfNode(ms, node) < |ms|
    ensures ByNode(ById(ms), node) != None
    ensures ByNode(ById(ms), node) == Some(ms[IndexOfNode(ms, node)].id) <==> FirstIsLeast(ms, node)
  {
    var i, all := IndexOfNode(ms, node), ById(ms);
    ByIdAt(ms, i);
    var id := ByNode(all, node).value;
    ByIdKeys(ms, id);
    var j :| 0 <= j < |ms| && ms[j] == all[id];
    forall k | 0 <= k < |ms| && ms[k].nodeId == node ensures all[id].index <= ms[k].index { ByIdAt(ms, k); }
    if FirstIsLeast(ms, node) {
      assert ms[i].index == all[id].index;
      assert all[ms[i].id].index == all[id].index;
    }
    hide ById, DistinctIds;
  }

  lemma MemoryRejoins(mem: M.Mem, sid: SessionId, req: JoinRequest, clock: Time, rand: Random)
    requires sid in mem.byID && DistinctIds(mem.byID[sid].members)
    requires IndexOfNode(mem.byID[sid].members, req.nodeId) < |mem.byID[sid].members|
    requires var h := mem.byID[sid].head; !h.closed && !IsExpired(h, When(req.now, clock))
    ensures var rec := mem.byID[sid]; var was := rec.members[IndexOfNode(rec.members, req.nodeId)];
      was.id in ById(rec.members) && ById(rec.members)[was.id] == was
      && M.MemStep(mem, Join(sid, req, clock, rand)).1 == Ok(Rejoin(View(rec), was.id, req, When(req.now, clock)).1)
  {
    var rec, i := mem.byID[sid], IndexOfNode(mem.byID[sid].members, req.nodeId);
    ByIdAt(rec.members, i);
    ByIdUpdate(rec.members, i, Refreshed(rec.head, rec.members[i], req, When(req.now, clock)));
    hide ById, DistinctIds, IndexOfNode, Refreshed;
  }

  lemma TablesRejoin(t: Q.Tables, sid: SessionId, req: JoinRequest, clock: Time, rand: Random)
    requires sid in t.sessions && Keyed(sid, Q.Load(t, sid).members) && DistinctIndices(Q.Load(t, sid).members)
    requires ByNode(Q.Load(t, sid).members, req.nodeId) != None
    requires var h := t.sessions[sid].head; !h.closed && !IsExpired(h, When(req.now, clock))
    ensures var s := Q.Load(t, sid);
      Q.SqlStep(t, Join(sid, req, clock, rand)).1
        == Ok(Rejoin(s, ByNode(s.members, req.nodeId).value, req, When(req.now, clock)).1)
  {
    var s := Q.Load(t, sid);
    var id := ByNode(s.members, req.nodeId).value;
    Q.MemberRows(t, sid, id);
    Q.IndexUsedMeans(t, sid, s.members[id].index, id);
    hide Q.IndexUsed, Q.LoadMembers;
  }

  /** A known node comes back: the answers are alike if and only if the first member in memory's list with
      that NodeID also has the least index, which is the one the tables pick. */
  lemma RejoinAgreesIff(mem: M.Mem, t: Q.Tables, sid: SessionId, req: JoinRequest, clock: Time, rand: Random)
    requires Alike(mem, t, sid) && IndexOfNode(mem.byID[sid].members, req.nodeId) < |mem.byID[sid].members|
    requires var h := mem.byID[sid].head; !h.closed && !IsExpired(h, When(req.now, clock))
    ensures var op := Join(sid, req, clock, rand);
      M.MemStep(mem, op).1 == Q.SqlStep(t, op).1 <==> FirstIsLeast(mem.byID[sid].members, req.nodeId)
  {
    var ms := mem.byID[sid].members;
    assert t.sessions[sid].head == mem.byID[sid].head;
    LeastByNode(sid, ms, req.nodeId);
    MemoryRejoins(mem, sid, req, clock, rand);
    TablesRejoin(t, sid, req, clock, rand);
    hide M.MemStep, Q.SqlStep, DistinctIds, FirstIsLeast, DistinctIndices, Q.Load, ById, IsExpired;
  }

  // ---- Runs ----------------------------------------------------------------------------------

  ghost function MemRun(ops: seq<Op>): (M.Mem, seq<Response>)
  {
    if ops == [] then (M.Mem(map[], map[]), [])
    else
      var (mem, outs) := MemRun(ops[..|ops| - 1]);
      var (mem', out) := M.MemStep(mem, ops[|ops| - 1]);
      (mem', outs + [out])
  }

  ghost function SqlRun(ops: seq<Op>): (Q.Tables, seq<Response>)
  {
    if ops == [] then (Q.Tables(map[], map[]), [])
    else
      var (t, outs) := SqlRun(ops[..|ops| - 1]);
      var (t', out) := Q.SqlStep(t, ops[|ops| - 1]);
      (t', outs + [out])
  }

  ghost predicate AllAdmissible(ops: seq<Op>)
  {
    ops == [] ||
    (AllAdmissible(ops[..|ops| - 1]) && Admissible(M.Abs(MemRun(ops[..|ops| - 1]).0), ops[|ops| - 1]))
  }

  /** Over every sequence of admissible calls: call for call the same results, and the same sessions after. */
  lemma {:induction false} RunsAgree(ops: seq<Op>)
    requires AllAdmissible(ops)
    ensures MemRun(ops).1 == SqlRun(ops).1 && InStep(MemRun(ops).0, SqlRun(ops).0)
    decreases |ops|
  {
    if ops == [] {
      assert M.Abs(M.Mem(map[], map[])) == map[] == Q.Abs(Q.Tables(map[], map[]));
    } else {
      RunsAgree(ops[..|ops| - 1]);
      AdmissibleStays(MemRun(ops[..|ops| - 1]).0, SqlRun(ops[..|ops| - 1]).0, ops[|ops| - 1]);
      hide InStep, Admissible, M.MemStep, Q.SqlStep;
    }
  }

  // A session with two members, the later one in the list holding the lower index; that one is written back
  // under the first one's NodeID; then the node joins.

  function Placed(id: MemberId, index: u16, node: NodeId): Member
  {
    Member(id, "s", index, node, "", MemberRole, Active, [], [], "", 1, 1, 0)
  }

  function TwoPlaced(): Record
  {
    Record(Head("s", "", "", "", 0, 0, 0, false, "a", false, false, 1, 0, 0),
           [Placed("a", 2, "x"), Placed("b", 1, "y")])
  }

  function ThenShared(): seq<Op>
  {
    [Create(TwoPlaced(), 1), UpdateMember("s", Placed("b", 1, "x"))]
  }

  function TheNodeJoins(): Op
  {
    Join("s", JoinRequest("x", "", "", [], [], 1), 1, Random([], ""))
  }

  lemma PlacedTogether()
    ensures ById(TwoPlaced().members) == map["a" := Placed("a", 2, "x"), "b" := Placed("b", 1, "y")]
  {
    var a, b := Placed("a", 2, "x"), Placed("b", 1, "y");
    assert TwoPlaced().members == [a] + [b] && [] + [a] == [a];
    ByIdAppend([a], b);
    ByIdAppend([], a);
  }

  lemma TwoPlacedIsWellMade()
    ensures WellMade(TwoPlaced())
  {
    PlacedTogether();
    hide ById;
  }

  lemma RunNext(ops: seq<Op>, op: Op)
    ensures var (mem, outs) := MemRun(ops);
      var (mem', out) := M.MemStep(mem, op);
      MemRun(ops + [op]) == (mem', outs + [out])
    ensures var (t, outs) := SqlRun(ops);
      var (t', out) := Q.SqlStep(t, op);
      SqlRun(ops + [op]) == (t', outs + [out])
  {
    hide M.MemStep, Q.SqlStep;
    assert (ops + [op])[..|ops|] == ops;
  }

  lemma AfterCreate()
    ensures var (mem, t) := (MemRun(ThenShared()[..1]).0, SqlRun(ThenShared()[..1]).0);
      && InStep(mem, t) && mem.byID == map["s" := TwoPlaced()]
      && MemRun(ThenShared()[..1]).1 == SqlRun(ThenShared()[..1]).1
  {
    var ops := ThenShared()[..1];
    assert ops == [Create(TwoPlaced(), 1)] && ops[..0] == [];
    TwoPlacedIsWellMade();
    hide WellMade, ById;
    RunsAgree(ops);
    assert MemRun(ops).0 == M.MemCreate(MemRun([]).0, TwoPlaced(), 1).0;
  }

  lemma PlacedById(id: MemberId)
    requires id == "a" || id == "b"
    ensures IndexOfId(TwoPlaced().members, id) == if id == "a" then 0 else 1
  {
    var ms := TwoPlaced().members;
    assert ms[0].id == "a" && ms[1].id == "b";
  }

  lemma SharingFits()
    ensures SameEffect(map["s" := View(TwoPlaced())], UpdateMember("s", Placed("b", 1, "x")))
  {
    PlacedTogether();
    hide ById;
  }

  lemma AfterShared()
    ensures var (mem, t) := (MemRun(ThenShared()).0, SqlRun(ThenShared()).0);
      Alike(mem, t, "s") && mem.byID["s"].members == [Placed("a", 2, "x"), Placed("b", 1, "x")]
      && mem.byID["s"].head == TwoPlaced().head && MemRun(ThenShared()).1 == SqlRun(ThenShared()).1
  {
    hide M.MemStep, Q.SqlStep, Alike, InStep, ById, MemRun, SqlRun, SameEffect;
    var ops, b := ThenShared(), Placed("b", 1, "x");
    AfterCreate();
    PlacedById("b");
    SharingFits();
    var (mem, t) := (MemRun(ops[..1]).0, SqlRun(ops[..1]).0);
    assert M.Abs(mem) == map["s" := View(TwoPlaced())];
    WriteLeavesAlike(mem, t, "s", b);
    RunNext(ops[..1], UpdateMember("s", b));
    assert ops == ops[..1] + [UpdateMember("s", b)];
  }

  /** Both stores take the calls alike, and then the node comes back as one member in memory and as the
      other one in the tables. */
  lemma SharedNodeSplitsTheStores()
    ensures MemRun(ThenShared()).1 == SqlRun(ThenShared()).1
    ensures M.MemStep(MemRun(ThenShared()).0, TheNodeJoins()).1 != Q.SqlStep(SqlRun(ThenShared()).0, TheNodeJoins()).1
  {
    AfterShared();
    var (mem, t) := (MemRun(ThenShared()).0, SqlRun(ThenShared()).0);
    var ms := mem.byID["s"].members;
    hide MemRun, SqlRun, M.MemStep, Q.SqlStep, Alike;
    assert ms[0].nodeId == "x" && ms[1].nodeId == "x";
    assert IndexOfNode(ms, "x") == 0;
    RejoinAgreesIff(mem, t, "s", TheNodeJoins().req, 1, Random([], ""));
  }

  /** From two empty stores: create the session, then write one member back under the other's index. */
  lemma TakenIndexSplitsTheStores()
    ensures var (mem, t) := (MemRun(ThenShared()[..1]).0, SqlRun(ThenShared()[..1]).0);
      InStep(mem, t) && !Agrees(mem, t, UpdateMember("s", Placed("b", 2, "y")))
  {
    AfterCreate();
    hide MemRun, SqlRun, Agrees, M.MemOk, Q.SqlOk;
    var (mem, t) := (MemRun(ThenShared()[..1]).0, SqlRun(ThenShared()[..1]).0);
    assert M.Abs(mem)["s"] == View(TwoPlaced());
    IndexIsTaken();
    AgreesIff(mem, t, UpdateMember("s", Placed("b", 2, "y")));
  }

  lemma IndexIsTaken()
    ensures var ms := View(TwoPlaced()).members; "b" in ms && "a" in ms && ms["a"].index == 2
  {
    PlacedTogether();
    hide ById;
  }

  function Coded(): Record
  {
    Record(TwoPlaced().head.(joinCode := "A"), [])
  }

  lemma CodedIsWellMade()
    ensures Normalize("A") != "" && Normalize("") == "" && WellMade(Coded())
  {
    assert Keyed("s", map[]) && DistinctIndices(map[]) && DistinctNodes(map[]);
    assert TrimRight("A") == "A" && TrimLeft("A") == "A";
    assert Compact("A") == ['A'] + Compact([]);
  }

  lemma CodedIsCreated()
    ensures var (mem, t) := (MemRun([Create(Coded(), 1)]).0, SqlRun([Create(Coded(), 1)]).0);
      && InStep(mem, t) && mem.byID == map["s" := Coded()]
      && MemRun([Create(Coded(), 1)]).1 == SqlRun([Create(Coded(), 1)]).1
  {
    var none: seq<Op> := [];
    CodedIsWellMade();
    assert none + [Create(Coded(), 1)] == [Create(Coded(), 1)];
    assert [Create(Coded(), 1)][..0] == none && AllAdmissible(none);
    RunNext(none, Create(Coded(), 1));
    assert MemRun(none) == (M.Mem(map[], map[]), []);
    hide Normalize, WellMade, ById, SqlRun;
    RunsAgree([Create(Coded(), 1)]);
  }

  /** From two empty stores: create a session under a code, rotate the code away, and look the old one up. */
  lemma BlankRotationSplitsTheStores()
    ensures var ops := [Create(Coded(), 1), RotateToken("s", "", "")];
      MemRun(ops).1 == SqlRun(ops).1 && !Agrees(MemRun(ops).0, SqlRun(ops).0, GetByJoinCode("A"))
  {
    hide MemRun, SqlRun, M.MemOk, Q.SqlOk, WellMade, Normalize, ById, M.MemStep, Q.SqlStep;
    var first, rotate := [Create(Coded(), 1)], RotateToken("s", "", "");
    CodedIsCreated();
    CodedIsWellMade();
    var (mem, t) := (MemRun(first).0, SqlRun(first).0);
    assert M.Abs(mem)["s"].head.joinCode == "A";
    assert !Admissible(M.Abs(mem), rotate);
    RotateAgrees(mem, t, "s", "", "");
    assert M.MemStep(mem, rotate).1 == Q.SqlStep(t, rotate).1;
    hide Agrees, Admissible, InStep;
    OldCodeAgreesIff(mem, t, "s", "", "");
    RunNext(first, rotate);
    assert first + [rotate] == [Create(Coded(), 1), rotate];
  }

  /** The code index never strays from the linear scan, and finds the one session with the code. */
  lemma {:induction false} IndexIsLinearScan(ops: seq<Op>, code: string, sid: SessionId)
    requires AllAdmissible(ops)
    ensures var mem, c := MemRun(ops).0, Normalize(code);
      (c in mem.byCode && mem.byCode[c] == sid)
      <==> (c != "" && sid in mem.byID && Normalize(mem.byID[sid].head.joinCode) == c)
  {
    RunsAgree(ops);
    hide Normalize, MemRun, StoreOk;
    var mem, c := MemRun(ops).0, Normalize(code);
    assert HasCode(M.Abs(mem), c, sid) <==> (c in mem.byCode && mem.byCode[c] == sid);
  }
}
