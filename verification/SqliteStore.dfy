/** The SQL store (internal/storage/sqlite.go): two tables with their unique constraints, and transactions
    that take effect as a whole or not at all. A table is a map keyed by its primary key. */
module SqliteStores {
  import opened Machine
  import opened Records
  import opened Sessions

  /** A sessions row: the record's columns and the normalised code. */
  datatype Row = Row(head: Head, norm: string)

  type MemberKey = (SessionId, MemberId)

  datatype Tables = Tables(sessions: map<SessionId, Row>, members: map<MemberKey, Member>)

  /** A selected session with its member rows. */
  function LoadMembers(t: Tables, sid: SessionId): Members
  {
    map k | k in t.members && k.0 == sid :: k.1 := t.members[k]
  }

  function Load(t: Tables, sid: SessionId): Session
    requires sid in t.sessions
  {
    Session(t.sessions[sid].head, LoadMembers(t, sid))
  }

  ghost function Abs(t: Tables): Store { map sid | sid in t.sessions :: Load(t, sid) }

  // ---- Statements ----------------------------------------------------------------------------

  /** idx_members_index: another row of the session has this index. */
  predicate IndexUsed(t: Tables, sid: SessionId, index: u16, mid: MemberId)
  {
    exists k :: k in t.members && k.0 == sid && k.1 != mid && t.members[k].index == index
  }

  /** idx_sessions_join_code. */
  predicate NormUsed(t: Tables, norm: string)
  {
    norm != "" && exists sid :: sid in t.sessions && t.sessions[sid].norm == norm
  }

  function InsertMember(t: Tables, sid: SessionId, m: Member): Result<Tables, StoreErr>
  {
    if (sid, m.id) in t.members || IndexUsed(t, sid, m.index, m.id) then Err(Conflict)
    else Ok(t.(members := t.members[(sid, m.id) := m.(session := sid)]))
  }

  function InsertAll(t: Tables, sid: SessionId, ms: seq<Member>): Result<Tables, StoreErr>
    decreases |ms|
  {
    if ms == [] then Ok(t)
    else
      match InsertAll(t, sid, ms[..|ms| - 1])
      case Err(e) => Err(e)
      case Ok(t') => InsertMember(t', sid, ms[|ms| - 1])
  }

  function UpdateMemberRow(t: Tables, sid: SessionId, m: Member): Result<Tables, StoreErr>
  {
    if (sid, m.id) !in t.members then Err(if sid in t.sessions then MemberMissing else NotFound)
    else if IndexUsed(t, sid, m.index, m.id) then Err(Conflict)
    else Ok(t.(members := t.members[(sid, m.id) := m.(session := sid)]))
  }

  function UpdateHead(t: Tables, sid: SessionId, head: Head): Tables
    requires sid in t.sessions
  {
    t.(sessions := t.sessions[sid := t.sessions[sid].(head := head)])
  }

  // ---- Operations ------------------------------------------------------------------------------

  ghost function SqlCreate(t: Tables, rec: Record): (Tables, Response)
  {
    var sid, norm := rec.head.id, Normalize(rec.head.joinCode);
    if sid == "" || sid in t.sessions || NormUsed(t, norm) then (t, Err(Conflict))
    else
      match InsertAll(t.(sessions := t.sessions[sid := Row(rec.head, norm)]), sid, rec.members)
      case Err(e) => (t, Err(e))
      case Ok(t') => (t', Ok(Done))
  }

  ghost function SqlRejoin(t: Tables, sid: SessionId, id: MemberId, req: JoinRequest, now: Time): (Tables, Response)
    requires sid in t.sessions && id in Load(t, sid).members
  {
    var s := Load(t, sid);
    var m := Refreshed(s.head, s.members[id], req, now);
    match UpdateMemberRow(t, sid, m)
    case Err(e) => (t, Err(e))
    case Ok(t') => (t', Ok(Joined(s.(members := s.members[id := m]), m, true, s.head.owner == m.id)))
  }

  ghost function SqlEnter(t: Tables, sid: SessionId, id: MemberId, index: u16, req: JoinRequest, now: Time): (Tables, Response)
    requires sid in t.sessions
  {
    var s := Load(t, sid);
    var m := Newcomer(s.head, id, index, req, now).(session := sid);
    match InsertMember(t, sid, m)
    case Err(e) => (t, Err(e))
    case Ok(t') =>
      (UpdateHead(t', sid, Admitted(s.head, id)),
       Ok(Joined(Session(Admitted(s.head, id), s.members[id := m]), m, false, s.head.owner == "")))
  }

  ghost function SqlJoin(t: Tables, sid: SessionId, req: JoinRequest, now: Time, rand: Random): (Tables, Response)
  {
    if sid !in t.sessions then (t, Err(NotFound))
    else
      var s := Load(t, sid);
      if s.head.closed then (t, Err(Closed))
      else if IsExpired(s.head, now) then (t, Err(Expired))
      else
        match ByNode(s.members, req.nodeId)
        case Some(id) => SqlRejoin(t, sid, id, req, now)
        case None =>
          var index := FreeIndex(Indices(s.members));
          match Refusal(s.head, |ActiveIds(s.members)|, index)
          case Some(e) => (t, Err(e))
          case None => SqlEnter(t, sid, Draw(rand, s.members.Keys), index, req, now)
  }

  ghost function SqlUpdate(t: Tables, sid: SessionId, m: Member): (Tables, Response)
  {
    if m.id == "" then (t, Err(MemberMissing))
    else if sid !in t.sessions then (t, Err(NotFound))
    else match UpdateMemberRow(t, sid, m) case Err(e) => (t, Err(e)) case Ok(t') => (t', Ok(Done))
  }

  ghost function SqlRemove(t: Tables, sid: SessionId, mid: MemberId): (Tables, Response)
  {
    if sid !in t.sessions then (t, Err(NotFound))
    else if (sid, mid) !in t.members then (t, Err(MemberMissing))
    else (t.(members := t.members - {(sid, mid)}), Ok(Done))
  }

  ghost function SqlOffline(t: Tables, sid: SessionId, mid: MemberId, conn: string, now: Time): (Tables, Response)
  {
    if (sid, mid) !in t.members then (t, Err(if sid in t.sessions then MemberMissing else NotFound))
    else
      var m := t.members[(sid, mid)];
      if conn != "" && m.connectionId != conn then (t, Err(Conflict))
      else (t.(members := t.members[(sid, mid) := m.(connectionId := "", leaveAt := now)]), Ok(Done))
  }

  ghost function SqlRotate(t: Tables, sid: SessionId, hash: string, code: string): (Tables, Response)
  {
    if sid !in t.sessions then (t, Err(NotFound))
    else
      var row, norm := t.sessions[sid], Normalize(code);
      if norm != Normalize(row.head.joinCode) && NormUsed(t, norm) then (t, Err(Conflict))
      else
        var head := row.head.(joinCode := code, tokenHash := hash, revoked := false);
        (t.(sessions := t.sessions[sid := Row(head, norm)]), Ok(Done))
  }

  ghost function SqlDelete(t: Tables, sid: SessionId): (Tables, Response)
  {
    if sid !in t.sessions then (t, Err(NotFound))
    else (Tables(t.sessions - {sid}, map k | k in t.members && k.0 != sid :: t.members[k]), Ok(Done))
  }

  ghost function SqlByCode(t: Tables, norm: string): (Tables, Response)
  {
    if NormUsed(t, norm) then
      var sid :| sid in t.sessions && t.sessions[sid].norm == norm;
      (t, Ok(Found(Load(t, sid))))
    else (t, Err(NotFound))
  }

  ghost function SqlStep(t: Tables, op: Op): (Tables, Response)
  {
    match op
    case Create(rec, _) => SqlCreate(t, rec)
    case Get(sid) => (t, if sid in t.sessions then Ok(Found(Load(t, sid))) else Err(NotFound))
    case GetByJoinCode(code) => SqlByCode(t, Normalize(code))
    case Join(sid, req, clock, rand) => SqlJoin(t, sid, req, When(req.now, clock), rand)
    case UpdateMember(sid, m) => SqlUpdate(t, sid, m)
    case RemoveMember(sid, mid) => SqlRemove(t, sid, mid)
    case MarkOffline(sid, mid, conn, now, clock) => SqlOffline(t, sid, mid, conn, When(now, clock))
    case Revoke(sid) =>
      if sid !in t.sessions then (t, Err(NotFound))
      else (UpdateHead(t, sid, t.sessions[sid].head.(revoked := true)), Ok(Done))
    case Close(sid) =>
      if sid !in t.sessions then (t, Err(NotFound))
      else (UpdateHead(t, sid, t.sessions[sid].head.(closed := true)), Ok(Done))
    case RotateToken(sid, hash, code) => SqlRotate(t, sid, hash, code)
    case Delete(sid) => SqlDelete(t, sid)
    case List(f) => (t, Ok(Listed(map sid | sid in t.sessions && Matches(f, t.sessions[sid].head) :: Load(t, sid))))
  }

  // ---- It means what the interface promises --------------------------------------------------

  ghost predicate RowOk(t: Tables, sid: SessionId)
    requires sid in t.sessions
  {
    sid != "" && t.sessions[sid].head.id == sid && t.sessions[sid].norm == Normalize(t.sessions[sid].head.joinCode)
  }

  /** Primary and foreign keys of a member row. */
  ghost predicate MemberRowOk(t: Tables, k: MemberKey)
    requires k in t.members
  {
    k.0 in t.sessions && t.members[k].session == k.0 && t.members[k].id == k.1
  }

  ghost predicate RowsOk(t: Tables)
  {
    (forall sid :: sid in t.sessions ==> RowOk(t, sid)) && (forall k :: k in t.members ==> MemberRowOk(t, k))
  }

  ghost predicate SqlOk(t: Tables)
  {
    RowsOk(t) && StoreOk(Abs(t))
  }

  lemma MemberRows(t: Tables, sid: SessionId, id: MemberId)
    requires sid in t.sessions
    ensures id in Load(t, sid).members <==> (sid, id) in t.members
    ensures id in Load(t, sid).members ==> Load(t, sid).members[id] == t.members[(sid, id)]
  {
  }

  lemma IndexUsedMeans(t: Tables, sid: SessionId, index: u16, mid: MemberId)
    requires sid in t.sessions
    ensures IndexUsed(t, sid, index, mid)
       <==> exists o :: o in Load(t, sid).members && o != mid && Load(t, sid).members[o].index == index
  {
    if k :| k in t.members && k.0 == sid && k.1 != mid && t.members[k].index == index {
      assert k == (sid, k.1);
      assert k.1 in Load(t, sid).members;
    }
    if o :| o in Load(t, sid).members && o != mid && Load(t, sid).members[o].index == index {
      assert (sid, o) in t.members;
    }
  }

  lemma NormUsedMeans(t: Tables, norm: string)
    requires SqlOk(t)
    ensures NormUsed(t, norm) <==> CodeTaken(Abs(t), norm)
  {
    hide Normalize, StoreOk;
    if NormUsed(t, norm) {
      var sid :| sid in t.sessions && t.sessions[sid].norm == norm;
      assert RowOk(t, sid);
      assert HasCode(Abs(t), norm, sid);
    }
    if CodeTaken(Abs(t), norm) {
      var sid :| HasCode(Abs(t), norm, sid);
      assert RowOk(t, sid);
    }
  }

  /** A write to one member row is a write to that session's view, and to no other. */
  lemma RowWritten(t: Tables, sid: SessionId, m: Member, o: SessionId)
    requires sid in t.sessions && o in t.sessions
    ensures var t' := t.(members := t.members[(sid, m.id) := m]);
      Load(t', o) == if o == sid then Load(t, o).(members := Load(t, o).members[m.id := m]) else Load(t, o)
  {
    var t' := t.(members := t.members[(sid, m.id) := m]);
    if o == sid {
      assert LoadMembers(t', o) == LoadMembers(t, o)[m.id := m];
    } else {
      assert LoadMembers(t', o) == LoadMembers(t, o);
    }
  }

  lemma AbsAfterRow(t: Tables, sid: SessionId, m: Member)
    requires sid in t.sessions
    ensures Abs(t.(members := t.members[(sid, m.id) := m]))
         == Abs(t)[sid := Load(t, sid).(members := Load(t, sid).members[m.id := m])]
  {
    forall o | o in t.sessions ensures
      Load(t.(members := t.members[(sid, m.id) := m]), o)
        == if o == sid then Load(t, o).(members := Load(t, o).members[m.id := m]) else Load(t, o)
    {
      RowWritten(t, sid, m, o);
    }
    hide Load;
  }

  lemma AbsAfterHead(t: Tables, sid: SessionId, row: Row)
    requires sid in t.sessions
    ensures Abs(t.(sessions := t.sessions[sid := row])) == Abs(t)[sid := Load(t, sid).(head := row.head)]
  {
    var t' := t.(sessions := t.sessions[sid := row]);
    forall o | o in t.sessions ensures LoadMembers(t', o) == LoadMembers(t, o) {}
  }

  /** Writing a member that fits its session cannot violate a unique constraint. */
  lemma FittingRow(t: Tables, sid: SessionId, m: Member)
    requires SqlOk(t) && sid in t.sessions && FitsIn(sid, Load(t, sid).members, m)
    ensures !IndexUsed(t, sid, m.index, m.id)
    ensures m.(session := sid) == m
  {
    IndexUsedMeans(t, sid, m.index, m.id);
  }

  lemma RowsStayOk(t: Tables, sid: SessionId, m: Member)
    requires RowsOk(t) && sid in t.sessions && m.session == sid
    ensures var t' := t.(members := t.members[(sid, m.id) := m]);
      RowsOk(t')
  {
    hide StoreOk, Normalize;
    var t' := t.(members := t.members[(sid, m.id) := m]);
    forall o | o in t'.sessions ensures RowOk(t', o) { assert RowOk(t, o); }
    forall k | k in t'.members ensures MemberRowOk(t', k) { if k != (sid, m.id) { assert MemberRowOk(t, k); } }
  }

  ghost predicate BecomesOf(t: Tables, sid: SessionId, t': Tables, s': Session)
    requires sid in t.sessions
  {
    RowsOk(t') && Abs(t') == Abs(t)[sid := s']
  }

  /** A transaction that leaves one session as the interface says carries the operation out. */
  lemma BecomesRefines(t: Tables, op: Op, t': Tables)
    requires SqlOk(t) && Admissible(Abs(t), op) && OnOneSession(op) && op.sid in t.sessions
    requires op.UpdateMember? ==> op.m.id != ""
    requires Applied(Load(t, op.sid), op).Ok? && BecomesOf(t, op.sid, t', Applied(Load(t, op.sid), op).value.0)
    ensures SqlOk(t') && (Abs(t'), Ok(Applied(Load(t, op.sid), op).value.1)) == Step(Abs(t), op)
  {
    hide StoreOk, Load, Applied, RowsOk, Admissible, RowOk, MemberRowOk, LoadMembers, View, CodeTaken, ByCode;
    StepKeepsStoreOk(Abs(t), op);
    assert Step(Abs(t), op) == Lifted(Abs(t), op);
    hide Step;
  }

  lemma Keys(t: Tables, k: MemberKey)
    requires SqlOk(t) && k in t.members
    ensures k.0 in t.sessions && t.members[k].session == k.0 && t.members[k].id == k.1
  {
    assert MemberRowOk(t, k);
  }

  lemma RowBecomes(t: Tables, sid: SessionId, m: Member)
    requires RowsOk(t) && sid in t.sessions && m.session == sid
    ensures var t1 := t.(members := t.members[(sid, m.id) := m]);
      var s := Load(t, sid).(members := Load(t, sid).members[m.id := m]);
      BecomesOf(t, sid, t1, s) && Load(t1, sid) == s
  {
    AbsAfterRow(t, sid, m);
    RowsStayOk(t, sid, m);
    RowWritten(t, sid, m, sid);
    hide RowsOk, LoadMembers;
  }

  lemma UpdateRefines(t: Tables, sid: SessionId, m: Member)
    requires SqlOk(t) && Admissible(Abs(t), UpdateMember(sid, m))
    ensures var (t', out) := SqlUpdate(t, sid, m);
      SqlOk(t') && (Abs(t'), out) == Step(Abs(t), UpdateMember(sid, m))
  {
    if m.id != "" && sid in t.sessions {
      MemberRows(t, sid, m.id);
      if (sid, m.id) in t.members {
        FittingRow(t, sid, m);
        RowBecomes(t, sid, m);
        BecomesRefines(t, UpdateMember(sid, m), SqlUpdate(t, sid, m).0);
      }
    }
    hide SqlOk, FitsIn, IndexUsed, Load, Admissible, BecomesOf;
  }

  lemma FewerRowsStayOk(t: Tables, t': Tables)
    requires RowsOk(t) && (forall k :: k in t'.members ==> k in t.members && t'.members[k] == t.members[k])
    requires forall sid :: sid in t'.sessions ==> sid in t.sessions && t'.sessions[sid] == t.sessions[sid]
    requires forall k :: k in t.members && k.0 in t.sessions && k in t'.members ==> k.0 in t'.sessions
    ensures RowsOk(t')
  {
    hide Normalize;
    forall o | o in t'.sessions ensures RowOk(t', o) { assert RowOk(t, o); }
    forall k | k in t'.members ensures MemberRowOk(t', k) { assert MemberRowOk(t, k); }
  }

  lemma RowRemoved(t: Tables, sid: SessionId, mid: MemberId, o: SessionId)
    ensures LoadMembers(t.(members := t.members - {(sid, mid)}), o)
         == if o == sid then LoadMembers(t, o) - {mid} else LoadMembers(t, o)
  {
  }

  lemma AbsAfterRemove(t: Tables, sid: SessionId, mid: MemberId)
    requires sid in t.sessions
    ensures Abs(t.(members := t.members - {(sid, mid)}))
         == Abs(t)[sid := Load(t, sid).(members := Load(t, sid).members - {mid})]
  {
    hide LoadMembers;
    var t' := t.(members := t.members - {(sid, mid)});
    forall o ensures LoadMembers(t', o) == if o == sid then LoadMembers(t, o) - {mid} else LoadMembers(t, o) {
      RowRemoved(t, sid, mid, o);
    }
  }

  lemma RemoveBecomes(t: Tables, sid: SessionId, mid: MemberId)
    requires RowsOk(t) && sid in t.sessions
    ensures BecomesOf(t, sid, t.(members := t.members - {(sid, mid)}),
                      Load(t, sid).(members := Load(t, sid).members - {mid}))
  {
    FewerRowsStayOk(t, t.(members := t.members - {(sid, mid)}));
    AbsAfterRemove(t, sid, mid);
    hide Load, RowsOk, Abs;
  }

  lemma RemoveRefines(t: Tables, sid: SessionId, mid: MemberId)
    requires SqlOk(t)
    ensures var (t', out) := SqlRemove(t, sid, mid);
      SqlOk(t') && (Abs(t'), out) == Step(Abs(t), RemoveMember(sid, mid))
  {
    if sid in t.sessions {
      MemberRows(t, sid, mid);
      if (sid, mid) in t.members {
        RemoveBecomes(t, sid, mid);
        BecomesRefines(t, RemoveMember(sid, mid), SqlRemove(t, sid, mid).0);
      }
    }
    hide SqlOk, Load, BecomesOf;
  }

  lemma OfflineBecomes(t: Tables, sid: SessionId, mid: MemberId, now: Time)
    requires SqlOk(t) && (sid, mid) in t.members
    ensures sid in t.sessions && mid in Load(t, sid).members
    ensures var m := t.members[(sid, mid)].(connectionId := "", leaveAt := now);
      Load(t, sid).members[mid] == t.members[(sid, mid)] && m.id == mid
      && BecomesOf(t, sid, t.(members := t.members[(sid, mid) := m]),
                   Load(t, sid).(members := Load(t, sid).members[mid := m]))
  {
    Keys(t, (sid, mid));
    hide StoreOk, RowsOk, BecomesOf;
    MemberRows(t, sid, mid);
    RowBecomes(t, sid, t.members[(sid, mid)].(connectionId := "", leaveAt := now));
    hide Load;
  }

  lemma OfflineRefines(t: Tables, sid: SessionId, mid: MemberId, conn: string, now: Time, clock: Time)
    requires SqlOk(t)
    ensures var (t', out) := SqlOffline(t, sid, mid, conn, When(now, clock));
      SqlOk(t') && (Abs(t'), out) == Step(Abs(t), MarkOffline(sid, mid, conn, now, clock))
  {
    var op := MarkOffline(sid, mid, conn, now, clock);
    hide SqlOk, Load, BecomesOf;
    if (sid, mid) in t.members {
      OfflineBecomes(t, sid, mid, When(now, clock));
      if conn == "" || t.members[(sid, mid)].connectionId == conn {
        BecomesRefines(t, op, SqlOffline(t, sid, mid, conn, When(now, clock)).0);
      }
    } else if sid in t.sessions {
      MemberRows(t, sid, mid);
    }
  }

  lemma HeadRefines(t: Tables, sid: SessionId, row: Row)
    requires SqlOk(t) && sid in t.sessions && row.head.id == sid && row.norm == Normalize(row.head.joinCode)
    requires StoreOk(Abs(t)[sid := Load(t, sid).(head := row.head)])
    ensures SqlOk(t.(sessions := t.sessions[sid := row]))
    ensures Abs(t.(sessions := t.sessions[sid := row])) == Abs(t)[sid := Load(t, sid).(head := row.head)]
  {
    var t' := t.(sessions := t.sessions[sid := row]);
    AbsAfterHead(t, sid, row);
    hide StoreOk, Normalize;
    forall o | o in t'.sessions ensures RowOk(t', o) { assert RowOk(t, o); }
    forall k | k in t'.members ensures MemberRowOk(t', k) { assert MemberRowOk(t, k); }
  }

  lemma FlagRefines(t: Tables, op: Op)
    requires SqlOk(t) && (op.Revoke? || op.Close?)
    ensures var (t', out) := SqlStep(t, op); SqlOk(t') && (Abs(t'), out) == Step(Abs(t), op)
  {
    StepKeepsStoreOk(Abs(t), op);
    hide StoreOk, Normalize, LoadMembers;
    if op.sid in t.sessions {
      assert RowOk(t, op.sid);
      var head := t.sessions[op.sid].head;
      HeadRefines(t, op.sid, t.sessions[op.sid].(head := if op.Revoke? then head.(revoked := true) else head.(closed := true)));
    }
    hide RowsOk;
  }

  lemma RotateRefines(t: Tables, sid: SessionId, hash: string, code: string)
    requires SqlOk(t) && Admissible(Abs(t), RotateToken(sid, hash, code))
    ensures var (t', out) := SqlRotate(t, sid, hash, code);
      SqlOk(t') && (Abs(t'), out) == Step(Abs(t), RotateToken(sid, hash, code))
  {
    StepKeepsStoreOk(Abs(t), RotateToken(sid, hash, code));
    hide StoreOk, Normalize, LoadMembers;
    NormUsedMeans(t, Normalize(code));
    if sid in t.sessions && SqlRotate(t, sid, hash, code).1.Ok? {
      assert RowOk(t, sid);
      var head := t.sessions[sid].head.(joinCode := code, tokenHash := hash, revoked := false);
      HeadRefines(t, sid, Row(head, Normalize(code)));
    }
    hide RowsOk, NormUsed, CodeTaken;
  }

  lemma AbsAfterDelete(t: Tables, sid: SessionId)
    requires sid in t.sessions
    ensures Abs(SqlDelete(t, sid).0) == Abs(t) - {sid}
  {
    var t' := SqlDelete(t, sid).0;
    forall o | o in t'.sessions ensures LoadMembers(t', o) == LoadMembers(t, o) {}
    hide LoadMembers;
  }

  lemma DeleteRefines(t: Tables, sid: SessionId)
    requires SqlOk(t)
    ensures var (t', out) := SqlDelete(t, sid);
      SqlOk(t') && (Abs(t'), out) == Step(Abs(t), Delete(sid))
  {
    StepKeepsStoreOk(Abs(t), Delete(sid));
    if sid in t.sessions {
      DeleteKeepsRows(t, sid);
      AbsAfterDelete(t, sid);
    }
    hide StoreOk, Load, RowsOk;
  }

  lemma DeleteKeepsRows(t: Tables, sid: SessionId)
    requires RowsOk(t) && sid in t.sessions
    ensures RowsOk(SqlDelete(t, sid).0)
  {
    FewerRowsStayOk(t, SqlDelete(t, sid).0);
  }

  lemma ByCodeRefines(t: Tables, norm: string)
    requires SqlOk(t)
    ensures (Abs(t), SqlByCode(t, norm).1)
         == (match ByCode(Abs(t), norm)
             case None => (Abs(t), Err(NotFound))
             case Some(sid) => if sid in Abs(t) then (Abs(t), Ok(Found(Abs(t)[sid]))) else (Abs(t), Err(NotFound)))
    ensures SqlByCode(t, norm).0 == t
  {
    NormUsedMeans(t, norm);
    hide Normalize;
    if CodeTaken(Abs(t), norm) {
      forall a, b | a in t.sessions && b in t.sessions && t.sessions[a].norm == norm && t.sessions[b].norm == norm
        ensures a == b
      {
        assert RowOk(t, a) && RowOk(t, b);
        assert HasCode(Abs(t), norm, a) && HasCode(Abs(t), norm, b);
      }
      var sid := ByCode(Abs(t), norm).value;
      assert HasCode(Abs(t), norm, sid) && RowOk(t, sid);
    }
  }

  // ---- Joining and creating --------------------------------------------------------------------

  lemma LoadedIsOk(t: Tables, sid: SessionId)
    requires SqlOk(t) && sid in t.sessions
    ensures SessionOk(sid, Load(t, sid))
  {
    assert sid in Abs(t);
  }

  lemma RejoinRefines(t: Tables, sid: SessionId, id: MemberId, req: JoinRequest, now: Time)
    requires SqlOk(t) && sid in t.sessions && id in Load(t, sid).members
    ensures var (t', out) := SqlRejoin(t, sid, id, req, now);
      var (s', o) := Rejoin(Load(t, sid), id, req, now);
      BecomesOf(t, sid, t', s') && out == Ok(o)
  {
    var s := Load(t, sid);
    LoadedIsOk(t, sid);
    MemberRows(t, sid, id);
    var m := Refreshed(s.head, s.members[id], req, now);
    assert FitsIn(sid, s.members, m);
    FittingRow(t, sid, m);
    AbsAfterRow(t, sid, m);
    RowsStayOk(t, sid, m);
    hide StoreOk, Load, FitsIn, IndexUsed, SessionOk;
  }

  /** The index and the ID come from the rows loaded in the same transaction, so no constraint is hit. */
  lemma JoinNeverViolatesConstraints(t: Tables, sid: SessionId, req: JoinRequest, now: Time, rand: Random)
    requires SqlOk(t) && sid in t.sessions && ByNode(Load(t, sid).members, req.nodeId) == None
    requires FreeIndex(Indices(Load(t, sid).members)) != 0
    ensures var s := Load(t, sid);
      var m := Newcomer(s.head, Draw(rand, s.members.Keys), FreeIndex(Indices(s.members)), req, now);
      InsertMember(t, sid, m).Ok? && FitsIn(sid, s.members, m) && m.(session := sid) == m
  {
    var s := Load(t, sid);
    LoadedIsOk(t, sid);
    var id := Draw(rand, s.members.Keys);
    MemberRows(t, sid, id);
    forall o | o in s.members ensures s.members[o].index != FreeIndex(Indices(s.members)) { FreshIndex(s.members, o); }
    FittingRow(t, sid, Newcomer(s.head, id, FreeIndex(Indices(s.members)), req, now));
    hide StoreOk, IndexUsed;
  }

  lemma HeadBecomes(t: Tables, sid: SessionId, head: Head)
    requires RowsOk(t) && sid in t.sessions && head.id == sid && head.joinCode == t.sessions[sid].head.joinCode
    ensures BecomesOf(t, sid, UpdateHead(t, sid, head), Load(t, sid).(head := head))
  {
    assert RowOk(t, sid);
    var row := t.sessions[sid].(head := head);
    AbsAfterHead(t, sid, row);
    HeadKeepsRows(t, sid, row);
    hide RowsOk, LoadMembers;
  }

  lemma EnterWrites(t: Tables, sid: SessionId, m: Member, head: Head)
    requires RowsOk(t) && sid in t.sessions && m.session == sid
    requires head.id == sid && head.joinCode == t.sessions[sid].head.joinCode
    ensures var t1 := t.(members := t.members[(sid, m.id) := m]);
      BecomesOf(t, sid, UpdateHead(t1, sid, head), Session(head, Load(t, sid).members[m.id := m]))
  {
    hide RowsOk, LoadMembers, Abs;
    var t1 := t.(members := t.members[(sid, m.id) := m]);
    RowBecomes(t, sid, m);
    HeadBecomes(t1, sid, head);
  }

  lemma EnterRefines(t: Tables, sid: SessionId, req: JoinRequest, now: Time, rand: Random)
    requires SqlOk(t) && sid in t.sessions && ByNode(Load(t, sid).members, req.nodeId) == None
    requires FreeIndex(Indices(Load(t, sid).members)) != 0
    ensures var s := Load(t, sid);
      var id, index := Draw(rand, s.members.Keys), FreeIndex(Indices(s.members));
      var (t', out) := SqlEnter(t, sid, id, index, req, now);
      var (s', o) := Enter(s, id, index, req, now);
      BecomesOf(t, sid, t', s') && out == Ok(o)
  {
    var s := Load(t, sid);
    var id, index := Draw(rand, s.members.Keys), FreeIndex(Indices(s.members));
    var m := Newcomer(s.head, id, index, req, now);
    JoinNeverViolatesConstraints(t, sid, req, now, rand);
    LoadedIsOk(t, sid);
    EnterWrites(t, sid, m, Admitted(s.head, id));
    hide StoreOk, IndexUsed, FitsIn, RowsOk, LoadMembers, BecomesOf;
  }

  lemma HeadKeepsRows(t: Tables, sid: SessionId, row: Row)
    requires sid in t.sessions && row.head.id == sid && sid != "" && row.norm == Normalize(row.head.joinCode)
    requires RowsOk(t)
    ensures var t' := t.(sessions := t.sessions[sid := row]);
      RowsOk(t')
  {
    hide Normalize;
    var t' := t.(sessions := t.sessions[sid := row]);
    forall o | o in t'.sessions ensures RowOk(t', o) { assert RowOk(t, o); }
    forall k | k in t'.members ensures MemberRowOk(t', k) { assert MemberRowOk(t, k); }
  }

  lemma JoinMatches(t: Tables, sid: SessionId, req: JoinRequest, now: Time, rand: Random)
    requires SqlOk(t) && sid in t.sessions
    ensures var (t', out) := SqlJoin(t, sid, req, now, rand);
      match Joining(Load(t, sid), req, now, rand)
      case Err(e) => (t', out) == (t, Err(e))
      case Ok((s', o)) => BecomesOf(t, sid, t', s') && out == Ok(o)
  {
    hide BecomesOf, Load, SqlOk, SqlEnter, Enter, SqlRejoin, Rejoin, Refusal, IsExpired;
    var s := Load(t, sid);
    if ByNode(s.members, req.nodeId).Some? {
      RejoinRefines(t, sid, ByNode(s.members, req.nodeId).value, req, now);
    } else if FreeIndex(Indices(s.members)) == 0 {
      NoIndexNoEntry(s.head, |ActiveIds(s.members)|);
    } else {
      EnterRefines(t, sid, req, now, rand);
    }
  }

  lemma NoIndexNoEntry(h: Head, active: nat)
    ensures Refusal(h, active, 0).Some?
  {
  }

  lemma JoinRefines(t: Tables, sid: SessionId, req: JoinRequest, clock: Time, rand: Random)
    requires SqlOk(t)
    ensures var (t', out) := SqlJoin(t, sid, req, When(req.now, clock), rand);
      SqlOk(t') && (Abs(t'), out) == Step(Abs(t), Join(sid, req, clock, rand))
  {
    var op := Join(sid, req, clock, rand);
    if sid in t.sessions {
      JoinMatches(t, sid, req, When(req.now, clock), rand);
      if Applied(Load(t, sid), op).Ok? { BecomesRefines(t, op, SqlJoin(t, sid, req, When(req.now, clock), rand).0); }
    }
    hide SqlOk, Load, Joining, BecomesOf;
  }

  /** Only the rows of this session changed, and they are these members. */
  ghost predicate Filled(t: Tables, sid: SessionId, t': Tables, ms: seq<Member>)
    requires sid in t.sessions
  {
    && t'.sessions == t.sessions && LoadMembers(t', sid) == ById(ms)
    && BecomesOf(t, sid, t', Session(t.sessions[sid].head, ById(ms)))
  }

  lemma FilledNext(t: Tables, sid: SessionId, t1: Tables, ms: seq<Member>)
    requires sid in t.sessions && ms != [] && ms[|ms| - 1].session == sid
    requires Filled(t, sid, t1, ms[..|ms| - 1])
    ensures var m := ms[|ms| - 1]; Filled(t, sid, t1.(members := t1.members[(sid, m.id) := m]), ms)
  {
    var m := ms[|ms| - 1];
    var t2 := t1.(members := t1.members[(sid, m.id) := m]);
    RowBecomes(t1, sid, m);
    assert ById(ms) == ById(ms[..|ms| - 1])[m.id := m];
    hide RowsOk, Abs, LoadMembers, ById;
    BecomesTrans(t, sid, t1, Load(t1, sid), t2, Load(t2, sid));
  }

  lemma BecomesTrans(t: Tables, sid: SessionId, t1: Tables, s1: Session, t2: Tables, s2: Session)
    requires sid in t.sessions && sid in t1.sessions
    requires BecomesOf(t, sid, t1, s1) && BecomesOf(t1, sid, t2, s2)
    ensures BecomesOf(t, sid, t2, s2)
  {
    hide Abs, RowsOk;
  }

  /** Members that fit together go in one after the other. */
  lemma {:induction false} InsertAllFits(t: Tables, sid: SessionId, ms: seq<Member>)
    requires RowsOk(t) && sid in t.sessions && LoadMembers(t, sid) == map[]
    requires DistinctIds(ms) && Keyed(sid, ById(ms)) && DistinctIndices(ById(ms))
    ensures InsertAll(t, sid, ms).Ok? && Filled(t, sid, InsertAll(t, sid, ms).value, ms)
    decreases |ms|
  {
    if ms == [] {
      assert Abs(t)[sid := Load(t, sid)] == Abs(t);
    } else {
      var init := ms[..|ms| - 1];
      InitFits(sid, ms);
      hide RowsOk, Abs, ById, DistinctIds, Keyed, DistinctIndices, InsertMember, BecomesOf;
      InsertAllFits(t, sid, init);
      var t1 := InsertAll(t, sid, init).value;
      LastFits(t1, sid, ms);
      FilledNext(t, sid, t1, ms);
    }
  }

  lemma InitFits(sid: SessionId, ms: seq<Member>)
    requires ms != [] && DistinctIds(ms) && Keyed(sid, ById(ms)) && DistinctIndices(ById(ms))
    ensures var init := ms[..|ms| - 1]; DistinctIds(init) && Keyed(sid, ById(init)) && DistinctIndices(ById(init))
    ensures ms[|ms| - 1].session == sid
  {
    var init, m := ms[..|ms| - 1], ms[|ms| - 1];
    ByIdLacks(init, m.id);
    assert m.id in ById(ms);
    assert forall id :: id in ById(init) ==> id != m.id && ById(init)[id] == ById(ms)[id];
  }

  lemma LastFits(t: Tables, sid: SessionId, ms: seq<Member>)
    requires ms != [] && DistinctIds(ms) && Keyed(sid, ById(ms)) && DistinctIndices(ById(ms))
    requires sid in t.sessions && LoadMembers(t, sid) == ById(ms[..|ms| - 1])
    ensures var m := ms[|ms| - 1];
      InsertMember(t, sid, m) == Ok(t.(members := t.members[(sid, m.id) := m])) && m.session == sid
  {
    var init, m := ms[..|ms| - 1], ms[|ms| - 1];
    InitFits(sid, ms);
    ByIdLacks(init, m.id);
    MemberRows(t, sid, m.id);
    assert m.id in ById(ms);
    forall o | o in ById(init) ensures ById(init)[o].index != m.index { assert o in ById(ms); }
    IndexUsedMeans(t, sid, m.index, m.id);
    hide ById;
  }

  lemma CreateRefines(t: Tables, rec: Record, clock: Time)
    requires SqlOk(t) && Admissible(Abs(t), Create(rec, clock))
    ensures var (t', out) := SqlCreate(t, rec);
      SqlOk(t') && (Abs(t'), out) == Step(Abs(t), Create(rec, clock))
  {
    var sid, norm := rec.head.id, Normalize(rec.head.joinCode);
    StepKeepsStoreOk(Abs(t), Create(rec, clock));
    NormUsedMeans(t, norm);
    hide StoreOk;
    if sid in t.sessions || CodeTaken(Abs(t), norm) {
      assert SqlCreate(t, rec) == (t, Err(Conflict)) && Step(Abs(t), Create(rec, clock)) == (Abs(t), Err(Conflict));
      hide *;
    } else {
      CreateFills(t, rec);
      hide RowsOk, LoadMembers, CodeTaken, NormUsed, SessionOk, DistinctIds, InsertAll;
    }
  }

  lemma CreateFills(t: Tables, rec: Record)
    requires RowsOk(t) && rec.head.id != "" && rec.head.id !in t.sessions && DistinctIds(rec.members)
    requires Keyed(rec.head.id, ById(rec.members)) && DistinctIndices(ById(rec.members))
    ensures var sid := rec.head.id;
      var r := InsertAll(t.(sessions := t.sessions[sid := Row(rec.head, Normalize(rec.head.joinCode))]), sid, rec.members);
      r.Ok? && RowsOk(r.value) && Abs(r.value) == Abs(t)[sid := View(rec)]
  {
    hide RowsOk, LoadMembers, Normalize, DistinctIds, InsertAll, ById, Abs, Keyed, DistinctIndices, DistinctNodes;
    var sid, row := rec.head.id, Row(rec.head, Normalize(rec.head.joinCode));
    var t1 := t.(sessions := t.sessions[sid := row]);
    NewRow(t, sid, row);
    InsertAllFits(t1, sid, rec.members);
    var t2 := InsertAll(t1, sid, rec.members).value;
    assert Abs(t2) == Abs(t1)[sid := View(rec)];
  }

  lemma NewRow(t: Tables, sid: SessionId, row: Row)
    requires RowsOk(t) && sid !in t.sessions && sid != "" && row.head.id == sid && row.norm == Normalize(row.head.joinCode)
    ensures var t' := t.(sessions := t.sessions[sid := row]);
      RowsOk(t') && LoadMembers(t', sid) == map[] && Abs(t') == Abs(t)[sid := Session(row.head, map[])]
  {
    var t' := t.(sessions := t.sessions[sid := row]);
    hide Normalize;
    forall k | k in t.members ensures k.0 != sid { assert MemberRowOk(t, k); }
    forall o ensures LoadMembers(t', o) == LoadMembers(t, o) {}
    assert LoadMembers(t', sid) == map[];
    forall o | o in t'.sessions ensures RowOk(t', o) { if o != sid { assert RowOk(t, o); } }
    forall k | k in t'.members ensures MemberRowOk(t', k) { assert MemberRowOk(t, k); }
  }

  lemma ListRefines(t: Tables, f: Filter)
    ensures (map sid | sid in t.sessions && Matches(f, t.sessions[sid].head) :: Load(t, sid))
         == (map sid | sid in Abs(t) && Matches(f, Abs(t)[sid].head) :: Abs(t)[sid])
  {
  }

  /** The tables carry out every admissible operation as the interface means it. */
  lemma SqlRefines(t: Tables, op: Op)
    requires SqlOk(t) && Admissible(Abs(t), op)
    ensures var (t', out) := SqlStep(t, op); SqlOk(t') && (Abs(t'), out) == Step(Abs(t), op)
  {
    hide SqlCreate, SqlByCode, SqlJoin, SqlUpdate, SqlRemove, SqlOffline, SqlRotate, SqlDelete, SqlOk, Load, Admissible, Normalize;
    match op
    case Create(rec, clock) => CreateRefines(t, rec, clock);
    case Get(sid) => assert sid in t.sessions ==> Abs(t)[sid := Load(t, sid)] == Abs(t);
    case GetByJoinCode(code) => ByCodeRefines(t, Normalize(code));
    case Join(sid, req, clock, rand) => JoinRefines(t, sid, req, clock, rand);
    case UpdateMember(sid, m) => UpdateRefines(t, sid, m);
    case RemoveMember(sid, mid) => RemoveRefines(t, sid, mid);
    case MarkOffline(sid, mid, conn, now, clock) => OfflineRefines(t, sid, mid, conn, now, clock);
    case Revoke(_) => FlagRefines(t, op);
    case Close(_) => FlagRefines(t, op);
    case RotateToken(sid, hash, code) => RotateRefines(t, sid, hash, code);
    case Delete(sid) => DeleteRefines(t, sid);
    case List(f) =>
      ListRefines(t, f);
  }

  // ---- The constraints hold after every operation ----------------------------------------------

  ghost predicate IndexUnique(t: Tables)
  {
    forall j, k :: j in t.members && k in t.members && j.0 == k.0 && t.members[j].index == t.members[k].index ==> j == k
  }

  ghost predicate NormUnique(t: Tables)
  {
    forall a, b :: a in t.sessions && b in t.sessions && t.sessions[a].norm == t.sessions[b].norm != "" ==> a == b
  }

  ghost predicate Schema(t: Tables) { RowsOk(t) && IndexUnique(t) && NormUnique(t) }

  lemma WriteKeepsSchema(t: Tables, sid: SessionId, m: Member)
    requires Schema(t) && sid in t.sessions && !IndexUsed(t, sid, m.index, m.id)
    ensures Schema(t.(members := t.members[(sid, m.id) := m.(session := sid)]))
  {
    RowsStayOk(t, sid, m.(session := sid));
    hide RowsOk;
  }

  lemma {:induction false} InsertAllKeepsSchema(t: Tables, sid: SessionId, ms: seq<Member>)
    requires Schema(t) && sid in t.sessions && InsertAll(t, sid, ms).Ok?
    ensures Schema(InsertAll(t, sid, ms).value) && InsertAll(t, sid, ms).value.sessions == t.sessions
    decreases |ms|
  {
    hide Schema, IndexUsed;
    if ms != [] {
      InsertAllKeepsSchema(t, sid, ms[..|ms| - 1]);
      WriteKeepsSchema(InsertAll(t, sid, ms[..|ms| - 1]).value, sid, ms[|ms| - 1]);
    }
  }

  lemma CreateKeepsSchema(t: Tables, rec: Record)
    requires Schema(t)
    ensures Schema(SqlCreate(t, rec).0)
  {
    var sid, row := rec.head.id, Row(rec.head, Normalize(rec.head.joinCode));
    hide RowsOk, Normalize;
    if SqlCreate(t, rec).1.Ok? {
      NewRow(t, sid, row);
      var t1 := t.(sessions := t.sessions[sid := row]);
      assert NormUnique(t1);
      InsertAllKeepsSchema(t1, sid, rec.members);
      assert SqlCreate(t, rec).0 == InsertAll(t1, sid, rec.members).value;
      hide *;
    }
  }

  lemma SessionWriteKeepsSchema(t: Tables, sid: SessionId, row: Row)
    requires Schema(t) && sid in t.sessions && row.head.id == sid && row.norm == Normalize(row.head.joinCode)
    requires row.norm == t.sessions[sid].norm || !NormUsed(t, row.norm)
    ensures Schema(t.(sessions := t.sessions[sid := row]))
  {
    assert RowOk(t, sid);
    HeadKeepsRows(t, sid, row);
    hide RowsOk, Normalize;
  }

  lemma DeleteKeepsSchema(t: Tables, sid: SessionId)
    requires Schema(t)
    ensures Schema(SqlDelete(t, sid).0)
  {
    if sid in t.sessions { DeleteKeepsRows(t, sid); }
    hide RowsOk;
  }

  lemma RemoveKeepsSchema(t: Tables, sid: SessionId, mid: MemberId)
    requires Schema(t)
    ensures Schema(SqlRemove(t, sid, mid).0)
  {
    FewerRowsStayOk(t, SqlRemove(t, sid, mid).0);
    hide RowsOk;
  }

  lemma SchemaKeys(t: Tables, k: MemberKey)
    requires Schema(t) && k in t.members
    ensures k.0 in t.sessions && t.members[k].session == k.0 && t.members[k].id == k.1
  {
    assert MemberRowOk(t, k);
  }

  // ---- The code ----------------------------------------------------------------------------------

  ghost predicate Ascending(ms: seq<Member>)
  {
    forall i, j :: 0 <= i < j < |ms| ==> ms[i].index < ms[j].index
  }

  /** What is left to fetch comes after what was fetched. */
  ghost predicate Fetched(t: Tables, sid: SessionId, rest: set<MemberKey>, ms: seq<Member>)
  {
    && rest <= t.members.Keys && (forall k :: k in rest ==> k.0 == sid)
    && (forall id :: id in ById(ms) <==> (sid, id) in t.members && (sid, id) !in rest)
    && (forall id :: id in ById(ms) ==> ById(ms)[id] == t.members[(sid, id)])
    && DistinctIds(ms) && Ascending(ms)
    && (forall k, i :: k in rest && 0 <= i < |ms| ==> ms[i].index < t.members[k].index)
  }

  lemma StrictlyLeast(t: Tables, sid: SessionId, rest: set<MemberKey>, k: MemberKey)
    requires Schema(t) && rest <= t.members.Keys && k in rest && forall o :: o in rest ==> o.0 == sid
    requires forall o :: o in rest ==> t.members[k].index <= t.members[o].index
    ensures forall o :: o in rest && o != k ==> t.members[k].index < t.members[o].index
    ensures k == (sid, t.members[k].id)
  {
    SchemaKeys(t, k);
    hide RowsOk, NormUnique;
  }

  lemma FetchedNone(t: Tables, sid: SessionId, rest: set<MemberKey>)
    requires rest == set k | k in t.members && k.0 == sid
    ensures Fetched(t, sid, rest, [])
  {
  }

  lemma FetchedNext(t: Tables, sid: SessionId, rest: set<MemberKey>, ms: seq<Member>, k: MemberKey)
    requires Schema(t) && Fetched(t, sid, rest, ms) && k in rest
    requires forall o :: o in rest ==> t.members[k].index <= t.members[o].index
    ensures Fetched(t, sid, rest - {k}, ms + [t.members[k]])
  {
    hide Schema;
    var m := t.members[k];
    StrictlyLeast(t, sid, rest, k);
    ByIdAppend(ms, m);
    forall i | 0 <= i < |ms| ensures ms[i].id != m.id { ByIdAt(ms, i); }
    hide ById;
  }

  /** In index order, the first member with a node is the one the map finds. */
  lemma FirstOfAscending(ms: seq<Member>, node: NodeId)
    requires DistinctIds(ms) && Ascending(ms)
    ensures var i := IndexOfNode(ms, node);
      ByNode(ById(ms), node) == if i < |ms| then Some(ms[i].id) else None
  {
    var i := IndexOfNode(ms, node);
    if ByNode(ById(ms), node).Some? {
      var id := ByNode(ById(ms), node).value;
      ByIdKeys(ms, id);
      var j :| 0 <= j < |ms| && ms[j].id == id;
      ByIdAt(ms, j);
      ByIdAt(ms, i);
    } else if i < |ms| {
      ByIdAt(ms, i);
    }
  }

  lemma {:induction false} InsertAllFails(t: Tables, sid: SessionId, ms: seq<Member>, i: nat)
    requires i <= |ms| && InsertAll(t, sid, ms[..i]).Err?
    ensures InsertAll(t, sid, ms) == InsertAll(t, sid, ms[..i])
    decreases |ms|
  {
    if i < |ms| {
      assert ms[..|ms| - 1][..i] == ms[..i];
      InsertAllFails(t, sid, ms[..|ms| - 1], i);
    } else {
      assert ms[..i] == ms;
    }
  }

  lemma EnteredSchema(t: Tables, sid: SessionId, m: Member, row: Row)
    requires Schema(t) && sid in t.sessions && InsertMember(t, sid, m).Ok?
    requires row.head.id == t.sessions[sid].head.id && row.head.joinCode == t.sessions[sid].head.joinCode
    requires row.norm == t.sessions[sid].norm
    ensures Schema(Tables(t.sessions[sid := row], InsertMember(t, sid, m).value.members))
  {
    assert RowOk(t, sid);
    WriteKeepsSchema(t, sid, m);
    SessionWriteKeepsSchema(InsertMember(t, sid, m).value, sid, row);
    hide Schema;
  }

  lemma OfflineKeepsSchema(t: Tables, sid: SessionId, mid: MemberId, conn: string, now: Time)
    requires Schema(t)
    ensures Schema(SqlOffline(t, sid, mid, conn, now).0)
  {
    if (sid, mid) in t.members {
      SchemaKeys(t, (sid, mid));
      var m := t.members[(sid, mid)].(connectionId := "", leaveAt := now);
      WriteKeepsSchema(t, sid, m);
    }
    hide RowsOk, NormUnique;
  }

  lemma BlankIsUnused(t: Tables)
    ensures !NormUsed(t, "")
  {
  }

  class SQLiteStore {
    var sessions: map<SessionId, Row>
    var members: map<MemberKey, Member>

    ghost function State(): Tables
      reads this
    {
      Tables(sessions, members)
    }

    ghost predicate Valid()
      reads this
    {
      Schema(State())
    }

    constructor ()
      ensures State() == Tables(map[], map[]) && Valid()
    {
      sessions, members := map[], map[];
    }

    /** SELECT … ORDER BY member_index: the least of the rows left, one at a time. */
    method SelectMembers(sid: SessionId) returns (ms: seq<Member>)
      requires Valid()
      ensures ById(ms) == LoadMembers(State(), sid) && DistinctIds(ms) && Ascending(ms)
    {
      hide Schema, ById;
      ms := [];
      var rest := set k | k in members && k.0 == sid;
      FetchedNone(State(), sid, rest);
      while rest != {}
        invariant Fetched(State(), sid, rest, ms)
        decreases |rest|
      {
        var k := Least(rest);
        FetchedNext(State(), sid, rest, ms, k);
        ms, rest := ms + [members[k]], rest - {k};
      }
    }

    method Least(rest: set<MemberKey>) returns (k: MemberKey)
      requires rest != {} && rest <= members.Keys
      ensures k in rest && forall o :: o in rest ==> members[k].index <= members[o].index
    {
      k :| k in rest;
      var left := rest - {k};
      while left != {}
        invariant left <= rest && k in rest
        invariant forall o :: o in rest && o !in left ==> members[k].index <= members[o].index
      {
        var o :| o in left;
        left := left - {o};
        if members[o].index < members[k].index { k := o; }
      }
    }

    method Insert(sid: SessionId, m: Member) returns (err: Option<StoreErr>)
      modifies this`members
      ensures match InsertMember(old(State()), sid, m)
              case Ok(t) => err == None && State() == t
              case Err(e) => err == Some(e) && State() == old(State())
    {
      if (sid, m.id) in members || IndexUsed(Tables(sessions, members), sid, m.index, m.id) { return Some(Conflict); }
      members := members[(sid, m.id) := m.(session := sid)];
      return None;
    }

    method UpdateRow(sid: SessionId, m: Member) returns (err: Option<StoreErr>)
      modifies this`members
      ensures match UpdateMemberRow(old(State()), sid, m)
              case Ok(t) => err == None && State() == t
              case Err(e) => err == Some(e) && State() == old(State())
    {
      if (sid, m.id) !in members {
        return Some(if sid in sessions then MemberMissing else NotFound);
      }
      if IndexUsed(Tables(sessions, members), sid, m.index, m.id) { return Some(Conflict); }
      members := members[(sid, m.id) := m.(session := sid)];
      return None;
    }

    method LoadSession(sid: SessionId) returns (r: Result<Record, StoreErr>)
      requires Valid()
      ensures r.Ok? <==> sid in sessions
      ensures r.Err? ==> r.error == NotFound
      ensures r.Ok? ==> View(r.value) == Load(State(), sid) && DistinctIds(r.value.members) && Ascending(r.value.members)
    {
      if sid !in sessions { return Err(NotFound); }
      var ms := SelectMembers(sid);
      return Ok(Record(sessions[sid].head, ms));
    }

    method Create(rec: Record) returns (err: Option<StoreErr>)
      requires Valid()
      modifies this
      ensures Valid() && (State(), SeenDone(err)) == SqlCreate(old(State()), rec)
    {
      CreateKeepsSchema(State(), rec);
      hide Schema, NormUsed;
      if rec.head.id == "" || rec.head.id in sessions { return Some(Conflict); }
      var norm := Normalize(rec.head.joinCode);
      if NormUsed(Tables(sessions, members), norm) { return Some(Conflict); }
      var savedSessions, savedMembers := sessions, members;
      sessions := sessions[rec.head.id := Row(rec.head, norm)];
      err := InsertMembers(rec.head.id, rec.members);
      if err != None {
        sessions, members := savedSessions, savedMembers;
      }
    }

    method InsertMembers(sid: SessionId, ms: seq<Member>) returns (err: Option<StoreErr>)
      modifies this`members
      ensures match InsertAll(old(State()), sid, ms)
              case Ok(t) => err == None && State() == t
              case Err(e) => err == Some(e)
    {
      ghost var was := State();
      hide InsertMember;
      for i := 0 to |ms|
        invariant InsertAll(was, sid, ms[..i]) == Ok(State())
      {
        assert ms[..i + 1][..i] == ms[..i];
        err := Insert(sid, ms[i]);
        if err != None {
          InsertAllFails(was, sid, ms, i + 1);
          return;
        }
      }
      assert ms[..|ms|] == ms;
      return None;
    }

    method Get(sid: SessionId) returns (r: Result<Record, StoreErr>)
      requires Valid()
      ensures (State(), SeenFound(r)) == SqlStep(State(), Op.Get(sid))
    {
      r := LoadSession(sid);
    }

    method GetByJoinCode(code: string) returns (r: Result<Record, StoreErr>)
      requires Valid()
      ensures (State(), SeenFound(r)) == SqlStep(State(), Op.GetByJoinCode(code))
    {
      var norm := Normalize(code);
      if !NormUsed(Tables(sessions, members), norm) { return Err(NotFound); }
      var sid :| sid in sessions && sessions[sid].norm == norm;
      r := LoadSession(sid);
      hide RowsOk, IndexUnique, Load;
    }

    method Join(sid: SessionId, req: JoinRequest, clock: Time, rand: Random) returns (r: Result<JoinOutcome, StoreErr>)
      requires Valid()
      modifies this
      ensures Valid() && (State(), SeenJoined(r)) == SqlJoin(old(State()), sid, req, When(req.now, clock), rand)
    {
      ghost var was := State();
      hide Schema, FreeIndex, Draw, LoadMembers, Ascending, DistinctIds, ById, Refreshed, SqlRejoin, SqlEnter;
      var now := if req.now == 0 then clock else req.now;
      var loaded := LoadSession(sid);
      if loaded.Err? { return Err(NotFound); }
      var rec := loaded.value;
      if rec.head.closed { return Err(Closed); }
      if IsExpired(rec.head, now) { return Err(Expired); }
      var i := MemberByNodeId(rec.members, req.nodeId);
      FirstOfAscending(rec.members, req.nodeId);
      if i < |rec.members| {
        ByIdAt(rec.members, i);
        r := RejoinAt(sid, rec, i, req, now);
        return;
      }
      if rec.head.revoked { return Err(Revoked); }
      if rec.head.joinLimit > 0 && rec.head.joinsUsed >= rec.head.joinLimit { return Err(JoinLimit); }
      var isFirst := rec.head.owner == "";
      var pending := rec.head.requireApproval && !isFirst;
      var active := ActiveMembers(rec.members);
      ActiveCountIsSize(rec.members);
      if !pending && rec.head.maxMembers > 0 && active >= rec.head.maxMembers { return Err(Full); }
      var index := FreeIndexOf(rec.members);
      IndicesOfList(rec.members);
      if index == 0 { return Err(Full); }
      var id := NewMemberId(rec.members, rand);
      r := EnterAs(sid, rec, id, index, req, now);
    }

    method RejoinAt(sid: SessionId, rec: Record, i: nat, req: JoinRequest, now: Time) returns (r: Result<JoinOutcome, StoreErr>)
      requires Valid() && sid in sessions && View(rec) == Load(State(), sid) && DistinctIds(rec.members) && i < |rec.members|
      requires rec.members[i].id in Load(State(), sid).members
      requires Load(State(), sid).members[rec.members[i].id] == rec.members[i]
      modifies this`members
      ensures Valid() && (State(), SeenJoined(r)) == SqlRejoin(old(State()), sid, rec.members[i].id, req, now)
    {
      hide Schema, LoadMembers;
      var existing := Refresh(rec.head, rec.members[i], req, now);
      ByIdUpdate(rec.members, i, existing);
      ghost var was := State();
      var err := UpdateRow(sid, existing);
      if err != None { return Err(err.value); }
      WriteKeepsSchema(was, sid, existing);
      return Ok(JoinOutcome(rec.(members := rec.members[i := existing]), existing, true, rec.head.owner == existing.id));
    }

    method EnterAs(sid: SessionId, rec: Record, id: MemberId, index: u16, req: JoinRequest, now: Time)
      returns (r: Result<JoinOutcome, StoreErr>)
      requires Valid() && sid in sessions && View(rec) == Load(State(), sid)
      modifies this
      ensures Valid() && (State(), SeenJoined(r)) == SqlEnter(old(State()), sid, id, index, req, now)
    {
      hide Schema, LoadMembers, ById, InsertMember;
      ghost var was := State();
      var isFirst := rec.head.owner == "";
      var pending := rec.head.requireApproval && !isFirst;
      var m := Member(id, sid, index, req.nodeId, req.publicKey, MemberRole, if pending then Pending else Active,
                      req.capabilities, req.candidates, req.connectionId, now, now, 0);
      var head := rec.head;
      if isFirst {
        m := m.(role := OwnerRole);
        head := head.(owner := m.id);
      }
      assert m == Newcomer(rec.head, id, index, req, now).(session := sid);
      var err := Insert(sid, m);
      if err != None { return Err(err.value); }
      var row := sessions[sid];
      if isFirst {
        sessions := sessions[sid := row.(head := row.head.(owner := m.id, joinsUsed := row.head.joinsUsed + 1))];
      } else {
        sessions := sessions[sid := row.(head := row.head.(joinsUsed := row.head.joinsUsed + 1))];
      }
      EnteredSchema(was, sid, m, sessions[sid]);
      ByIdAppend(rec.members, m);
      return Ok(JoinOutcome(Record(head.(joinsUsed := head.joinsUsed + 1), rec.members + [m]), m, false, isFirst));
    }

    method UpdateMember(sid: SessionId, m: Member) returns (err: Option<StoreErr>)
      requires Valid()
      modifies this`members
      ensures Valid() && (State(), SeenDone(err)) == SqlUpdate(old(State()), sid, m)
    {
      ghost var was := State();
      if m.id == "" { return Some(MemberMissing); }
      if sid !in sessions { return Some(NotFound); }
      err := UpdateRow(sid, m);
      if err == None { WriteKeepsSchema(was, sid, m); }
      hide Schema;
    }

    method RemoveMember(sid: SessionId, mid: MemberId) returns (err: Option<StoreErr>)
      requires Valid()
      modifies this`members
      ensures Valid() && (State(), SeenDone(err)) == SqlRemove(old(State()), sid, mid)
    {
      RemoveKeepsSchema(State(), sid, mid);
      hide Schema;
      if sid !in sessions { return Some(NotFound); }
      if (sid, mid) !in members { return Some(MemberMissing); }
      members := members - {(sid, mid)};
      return None;
    }

    method MarkOffline(sid: SessionId, mid: MemberId, conn: string, now: Time, clock: Time) returns (err: Option<StoreErr>)
      requires Valid()
      modifies this`members
      ensures Valid() && (State(), SeenDone(err)) == SqlOffline(old(State()), sid, mid, conn, When(now, clock))
    {
      OfflineKeepsSchema(State(), sid, mid, conn, When(now, clock));
      hide Schema;
      var at := if now == 0 then clock else now;
      if (sid, mid) !in members {
        return Some(if sid in sessions then MemberMissing else NotFound);
      }
      var m := members[(sid, mid)];
      if conn != "" && m.connectionId != conn { return Some(Conflict); }
      members := members[(sid, mid) := m.(connectionId := "", leaveAt := at)];
      return None;
    }

    method ExecSessionUpdate(sid: SessionId, head: Head, norm: string) returns (err: Option<StoreErr>)
      requires Valid()
      requires sid in sessions ==> head.id == sid && norm == Normalize(head.joinCode)
      requires sid in sessions ==> norm == sessions[sid].norm || !NormUsed(State(), norm)
      modifies this`sessions
      ensures Valid()
      ensures sid in old(sessions) ==> err == None && sessions == old(sessions)[sid := Row(head, norm)]
      ensures sid !in old(sessions) ==> err == Some(NotFound) && sessions == old(sessions)
    {
      if sid !in sessions { return Some(NotFound); }
      SessionWriteKeepsSchema(State(), sid, Row(head, norm));
      hide Schema;
      sessions := sessions[sid := Row(head, norm)];
      return None;
    }

    method Revoke(sid: SessionId) returns (err: Option<StoreErr>)
      requires Valid()
      modifies this`sessions
      ensures Valid() && (State(), SeenDone(err)) == SqlStep(old(State()), Op.Revoke(sid))
    {
      if sid !in sessions { return Some(NotFound); }
      assert RowOk(State(), sid);
      hide Schema;
      err := ExecSessionUpdate(sid, sessions[sid].head.(revoked := true), sessions[sid].norm);
    }

    method Close(sid: SessionId) returns (err: Option<StoreErr>)
      requires Valid()
      modifies this`sessions
      ensures Valid() && (State(), SeenDone(err)) == SqlStep(old(State()), Op.Close(sid))
    {
      if sid !in sessions { return Some(NotFound); }
      assert RowOk(State(), sid);
      hide Schema;
      err := ExecSessionUpdate(sid, sessions[sid].head.(closed := true), sessions[sid].norm);
    }

    method RotateToken(sid: SessionId, newHash: string, newCode: string) returns (err: Option<StoreErr>)
      requires Valid()
      modifies this`sessions
      ensures Valid() && (State(), SeenDone(err)) == SqlRotate(old(State()), sid, newHash, newCode)
    {
      if sid !in sessions { return Some(NotFound); }
      assert RowOk(State(), sid);
      BlankIsUnused(State());
      hide Schema, NormUsed, Normalize;
      var row, norm := sessions[sid], Normalize(newCode);
      if norm != "" && norm != Normalize(row.head.joinCode) {
        if NormUsed(Tables(sessions, members), norm) { return Some(Conflict); }
      }
      err := ExecSessionUpdate(sid, row.head.(joinCode := newCode, tokenHash := newHash, revoked := false), norm);
    }

    method Delete(sid: SessionId) returns (err: Option<StoreErr>)
      requires Valid()
      modifies this
      ensures Valid() && (State(), SeenDone(err)) == SqlDelete(old(State()), sid)
    {
      DeleteKeepsSchema(State(), sid);
      hide Schema;
      var saved := members;
      members := map k | k in members && k.0 != sid :: members[k];
      if sid !in sessions {
        members := saved;
        return Some(NotFound);
      }
      sessions := sessions - {sid};
      return None;
    }
  }
}
