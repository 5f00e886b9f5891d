/** Capacity when every operation is atomic (internal/session/service.go, internal/storage/memory.go): when
    the member limit holds over whole runs, and the one step that breaks it. */
module Capacity {
  import opened Machine
  import opened Records
  import opened Sessions
  import opened Service

  datatype Event =
    | Changes(c: Change)
    | Joins(req: JoinRequest, now: Time, rand: Random)
    | Removes(mid: MemberId)
    | Disconnects(mid: MemberId, conn: string, now: Time)
    | Revokes
    | Rotates(hash: string, code: string)
    | Closes
    | Sweeps(now: Time, grace: nat)

  ghost function Kept(s: Session, r: Result<(Session, Out), StoreErr>): Session
  {
    match r case Ok((s', _)) => s' case Err(_) => s
  }

  ghost function Next(s: Session, e: Event): Session
  {
    match e
    case Changes(c) => (match Decide(s, c) case Ok(m) => Kept(s, Updating(s, m)) case Err(_) => s)
    case Joins(req, now, rand) => Kept(s, Joining(s, req, now, rand))
    case Removes(mid) => Kept(s, Removing(s, mid))
    case Disconnects(mid, conn, now) => Kept(s, Offlining(s, mid, conn, now))
    case Revokes => s.(head := s.head.(revoked := true))
    case Rotates(hash, code) => s.(head := s.head.(joinCode := code, tokenHash := hash, revoked := false))
    case Closes => s.(head := s.head.(closed := true))
    case Sweeps(now, grace) => Swept(s, now, grace)
  }

  ghost function Exec(h: Head, run: seq<Event>): Session
  {
    if run == [] then Session(h, map[]) else Next(Exec(h, run[..|run| - 1]), run[|run| - 1])
  }

  ghost function Actives(s: Session): nat { |ActiveIds(s.members)| }

  ghost predicate Within(s: Session) { s.head.maxMembers > 0 ==> Actives(s) <= s.head.maxMembers }

  /** A node that is on the books but not active comes back to a full session that does not ask for approval. */
  ghost predicate Overshoots(s: Session, e: Event)
  {
    && e.Joins? && !s.head.closed && !IsExpired(s.head, e.now)
    && !s.head.requireApproval && s.head.maxMembers > 0 && Actives(s) == s.head.maxMembers
    && match ByNode(s.members, e.req.nodeId)
       case Some(id) => id in s.members && s.members[id].status != Active
       case None => false
  }

  // ---- One step ----------------------------------------------------------------------------

  lemma ActiveAfterWrite(ms: Members, id: MemberId, m: Member)
    ensures |ActiveIds(ms[id := m])|
         == |ActiveIds(ms)| - (if id in ms && ms[id].status == Active then 1 else 0) + (if m.status == Active then 1 else 0)
  {
    var before, after := ActiveIds(ms), ActiveIds(ms[id := m]);
    WithAndWithout(before, id);
    WithAndWithout(after, id);
    assert after - {id} == before - {id};
  }

  lemma WithAndWithout(ids: set<MemberId>, id: MemberId)
    ensures |ids| == |ids - {id}| + if id in ids then 1 else 0
  {
    assert ids == (ids - {id}) + if id in ids then {id} else {};
  }

  lemma FewerActive(ms: Members, ms': Members)
    requires forall id :: id in ms' ==> id in ms && ms'[id] == ms[id]
    ensures |ActiveIds(ms')| <= |ActiveIds(ms)|
  {
    Smaller(ActiveIds(ms'), ActiveIds(ms));
  }

  lemma RejoinOvershootsIff(s: Session, id: MemberId, req: JoinRequest, now: Time)
    requires Within(s) && id in s.members
    ensures var s' := Rejoin(s, id, req, now).0;
      !Within(s') <==> !s.head.requireApproval && s.members[id].status != Active
                       && s.head.maxMembers > 0 && Actives(s) == s.head.maxMembers
  {
    ActiveAfterWrite(s.members, id, Refreshed(s.head, s.members[id], req, now));
  }

  lemma EnterStaysWithin(s: Session, id: MemberId, index: u16, req: JoinRequest, now: Time)
    requires Within(s) && id !in s.members
    requires !Pends(s.head) && s.head.maxMembers > 0 ==> Actives(s) < s.head.maxMembers
    ensures Within(Enter(s, id, index, req, now).0)
  {
    ActiveAfterWrite(s.members, id, Newcomer(s.head, id, index, req, now));
  }

  lemma JoinOvershootsIff(s: Session, req: JoinRequest, now: Time, rand: Random)
    requires Within(s)
    ensures !Within(Next(s, Joins(req, now, rand))) <==> Overshoots(s, Joins(req, now, rand))
  {
    hide Within, Rejoin, Enter;
    match ByNode(s.members, req.nodeId)
    case Some(id) => RejoinOvershootsIff(s, id, req, now);
    case None =>
      var id, index := Draw(rand, s.members.Keys), FreeIndex(Indices(s.members));
      if Refusal(s.head, |ActiveIds(s.members)|, index) == None {
        EnterStaysWithin(s, id, index, req, now);
      }
  }

  lemma ChangeStaysWithin(sid: SessionId, s: Session, c: Change)
    requires SessionOk(sid, s) && Within(s)
    ensures Within(Next(s, Changes(c)))
  {
    if Decide(s, c).Ok? {
      DecideKeepsIdentity(sid, s, c);
      ActiveAfterWrite(s.members, c.target, Decide(s, c).value);
    }
    hide SessionOk, ActiveIds, IsOwner;
  }

  /** Of all the steps there are, exactly that return puts a session over its limit. */
  lemma StepOvershootsIff(sid: SessionId, s: Session, e: Event)
    requires SessionOk(sid, s) && Within(s)
    ensures !Within(Next(s, e)) <==> Overshoots(s, e)
  {
    match e
    case Changes(c) => ChangeStaysWithin(sid, s, c);
    case Joins(req, now, rand) => JoinOvershootsIff(s, req, now, rand);
    case Removes(mid) => FewerActive(s.members, s.members - {mid});
    case Disconnects(mid, conn, now) =>
      if mid in s.members { ActiveAfterWrite(s.members, mid, s.members[mid].(connectionId := "", leaveAt := now)); }
    case Sweeps(now, grace) => FewerActive(s.members, Swept(s, now, grace).members);
    case _ =>
  }

  // ---- Runs --------------------------------------------------------------------------------

  predicate NoRejections(run: seq<Event>)
  {
    forall i :: 0 <= i < |run| ==> !(run[i].Changes? && run[i].c.Reject?)
  }

  ghost predicate EveryoneActive(s: Session) { forall id :: id in s.members ==> s.members[id].status == Active }

  /** What runs keep: fit records, the limit, and where nobody is ever rejected, only active members. */
  ghost predicate Sound(h: Head, s: Session)
  {
    && SessionOk(h.id, s) && Within(s)
    && s.head.maxMembers == h.maxMembers && s.head.requireApproval == h.requireApproval
    && (!h.requireApproval ==> EveryoneActive(s))
  }

  lemma StepKeepsSession(sid: SessionId, s: Session, e: Event)
    requires SessionOk(sid, s)
    ensures SessionOk(sid, Next(s, e))
    ensures Next(s, e).head.maxMembers == s.head.maxMembers && Next(s, e).head.requireApproval == s.head.requireApproval
  {
    match e
    case Changes(c) => if Decide(s, c).Ok? { DecideKeepsIdentity(sid, s, c); }
    case Joins(req, now, rand) =>
      if Joining(s, req, now, rand).Ok? { JoiningKeeps(sid, s, req, now, rand); }
      hide SessionOk;
    case _ =>
  }

  lemma StepKeepsEveryoneActive(sid: SessionId, s: Session, e: Event)
    requires SessionOk(sid, s) && EveryoneActive(s) && !s.head.requireApproval && !(e.Changes? && e.c.Reject?)
    ensures EveryoneActive(Next(s, e))
  {
    if e.Changes? && Decide(s, e.c).Ok? { DecideKeepsIdentity(sid, s, e.c); }
    hide SessionOk;
  }

  lemma {:induction false} RunsAreSound(h: Head, run: seq<Event>)
    requires h.id != "" && (h.requireApproval || NoRejections(run))
    ensures Sound(h, Exec(h, run))
    decreases |run|
  {
    if run == [] {
      assert Keyed(h.id, map[]) && DistinctIndices(map[]) && DistinctNodes(map[]);
      assert ActiveIds(map[]) == {};
    } else {
      var init, e := run[..|run| - 1], run[|run| - 1];
      assert !h.requireApproval ==> NoRejections(init);
      RunsAreSound(h, init);
      var s := Exec(h, init);
      assert Exec(h, run) == Next(s, e);
      hide Exec, SessionOk, Within, EveryoneActive, Next;
      StepKeepsSession(h.id, s, e);
      StepOvershootsIff(h.id, s, e);
      if !h.requireApproval {
        StepKeepsEveryoneActive(h.id, s, e);
        ActiveNeverReturns(s, e);
      }
    }
  }

  lemma ActiveNeverReturns(s: Session, e: Event)
    requires EveryoneActive(s)
    ensures !Overshoots(s, e)
  {
  }

  /** Active members never exceed a positive limit when approval is required, or when nobody is rejected. */
  lemma {:induction false} CapacityHolds(h: Head, run: seq<Event>)
    requires h.id != "" && (h.requireApproval || NoRejections(run))
    ensures h.maxMembers > 0 ==> Actives(Exec(h, run)) <= h.maxMembers
  {
    RunsAreSound(h, run);
  }

  // ---- The trace that breaks it ----------------------------------------------------------------

  lemma EntersAs(s: Session, node: NodeId, id: MemberId, now: Time, index: u16)
    requires !s.head.closed && s.head.expiresAt == 0 && !s.head.revoked && s.head.joinLimit == 0 && !Pends(s.head)
    requires id !in s.members && (forall o :: o in s.members ==> s.members[o].nodeId != node)
    requires s.head.maxMembers > 0 ==> Actives(s) < s.head.maxMembers
    requires FreeIndex(Indices(s.members)) == index != 0
    ensures var req := JoinRequest(node, "k", "c", [], [], now);
      Next(s, Joins(req, now, Random([id], ""))) == Enter(s, id, index, req, now).0
  {
  }

  function PairHead(owner: MemberId, joins: nat): Head
  {
    Head("s", "pair", "", "t", 0, joins, 2, false, owner, false, false, 1, 0, 0)
  }

  function Req(node: NodeId): JoinRequest { JoinRequest(node, "k", "c", [], [], 5) }

  function Someone(id: MemberId, index: u16, node: NodeId, role: Role): Member
  {
    Member(id, "s", index, node, "k", role, Status.Active, [], [], "c", 5, 5, 0)
  }

  const A := Someone("a", 1, "A", OwnerRole)
  const B := Someone("b", 2, "B", MemberRole)
  const C := Someone("c", 3, "C", MemberRole)
  const B_DENIED := B.(status := Denied, connectionId := "")

  const JOIN_A := Joins(Req("A"), 5, Random(["a"], ""))
  const JOIN_B := Joins(Req("B"), 5, Random(["b"], ""))
  const JOIN_C := Joins(Req("C"), 5, Random(["c"], ""))
  const REJECT_B := Changes(Change.Reject("a", "b"))

  lemma OwnerJoins()
    ensures Next(Session(PairHead("", 0), map[]), JOIN_A) == Session(PairHead("a", 1), map["a" := A])
  {
    var s := Session(PairHead("", 0), map[]);
    assert Indices(s.members) == {} && ActiveIds(s.members) == {};
    EntersAs(s, "A", "a", 5, 1);
  }

  lemma SecondJoins()
    ensures Next(Session(PairHead("a", 1), map["a" := A]), JOIN_B) == Session(PairHead("a", 2), map["a" := A, "b" := B])
  {
    var s := Session(PairHead("a", 1), map["a" := A]);
    assert "a" in s.members && Indices(s.members) == {1} && ActiveIds(s.members) == {"a"};
    assert FreeFrom({1}, 2) == 2;
    EntersAs(s, "B", "b", 5, 2);
  }

  lemma OwnerRejects()
    ensures Next(Session(PairHead("a", 2), map["a" := A, "b" := B]), REJECT_B)
         == Session(PairHead("a", 2), map["a" := A, "b" := B_DENIED])
  {
  }

  lemma ThirdJoins()
    ensures Next(Session(PairHead("a", 2), map["a" := A, "b" := B_DENIED]), JOIN_C)
         == Session(PairHead("a", 3), map["a" := A, "b" := B_DENIED, "c" := C])
  {
    var s := Session(PairHead("a", 2), map["a" := A, "b" := B_DENIED]);
    assert ActiveIds(s.members) == {"a"};
    assert Indices(s.members) == {1, 2} by {
      assert s.members.Keys == {"a", "b"} && s.members["a"].index == 1 && s.members["b"].index == 2;
    }
    assert FreeFrom({1, 2}, 2) == FreeFrom({1, 2}, 3) == 3;
    EntersAs(s, "C", "c", 5, 3);
  }

  lemma RejectedReturns()
    ensures Next(Session(PairHead("a", 3), map["a" := A, "b" := B_DENIED, "c" := C]), JOIN_B)
         == Session(PairHead("a", 3), map["a" := A, "b" := B, "c" := C])
  {
    var s := Session(PairHead("a", 3), map["a" := A, "b" := B_DENIED, "c" := C]);
    assert "b" in s.members && ByNode(s.members, "B") == Some("b");
    assert map["a" := A, "b" := B_DENIED, "c" := C]["b" := B] == map["a" := A, "b" := B, "c" := C];
  }

  lemma ExecNext(h: Head, run: seq<Event>, e: Event)
    ensures Exec(h, run + [e]) == Next(Exec(h, run), e)
  {
    assert (run + [e])[..|run|] == run;
  }

  lemma TraceEnds(h: Head, end: Session)
    requires h == PairHead("", 0)
    requires end == Session(PairHead("a", 3), map["a" := A, "b" := B, "c" := C])
    ensures Exec(h, [JOIN_A] + [JOIN_B] + [REJECT_B] + [JOIN_C] + [JOIN_B]) == end
  {
    assert Exec(h, [JOIN_A]) == Next(Exec(h, []), JOIN_A) by { ExecNext(h, [], JOIN_A); assert [] + [JOIN_A] == [JOIN_A]; }
    assert Exec(h, []) == Session(h, map[]);
    hide Exec, Next;
    OwnerJoins();
    ExecNext(h, [JOIN_A], JOIN_B);
    SecondJoins();
    ExecNext(h, [JOIN_A] + [JOIN_B], REJECT_B);
    OwnerRejects();
    ExecNext(h, [JOIN_A] + [JOIN_B] + [REJECT_B], JOIN_C);
    ThirdJoins();
    ExecNext(h, [JOIN_A] + [JOIN_B] + [REJECT_B] + [JOIN_C], JOIN_B);
    RejectedReturns();
  }

  /** A pair session without approval: the owner and B join, B is rejected, C joins, B returns. */
  lemma RejectedMemberReturnsOverLimit()
    ensures exists h: Head, run: seq<Event> ::
      h.id != "" && h.maxMembers == 2 && !h.requireApproval && Actives(Exec(h, run)) == 3
  {
    hide Exec, Next, Actives;
    var h, end := PairHead("", 0), Session(PairHead("a", 3), map["a" := A, "b" := B, "c" := C]);
    var run := [JOIN_A] + [JOIN_B] + [REJECT_B] + [JOIN_C] + [JOIN_B];
    TraceEnds(h, end);
    ThreeActive(end);
    assert Actives(Exec(h, run)) == 3;
  }

  lemma ThreeActive(s: Session)
    requires s.members == map["a" := A, "b" := B, "c" := C]
    ensures Actives(s) == 3
  {
    assert ActiveIds(s.members) == {"a", "b", "c"};
  }

  // ---- The steps are the store's -------------------------------------------------------------------

  /** A step leaves the session as the service's operation or the store's call does (members have names;
      a sweep that deletes the session is not a step). */
  lemma StepIsTheCall(st: Store, sid: SessionId, e: Event)
    requires StoreOk(st) && sid in st && "" !in st[sid].members
    requires e.Sweeps? ==> sid in Pruned(st, e.now, e.grace)
    requires e.Rotates? ==> !CodeTaken(st, Normalize(e.code)) || Normalize(e.code) == Normalize(st[sid].head.joinCode)
    ensures var st' := match e
        case Changes(c) => Atomically(st, sid, c).0
        case Joins(req, now, rand) => Step(st, Op.Join(sid, req.(now := now), now, rand)).0
        case Removes(mid) => Step(st, RemoveMember(sid, mid)).0
        case Disconnects(mid, conn, now) => Step(st, MarkOffline(sid, mid, conn, now, now)).0
        case Revokes => Step(st, Revoke(sid)).0
        case Rotates(hash, code) => Step(st, RotateToken(sid, hash, code)).0
        case Closes => Step(st, Op.Close(sid)).0
        case Sweeps(now, grace) => Pruned(st, now, grace);
      sid in st' && st'[sid] == Next(st[sid], e)
  {
    assert SessionOk(sid, st[sid]);
    if e.Changes? && Decide(st[sid], e.c).Ok? { DecideKeepsIdentity(sid, st[sid], e.c); }
    hide StoreOk, SessionOk, Normalize, CodeTaken, Decide, FreeIndex, Draw, Indices, ActiveIds, Swept, Dies;
  }
}
