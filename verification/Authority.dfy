/** Who may change what: the answers of the service's operations on a member (internal/session/service.go),
    stated on the records alone and on the owner the session records, in every state its callers can reach. */
module Authority {
  import opened Machine
  import opened Records
  import opened Sessions
  import opened Service
  import opened Interleaving
  import P = Promises

  ghost predicate Owns(s: Session, id: MemberId) { id == s.head.owner && id in s.members }

  /** The member an accepted change writes; the reason it is refused otherwise, in the order of the checks. */
  ghost predicate Verdict(s: Session, c: Change, r: Result<Member, SvcErr>)
  {
    match c
    case Approve(owner, target, now) =>
      if !Owns(s, owner) then r == Err(NotOwner)
      else if target !in s.members then r == Err(NoMember)
      else if s.members[target].status != Pending then r == Err(BadParams)
      else if P.AtCapacity(s) then r == Err(SessionFull)
      else r == Ok(s.members[target].(status := Active, joinedAt := now))
    case Reject(owner, target) =>
      if !Owns(s, owner) then r == Err(NotOwner)
      else if owner == target then r == Err(BadParams)
      else if target !in s.members then r == Err(NoMember)
      else r == Ok(s.members[target].(status := Denied, connectionId := ""))
    case Touch(target, conn, now) =>
      if target !in s.members then r == Err(NoMember)
      else if conn != "" && conn != s.members[target].connectionId then r == Err(StaleConnection)
      else r == Ok(s.members[target].(lastSeen := now))
    case UpdateCandidates(target, candidates, now) =>
      if target !in s.members then r == Err(NoMember)
      else if |candidates| > 16 then r == Err(BadParams)
      else r == Ok(s.members[target].(candidates := candidates, lastSeen := now))
  }

  /** In a reachable session the members with the owner's role are the recorded owner. */
  lemma OwnerIsRecorded(sid: SessionId, w: World, id: MemberId)
    requires Inv(sid, w)
    ensures IsOwner(w.s, id) <==> Owns(w.s, id)
  {
    if id in w.s.members { assert Genuine(w.book, w.s.head.owner, w.s.members[id]); }
  }

  lemma DecisionIsTheVerdict(sid: SessionId, w: World, c: Change)
    requires Inv(sid, w)
    ensures Verdict(w.s, c, Decide(w.s, c))
  {
    if c.Approve? || c.Reject? { OwnerIsRecorded(sid, w, c.owner); }
    assert ActiveIds(w.s.members) == set id | id in w.s.members && w.s.members[id].status == Active;
    hide Inv, IsOwner;
  }

  /** What the whole operation leaves: nothing but the verdict written over its member, or nothing at all. */
  ghost predicate Carried(st: Store, sid: SessionId, r: Result<Member, SvcErr>, st': Store, err: Option<SvcErr>)
  {
    match r
    case Err(e) => st' == st && err == Some(e)
    case Ok(m) => err == None && P.MemberIs(st, st', sid, m.id, m)
  }

  /** In every state that any interleaving reaches, an operation done at once is answered as its verdict says
      and does exactly that: only the recorded owner approves or rejects. */
  lemma AnswersFollowTheRecords(h: Head, run: seq<Event>, st: Store, c: Change, r: Result<Member, SvcErr>)
    requires Newborn(h) && FreshRun(h, run) && h.id in st && st[h.id] == Exec(h, run).s
    requires Verdict(st[h.id], c, r)
    ensures var (st', err) := Atomically(st, h.id, c); Carried(st, h.id, r, st', err)
  {
    var w := Exec(h, run);
    RunsKeepInv(h, run);
    DecisionIsTheVerdict(h.id, w, c);
    OneVerdict(w.s, c, r, Decide(w.s, c));
    if r.Ok? {
      BookIdsAreNames(h.id, w, c);
      WrittenBack(st, h.id, r.value);
    }
    hide Inv, Exec, FreshRun, Decide, Step, Verdict, P.MemberIs;
  }

  lemma OneVerdict(s: Session, c: Change, r: Result<Member, SvcErr>, q: Result<Member, SvcErr>)
    requires Verdict(s, c, r) && Verdict(s, c, q)
    ensures r == q
  {
    hide P.AtCapacity;
  }

  lemma BookIdsAreNames(sid: SessionId, w: World, c: Change)
    requires Inv(sid, w) && Decide(w.s, c).Ok?
    ensures Decide(w.s, c).value.id != "" && Decide(w.s, c).value.id in w.s.members
  {
    DecisionIsGenuine(sid, w, c);
    DecideKeepsIdentity(sid, w.s, c);
    hide Decide;
  }

  lemma WrittenBack(st: Store, sid: SessionId, m: Member)
    requires sid in st && m.id in st[sid].members && m.id != ""
    ensures var (st', out) := Step(st, UpdateMember(sid, m));
      P.MemberIs(st, st', sid, m.id, m) && Failure(out) == None
  {
  }

  /** And when others work in between: the read decides by the records as they are then, and nothing else
      but the decided write changes. */
  lemma ReadsFollowTheRecords(h: Head, run: seq<Event>, k: nat, c: Change, r: Result<Member, SvcErr>)
    requires Newborn(h) && FreshRun(h, run) && Verdict(Exec(h, run).s, c, r)
    ensures var w := Exec(h, run);
      Next(w, Begin(k, c)) == if r.Ok? then w.(pending := w.pending[k := r.value]) else w
  {
    var w := Exec(h, run);
    RunsKeepInv(h, run);
    DecisionIsTheVerdict(h.id, w, c);
    OneVerdict(w.s, c, r, Decide(w.s, c));
    hide Inv, Exec, FreshRun, Decide, Verdict;
  }

  // ---- Nobody lets themselves in -------------------------------------------------------------------

  /** Step i is the owner's approval of b, read while b is pending and there is room. */
  ghost predicate OwnerApproves(h: Head, run: seq<Event>, i: nat, b: MemberId)
    requires i < |run|
  {
    var s := Exec(h, run[..i]).s;
    && run[i].Begin? && run[i].c.Approve? && run[i].c.target == b
    && Owns(s, run[i].c.owner) && b in s.members && s.members[b].status == Pending && !P.AtCapacity(s)
  }

  ghost predicate WasApproved(h: Head, run: seq<Event>, b: MemberId)
  {
    exists i :: 0 <= i < |run| && OwnerApproves(h, run, i, b)
  }

  ghost predicate ActiveGuest(s: Session, b: MemberId)
  {
    b in s.members && b != s.head.owner && s.members[b].status == Active
  }

  /** A write that would make b active, if b is not the owner, is still to be done. */
  ghost predicate Promotes(w: World, b: MemberId, k: nat)
  {
    k in w.pending && w.pending[k].id == b && b != w.s.head.owner && w.pending[k].status == Active
  }

  lemma ApprovedStays(h: Head, run: seq<Event>, b: MemberId)
    requires run != [] && WasApproved(h, run[..|run| - 1], b)
    ensures WasApproved(h, run, b)
  {
    hide Exec, P.AtCapacity, Owns;
    var init := run[..|run| - 1];
    var i :| 0 <= i < |init| && OwnerApproves(h, init, i, b);
    assert init[..i] == run[..i] && init[i] == run[i];
    assert OwnerApproves(h, run, i, b);
  }

  /** One step makes a guest active, or readies a write that will, only out of an active guest, such a write,
      or the owner's approval. */
  lemma ActiveComesFrom(sid: SessionId, w: World, e: Event, b: MemberId)
    requires Inv(sid, w) && DrawsFresh(w, e) && w.s.head.requireApproval
    ensures Next(w, e).s.head.requireApproval
    ensures ActiveGuest(Next(w, e).s, b) ==> ActiveGuest(w.s, b) || (e.Finish? && Promotes(w, b, e.h))
  {
    hide Inv, DrawsFresh, Next, ActiveGuest, Promotes;
    if e.Joins? {
      JoinMakesNoGuestActive(sid, w, e, b);
    } else if e.Finish? {
      FinishMakesActive(w, e.h, b);
    } else {
      OtherStepMakesNobodyActive(w, e, b);
    }
  }

  lemma JoinMakesNoGuestActive(sid: SessionId, w: World, e: Event, b: MemberId)
    requires Inv(sid, w) && DrawsFresh(w, e) && w.s.head.requireApproval && e.Joins?
    ensures Next(w, e).s.head.requireApproval
    ensures ActiveGuest(Next(w, e).s, b) ==> ActiveGuest(w.s, b)
    ensures Next(w, e).pending == w.pending
    ensures w.s.head.owner != "" ==> Next(w, e).s.head.owner == w.s.head.owner
  {
    hide Inv, Next, FreeIndex, Draw;
    MembersAreNamed(sid, w, b);
    JoinLeads(w, e.req, e.now, e.rand);
  }

  lemma MembersAreNamed(sid: SessionId, w: World, b: MemberId)
    requires Inv(sid, w)
    ensures b in w.s.members ==> b != ""
  {
    NotYetAdmitted(sid, w, b);
    hide AllGenuine, SessionOk;
  }

  lemma FinishMakesActive(w: World, k: nat, b: MemberId)
    ensures Next(w, Finish(k)).s.head == w.s.head
    ensures ActiveGuest(Next(w, Finish(k)).s, b) ==> ActiveGuest(w.s, b) || Promotes(w, b, k)
  {
  }

  lemma OtherStepMakesNobodyActive(w: World, e: Event, b: MemberId)
    requires !e.Joins? && !e.Finish?
    ensures Next(w, e).s.head.requireApproval == w.s.head.requireApproval && Next(w, e).s.head.owner == w.s.head.owner
    ensures ActiveGuest(Next(w, e).s, b) ==> ActiveGuest(w.s, b)
  {
    hide Decide;
  }

  lemma PromotionComesFrom(sid: SessionId, w: World, e: Event, b: MemberId, k: nat)
    requires Inv(sid, w) && DrawsFresh(w, e) && w.s.head.requireApproval && Promotes(Next(w, e), b, k)
    ensures Promotes(w, b, k) || ActiveGuest(w.s, b)
      || (e.Begin? && e.c.Approve? && e.c.target == b && Owns(w.s, e.c.owner)
          && b in w.s.members && w.s.members[b].status == Pending && !P.AtCapacity(w.s))
  {
    hide Inv, DrawsFresh;
    if e.Joins? {
      JoinMakesNoGuestActive(sid, w, e, b);
      PendingIsKnown(sid, w, e, k);
    } else if e.Begin? {
      DecisionIsTheVerdict(sid, w, e.c);
      if Decide(w.s, e.c).Ok? { DecisionKeepsId(sid, w, e.c); }
      hide Decide, P.AtCapacity;
    } else {
      hide Joining, Decide;
    }
  }

  lemma DecisionKeepsId(sid: SessionId, w: World, c: Change)
    requires Inv(sid, w) && Decide(w.s, c).Ok?
    ensures Decide(w.s, c).value.id == c.target && c.target in w.s.members && w.s.members[c.target].id == c.target
  {
    DecideKeepsIdentity(sid, w.s, c);
  }

  /** A write readied before anybody owned the session cannot be. */
  lemma PendingIsKnown(sid: SessionId, w: World, e: Event, k: nat)
    requires Inv(sid, w) && DrawsFresh(w, e) && e.Joins? && k in w.pending
    ensures w.pending[k].id == w.s.head.owner ==> w.pending[k].id == Next(w, e).s.head.owner
  {
    assert Genuine(w.book, w.s.head.owner, w.pending[k]) && w.pending[k].id != "";
    hide AllGenuine, Keyed, DistinctIndices, DistinctNodes, FreeIndex;
    if Joining(w.s, e.req, e.now, e.rand).Ok? { JoinCases(w.s, e.req, e.now, e.rand); }
  }

  /** Over every run of a session that asks for approval: whoever is active and not the owner was approved
      by the owner, while pending and with room, at an earlier step; so was whoever a decided write is
      about to make active. */
  lemma {:induction false} NobodyLetsThemselvesIn(h: Head, run: seq<Event>, b: MemberId)
    requires Newborn(h) && FreshRun(h, run) && h.requireApproval
    ensures Exec(h, run).s.head.requireApproval
    ensures ActiveGuest(Exec(h, run).s, b) ==> WasApproved(h, run, b)
    ensures forall k :: Promotes(Exec(h, run), b, k) ==> WasApproved(h, run, b)
    decreases |run|
  {
    if run != [] {
      var init, e := run[..|run| - 1], run[|run| - 1];
      var w := Exec(h, init);
      hide ActiveGuest, Promotes, Inv, WasApproved, Newborn, DrawsFresh, Next;
      NobodyLetsThemselvesIn(h, init, b);
      RunsKeepInv(h, init);
      ActiveComesFrom(h.id, w, e, b);
      if WasApproved(h, init, b) { ApprovedStays(h, run, b); }
      forall k | Promotes(Exec(h, run), b, k) ensures WasApproved(h, run, b) {
        PromotionComesFrom(h.id, w, e, b, k);
        if !WasApproved(h, init, b) { ApprovalSeen(h, run, b); }
      }
    }
  }

  lemma ApprovalSeen(h: Head, run: seq<Event>, b: MemberId)
    requires run != []
    requires var s, e := Exec(h, run[..|run| - 1]).s, run[|run| - 1];
      && e.Begin? && e.c.Approve? && e.c.target == b
      && Owns(s, e.c.owner) && b in s.members && s.members[b].status == Pending && !P.AtCapacity(s)
    ensures WasApproved(h, run, b)
  {
    hide Exec, P.AtCapacity, Owns;
    assert OwnerApproves(h, run, |run| - 1, b);
  }
}
