/** How long a rejection and the member limit stand when every operation is a read and a later write
    (internal/session/service.go, internal/storage/memory.go): the exact steps that end them, and what
    that means for whole runs. */
module Standing {
  import opened Machine
  import opened Records
  import opened Sessions
  import opened Service
  import opened Interleaving
  import Capacity

  // ---- A rejection ---------------------------------------------------------------------------

  ghost predicate IsDenied(w: World, b: MemberId) { b in w.s.members && w.s.members[b].status == Denied }

  /** A decided write for this member that is still to be done and would not leave it denied. */
  ghost predicate Reprieve(w: World, b: MemberId, h: nat)
  {
    h in w.pending && w.pending[h].id == b && w.pending[h].status != Denied
  }

  /** The node joins and the session lets a known node back in. */
  ghost predicate ComesBack(w: World, b: MemberId, e: Event)
  {
    e.Joins? && !w.s.head.closed && !IsExpired(w.s.head, e.now)
    && b in w.s.members && e.req.nodeId == w.s.members[b].nodeId
  }

  ghost predicate EndsDenial(w: World, b: MemberId, e: Event)
  {
    || (e.Finish? && Reprieve(w, b, e.h))
    || ComesBack(w, b, e)
    || e == Removes(b)
  }

  lemma JoinAndMember(sid: SessionId, w: World, b: MemberId, e: Event)
    requires Inv(sid, w) && DrawsFresh(w, e) && b in w.s.members && e.Joins?
    ensures b in Next(w, e).s.members
    ensures Next(w, e).s.members[b]
         == if ComesBack(w, b, e) then Refreshed(w.s.head, w.s.members[b], e.req, e.now) else w.s.members[b]
  {
    hide AllGenuine, BookOk, Refreshed, FreeIndex;
    if ComesBack(w, b, e) {
      RejoinSwitchesConnection(sid, w, b, e.req, e.now, e.rand);
    } else if Joining(w.s, e.req, e.now, e.rand).Ok? {
      JoinCases(w.s, e.req, e.now, e.rand);
    }
  }

  lemma BookIds(sid: SessionId, w: World, b: MemberId)
    requires Inv(sid, w) && b in w.book
    ensures b != ""
  {
  }

  lemma FinishAndMember(w: World, b: MemberId, h: nat)
    requires b != ""
    ensures b in Next(w, Finish(h)).s.members <==> b in w.s.members
    ensures b in w.s.members ==>
      Next(w, Finish(h)).s.members[b] == if h in w.pending && w.pending[h].id == b then w.pending[h] else w.s.members[b]
  {
  }

  lemma OtherStepAndMember(w: World, b: MemberId, e: Event)
    requires !e.Joins? && !e.Finish?
    ensures b in Next(w, e).s.members <==> b in w.s.members && e != Removes(b)
    ensures b in Next(w, e).s.members ==> Next(w, e).s.members[b].status == w.s.members[b].status
  {
    hide Decide;
  }

  /** One step takes a denial back exactly when it finishes a write that carries another status, brings the
      node back, or removes the member. */
  lemma DenialEndsIff(sid: SessionId, w: World, b: MemberId, e: Event)
    requires Inv(sid, w) && DrawsFresh(w, e) && IsDenied(w, b)
    ensures IsDenied(Next(w, e), b) <==> !EndsDenial(w, b, e)
  {
    hide Inv, DrawsFresh, Next, Refreshed;
    NotYetAdmitted(sid, w, b);
    BookIds(sid, w, b);
    if e.Joins? {
      JoinAndMember(sid, w, b, e);
      RefreshedStatus(w.s.head, w.s.members[b], e.req, e.now);
    } else if e.Finish? {
      FinishAndMember(w, b, e.h);
    } else {
      OtherStepAndMember(w, b, e);
    }
  }

  lemma RefreshedStatus(h: Head, m: Member, req: JoinRequest, now: Time)
    ensures Refreshed(h, m, req, now).status == if m.status == Active || !h.requireApproval then Active else Pending
  {
  }

  /** A write decided on while the member is denied leaves it denied: only older ones can take it back. */
  lemma ReprievesAreOld(sid: SessionId, w: World, b: MemberId, e: Event, h: nat)
    requires Inv(sid, w) && IsDenied(w, b) && Reprieve(Next(w, e), b, h)
    ensures Reprieve(w, b, h) && w.pending[h] == Next(w, e).pending[h]
  {
    if e.Begin? && Decide(w.s, e.c).Ok? { DecideKeepsIdentity(sid, w.s, e.c); }
    hide Inv, Joining;
  }

  ghost predicate DeniedThroughout(h: Head, run: seq<Event>, i: nat, b: MemberId)
    requires i <= |run|
  {
    forall j :: i <= j <= |run| ==> IsDenied(Exec(h, run[..j]), b)
  }

  ghost predicate NoneEndsDenial(h: Head, run: seq<Event>, i: nat, b: MemberId)
    requires i <= |run|
  {
    forall j :: i <= j < |run| ==> !EndsDenial(Exec(h, run[..j]), b, run[j])
  }

  lemma StepAt(h: Head, run: seq<Event>, j: nat)
    requires Newborn(h) && FreshRun(h, run) && j < |run|
    ensures Inv(h.id, Exec(h, run[..j])) && DrawsFresh(Exec(h, run[..j]), run[j])
    ensures Exec(h, run[..j + 1]) == Next(Exec(h, run[..j]), run[j])
  {
    hide Inv, Next, DrawsFresh, Newborn;
    FreshPrefix(h, run, j);
    FreshPrefix(h, run, j + 1);
    RunsKeepInv(h, run[..j]);
    assert run[..j + 1][..j] == run[..j];
  }

  /** Over every run: a member denied at some moment is denied at every later one if and only if none of the
      steps in between is one that ends it. */
  lemma {:induction false} DenialHoldsIff(h: Head, run: seq<Event>, i: nat, b: MemberId)
    requires Newborn(h) && FreshRun(h, run) && i <= |run| && IsDenied(Exec(h, run[..i]), b)
    ensures DeniedThroughout(h, run, i, b) <==> NoneEndsDenial(h, run, i, b)
  {
    hide IsDenied, EndsDenial, Exec, FreshRun, Newborn, DrawsFresh, Inv, Next;
    if DeniedThroughout(h, run, i, b) {
      forall j | i <= j < |run| ensures !EndsDenial(Exec(h, run[..j]), b, run[j]) {
        StepAt(h, run, j);
        DenialEndsIff(h.id, Exec(h, run[..j]), b, run[j]);
      }
    } else if NoneEndsDenial(h, run, i, b) {
      StaysDenied(h, run, i, |run|, b);
      assert false;
    }
  }

  lemma {:induction false} StaysDenied(h: Head, run: seq<Event>, i: nat, j: nat, b: MemberId)
    requires Newborn(h) && FreshRun(h, run) && i <= j <= |run| && IsDenied(Exec(h, run[..i]), b)
    requires NoneEndsDenial(h, run, i, b)
    ensures forall k :: i <= k <= j ==> IsDenied(Exec(h, run[..k]), b)
    decreases j
  {
    hide IsDenied, EndsDenial, Exec, FreshRun, Newborn, DrawsFresh, Inv, Next;
    if j > i {
      StaysDenied(h, run, i, j - 1, b);
      StepAt(h, run, j - 1);
      DenialEndsIff(h.id, Exec(h, run[..j - 1]), b, run[j - 1]);
    }
  }

  /** No write begun before the rejection is still to come. */
  ghost predicate Settled(w: World, b: MemberId) { forall h :: h in w.pending ==> !Reprieve(w, b, h) }

  lemma StaysSettled(sid: SessionId, w: World, b: MemberId, e: Event)
    requires Inv(sid, w) && IsDenied(w, b) && Settled(w, b)
    ensures Settled(Next(w, e), b) && !(e.Finish? && Reprieve(w, b, e.h))
  {
    forall h | h in Next(w, e).pending ensures !Reprieve(Next(w, e), b, h) {
      if Reprieve(Next(w, e), b, h) { ReprievesAreOld(sid, w, b, e, h); }
    }
    hide Inv, Next;
  }

  ghost predicate StaysAway(h: Head, run: seq<Event>, i: nat, b: MemberId)
    requires i <= |run|
  {
    forall j :: i <= j < |run| ==> !ComesBack(Exec(h, run[..j]), b, run[j]) && run[j] != Removes(b)
  }

  /** Once every write begun before the rejection is done, only the node's own return or the member's
      removal can end it, whatever else is going on. */
  lemma {:induction false} SettledDenialHoldsIff(h: Head, run: seq<Event>, i: nat, b: MemberId)
    requires Newborn(h) && FreshRun(h, run) && i <= |run|
    requires IsDenied(Exec(h, run[..i]), b) && Settled(Exec(h, run[..i]), b)
    ensures DeniedThroughout(h, run, i, b) <==> StaysAway(h, run, i, b)
  {
    hide IsDenied, Reprieve, Settled, ComesBack, Exec, FreshRun, Newborn, DrawsFresh, Inv, Next;
    DenialHoldsIff(h, run, i, b);
    if StaysAway(h, run, i, b) {
      SettledThroughout(h, run, i, |run|, b);
      forall j | i <= j < |run| ensures !EndsDenial(Exec(h, run[..j]), b, run[j]) {
        StepAt(h, run, j);
        StaysSettled(h.id, Exec(h, run[..j]), b, run[j]);
      }
    }
  }

  lemma {:induction false} SettledThroughout(h: Head, run: seq<Event>, i: nat, j: nat, b: MemberId)
    requires Newborn(h) && FreshRun(h, run) && i <= j <= |run| && StaysAway(h, run, i, b)
    requires IsDenied(Exec(h, run[..i]), b) && Settled(Exec(h, run[..i]), b)
    ensures forall k :: i <= k <= j ==> IsDenied(Exec(h, run[..k]), b) && Settled(Exec(h, run[..k]), b)
    decreases j
  {
    hide IsDenied, Reprieve, Settled, ComesBack, Exec, FreshRun, Newborn, DrawsFresh, Inv, Next;
    if j > i {
      SettledThroughout(h, run, i, j - 1, b);
      StepAt(h, run, j - 1);
      StaysSettled(h.id, Exec(h, run[..j - 1]), b, run[j - 1]);
      DenialEndsIff(h.id, Exec(h, run[..j - 1]), b, run[j - 1]);
    }
  }

  // ---- Being kept out --------------------------------------------------------------------------

  ghost predicate IsActive(w: World, b: MemberId) { b in w.s.members && w.s.members[b].status == Active }

  /** A write that makes the member active is done, or its node comes back where approval is off. */
  ghost predicate LetsIn(w: World, b: MemberId, e: Event)
  {
    || (e.Finish? && e.h in w.pending && w.pending[e.h].id == b && b in w.s.members && w.pending[e.h].status == Active)
    || (ComesBack(w, b, e) && !w.s.head.requireApproval)
  }

  /** A member on record becomes active in exactly these steps. */
  lemma BecomesActiveIff(sid: SessionId, w: World, b: MemberId, e: Event)
    requires Inv(sid, w) && DrawsFresh(w, e) && b in w.book && !IsActive(w, b)
    ensures IsActive(Next(w, e), b) <==> LetsIn(w, b, e)
  {
    hide Inv, DrawsFresh, Next, Refreshed;
    BookIds(sid, w, b);
    if e.Joins? && b in w.s.members {
      JoinAndMember(sid, w, b, e);
      RefreshedStatus(w.s.head, w.s.members[b], e.req, e.now);
    } else if e.Joins? {
      GoneStaysGone(w, b, e);
    } else if e.Finish? {
      FinishAndMember(w, b, e.h);
    } else {
      OtherStepAndMember(w, b, e);
    }
  }

  lemma GoneStaysGone(w: World, b: MemberId, e: Event)
    requires DrawsFresh(w, e) && b in w.book && b !in w.s.members && e.Joins?
    ensures b !in Next(w, e).s.members
  {
    hide FreeIndex, Refreshed, ActiveIds;
    if Joining(w.s, e.req, e.now, e.rand).Ok? { JoinCases(w.s, e.req, e.now, e.rand); }
  }

  /** Over every run: a member that is not active at some moment stays out at every later one if and only if
      no step in between lets it in. With approval on, its node may come back as often as it likes. */
  lemma {:induction false} KeptOutIff(h: Head, run: seq<Event>, i: nat, b: MemberId)
    requires Newborn(h) && FreshRun(h, run) && i <= |run|
    requires b in Exec(h, run[..i]).book && !IsActive(Exec(h, run[..i]), b)
    ensures (forall j :: i <= j <= |run| ==> !IsActive(Exec(h, run[..j]), b))
       <==> (forall j :: i <= j < |run| ==> !LetsIn(Exec(h, run[..j]), b, run[j]))
  {
    hide IsActive, LetsIn, Exec, FreshRun, Newborn, DrawsFresh, Inv, Next;
    if forall j :: i <= j <= |run| ==> !IsActive(Exec(h, run[..j]), b) {
      forall j | i <= j < |run| ensures !LetsIn(Exec(h, run[..j]), b, run[j]) {
        StepAt(h, run, j);
        OnTheBooks(h, run, i, j, b);
        BecomesActiveIff(h.id, Exec(h, run[..j]), b, run[j]);
        assert !IsActive(Exec(h, run[..j + 1]), b);
      }
    } else if forall j :: i <= j < |run| ==> !LetsIn(Exec(h, run[..j]), b, run[j]) {
      StaysOut(h, run, i, |run|, b);
      assert false;
    }
  }

  lemma OnTheBooks(h: Head, run: seq<Event>, i: nat, j: nat, b: MemberId)
    requires FreshRun(h, run) && i <= j <= |run| && b in Exec(h, run[..i]).book
    ensures b in Exec(h, run[..j]).book
  {
    hide Exec, FreshRun;
    FreshPrefix(h, run, j);
    assert run[..j][..i] == run[..i];
    BookLasts(h, run[..j], i, b);
  }

  lemma {:induction false} StaysOut(h: Head, run: seq<Event>, i: nat, j: nat, b: MemberId)
    requires Newborn(h) && FreshRun(h, run) && i <= j <= |run|
    requires b in Exec(h, run[..i]).book && !IsActive(Exec(h, run[..i]), b)
    requires forall k :: i <= k < |run| ==> !LetsIn(Exec(h, run[..k]), b, run[k])
    ensures forall k :: i <= k <= j ==> !IsActive(Exec(h, run[..k]), b)
    decreases j
  {
    hide IsActive, LetsIn, Exec, FreshRun, Newborn, DrawsFresh, Inv, Next;
    if j > i {
      StaysOut(h, run, i, j - 1, b);
      StepAt(h, run, j - 1);
      OnTheBooks(h, run, i, j - 1, b);
      BecomesActiveIff(h.id, Exec(h, run[..j - 1]), b, run[j - 1]);
    }
  }

  // ---- The sweep's listing ---------------------------------------------------------------------

  // The sweep lists first and removes later, one call per member: a member found past its grace may have
  // recovered by the time its removal is carried out.

  ghost predicate Recovered(w: World, b: MemberId, now: Time, grace: nat)
  {
    b in w.s.members && !Lapsed(w.s.members[b], now, grace)
  }

  /** The node comes back, an older write is done that has the member back, or it is marked off anew, late
      enough to start another grace period. */
  ghost predicate Recovers(w: World, b: MemberId, e: Event, now: Time, grace: nat)
  {
    || ComesBack(w, b, e)
    || (b in w.s.members && e.Finish? && e.h in w.pending
        && w.pending[e.h].id == b && !Lapsed(w.pending[e.h], now, grace))
    || (b in w.s.members && e.Disconnects? && e.mid == b && e.conn == ""
        && (e.now == 0 || Elapsed(now, e.now) <= grace))
  }

  lemma ReturnRenews(h: Head, m: Member, req: JoinRequest, at: Time, now: Time, grace: nat)
    ensures !Lapsed(Refreshed(h, m, req, at), now, grace)
  {
  }

  lemma QuietStepKeepsMember(w: World, b: MemberId, e: Event)
    requires !e.Joins? && !e.Finish? && !(e.Disconnects? && e.mid == b) && b in Next(w, e).s.members
    ensures b in w.s.members && Next(w, e).s.members[b] == w.s.members[b]
  {
    hide Decide;
  }

  lemma RemovedStaysGone(w: World, b: MemberId, e: Event)
    requires !e.Joins? && b !in w.s.members
    ensures b !in Next(w, e).s.members
  {
    hide Decide;
  }

  /** A member that is gone or past its grace recovers in exactly these steps. */
  lemma StepRecoversIff(sid: SessionId, w: World, b: MemberId, e: Event, now: Time, grace: nat)
    requires Inv(sid, w) && DrawsFresh(w, e) && b in w.book && !Recovered(w, b, now, grace)
    ensures Recovered(Next(w, e), b, now, grace) <==> Recovers(w, b, e, now, grace)
  {
    BookIds(sid, w, b);
    if b !in w.s.members {
      if e.Joins? { GoneStaysGone(w, b, e); } else { RemovedStaysGone(w, b, e); }
      hide Next, Inv, DrawsFresh;
    } else if e.Joins? {
      JoinAndMember(sid, w, b, e);
      ReturnRenews(w.s.head, w.s.members[b], e.req, e.now, now, grace);
      hide Next, Inv, DrawsFresh, Refreshed;
    } else if e.Finish? {
      hide Next, Inv, DrawsFresh, Elapsed;
      FinishAndMember(w, b, e.h);
    } else if e.Disconnects? && e.mid == b {
      hide Inv;
    } else {
      hide Next, Inv, DrawsFresh, Elapsed;
      if b in Next(w, e).s.members { QuietStepKeepsMember(w, b, e); }
    }
  }

  /** Over every run from the listing on: a member listed as past its grace is so, or gone, at every moment
      until the sweep gets to it if and only if none of those steps comes first. */
  lemma {:induction false} ListingHoldsIff(h: Head, run: seq<Event>, i: nat, b: MemberId, now: Time, grace: nat)
    requires Newborn(h) && FreshRun(h, run) && i <= |run|
    requires b in Exec(h, run[..i]).book && !Recovered(Exec(h, run[..i]), b, now, grace)
    ensures (forall j :: i <= j <= |run| ==> !Recovered(Exec(h, run[..j]), b, now, grace))
       <==> (forall j :: i <= j < |run| ==> !Recovers(Exec(h, run[..j]), b, run[j], now, grace))
  {
    hide Recovered, Recovers, Exec, FreshRun, Newborn, DrawsFresh, Inv, Next;
    if forall j :: i <= j <= |run| ==> !Recovered(Exec(h, run[..j]), b, now, grace) {
      forall j | i <= j < |run| ensures !Recovers(Exec(h, run[..j]), b, run[j], now, grace) {
        StepAt(h, run, j);
        OnTheBooks(h, run, i, j, b);
        StepRecoversIff(h.id, Exec(h, run[..j]), b, run[j], now, grace);
        assert !Recovered(Exec(h, run[..j + 1]), b, now, grace);
      }
    } else if forall j :: i <= j < |run| ==> !Recovers(Exec(h, run[..j]), b, run[j], now, grace) {
      StaysLapsed(h, run, i, |run|, b, now, grace);
      assert false;
    }
  }

  lemma {:induction false} StaysLapsed(h: Head, run: seq<Event>, i: nat, j: nat, b: MemberId, now: Time, grace: nat)
    requires Newborn(h) && FreshRun(h, run) && i <= j <= |run|
    requires b in Exec(h, run[..i]).book && !Recovered(Exec(h, run[..i]), b, now, grace)
    requires forall k :: i <= k < |run| ==> !Recovers(Exec(h, run[..k]), b, run[k], now, grace)
    ensures forall k :: i <= k <= j ==> !Recovered(Exec(h, run[..k]), b, now, grace)
    decreases j
  {
    hide Recovered, Recovers, Exec, FreshRun, Newborn, DrawsFresh, Inv, Next;
    if j > i {
      StaysLapsed(h, run, i, j - 1, b, now, grace);
      StepAt(h, run, j - 1);
      OnTheBooks(h, run, i, j - 1, b);
      StepRecoversIff(h.id, Exec(h, run[..j - 1]), b, run[j - 1], now, grace);
    }
  }

  const B_BACK := Joins(JoinRequest("B", "k", "d", [], [], 50), 50, Random(["d"], ""))

  lemma BackOnline(w: World)
    requires w == With(map["a" := A, "b" := B, "c" := C], 3)
    ensures var gone := Next(w, Disconnects("b", "c", 6));
      var back := Next(gone, B_BACK);
      && DrawsFresh(gone, B_BACK) && "b" in gone.s.members && Lapsed(gone.s.members["b"], 50, 10)
      && "b" in back.s.members && Online(back.s.members["b"])
      && "b" !in Next(back, Removes("b")).s.members
  {
    var gone := Next(w, Disconnects("b", "c", 6));
    assert "b" in gone.s.members && gone.s.members["b"].nodeId == "B";
    OneByNode(gone.s.members, "b");
    hide ActiveIds, FreeIndex;
  }

  /** From a new session: the sweep finds B past its grace, B comes back online, and the sweep removes it. */
  lemma SweepRemovesTheReturned()
    ensures exists h: Head, run: seq<Event>, i: nat, now: Time, grace: nat ::
      && Newborn(h) && FreshRun(h, run) && i < |run| && run[|run| - 1] == Removes("b")
      && IsLapsed(Exec(h, run[..i]), "b", now, grace)
      && ConnectionOf(Exec(h, run[..|run| - 1]), "b") != "" && "b" !in Exec(h, run).s.members
  {
    hide Exec, FreshRun, Next, DrawsFresh, Lapsed, With;
    var h := GroupHead("", 0);
    var run := ThreeJoined(h);
    var gone := Disconnects("b", "c", 6);
    BackOnline(Exec(h, run));
    RunNext(h, run, gone);
    RunNext(h, run + [gone], B_BACK);
    RunNext(h, run + [gone] + [B_BACK], Removes("b"));
    NoJoinDrawsFresh(Exec(h, run), gone);
    NoJoinDrawsFresh(Exec(h, run + [gone] + [B_BACK]), Removes("b"));
    var all := run + [gone] + [B_BACK] + [Removes("b")];
    assert all[..|run| + 1] == run + [gone] && all[..|all| - 1] == run + [gone] + [B_BACK];
    assert IsLapsed(Exec(h, all[..|run| + 1]), "b", 50, 10);
  }

  ghost predicate IsLapsed(w: World, b: MemberId, now: Time, grace: nat)
  {
    b in w.s.members && Lapsed(w.s.members[b], now, grace)
  }

  // ---- A session listed as idle --------------------------------------------------------------------

  // The sweep also deletes, one call per session, what its listing showed idle for too long: somebody may be
  // back by the time the deletion is carried out.

  /** A newcomer is let in, active. */
  ghost predicate LetsNewcomerIn(w: World, e: Event)
  {
    && e.Joins? && !w.s.head.closed && !IsExpired(w.s.head, e.now) && ByNode(w.s.members, e.req.nodeId) == None
    && Refusal(w.s.head, |ActiveIds(w.s.members)|, FreeIndex(Indices(w.s.members))) == None && !Pends(w.s.head)
  }

  /** A known node comes back to be active. */
  ghost predicate ComesBackActive(w: World, b: MemberId, e: Event)
  {
    ComesBack(w, b, e) && (w.s.members[b].status == Active || !w.s.head.requireApproval)
  }

  /** On a connection, somebody comes back active or comes in active, or an older write is done that has a
      member active and online. */
  ghost predicate BringsOnline(w: World, e: Event)
  {
    || (e.Joins? && e.req.connectionId != "" && (LetsNewcomerIn(w, e) || exists b :: ComesBackActive(w, b, e)))
    || (e.Finish? && e.h in w.pending && w.pending[e.h].id in w.s.members && ActiveOnline(w.pending[e.h]))
  }

  lemma IdleAfterWrite(ms: Members, id: MemberId, m: Member)
    requires AllIdle(ms)
    ensures AllIdle(ms[id := m]) <==> !ActiveOnline(m)
  {
    assert id in ms[id := m] && ms[id := m][id] == m;
  }

  lemma RejoinIdleIff(s: Session, id: MemberId, req: JoinRequest, now: Time)
    requires AllIdle(s.members) && id in s.members
    ensures AllIdle(Rejoin(s, id, req, now).0.members)
       <==> req.connectionId == "" || !(s.members[id].status == Active || !s.head.requireApproval)
  {
    IdleAfterWrite(s.members, id, Refreshed(s.head, s.members[id], req, now));
  }

  lemma EnterIdleIff(s: Session, id: MemberId, index: u16, req: JoinRequest, now: Time)
    requires AllIdle(s.members)
    ensures AllIdle(Enter(s, id, index, req, now).0.members) <==> req.connectionId == "" || Pends(s.head)
  {
    IdleAfterWrite(s.members, id, Newcomer(s.head, id, index, req, now));
  }

  lemma OnlyOneComesBack(sid: SessionId, w: World, e: Event, b: MemberId)
    requires Inv(sid, w) && ComesBack(w, b, e)
    ensures ByNode(w.s.members, e.req.nodeId) == Some(b)
  {
    hide AllGenuine, BookOk;
    OneByNode(w.s.members, b);
  }

  lemma KnownComesBack(w: World, e: Event)
    requires e.Joins? && ByNode(w.s.members, e.req.nodeId) != None && !w.s.head.closed && !IsExpired(w.s.head, e.now)
    ensures ComesBack(w, ByNode(w.s.members, e.req.nodeId).value, e)
  {
  }

  lemma JoinBringsOnlineIff(sid: SessionId, w: World, e: Event)
    requires Inv(sid, w) && AllIdle(w.s.members) && e.Joins?
    ensures !AllIdle(Next(w, e).s.members) <==> BringsOnline(w, e)
  {
    SameJoin(w, e);
    hide Inv, Next, Rejoin, Enter, AllIdle, FreeIndex, Refusal, ComesBack, Draw, ActiveIds;
    if w.s.head.closed || IsExpired(w.s.head, e.now) {
      forall b ensures !ComesBackActive(w, b, e) { NobodyComesBack(w, b, e); }
    } else if ByNode(w.s.members, e.req.nodeId).Some? {
      var id := ByNode(w.s.members, e.req.nodeId).value;
      KnownComesBack(w, e);
      RejoinIdleIff(w.s, id, e.req, e.now);
      forall b | ComesBackActive(w, b, e) ensures b == id { OnlyOneComesBack(sid, w, e, b); }
      assert ComesBackActive(w, id, e) <==> w.s.members[id].status == Active || !w.s.head.requireApproval;
    } else {
      forall b ensures !ComesBackActive(w, b, e) { if ComesBack(w, b, e) { OnlyOneComesBack(sid, w, e, b); } }
      EnterIdleIff(w.s, Draw(e.rand, w.s.members.Keys), FreeIndex(Indices(w.s.members)), e.req, e.now);
    }
  }

  lemma NobodyComesBack(w: World, b: MemberId, e: Event)
    requires e.Joins? && (w.s.head.closed || IsExpired(w.s.head, e.now))
    ensures !ComesBack(w, b, e)
  {
  }

  lemma FinishBringsOnlineIff(sid: SessionId, w: World, h: nat)
    requires Inv(sid, w) && AllIdle(w.s.members)
    ensures !AllIdle(Next(w, Finish(h)).s.members) <==> BringsOnline(w, Finish(h))
  {
    if h in w.pending && w.pending[h].id in w.s.members {
      NotYetAdmitted(sid, w, w.pending[h].id);
      BookIds(sid, w, w.pending[h].id);
      IdleAfterWrite(w.s.members, w.pending[h].id, w.pending[h]);
    }
    hide Inv, AllIdle, ComesBack;
  }

  /** Of all split steps, exactly these bring an active member online where none was. */
  lemma StepBringsOnlineIff(sid: SessionId, w: World, e: Event)
    requires Inv(sid, w) && AllIdle(w.s.members)
    ensures !AllIdle(Next(w, e).s.members) <==> BringsOnline(w, e)
  {
    match e
    case Joins(_, _, _) => JoinBringsOnlineIff(sid, w, e);
    case Finish(h) => FinishBringsOnlineIff(sid, w, h);
    case _ => hide Inv, Decide, ComesBack;
  }

  /** Nobody active was online from some moment on. */
  ghost predicate IdleThroughout(h: Head, run: seq<Event>, i: nat)
    requires i <= |run|
  {
    forall j :: i <= j <= |run| ==> AllIdle(Exec(h, run[..j]).s.members)
  }

  ghost predicate NoneBringsOnline(h: Head, run: seq<Event>, i: nat)
    requires i <= |run|
  {
    forall j :: i <= j < |run| ==> !BringsOnline(Exec(h, run[..j]), run[j])
  }

  /** Over every run from the listing of an idle session on: nobody active is online at any moment until the
      sweep deletes it if and only if none of those steps comes first. */
  lemma {:induction false} IdleListingHoldsIff(h: Head, run: seq<Event>, i: nat)
    requires Newborn(h) && FreshRun(h, run) && i <= |run| && AllIdle(Exec(h, run[..i]).s.members)
    ensures IdleThroughout(h, run, i) <==> NoneBringsOnline(h, run, i)
  {
    hide AllIdle, BringsOnline, Exec, FreshRun, Newborn, DrawsFresh, Inv, Next;
    if IdleThroughout(h, run, i) {
      forall j | i <= j < |run| ensures !BringsOnline(Exec(h, run[..j]), run[j]) {
        StepAt(h, run, j);
        StepBringsOnlineIff(h.id, Exec(h, run[..j]), run[j]);
        assert AllIdle(Exec(h, run[..j + 1]).s.members);
      }
    } else if NoneBringsOnline(h, run, i) {
      StaysIdle(h, run, i, |run|);
      assert false;
    }
  }

  lemma {:induction false} StaysIdle(h: Head, run: seq<Event>, i: nat, j: nat)
    requires Newborn(h) && FreshRun(h, run) && i <= j <= |run| && AllIdle(Exec(h, run[..i]).s.members)
    requires NoneBringsOnline(h, run, i)
    ensures forall k :: i <= k <= j ==> AllIdle(Exec(h, run[..k]).s.members)
    decreases j
  {
    hide AllIdle, BringsOnline, Exec, FreshRun, Newborn, DrawsFresh, Inv, Next;
    if j > i {
      StaysIdle(h, run, i, j - 1);
      StepAt(h, run, j - 1);
      StepBringsOnlineIff(h.id, Exec(h, run[..j - 1]), run[j - 1]);
    }
  }

  function ShortLived(owner: MemberId, joins: nat): Head
  {
    Head("s", "pair", "", "t", 0, joins, 2, false, owner, false, false, 1, 0, 20)
  }

  const ONE := Someone("a", 1, "A", OwnerRole, Active)
  const A_JOINS := JoinOf("A", "a")
  const A_LEAVES := Disconnects("a", "c", 6)
  const A_BACK := Joins(JoinRequest("A", "k", "d", [], [], 50), 50, Random(["e"], ""))

  function Lonely(m: Member): World { World(Session(ShortLived("a", 1), map["a" := m]), map[], map["a" := ONE], 0) }

  lemma LonelyJoin(w: World)
    requires w == World(Session(ShortLived("", 0), map[]), map[], map[], 0)
    ensures DrawsFresh(w, A_JOINS) && Next(w, A_JOINS) == Lonely(ONE)
  {
    var ms: Members := map[];
    assert Indices(ms) == {} && ActiveIds(ms) == {};
    JoinsAs(w, "A", "a", 1);
  }

  lemma LonelyLeaves()
    ensures Next(Lonely(ONE), A_LEAVES) == Lonely(ONE.(connectionId := "", leaveAt := 6))
    ensures Dies(Lonely(ONE.(connectionId := "", leaveAt := 6)).s, 50)
  {
    var m := ONE.(connectionId := "", leaveAt := 6);
    var s := Lonely(m).s;
    assert map["a" := ONE]["a" := m] == map["a" := m];
    assert "a" in s.members && "a" in ActiveIds(s.members);
    assert IsLeast(LeaveTimes(s.members), 6);
  }

  lemma LonelyReturns(m: Member)
    requires m == ONE.(connectionId := "", leaveAt := 6)
    ensures DrawsFresh(Lonely(m), A_BACK)
    ensures var w := Next(Lonely(m), A_BACK);
      "a" in w.s.members && ActiveOnline(w.s.members["a"]) && !Dies(w.s, 50)
  {
    assert "a" in Lonely(m).s.members && Lonely(m).s.members["a"].nodeId == "A";
    OneByNode(Lonely(m).s.members, "a");
    hide ActiveIds, FreeIndex, LeaveTimes;
  }

  /** Deleting by ID asks nothing of the session. */
  ghost predicate FallsToDelete(s: Session)
  {
    forall st: Store, sid: SessionId :: sid in st && st[sid] == s ==> sid !in Step(st, Delete(sid)).0
  }

  lemma EverySessionFalls(s: Session)
    ensures FallsToDelete(s)
  {
  }

  lemma NothingYet(h: Head)
    requires h == ShortLived("", 0)
    ensures Newborn(h) && FreshRun(h, []) && Exec(h, []) == World(Session(h, map[]), map[], map[], 0)
  {
  }

  lemma LonelyRun(h: Head) returns (run: seq<Event>)
    requires h == ShortLived("", 0)
    ensures FreshRun(h, run) && Exec(h, run) == Lonely(ONE.(connectionId := "", leaveAt := 6))
  {
    hide Exec, FreshRun, Next, DrawsFresh, Lonely;
    NothingYet(h);
    LonelyJoin(Exec(h, []));
    LonelyLeaves();
    NoJoinDrawsFresh(Lonely(ONE), A_LEAVES);
    RunNext(h, [], A_JOINS);
    RunNext(h, [] + [A_JOINS], A_LEAVES);
    run := [] + [A_JOINS] + [A_LEAVES];
  }

  lemma OnlineIsNotIdle(ms: Members, id: MemberId)
    requires id in ms && ActiveOnline(ms[id])
    ensures !AllIdle(ms)
  {
  }

  /** From a new session: the sweep lists it as idle for too long, its owner comes back online so that it
      would be spared, and the deletion by ID that follows takes it all the same. */
  lemma SweepDeletesTheReturned()
    ensures exists h: Head, run: seq<Event>, i: nat, now: Time ::
      && Newborn(h) && FreshRun(h, run) && i < |run| && Dies(Exec(h, run[..i]).s, now)
      && !AllIdle(Exec(h, run).s.members) && !Dies(Exec(h, run).s, now) && FallsToDelete(Exec(h, run).s)
  {
    hide Exec, FreshRun, Next, DrawsFresh, Dies, Lonely, Newborn, AllIdle, FallsToDelete;
    var h := ShortLived("", 0);
    NothingYet(h);
    var listed := LonelyRun(h);
    LonelyLeaves();
    LonelyReturns(ONE.(connectionId := "", leaveAt := 6));
    RunNext(h, listed, A_BACK);
    var run := listed + [A_BACK];
    assert run[..|listed|] == listed;
    OnlineIsNotIdle(Exec(h, run).s.members, "a");
    EverySessionFalls(Exec(h, run).s);
    assert Dies(Exec(h, run[..|listed|]).s, 50) && !Dies(Exec(h, run).s, 50);
  }

  // ---- A revocation ------------------------------------------------------------------------------

  /** Nobody who was not on record gets in: the members are among those before, under their NodeIDs. */
  ghost predicate NobodyNew(before: Members, after: Members)
  {
    forall id :: id in after ==> id in before && after[id].nodeId == before[id].nodeId
  }

  /** While a session is revoked or closed no step brings a member that was not there, and only a new token
      ends a revocation; nothing ends a closure. */
  lemma ShutStepAdmitsNobody(sid: SessionId, w: World, e: Event)
    requires Inv(sid, w) && DrawsFresh(w, e) && (w.s.head.revoked || w.s.head.closed)
    ensures NobodyNew(w.s.members, Next(w, e).s.members)
    ensures w.s.head.closed ==> Next(w, e).s.head.closed
    ensures w.s.head.revoked && !e.Rotates? ==> Next(w, e).s.head.revoked
  {
    hide Inv, DrawsFresh, Next, NobodyNew;
    if e.Joins? {
      ShutJoinAdmitsNobody(sid, w, e);
    } else if e.Finish? {
      FinishAdmitsNobody(sid, w, e.h);
    } else {
      OtherStepAdmitsNobody(w, e);
    }
  }

  lemma FinishAdmitsNobody(sid: SessionId, w: World, h: nat)
    requires Inv(sid, w)
    ensures NobodyNew(w.s.members, Next(w, Finish(h)).s.members) && Next(w, Finish(h)).s.head == w.s.head
  {
    if h in w.pending && w.pending[h].id in w.s.members { StaleWriteFits(sid, w, h); }
    hide Inv, FitsIn;
  }

  lemma OtherStepAdmitsNobody(w: World, e: Event)
    requires !e.Joins? && !e.Finish?
    ensures NobodyNew(w.s.members, Next(w, e).s.members)
    ensures w.s.head.closed ==> Next(w, e).s.head.closed
    ensures w.s.head.revoked && !e.Rotates? ==> Next(w, e).s.head.revoked
  {
    hide Decide;
  }

  lemma ShutJoinAdmitsNobody(sid: SessionId, w: World, e: Event)
    requires Inv(sid, w) && DrawsFresh(w, e) && (w.s.head.revoked || w.s.head.closed) && e.Joins?
    ensures NobodyNew(w.s.members, Next(w, e).s.members)
    ensures w.s.head.closed == Next(w, e).s.head.closed && w.s.head.revoked == Next(w, e).s.head.revoked
  {
    hide Inv, Next, FreeIndex, Draw, Enter;
    JoinLeads(w, e.req, e.now, e.rand);
  }

  /** The known node's way back stays open, revoked or not: it is on record under its new connection. */
  lemma KnownNodeReturns(sid: SessionId, w: World, b: MemberId, e: Event)
    requires Inv(sid, w) && DrawsFresh(w, e) && b in w.s.members && e.Joins?
    requires e.req.nodeId == w.s.members[b].nodeId && !w.s.head.closed
    requires w.s.head.expiresAt == 0 || e.now <= w.s.head.expiresAt
    ensures var s' := Next(w, e).s;
      && s'.head == w.s.head && s'.members.Keys == w.s.members.Keys
      && s'.members[b].connectionId == e.req.connectionId && s'.members[b].lastSeen == e.now
  {
    RejoinSwitchesConnection(sid, w, b, e.req, e.now, e.rand);
    hide Inv, Next;
  }

  /** Over every run from a Revoke to the next Rotate: at every moment the session is revoked and nobody is
      in it that was not there when it was revoked. */
  lemma {:induction false} RevocationHolds(h: Head, run: seq<Event>, i: nat, j: nat)
    requires Newborn(h) && FreshRun(h, run) && i < j <= |run| && run[i] == Revokes
    requires forall k :: i < k < j ==> !run[k].Rotates?
    ensures Exec(h, run[..j]).s.head.revoked
    ensures NobodyNew(Exec(h, run[..i]).s.members, Exec(h, run[..j]).s.members)
    decreases j
  {
    hide Exec, FreshRun, Newborn, DrawsFresh, Inv, Next, NobodyNew;
    StepAt(h, run, j - 1);
    if j == i + 1 {
      RevokeRevokes(Exec(h, run[..i]));
    } else {
      RevocationHolds(h, run, i, j - 1);
      ShutStepAdmitsNobody(h.id, Exec(h, run[..j - 1]), run[j - 1]);
      NobodyNewTwice(Exec(h, run[..i]).s.members, Exec(h, run[..j - 1]).s.members, Exec(h, run[..j]).s.members);
    }
  }

  lemma RevokeRevokes(w: World)
    ensures Next(w, Revokes).s.head.revoked && NobodyNew(w.s.members, Next(w, Revokes).s.members)
  {
  }

  lemma NobodyNewTwice(a: Members, b: Members, c: Members)
    requires NobodyNew(a, b) && NobodyNew(b, c)
    ensures NobodyNew(a, c)
  {
  }

  /** Over every run from a Close on: the same, for good. */
  lemma {:induction false} ClosureHolds(h: Head, run: seq<Event>, i: nat, j: nat)
    requires Newborn(h) && FreshRun(h, run) && i < j <= |run| && run[i] == Closes
    ensures Exec(h, run[..j]).s.head.closed
    ensures NobodyNew(Exec(h, run[..i]).s.members, Exec(h, run[..j]).s.members)
    decreases j
  {
    hide Exec, FreshRun, Newborn, DrawsFresh, Inv, Next, NobodyNew;
    StepAt(h, run, j - 1);
    if j == i + 1 {
      CloseCloses(Exec(h, run[..i]));
    } else {
      ClosureHolds(h, run, i, j - 1);
      ShutStepAdmitsNobody(h.id, Exec(h, run[..j - 1]), run[j - 1]);
      NobodyNewTwice(Exec(h, run[..i]).s.members, Exec(h, run[..j - 1]).s.members, Exec(h, run[..j]).s.members);
    }
  }

  lemma CloseCloses(w: World)
    ensures Next(w, Closes).s.head.closed && NobodyNew(w.s.members, Next(w, Closes).s.members)
  {
  }

  // ---- The member limit ------------------------------------------------------------------------

  ghost predicate IsFull(s: Session) { s.head.maxMembers > 0 && Capacity.Actives(s) == s.head.maxMembers }

  /** A full session gains an active member: by a write that makes one of it, or by the return of a node
      where approval is off. */
  ghost predicate Overfills(w: World, e: Event)
  {
    && IsFull(w.s)
    && exists b :: b in w.s.members && w.s.members[b].status != Active && LetsIn(w, b, e)
  }

  lemma WriteOverfillsIff(w: World, b: MemberId, m: Member)
    requires Capacity.Within(w.s) && b in w.s.members
    ensures var s' := w.s.(members := w.s.members[b := m]);
      !Capacity.Within(s') <==> IsFull(w.s) && m.status == Active && w.s.members[b].status != Active
  {
    Capacity.ActiveAfterWrite(w.s.members, b, m);
  }

  lemma FinishOverfillsIff(sid: SessionId, w: World, h: nat)
    requires Inv(sid, w) && Capacity.Within(w.s)
    ensures !Capacity.Within(Next(w, Finish(h)).s) <==> Overfills(w, Finish(h))
  {
    hide Capacity.Within, IsFull, Inv;
    if h in w.pending && w.pending[h].id in w.s.members {
      assert w.pending[h].id != "" by { NotYetAdmitted(sid, w, w.pending[h].id); BookIds(sid, w, w.pending[h].id); }
      WriteOverfillsIff(w, w.pending[h].id, w.pending[h]);
      if IsFull(w.s) && w.pending[h].status == Active && w.s.members[w.pending[h].id].status != Active {
        assert LetsIn(w, w.pending[h].id, Finish(h));
      }
    }
  }

  lemma ReturnMeansLetIn(sid: SessionId, w: World, e: Event)
    requires Inv(sid, w) && e.Joins?
    ensures Capacity.Overshoots(w.s, Capacity.Joins(e.req, e.now, e.rand)) <==> Overfills(w, e)
  {
    assert DistinctNodes(w.s.members);
    hide Inv, ActiveIds, DistinctNodes;
    if Overfills(w, e) {
      var b :| b in w.s.members && w.s.members[b].status != Active && LetsIn(w, b, e);
      OneByNode(w.s.members, b);
    }
    if Capacity.Overshoots(w.s, Capacity.Joins(e.req, e.now, e.rand)) {
      assert LetsIn(w, ByNode(w.s.members, e.req.nodeId).value, e);
    }
  }

  lemma OneByNode(ms: Members, b: MemberId)
    requires DistinctNodes(ms) && b in ms
    ensures ByNode(ms, ms[b].nodeId) == Some(b)
  {
  }

  lemma JoinOverfillsIff(sid: SessionId, w: World, e: Event)
    requires Inv(sid, w) && Capacity.Within(w.s) && e.Joins?
    ensures !Capacity.Within(Next(w, e).s) <==> Overfills(w, e)
  {
    hide Inv, Capacity.Overshoots, Overfills, Capacity.Within;
    Capacity.JoinOvershootsIff(w.s, e.req, e.now, e.rand);
    ReturnMeansLetIn(sid, w, e);
    SameJoin(w, e);
  }

  lemma SameJoin(w: World, e: Event)
    requires e.Joins?
    ensures Next(w, e).s == Capacity.Next(w.s, Capacity.Joins(e.req, e.now, e.rand))
  {
    hide FreeIndex, Refreshed, ActiveIds;
  }

  /** Of all the split steps, exactly these put a session over its limit. */
  lemma StepOverfillsIff(sid: SessionId, w: World, e: Event)
    requires Inv(sid, w) && Capacity.Within(w.s)
    ensures !Capacity.Within(Next(w, e).s) <==> Overfills(w, e)
  {
    hide Inv;
    match e
    case Finish(h) => FinishOverfillsIff(sid, w, h);
    case Joins(_, _, _) => JoinOverfillsIff(sid, w, e);
    case Removes(mid) => Capacity.FewerActive(w.s.members, w.s.members - {mid});
    case Disconnects(mid, conn, now) =>
      if mid in w.s.members {
        Capacity.ActiveAfterWrite(w.s.members, mid, w.s.members[mid].(connectionId := "", leaveAt := now));
      }
    case _ => hide Decide, ActiveIds;
  }

  ghost predicate WithinThroughout(h: Head, run: seq<Event>)
  {
    forall j :: 0 <= j <= |run| ==> Capacity.Within(Exec(h, run[..j]).s)
  }

  ghost predicate NoneOverfills(h: Head, run: seq<Event>)
  {
    forall j :: 0 <= j < |run| ==> !Overfills(Exec(h, run[..j]), run[j])
  }

  /** Over every run: the limit holds at every moment if and only if no step overfills the session. */
  lemma {:induction false} LimitHoldsIff(h: Head, run: seq<Event>)
    requires Newborn(h) && FreshRun(h, run)
    ensures WithinThroughout(h, run) <==> NoneOverfills(h, run)
  {
    hide Overfills, Capacity.Within, Exec, FreshRun, Newborn, DrawsFresh, Inv, Next;
    if WithinThroughout(h, run) {
      forall j | 0 <= j < |run| ensures !Overfills(Exec(h, run[..j]), run[j]) {
        StepAt(h, run, j);
        StepOverfillsIff(h.id, Exec(h, run[..j]), run[j]);
        assert Capacity.Within(Exec(h, run[..j + 1]).s);
      }
    } else if NoneOverfills(h, run) {
      StaysWithin(h, run, |run|);
      assert false;
    }
  }

  lemma StartsWithin(h: Head)
    ensures Capacity.Within(Exec(h, []).s)
  {
    assert ActiveIds(map[]) == {};
  }

  lemma {:induction false} StaysWithin(h: Head, run: seq<Event>, j: nat)
    requires Newborn(h) && FreshRun(h, run) && j <= |run|
    requires forall k :: 0 <= k < j ==> !Overfills(Exec(h, run[..k]), run[k])
    ensures forall k :: 0 <= k <= j ==> Capacity.Within(Exec(h, run[..k]).s)
    decreases j
  {
    hide Overfills, Capacity.Within, Exec, FreshRun, Newborn, DrawsFresh, Inv, Next;
    if j == 0 {
      StartsWithin(h);
      assert run[..0] == [];
    } else {
      StaysWithin(h, run, j - 1);
      StepAt(h, run, j - 1);
      StepOverfillsIff(h.id, Exec(h, run[..j - 1]), run[j - 1]);
    }
  }

  /** Every write is done straight after its read. */
  ghost predicate WritesAtOnce(h: Head, run: seq<Event>)
  {
    forall j :: 0 <= j < |run| && run[j].Finish? ==>
      j > 0 && run[j - 1].Begin? && run[j - 1].h == run[j].h && Decide(Exec(h, run[..j - 1]).s, run[j - 1].c).Ok?
  }

  lemma FreshWriteNeverOverfills(sid: SessionId, w: World, h: nat, c: Change)
    requires Inv(sid, w) && Decide(w.s, c).Ok?
    ensures !Overfills(Next(w, Begin(h, c)), Finish(h))
  {
    DecideKeepsIdentity(sid, w.s, c);
    hide Inv, ActiveIds;
  }

  lemma ApprovalKeepsJoinsOut(w: World, e: Event)
    requires w.s.head.requireApproval && !e.Finish?
    ensures !Overfills(w, e)
  {
  }

  lemma {:induction false} ApprovalLasts(h: Head, run: seq<Event>)
    ensures Exec(h, run).s.head.requireApproval == h.requireApproval
    decreases |run|
  {
    if run != [] {
      ApprovalLasts(h, run[..|run| - 1]);
      hide Exec, ActiveIds, FreeIndex;
    }
  }

  /** Overlapping is what breaks it: with approval on and every write done straight after its read, the
      limit holds at every moment of every run. */
  lemma {:induction false} LimitHoldsWithoutOverlap(h: Head, run: seq<Event>)
    requires Newborn(h) && FreshRun(h, run) && h.requireApproval && WritesAtOnce(h, run)
    ensures WithinThroughout(h, run)
  {
    hide Overfills, Capacity.Within, Exec, FreshRun, Newborn, DrawsFresh, Inv, Next, Decide;
    forall j | 0 <= j < |run| ensures !Overfills(Exec(h, run[..j]), run[j]) {
      ApprovalLasts(h, run[..j]);
      if run[j].Finish? {
        StepAt(h, run, j - 1);
        FreshWriteNeverOverfills(h.id, Exec(h, run[..j - 1]), run[j].h, run[j - 1].c);
        assert run[j] == Finish(run[j].h) && run[j - 1] == Begin(run[j].h, run[j - 1].c);
      } else {
        ApprovalKeepsJoinsOut(Exec(h, run[..j]), run[j]);
      }
    }
    LimitHoldsIff(h, run);
  }
}
