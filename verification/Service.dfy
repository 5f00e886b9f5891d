/** The session service (internal/session/service.go): operations that read a snapshot, decide, and write
    one member back, and the periodic sweep. */
module Service {
  import opened Machine
  import opened Records
  import opened Sessions
  import M = MemoryStores

  datatype SvcErr = NoSession | NoMember | NotOwner | BadParams | SessionFull | StaleConnection | StoreFailed(e: StoreErr)

  /** internal/protocol/protocol.go, DefaultMaxCandidates. */
  const MAX_CANDIDATES: nat := 16

  datatype Change =
    | Approve(owner: MemberId, target: MemberId, now: Time)
    | Reject(owner: MemberId, target: MemberId)
    | Touch(target: MemberId, conn: string, now: Time)
    | UpdateCandidates(target: MemberId, candidates: seq<Candidate>, now: Time)

  predicate IsOwner(s: Session, id: MemberId) { id in s.members && s.members[id].role == OwnerRole }

  /** What an operation writes back, decided on a snapshot. */
  ghost function Decide(s: Session, c: Change): Result<Member, SvcErr>
  {
    match c
    case Approve(owner, target, now) =>
      if !IsOwner(s, owner) then Err(NotOwner)
      else if target !in s.members then Err(NoMember)
      else if s.members[target].status != Pending then Err(BadParams)
      else if s.head.maxMembers > 0 && |ActiveIds(s.members)| >= s.head.maxMembers then Err(SessionFull)
      else Ok(s.members[target].(status := Active, joinedAt := now))
    case Reject(owner, target) =>
      if !IsOwner(s, owner) then Err(NotOwner)
      else if owner == target then Err(BadParams)
      else if target !in s.members then Err(NoMember)
      else Ok(s.members[target].(status := Denied, connectionId := ""))
    case Touch(target, conn, now) =>
      if target !in s.members then Err(NoMember)
      else if conn != "" && s.members[target].connectionId != conn then Err(StaleConnection)
      else Ok(s.members[target].(lastSeen := now))
    case UpdateCandidates(target, candidates, now) =>
      if target !in s.members then Err(NoMember)
      else if |candidates| > MAX_CANDIDATES then Err(BadParams)
      else Ok(s.members[target].(candidates := candidates, lastSeen := now))
  }

  /** Identity is what no operation changes. */
  predicate SameIdentity(a: Member, b: Member)
  {
    a.id == b.id && a.session == b.session && a.index == b.index && a.nodeId == b.nodeId && a.role == b.role
  }

  lemma DecideKeepsIdentity(sid: SessionId, s: Session, c: Change)
    requires SessionOk(sid, s) && Decide(s, c).Ok?
    ensures Decide(s, c).value.id == c.target && c.target in s.members && SameIdentity(Decide(s, c).value, s.members[c.target])
    ensures FitsIn(sid, s.members, Decide(s, c).value)
  {
  }

  ghost function Failure(out: Response): Option<SvcErr>
  {
    match out case Ok(_) => None case Err(e) => Some(StoreFailed(e))
  }

  /** The whole operation with nothing in between. */
  ghost function Atomically(st: Store, sid: SessionId, c: Change): (Store, Option<SvcErr>)
  {
    if sid !in st then (st, Some(NoSession))
    else
      match Decide(st[sid], c)
      case Err(e) => (st, Some(e))
      case Ok(m) => var (st', out) := Step(st, UpdateMember(sid, m)); (st', Failure(out))
  }

  // ---- The sweep -----------------------------------------------------------------------------

  /** time.Duration is 64 bits and Sub saturates; the zero time lies further back than that. */
  const MAX_DURATION: nat := 0x7fff_ffff_ffff_ffff

  function Elapsed(now: Time, since: Time): int
  {
    if since == 0 || now - since > MAX_DURATION then MAX_DURATION else now - since
  }

  predicate ActiveOnline(m: Member) { m.status == Active && Online(m) }

  /** Nobody active is online. */
  ghost predicate AllIdle(ms: Members)
  {
    forall id :: id in ms ==> !ActiveOnline(ms[id])
  }

  /** The times active members left; none for a member that never went offline. */
  ghost function LeaveTimes(ms: Members): set<Time>
  {
    set id | id in ms && ms[id].status == Active && ms[id].leaveAt != 0 :: ms[id].leaveAt
  }

  ghost predicate IsLeast(ts: set<Time>, t: Time) { t in ts && forall u :: u in ts ==> t <= u }

  lemma {:induction false} LeastOf(ts: set<Time>)
    requires ts != {}
    ensures exists t: Time :: IsLeast(ts, t)
    decreases |ts|
  {
    var t :| t in ts;
    var rest := ts - {t};
    assert ts == rest + {t};
    if rest == {} {
      assert IsLeast(ts, t);
    } else {
      LeastOf(rest);
      var u: Time :| IsLeast(rest, u);
      var least := if t < u then t else u;
      assert forall x :: x in ts ==> x == t || x in rest;
      assert IsLeast(ts, least);
    }
  }

  /** Idle since the earliest of those times; with no active member at all, since the session was created. */
  ghost function IdleSince(s: Session): Time
  {
    if ActiveIds(s.members) == {} then s.head.createdAt
    else if LeaveTimes(s.members) == {} then 0
    else
      LeastOf(LeaveTimes(s.members));
      var t: Time :| IsLeast(LeaveTimes(s.members), t);
      t
  }

  ghost predicate Dies(s: Session, now: Time)
  {
    || IsExpired(s.head, now) || s.head.closed
    || (s.head.idleTimeout > 0 && AllIdle(s.members) && Elapsed(now, IdleSince(s)) > s.head.idleTimeout)
  }

  predicate Lapsed(m: Member, now: Time, grace: nat)
  {
    !Online(m) && m.leaveAt != 0 && Elapsed(now, m.leaveAt) > grace
  }

  ghost function Swept(s: Session, now: Time, grace: nat): Session
  {
    s.(members := map id | id in s.members && !Lapsed(s.members[id], now, grace) :: s.members[id])
  }

  ghost function Pruned(st: Store, now: Time, grace: nat): Store
  {
    map sid | sid in st && !Dies(st[sid], now) :: Swept(st[sid], now, grace)
  }

  /** Strictly longer than d since then; a time never set lies further back than any d but the longest. */
  predicate Overdue(now: Time, since: Time, d: int)
  {
    d < 0x7fff_ffff_ffff_ffff && (since == 0 || now - since > d)
  }

  /** Some active member has a departure on record, and the first one is too long ago. */
  ghost predicate LeftTooLongAgo(ms: Members, now: Time, d: int)
  {
    exists id :: id in ms && ms[id].status == Active && ms[id].leaveAt != 0 && Overdue(now, ms[id].leaveAt, d)
  }

  /** What the sweep is there to delete: a session closed, past its end, or with nobody active online for too
      long: since its creation where nobody is active, else since the first departure of an active member,
      and for longer than any timeout but the longest where none of them has a departure on record. */
  ghost predicate OutOfUse(s: Session, now: Time)
  {
    var d := s.head.idleTimeout;
    || s.head.closed
    || (s.head.expiresAt != 0 && now > s.head.expiresAt)
    || (d > 0 && (forall id :: id in s.members && s.members[id].status == Active ==> s.members[id].connectionId == "")
        && (|| ((forall id :: id in s.members ==> s.members[id].status != Active) && Overdue(now, s.head.createdAt, d))
            || LeftTooLongAgo(s.members, now, d)
            || ((exists id :: id in s.members && s.members[id].status == Active)
                && (forall id :: id in s.members && s.members[id].status == Active ==> s.members[id].leaveAt == 0)
                && d < 0x7fff_ffff_ffff_ffff)))
  }

  lemma ElapsedIsOverdue(now: Time, since: Time, d: int)
    ensures Elapsed(now, since) > d <==> Overdue(now, since, d)
  {
  }

  lemma FirstDeparture(s: Session, now: Time, d: int)
    requires ActiveIds(s.members) != {}
    ensures Elapsed(now, IdleSince(s)) > d
       <==> (if LeaveTimes(s.members) == {} then d < 0x7fff_ffff_ffff_ffff else LeftTooLongAgo(s.members, now, d))
  {
    ElapsedIsOverdue(now, IdleSince(s), d);
    if LeaveTimes(s.members) != {} {
      var t := IdleSince(s);
      LeastOf(LeaveTimes(s.members));
      assert IsLeast(LeaveTimes(s.members), t);
      if LeftTooLongAgo(s.members, now, d) {
        var id :| id in s.members && s.members[id].status == Active && s.members[id].leaveAt != 0
          && Overdue(now, s.members[id].leaveAt, d);
        assert s.members[id].leaveAt in LeaveTimes(s.members);
      }
    }
  }

  lemma DiesIffOutOfUse(s: Session, now: Time)
    ensures Dies(s, now) <==> OutOfUse(s, now)
  {
    hide IdleSince, Elapsed, LeftTooLongAgo, Overdue;
    ElapsedIsOverdue(now, s.head.createdAt, s.head.idleTimeout);
    CreatedIfNoneActive(s);
    NeverLeft(s.members);
    LeavingCounts(s.members, now, s.head.idleTimeout);
    if ActiveIds(s.members) != {} { FirstDeparture(s, now, s.head.idleTimeout); }
  }

  lemma CreatedIfNoneActive(s: Session)
    ensures ActiveIds(s.members) == {} ==> IdleSince(s) == s.head.createdAt
    ensures ActiveIds(s.members) == {} <==> forall id :: id in s.members ==> s.members[id].status != Active
  {
    forall id | id in s.members && s.members[id].status == Active ensures id in ActiveIds(s.members) {}
    hide LeaveTimes;
  }

  lemma NeverLeft(ms: Members)
    ensures LeaveTimes(ms) == {} <==> forall id :: id in ms && ms[id].status == Active ==> ms[id].leaveAt == 0
  {
    forall id | id in ms && ms[id].status == Active && ms[id].leaveAt != 0 ensures ms[id].leaveAt in LeaveTimes(ms) {}
  }

  lemma LeavingCounts(ms: Members, now: Time, d: int)
    ensures LeftTooLongAgo(ms, now, d) ==> LeaveTimes(ms) != {} && ActiveIds(ms) != {}
  {
    hide Overdue;
    if LeftTooLongAgo(ms, now, d) {
      var id :| id in ms && ms[id].status == Active && ms[id].leaveAt != 0 && Overdue(now, ms[id].leaveAt, d);
      assert ms[id].leaveAt in LeaveTimes(ms) && id in ActiveIds(ms);
    }
  }

  /** A session is gone after a sweep if and only if it was out of use; the others keep their head and lose
      exactly the members offline since longer than the grace. */
  lemma SweepDeletesIff(st: Store, now: Time, grace: nat, sid: SessionId)
    requires sid in st
    ensures sid !in Pruned(st, now, grace) <==> OutOfUse(st[sid], now)
    ensures sid in Pruned(st, now, grace) ==>
      var s, s' := st[sid], Pruned(st, now, grace)[sid];
      && s'.head == s.head
      && (forall id :: id in s'.members <==>
            id in s.members
            && !(s.members[id].connectionId == "" && s.members[id].leaveAt != 0 && Overdue(now, s.members[id].leaveAt, grace)))
      && (forall id :: id in s'.members ==> s'.members[id] == s.members[id])
  {
    hide Dies, OutOfUse, Overdue, Elapsed;
    DiesIffOutOfUse(st[sid], now);
    forall id | id in st[sid].members
      ensures Elapsed(now, st[sid].members[id].leaveAt) > grace <==> Overdue(now, st[sid].members[id].leaveAt, grace)
    {
      ElapsedIsOverdue(now, st[sid].members[id].leaveAt, grace);
    }
  }

  lemma GoneAreDead(st: Store, now: Time, grace: nat)
    ensures st.Keys - Pruned(st, now, grace).Keys == set sid | sid in st && Dies(st[sid], now)
  {
    hide Dies, Swept;
  }

  /** An online member of an unexpired, unclosed session with an active member online stays, session and all. */
  lemma PruneSparesTheOnline(st: Store, now: Time, grace: nat, sid: SessionId, id: MemberId)
    requires sid in st && !IsExpired(st[sid].head, now) && !st[sid].head.closed
    requires id in st[sid].members && ActiveOnline(st[sid].members[id])
    ensures sid in Pruned(st, now, grace)
    ensures forall o :: o in st[sid].members && Online(st[sid].members[o]) ==>
      o in Pruned(st, now, grace)[sid].members && Pruned(st, now, grace)[sid].members[o] == st[sid].members[o]
  {
  }

  lemma LapsedLasts(m: Member, now: Time, later: Time, grace: nat)
    requires now <= later && Lapsed(m, now, grace)
    ensures Lapsed(m, later, grace)
  {
  }

  /** A sweep that was missed loses nothing: where the session outlives both schedules, sweeping early and
      late leaves the members that sweeping late alone leaves. */
  lemma MissedSweepLosesNothing(st: Store, now: Time, later: Time, grace: nat, sid: SessionId)
    requires now <= later && sid in Pruned(st, later, grace)
    requires sid in Pruned(Pruned(st, now, grace), later, grace)
    ensures Pruned(Pruned(st, now, grace), later, grace)[sid] == Pruned(st, later, grace)[sid]
  {
    var s := st[sid];
    hide Lapsed, Dies;
    forall id | id in s.members && Lapsed(s.members[id], now, grace) ensures Lapsed(s.members[id], later, grace) {
      LapsedLasts(s.members[id], now, later, grace);
    }
  }

  const GONE_EARLY := Member("m", "s", 1, "n", "k", OwnerRole, Active, [], [], "", 10, 10, 10)
  const GONE_LATE := Member("o", "s", 2, "p", "k", MemberRole, Active, [], [], "", 10, 10, 90)

  function BothGone(): Session
  {
    Session(Head("s", "group", "", "h", 0, 2, 0, false, "m", false, false, 10, 0, 50),
            map["m" := GONE_EARLY, "o" := GONE_LATE])
  }

  lemma BothGoneIsOk()
    ensures StoreOk(map["s" := BothGone()])
  {
    assert SessionOk("s", BothGone());
  }

  lemma FromTheFirst()
    ensures !Dies(BothGone(), 20) && Dies(BothGone(), 100)
  {
    var s := BothGone();
    assert "m" in s.members && "o" in s.members;
    assert IsLeast(LeaveTimes(s.members), 10) && "m" in ActiveIds(s.members);
    assert IdleSince(s) == 10;
  }

  lemma FromTheSecond()
    ensures !Dies(Swept(BothGone(), 20, 5), 100)
  {
    var s := Swept(BothGone(), 20, 5);
    assert s.members == map["o" := GONE_LATE];
    assert "o" in ActiveIds(s.members) && "o" in s.members;
    assert IsLeast(LeaveTimes(s.members), 90);
    assert IdleSince(s) == 90;
  }

  /** But the early one can keep the session alive: it drops the member whose departure the late one would
      have counted from. */
  lemma EarlySweepProlongs()
    ensures exists st: Store, now: Time, later: Time, grace: nat, sid: SessionId ::
      StoreOk(st) && now < later && sid in Pruned(Pruned(st, now, grace), later, grace) && sid !in Pruned(st, later, grace)
  {
    hide Dies, Swept, BothGone, StoreOk;
    var st: Store := map["s" := BothGone()];
    BothGoneIsOk();
    FromTheFirst();
    FromTheSecond();
    assert "s" in Pruned(st, 20, 5) && Pruned(st, 20, 5)["s"] == Swept(BothGone(), 20, 5);
    assert "s" in Pruned(Pruned(st, 20, 5), 100, 5) && "s" !in Pruned(st, 100, 5);
  }

  /** Every active member is offline and past its grace. */
  ghost predicate AllLapsed(ms: Members, now: Time, grace: nat)
  {
    forall id :: id in ms && ms[id].status == Active ==> Lapsed(ms[id], now, grace)
  }

  /** Every active member not past its grace never went offline. */
  ghost predicate RestNeverLeft(ms: Members, now: Time, grace: nat)
  {
    forall id :: id in ms && ms[id].status == Active && !Lapsed(ms[id], now, grace) ==> ms[id].leaveAt == 0
  }

  lemma LeftAfterSweep(s: Session, now: Time, grace: nat)
    requires AllIdle(s.members)
    ensures AllIdle(Swept(s, now, grace).members)
    ensures ActiveIds(Swept(s, now, grace).members) == {} <==> AllLapsed(s.members, now, grace)
    ensures LeaveTimes(Swept(s, now, grace).members) == {} <==> RestNeverLeft(s.members, now, grace)
  {
    hide Lapsed;
    var kept := Swept(s, now, grace).members;
    forall id | id in s.members && s.members[id].status == Active && !Lapsed(s.members[id], now, grace)
      ensures id in ActiveIds(kept) && (s.members[id].leaveAt != 0 ==> s.members[id].leaveAt in LeaveTimes(kept))
    {
      assert id in kept && kept[id] == s.members[id];
    }
  }

  lemma OnlineSurvives(s: Session, now: Time, grace: nat)
    requires !AllIdle(s.members)
    ensures !AllIdle(Swept(s, now, grace).members)
  {
    var id :| id in s.members && ActiveOnline(s.members[id]);
    assert id in Swept(s, now, grace).members;
  }

  /** What a second sweep at the same time deletes of a session the first one left, read off the session
      before either: all active members offline, and either all past their grace in a session created long
      enough ago, or those not past it without a departure to count from. */
  lemma SecondSweepDeletes(st: Store, now: Time, grace: nat, sid: SessionId)
    requires sid in Pruned(st, now, grace)
    ensures var s := st[sid];
      sid !in Pruned(Pruned(st, now, grace), now, grace)
      <==> (s.head.idleTimeout > 0 && AllIdle(s.members)
            && (if AllLapsed(s.members, now, grace) then Elapsed(now, s.head.createdAt) > s.head.idleTimeout
                else RestNeverLeft(s.members, now, grace) && MAX_DURATION > s.head.idleTimeout))
  {
    var s := st[sid];
    if AllIdle(s.members) {
      LeftAfterSweep(s, now, grace);
      if ActiveIds(Swept(s, now, grace).members) != {} && LeaveTimes(Swept(s, now, grace).members) != {} {
        EarlierThanTheRest(s, now, grace);
      }
    } else {
      OnlineSurvives(s, now, grace);
    }
    hide Swept, AllIdle, AllLapsed, RestNeverLeft, LeaveTimes, ActiveIds, IsLeast;
  }

  /** Prune at one time reaches a fixpoint after at most two passes: a third finds nothing the second left. */
  lemma TwoSweepsSuffice(st: Store, now: Time, grace: nat)
    ensures var twice := Pruned(Pruned(st, now, grace), now, grace);
      Pruned(twice, now, grace) == twice
  {
    hide Lapsed;
    var once := Pruned(st, now, grace);
    var twice := Pruned(once, now, grace);
    forall sid | sid in twice
      ensures twice[sid] == once[sid] && !Dies(twice[sid], now) && Swept(twice[sid], now, grace) == twice[sid]
    {
      assert Swept(once[sid], now, grace) == once[sid];
    }
  }

  /** A session alive before the sweep is not too long idle after it for a departure that remains. */
  lemma EarlierThanTheRest(s: Session, now: Time, grace: nat)
    requires AllIdle(s.members) && !Dies(s, now)
    requires ActiveIds(Swept(s, now, grace).members) != {} && LeaveTimes(Swept(s, now, grace).members) != {}
    ensures !Dies(Swept(s, now, grace), now)
  {
    var kept := Swept(s, now, grace);
    assert ActiveIds(kept.members) <= ActiveIds(s.members);
    assert LeaveTimes(kept.members) <= LeaveTimes(s.members);
    assert IsLeast(LeaveTimes(kept.members), IdleSince(kept));
    assert IsLeast(LeaveTimes(s.members), IdleSince(s));
    hide Lapsed;
  }

  /** One sweep is not enough: it removes the last member, and only then is the session too old. */
  lemma OneSweepIsNotEnough()
    ensures exists st: Store, now: Time, grace: nat ::
      StoreOk(st) && Pruned(Pruned(st, now, grace), now, grace) != Pruned(st, now, grace)
  {
    var m := Member("m", "s", 1, "n", "k", OwnerRole, Active, [], [], "", 10, 10, 80);
    var h := Head("s", "pair", "", "h", 0, 1, 2, false, "m", false, false, 10, 0, 50);
    var s := Session(h, map["m" := m]);
    var st: Store := map["s" := s];
    assert IsLeast(LeaveTimes(s.members), 80) by { assert "m" in s.members; }
    assert "m" in ActiveIds(s.members);
    assert IdleSince(s) == 80 && !Dies(s, 100);
    var once := Pruned(st, 100, 5);
    assert once["s"].members == map[];
    assert ActiveIds(once["s"].members) == {} && AllIdle(once["s"].members);
    assert "s" in once && "s" !in Pruned(once, 100, 5);
    assert SessionOk("s", s) && StoreOk(st);
  }

  // ---- The code --------------------------------------------------------------------------------

  lemma ListAgrees(rec: Record, id: MemberId, i: nat)
    requires DistinctIds(rec.members) && i == IndexOfId(rec.members, id)
    ensures i < |rec.members| <==> id in View(rec).members
    ensures i < |rec.members| ==> View(rec).members[id] == rec.members[i]
  {
    IndexDecides(rec.members, id);
    if i < |rec.members| { ByIdAt(rec.members, i); }
  }

  lemma LeastIsUnique(ts: set<Time>, t: Time, u: Time)
    requires IsLeast(ts, t) && IsLeast(ts, u)
    ensures t == u
  {
  }

  lemma LeaveTimesNext(ms: Members, m: Member)
    requires m.id !in ms
    ensures LeaveTimes(ms[m.id := m])
         == LeaveTimes(ms) + if m.status == Active && m.leaveAt != 0 then {m.leaveAt} else {}
    ensures ActiveIds(ms[m.id := m]) == ActiveIds(ms) + if m.status == Active then {m.id} else {}
    ensures AllIdle(ms[m.id := m]) <==> AllIdle(ms) && !ActiveOnline(m)
  {
    var ms' := ms[m.id := m];
    assert m.id in ms' && forall id :: id in ms ==> id in ms' && ms'[id] == ms[id];
    var more := LeaveTimes(ms) + if m.status == Active && m.leaveAt != 0 then {m.leaveAt} else {};
    forall t | t in more ensures t in LeaveTimes(ms') {
      if t in LeaveTimes(ms) {
        var id :| id in ms && ms[id].status == Active && ms[id].leaveAt != 0 && ms[id].leaveAt == t;
        assert id in ms' && ms'[id].leaveAt == t;
      }
    }
    forall t | t in LeaveTimes(ms') ensures t in more {}
  }

  /** Where the scan for idleness stands after some members. */
  ghost predicate Scanned(ms: Members, found: bool, since: Time)
  {
    && AllIdle(ms) && (found <==> ActiveIds(ms) != {})
    && (if since == 0 then LeaveTimes(ms) == {} else IsLeast(LeaveTimes(ms), since))
  }

  lemma ScanStarts(ms: seq<Member>)
    ensures Scanned(ById(ms[..0]), false, 0)
  {
  }

  lemma ScanNext(ms: Members, m: Member, found: bool, since: Time)
    requires Scanned(ms, found, since) && m.id !in ms && !ActiveOnline(m)
    ensures Scanned(ms[m.id := m], found || m.status == Active,
                    if m.status == Active && m.leaveAt != 0 && (since == 0 || m.leaveAt < since) then m.leaveAt else since)
  {
    LeaveTimesNext(ms, m);
    hide LeaveTimes, ActiveIds, AllIdle;
  }

  lemma PrefixFits(ms: seq<Member>, i: nat)
    requires DistinctIds(ms) && i < |ms|
    ensures ById(ms[..i + 1]) == ById(ms[..i])[ms[i].id := ms[i]] && ms[i].id !in ById(ms[..i])
  {
    assert ms[..i + 1] == ms[..i] + [ms[i]];
    ByIdAppend(ms[..i], ms[i]);
    ByIdLacks(ms[..i], ms[i].id);
  }

  lemma {:induction false} OnlineSpoils(ms: seq<Member>, i: nat)
    requires DistinctIds(ms) && i < |ms| && ActiveOnline(ms[i])
    ensures !AllIdle(ById(ms))
  {
    ByIdAt(ms, i);
  }

  /** allIdle: whether nobody active is online, and since when. */
  method Idle(rec: Record) returns (idle: bool, since: Time)
    requires DistinctIds(rec.members)
    ensures idle <==> AllIdle(View(rec).members)
    ensures idle ==> since == IdleSince(View(rec))
  {
    hide DistinctIds, ById, AllIdle, LeaveTimes, ActiveIds, Scanned;
    var ms := rec.members;
    var found := false;
    since := 0;
    ScanStarts(ms);
    for i := 0 to |ms|
      invariant Scanned(ById(ms[..i]), found, since)
    {
      if ActiveOnline(ms[i]) {
        OnlineSpoils(ms, i);
        return false, 0;
      }
      PrefixFits(ms, i);
      ScanNext(ById(ms[..i]), ms[i], found, since);
      if ms[i].status == Active {
        found := true;
        if ms[i].leaveAt != 0 && (since == 0 || ms[i].leaveAt < since) { since := ms[i].leaveAt; }
      }
    }
    assert ms[..|ms|] == ms;
    ScanEnds(View(rec), found, since);
    return true, if found then since else rec.head.createdAt;
  }

  lemma ScanEnds(s: Session, found: bool, since: Time)
    requires Scanned(s.members, found, since)
    ensures AllIdle(s.members) && IdleSince(s) == if found then since else s.head.createdAt
  {
    if found && since != 0 { LeastIsUnique(LeaveTimes(s.members), since, IdleSince(s)); }
  }

  class SessionService {
    const store: M.MemoryStore
    const memberGrace: nat

    ghost function Sessions(): Store
      reads store
    {
      M.Abs(store.State())
    }

    ghost predicate Valid()
      reads store
    {
      M.MemOk(store.State())
    }

    constructor (store: M.MemoryStore, memberGrace: nat)
      ensures this.store == store && this.memberGrace == memberGrace
    {
      this.store, this.memberGrace := store, memberGrace;
    }

    /** The snapshot an operation decides on. */
    method Snapshot(sid: SessionId) returns (r: Result<Record, SvcErr>)
      requires Valid()
      ensures if sid in Sessions() then r.Ok? && View(r.value) == Sessions()[sid] && DistinctIds(r.value.members)
              else r == Err(NoSession)
    {
      var got := store.Get(sid);
      return match got case Ok(rec) => Ok(rec) case Err(_) => Err(NoSession);
    }

    method WriteBack(sid: SessionId, m: Member) returns (err: Option<SvcErr>)
      requires Valid() && sid in Sessions() && FitsIn(sid, Sessions()[sid].members, m)
      modifies store
      ensures Valid()
      ensures var (st, out) := Step(old(Sessions()), UpdateMember(sid, m)); Sessions() == st && err == Failure(out)
    {
      M.MemRefines(store.State(), UpdateMember(sid, m));
      hide M.MemStep, M.MemOk, Step;
      var failed := store.UpdateMember(sid, m);
      return match failed case None => None case Some(e) => Some(StoreFailed(e));
    }

    method Approve(sid: SessionId, owner: MemberId, target: MemberId, now: Time) returns (err: Option<SvcErr>)
      requires Valid()
      modifies store
      ensures Valid()
      ensures (Sessions(), err) == Atomically(old(Sessions()), sid, Change.Approve(owner, target, now))
    {
      ghost var st := Sessions();
      hide DistinctIds, ById, Step, FitsIn;
      var got := Snapshot(sid);
      if got.Err? { return Some(NoSession); }
      var rec := got.value;
      var i := MemberById(rec.members, owner);
      ListAgrees(rec, owner, i);
      if i == |rec.members| || rec.members[i].role != OwnerRole { return Some(NotOwner); }
      var j := MemberById(rec.members, target);
      ListAgrees(rec, target, j);
      if j == |rec.members| { return Some(NoMember); }
      var m := rec.members[j];
      if m.status != Pending { return Some(BadParams); }
      var active := ActiveMembers(rec.members);
      ActiveCountIsSize(rec.members);
      if rec.head.maxMembers > 0 && active >= rec.head.maxMembers { return Some(SessionFull); }
      m := m.(status := Active, joinedAt := now);
      Decided(st, sid, Change.Approve(owner, target, now), m);
      err := WriteBack(sid, m);
    }

    method Reject(sid: SessionId, owner: MemberId, target: MemberId) returns (err: Option<SvcErr>)
      requires Valid()
      modifies store
      ensures Valid()
      ensures (Sessions(), err) == Atomically(old(Sessions()), sid, Change.Reject(owner, target))
    {
      ghost var st := Sessions();
      hide DistinctIds, ById, Step, FitsIn;
      var got := Snapshot(sid);
      if got.Err? { return Some(NoSession); }
      var rec := got.value;
      var i := MemberById(rec.members, owner);
      ListAgrees(rec, owner, i);
      if i == |rec.members| || rec.members[i].role != OwnerRole { return Some(NotOwner); }
      if owner == target { return Some(BadParams); }
      var j := MemberById(rec.members, target);
      ListAgrees(rec, target, j);
      if j == |rec.members| { return Some(NoMember); }
      var m := rec.members[j].(status := Denied, connectionId := "");
      Decided(st, sid, Change.Reject(owner, target), m);
      err := WriteBack(sid, m);
    }

    method Touch(sid: SessionId, target: MemberId, conn: string, now: Time) returns (err: Option<SvcErr>)
      requires Valid()
      modifies store
      ensures Valid()
      ensures (Sessions(), err) == Atomically(old(Sessions()), sid, Change.Touch(target, conn, now))
    {
      ghost var st := Sessions();
      hide DistinctIds, ById, Step, FitsIn;
      var got := Snapshot(sid);
      if got.Err? { return Some(NoSession); }
      var rec := got.value;
      var j := MemberById(rec.members, target);
      ListAgrees(rec, target, j);
      if j == |rec.members| { return Some(NoMember); }
      if conn != "" && rec.members[j].connectionId != conn { return Some(StaleConnection); }
      var m := rec.members[j].(lastSeen := now);
      Decided(st, sid, Change.Touch(target, conn, now), m);
      err := WriteBack(sid, m);
    }

    method UpdateCandidates(sid: SessionId, target: MemberId, candidates: seq<Candidate>, now: Time) returns (err: Option<SvcErr>)
      requires Valid()
      modifies store
      ensures Valid()
      ensures (Sessions(), err) == Atomically(old(Sessions()), sid, Change.UpdateCandidates(target, candidates, now))
    {
      ghost var st := Sessions();
      hide DistinctIds, ById, Step, FitsIn;
      var got := Snapshot(sid);
      if got.Err? { return Some(NoSession); }
      var rec := got.value;
      var j := MemberById(rec.members, target);
      ListAgrees(rec, target, j);
      if j == |rec.members| { return Some(NoMember); }
      if |candidates| > MAX_CANDIDATES { return Some(BadParams); }
      var m := rec.members[j].(candidates := candidates, lastSeen := now);
      Decided(st, sid, Change.UpdateCandidates(target, candidates, now), m);
      err := WriteBack(sid, m);
    }

    /** One member of the sweep: removed if past its grace. */
    method SweepMember(ghost st: Store, ghost s: Session, ghost gone: set<MemberId>, sid: SessionId, m: Member, now: Time)
      returns (ghost gone': set<MemberId>, lost: bool)
      requires Valid() && m.id in s.members && m.id !in gone
      requires Sessions() == st[sid := s.(members := s.members - gone)]
      modifies store
      ensures Valid() && Sessions() == st[sid := s.(members := s.members - gone')]
      ensures gone' == gone + (if lost then {m.id} else {}) && (lost <==> Lapsed(m, now, memberGrace))
    {
      hide M.MemOk, M.MemStep, Step;
      gone', lost := gone, false;
      if !Online(m) && m.leaveAt != 0 && Elapsed(now, m.leaveAt) > memberGrace {
        M.MemRefines(store.State(), Op.RemoveMember(sid, m.id));
        RemoveStep(st, sid, s, gone, m.id);
        var _ := store.RemoveMember(sid, m.id);
        gone', lost := gone + {m.id}, true;
      }
    }

    /** Removes and counts the members past their grace; `rec` is the session as it stands. */
    method SweepMembers(rec: Record, now: Time) returns (lost: nat)
      requires Valid() && rec.head.id in Sessions() && View(rec) == Sessions()[rec.head.id] && DistinctIds(rec.members)
      modifies store
      ensures Valid() && Sessions() == old(Sessions())[rec.head.id := Swept(View(rec), now, memberGrace)]
      ensures lost == |LapsedIds(View(rec).members, now, memberGrace)|
    {
      hide M.MemOk, DistinctIds, ById, M.Abs;
      ghost var st, s := Sessions(), View(rec);
      ghost var gone: set<MemberId> := {};
      assert s.members - gone == s.members && st[rec.head.id := s] == st;
      LapsedNone(rec.members, now, memberGrace);
      lost := 0;
      for i := 0 to |rec.members|
        invariant lost == |gone|
        invariant Valid() && Sessions() == st[rec.head.id := s.(members := s.members - gone)]
        invariant gone == LapsedIds(ById(rec.members[..i]), now, memberGrace)
      {
        PrefixFits(rec.members, i);
        LapsedNext(ById(rec.members[..i]), rec.members[i], now, memberGrace);
        NotYetGone(rec, i, now, memberGrace);
        ghost var before := gone;
        var one;
        gone, one := SweepMember(st, s, gone, rec.head.id, rec.members[i], now);
        if one { lost := lost + 1; }
        assert |gone| == |before| + if one then 1 else 0;
      }
      assert rec.members[..|rec.members|] == rec.members;
      LapsedAll(s, now, memberGrace);
    }

    /** The sweep over a listing of every session. */
    method Prune(now: Time) returns (sessionsExpired: nat, membersExpired: nat)
      requires Valid()
      modifies store
      ensures Valid() && Sessions() == Pruned(old(Sessions()), now, memberGrace)
      ensures sessionsExpired == |old(Sessions()).Keys - Sessions().Keys|
      ensures membersExpired == |Departed(old(Sessions()), Sessions())|
    {
      hide M.MemOk, M.MemStep, Step, DistinctIds, ById, Dies, Swept, Pruned, PrunedSome, M.Lists, M.NoRepeats;
      hide DeadIds, LostPairs, LapsedIds, Departed;
      ghost var st := Sessions();
      var recs, ids := store.List(Filter(0, false));
      ListedAll(store.State(), ids);
      sessionsExpired, membersExpired := 0, 0;
      PrunedNone(st, now, memberGrace);
      for k := 0 to |recs|
        invariant Valid() && Sessions() == PrunedSome(st, ids[..k], now, memberGrace)
        invariant sessionsExpired == |DeadIds(st, ids[..k], now)|
        invariant membersExpired == |LostPairs(st, ids[..k], now, memberGrace)|
      {
        assert ids[k] in st && View(recs[k]) == st[ids[k]] && recs[k].head.id == ids[k];
        PrunedNext(st, ids, k, now, memberGrace);
        LostNext(st, ids, k, now, memberGrace);
        var died, lost := PruneOne(st, ids, k, recs[k], now);
        if died { sessionsExpired := sessionsExpired + 1; }
        membersExpired := membersExpired + lost;
      }
      assert ids[..|recs|] == ids;
      PrunedEvery(st, ids, now, memberGrace);
      GoneAreDead(st, now, memberGrace);
      LostAreDeparted(st, ids, now, memberGrace);
    }

    /** One turn of the sweep: the session goes, or its lapsed members do. */
    method PruneOne(ghost st: Store, ghost ids: seq<SessionId>, ghost k: nat, rec: Record, now: Time) returns (died: bool, lost: nat)
      requires Valid() && k < |ids| && ids[k] == rec.head.id && DistinctIds(rec.members)
      requires rec.head.id in st && View(rec) == st[rec.head.id]
      requires rec.head.id in Sessions() && Sessions()[rec.head.id] == st[rec.head.id]
      modifies store
      ensures Valid() && (died <==> Dies(st[rec.head.id], now))
      ensures Sessions() == if died then old(Sessions()) - {rec.head.id}
                            else old(Sessions())[rec.head.id := Swept(st[rec.head.id], now, memberGrace)]
      ensures lost == if died then 0 else |LapsedIds(st[rec.head.id].members, now, memberGrace)|
    {
      hide M.MemOk, M.MemStep, DistinctIds, ById, Swept, IdleSince, AllIdle, LapsedIds;
      lost := 0;
      died := IsExpired(rec.head, now) || rec.head.closed;
      if !died && rec.head.idleTimeout > 0 {
        var idle, since := Idle(rec);
        died := idle && Elapsed(now, since) > rec.head.idleTimeout;
      }
      if died {
        M.MemRefines(store.State(), Op.Delete(rec.head.id));
        var _ := store.Delete(rec.head.id);
      } else {
        lost := SweepMembers(rec, now);
      }
    }
  }

  ghost function LapsedIds(ms: Members, now: Time, grace: nat): set<MemberId>
  {
    set id | id in ms && Lapsed(ms[id], now, grace)
  }

  /** The members, with their sessions, that are in the one store and not in the other although the session is. */
  ghost function Departed(st: Store, st': Store): set<(SessionId, MemberId)>
  {
    set sid, id | sid in st && sid in st' && id in st[sid].members && id !in st'[sid].members :: (sid, id)
  }

  ghost function LostPairs(st: Store, done: seq<SessionId>, now: Time, grace: nat): set<(SessionId, MemberId)>
  {
    set sid, id | sid in done && sid in st && !Dies(st[sid], now) && id in LapsedIds(st[sid].members, now, grace) :: (sid, id)
  }

  ghost function PairsOf(sid: SessionId, ids: set<MemberId>): set<(SessionId, MemberId)>
  {
    set id | id in ids :: (sid, id)
  }

  lemma {:induction false} PairsCount(sid: SessionId, ids: set<MemberId>)
    ensures |PairsOf(sid, ids)| == |ids|
    decreases |ids|
  {
    if ids != {} {
      var id :| id in ids;
      PairsCount(sid, ids - {id});
      assert PairsOf(sid, ids) == PairsOf(sid, ids - {id}) + {(sid, id)};
    }
  }

  lemma LostNext(st: Store, ids: seq<SessionId>, k: nat, now: Time, grace: nat)
    requires k < |ids| && M.NoRepeats(ids) && ids[k] in st
    ensures |LostPairs(st, ids[..k + 1], now, grace)|
         == |LostPairs(st, ids[..k], now, grace)|
            + if Dies(st[ids[k]], now) then 0 else |LapsedIds(st[ids[k]].members, now, grace)|
  {
    hide Dies, LapsedIds;
    assert ids[..k + 1] == ids[..k] + [ids[k]] && ids[k] !in ids[..k];
    var before, more := LostPairs(st, ids[..k], now, grace), PairsOf(ids[k], LapsedIds(st[ids[k]].members, now, grace));
    PairsCount(ids[k], LapsedIds(st[ids[k]].members, now, grace));
    assert before !! more;
    assert LostPairs(st, ids[..k + 1], now, grace) == if Dies(st[ids[k]], now) then before else before + more;
  }

  lemma LostAreDeparted(st: Store, ids: seq<SessionId>, now: Time, grace: nat)
    requires forall sid :: sid in st ==> sid in ids
    ensures LostPairs(st, ids, now, grace) == Departed(st, Pruned(st, now, grace))
  {
    hide Dies, Lapsed;
  }

  lemma LapsedNone(ms: seq<Member>, now: Time, grace: nat)
    ensures LapsedIds(ById(ms[..0]), now, grace) == {}
  {
  }

  lemma LapsedNext(ms: Members, m: Member, now: Time, grace: nat)
    requires m.id !in ms
    ensures LapsedIds(ms[m.id := m], now, grace) == LapsedIds(ms, now, grace) + if Lapsed(m, now, grace) then {m.id} else {}
  {
  }

  lemma LapsedAll(s: Session, now: Time, grace: nat)
    ensures s.(members := s.members - LapsedIds(s.members, now, grace)) == Swept(s, now, grace)
  {
  }

  lemma NotYetGone(rec: Record, i: nat, now: Time, grace: nat)
    requires DistinctIds(rec.members) && i < |rec.members|
    ensures rec.members[i].id in View(rec).members
    ensures rec.members[i].id !in LapsedIds(ById(rec.members[..i]), now, grace)
  {
    ByIdAt(rec.members, i);
    ByIdLacks(rec.members[..i], rec.members[i].id);
  }

  lemma RemoveStep(st: Store, sid: SessionId, s: Session, gone: set<MemberId>, id: MemberId)
    requires id in s.members && id !in gone
    ensures Step(st[sid := s.(members := s.members - gone)], RemoveMember(sid, id)).0
         == st[sid := s.(members := s.members - (gone + {id}))]
  {
    assert s.members - gone - {id} == s.members - (gone + {id});
  }

  ghost function PrunedSome(st: Store, done: seq<SessionId>, now: Time, grace: nat): Store
  {
    map sid | sid in st && !(sid in done && Dies(st[sid], now)) ::
      if sid in done then Swept(st[sid], now, grace) else st[sid]
  }

  ghost function DeadIds(st: Store, done: seq<SessionId>, now: Time): set<SessionId>
  {
    set sid | sid in done && sid in st && Dies(st[sid], now)
  }

  lemma PrunedNone(st: Store, now: Time, grace: nat)
    ensures PrunedSome(st, [], now, grace) == st
    ensures DeadIds(st, [], now) == {} && LostPairs(st, [], now, grace) == {}
  {
  }

  lemma PrunedAdd(st: Store, done: seq<SessionId>, sid: SessionId, now: Time, grace: nat)
    requires sid in st && sid !in done
    ensures var was := PrunedSome(st, done, now, grace);
      && sid in was && was[sid] == st[sid]
      && PrunedSome(st, done + [sid], now, grace)
         == (if Dies(st[sid], now) then was - {sid} else was[sid := Swept(st[sid], now, grace)])
  {
    hide Dies, Swept;
  }

  lemma DeadAdd(st: Store, done: seq<SessionId>, sid: SessionId, now: Time)
    requires sid in st && sid !in done
    ensures |DeadIds(st, done + [sid], now)| == |DeadIds(st, done, now)| + if Dies(st[sid], now) then 1 else 0
  {
    hide Dies;
    assert DeadIds(st, done + [sid], now) == DeadIds(st, done, now) + if Dies(st[sid], now) then {sid} else {};
  }

  lemma PrunedNext(st: Store, ids: seq<SessionId>, k: nat, now: Time, grace: nat)
    requires k < |ids| && M.NoRepeats(ids) && ids[k] in st
    ensures var sid, was := ids[k], PrunedSome(st, ids[..k], now, grace);
      && sid in was && was[sid] == st[sid]
      && PrunedSome(st, ids[..k + 1], now, grace)
         == (if Dies(st[sid], now) then was - {sid} else was[sid := Swept(st[sid], now, grace)])
      && |DeadIds(st, ids[..k + 1], now)| == |DeadIds(st, ids[..k], now)| + if Dies(st[sid], now) then 1 else 0
  {
    assert ids[..k + 1] == ids[..k] + [ids[k]];
    assert ids[k] !in ids[..k];
    hide Dies, Swept, PrunedSome, DeadIds, M.NoRepeats;
    PrunedAdd(st, ids[..k], ids[k], now, grace);
    DeadAdd(st, ids[..k], ids[k], now);
  }

  lemma PrunedEvery(st: Store, ids: seq<SessionId>, now: Time, grace: nat)
    requires forall sid :: sid in st ==> sid in ids
    ensures PrunedSome(st, ids, now, grace) == Pruned(st, now, grace)
    ensures DeadIds(st, ids, now) == set sid | sid in st && Dies(st[sid], now)
  {
    hide Dies, Swept;
  }

  lemma ListedAll(mem: M.Mem, ids: seq<SessionId>)
    requires M.MemOk(mem) && M.Lists(mem.byID, mem.byID.Keys, Filter(0, false), ids)
    ensures M.NoRepeats(ids) && (forall sid :: sid in mem.byID ==> sid in ids)
    ensures forall k :: 0 <= k < |ids| ==>
      ids[k] in mem.byID && mem.byID[ids[k]].head.id == ids[k] && DistinctIds(mem.byID[ids[k]].members)
  {
    forall k | 0 <= k < |ids| ensures mem.byID[ids[k]].head.id == ids[k] { assert SessionOk(ids[k], M.Abs(mem)[ids[k]]); }
  }

  lemma Decided(st: Store, sid: SessionId, c: Change, m: Member)
    requires StoreOk(st) && sid in st && Decide(st[sid], c) == Ok(m)
    ensures FitsIn(sid, st[sid].members, m)
  {
    DecideKeepsIdentity(sid, st[sid], c);
  }
}
