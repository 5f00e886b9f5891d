/** Many callers on one session: every service operation reads a snapshot in one step and writes one member
    back in another, with joins, removals and disconnections in between
    (internal/session/service.go over internal/storage/memory.go). Drawn member IDs are never reused. */
module Interleaving {
  import opened Machine
  import opened Records
  import opened Sessions
  import opened Service

  /** `pending` holds the decided writes not yet done; `book` every member ever admitted, as admitted. */
  datatype World = World(s: Session, pending: map<nat, Member>, book: Members, removed: nat)

  datatype Event =
    | Begin(h: nat, c: Change)
    | Finish(h: nat)
    | Joins(req: JoinRequest, now: Time, rand: Random)
    | Removes(mid: MemberId)
    | Disconnects(mid: MemberId, conn: string, now: Time)
    | Revokes
    | Rotates(hash: string, code: string)
    | Closes

  ghost function JoinNext(w: World, req: JoinRequest, now: Time, rand: Random): World
  {
    match Joining(w.s, req, now, rand)
    case Ok((s', Joined(_, m, rejoined, _))) =>
      w.(s := s', book := if rejoined then w.book else w.book[m.id := m])
    case _ => w
  }

  function FinishNext(w: World, h: nat): World
  {
    if h !in w.pending then w
    else
      var m := w.pending[h];
      w.(s := if m.id != "" && m.id in w.s.members then w.s.(members := w.s.members[m.id := m]) else w.s,
         pending := w.pending - {h})
  }

  ghost function Next(w: World, e: Event): World
  {
    match e
    case Begin(h, c) =>
      (match Decide(w.s, c) case Ok(m) => w.(pending := w.pending[h := m]) case Err(_) => w)
    case Finish(h) => FinishNext(w, h)
    case Joins(req, now, rand) => JoinNext(w, req, now, rand)
    case Removes(mid) =>
      (match Removing(w.s, mid) case Ok((s', _)) => w.(s := s', removed := w.removed + 1) case Err(_) => w)
    case Disconnects(mid, conn, now) =>
      (match Offlining(w.s, mid, conn, now) case Ok((s', _)) => w.(s := s') case Err(_) => w)
    case Revokes => w.(s := w.s.(head := w.s.head.(revoked := true)))
    case Rotates(hash, code) =>
      w.(s := w.s.(head := w.s.head.(joinCode := code, tokenHash := hash, revoked := false)))
    case Closes => w.(s := w.s.(head := w.s.head.(closed := true)))
  }

  /** A freshly created session. */
  predicate Newborn(h: Head) { h.id != "" && h.owner == "" && h.joinsUsed == 0 && h.joinLimit >= 0 }

  ghost function Exec(h: Head, run: seq<Event>): World
  {
    if run == [] then World(Session(h, map[]), map[], map[], 0)
    else Next(Exec(h, run[..|run| - 1]), run[|run| - 1])
  }

  ghost predicate DrawsFresh(w: World, e: Event)
  {
    e.Joins? ==> var id := Draw(e.rand, w.s.members.Keys); id != "" && id !in w.book
  }

  ghost predicate FreshRun(h: Head, run: seq<Event>)
  {
    run == [] || (FreshRun(h, run[..|run| - 1]) && DrawsFresh(Exec(h, run[..|run| - 1]), run[|run| - 1]))
  }

  // ---- What survives every interleaving -----------------------------------------------------

  /** The member is the one once admitted under its ID, and the owner has never been anything but active. */
  ghost predicate Genuine(book: Members, owner: MemberId, m: Member)
  {
    m.id in book && SameIdentity(m, book[m.id]) && (m.id == owner ==> m.status == Active)
  }

  ghost predicate BookOk(sid: SessionId, h: Head, book: Members)
  {
    && (forall id :: id in book ==>
          id != "" && book[id].id == id && book[id].session == sid && book[id].index != 0
          && (book[id].role == OwnerRole <==> id == h.owner))
    && (h.owner != "" ==> h.owner in book)
    && h.joinsUsed == |book| && (h.joinLimit > 0 ==> |book| <= h.joinLimit)
  }

  ghost predicate AllGenuine(w: World)
  {
    && (forall id :: id in w.s.members ==> Genuine(w.book, w.s.head.owner, w.s.members[id]))
    && (forall h :: h in w.pending ==> Genuine(w.book, w.s.head.owner, w.pending[h]))
  }

  ghost predicate Inv(sid: SessionId, w: World)
  {
    && SessionOk(sid, w.s) && BookOk(sid, w.s.head, w.book) && AllGenuine(w)
    && |w.book| == |w.s.members| + w.removed
  }

  /** A stale write, however late, takes nobody's index or node: it is admissible to either store. */
  lemma StaleWriteFits(sid: SessionId, w: World, h: nat)
    requires Inv(sid, w) && h in w.pending && w.pending[h].id in w.s.members
    ensures FitsIn(sid, w.s.members, w.pending[h]) && SameIdentity(w.pending[h], w.s.members[w.pending[h].id])
  {
    var m := w.pending[h];
    assert Genuine(w.book, w.s.head.owner, m) && Genuine(w.book, w.s.head.owner, w.s.members[m.id]);
    forall o | o in w.s.members && o != m.id ensures w.s.members[o].index != m.index && w.s.members[o].nodeId != m.nodeId {}
  }

  /** And once its member is gone it changes nothing, even if the index has a new holder. */
  lemma StaleWriteIsLost(w: World, h: nat)
    requires h in w.pending && w.pending[h].id !in w.s.members
    ensures Next(w, Finish(h)) == w.(pending := w.pending - {h})
  {
  }

  lemma DecisionIsGenuine(sid: SessionId, w: World, c: Change)
    requires Inv(sid, w) && Decide(w.s, c).Ok?
    ensures Genuine(w.book, w.s.head.owner, Decide(w.s, c).value)
  {
    DecideKeepsIdentity(sid, w.s, c);
    assert Genuine(w.book, w.s.head.owner, w.s.members[c.target]);
    if c.Reject? { assert Genuine(w.book, w.s.head.owner, w.s.members[c.owner]); }
  }

  lemma BeginKeepsInv(sid: SessionId, w: World, h: nat, c: Change)
    requires Inv(sid, w)
    ensures Inv(sid, Next(w, Begin(h, c)))
  {
    if Decide(w.s, c).Ok? { DecisionIsGenuine(sid, w, c); }
    hide SessionOk, BookOk, Genuine, Decide;
  }

  lemma FitKeeps(sid: SessionId, s: Session, m: Member)
    requires SessionOk(sid, s) && m.id in s.members && FitsIn(sid, s.members, m)
    ensures SessionOk(sid, s.(members := s.members[m.id := m]))
  {
  }

  /** Writing a genuine member over its own entry keeps everything. */
  lemma ReplaceKeepsInv(sid: SessionId, w: World, m: Member)
    requires Inv(sid, w) && m.id in w.s.members && Genuine(w.book, w.s.head.owner, m) && FitsIn(sid, w.s.members, m)
    ensures Inv(sid, w.(s := w.s.(members := w.s.members[m.id := m])))
  {
    hide SessionOk, BookOk, Genuine, FitsIn;
    FitKeeps(sid, w.s, m);
    assert w.s.members[m.id := m].Keys == w.s.members.Keys;
  }

  lemma FewerPendingKeepsInv(sid: SessionId, w: World, h: nat)
    requires Inv(sid, w)
    ensures Inv(sid, w.(pending := w.pending - {h}))
  {
    hide SessionOk, BookOk, Genuine;
  }

  lemma FinishKeepsInv(sid: SessionId, w: World, h: nat)
    requires Inv(sid, w)
    ensures Inv(sid, Next(w, Finish(h)))
  {
    if h in w.pending {
      var m := w.pending[h];
      assert Genuine(w.book, w.s.head.owner, m);
      FewerPendingKeepsInv(sid, w, h);
      if m.id in w.s.members {
        StaleWriteFits(sid, w, h);
        ReplaceKeepsInv(sid, w.(pending := w.pending - {h}), m);
      }
    }
    hide Inv;
  }

  lemma RemoveKeepsSession(sid: SessionId, s: Session, mid: MemberId)
    requires SessionOk(sid, s)
    ensures SessionOk(sid, s.(members := s.members - {mid}))
  {
  }

  lemma RemoveKeepsInv(sid: SessionId, w: World, mid: MemberId)
    requires Inv(sid, w)
    ensures Inv(sid, Next(w, Removes(mid)))
  {
    hide SessionOk, BookOk, Genuine;
    if mid in w.s.members {
      RemoveShrinks(w.s.members, mid);
      RemoveKeepsSession(sid, w.s, mid);
    }
  }

  lemma RemoveShrinks(ms: Members, id: MemberId)
    requires id in ms
    ensures |ms - {id}| == |ms| - 1
  {
    assert (ms - {id}).Keys == ms.Keys - {id};
  }

  /** A change of connection, status or lists leaves a member genuine and fitting. */
  lemma SameMember(sid: SessionId, w: World, id: MemberId, m: Member)
    requires Inv(sid, w) && id in w.s.members && SameIdentity(m, w.s.members[id])
    requires w.s.members[id].status == Active ==> m.status == Active
    ensures m.id == id && Genuine(w.book, w.s.head.owner, m) && FitsIn(sid, w.s.members, m)
  {
    assert Genuine(w.book, w.s.head.owner, w.s.members[id]);
    hide BookOk, AllGenuine;
  }

  lemma DisconnectKeepsInv(sid: SessionId, w: World, mid: MemberId, conn: string, now: Time)
    requires Inv(sid, w)
    ensures Inv(sid, Next(w, Disconnects(mid, conn, now)))
  {
    hide Inv, Joining, JoinNext, FinishNext, Decide, Removing;
    if mid in w.s.members {
      var m := w.s.members[mid].(connectionId := "", leaveAt := now);
      SameMember(sid, w, mid, m);
      ReplaceKeepsInv(sid, w, m);
    }
  }

  lemma RejoinKeepsInv(sid: SessionId, w: World, id: MemberId, req: JoinRequest, now: Time)
    requires Inv(sid, w) && id in w.s.members
    ensures Inv(sid, w.(s := Rejoin(w.s, id, req, now).0))
  {
    hide Inv;
    var m := Refreshed(w.s.head, w.s.members[id], req, now);
    SameMember(sid, w, id, m);
    ReplaceKeepsInv(sid, w, m);
  }

  lemma Admission(sid: SessionId, h: Head, book: Members, m: Member)
    requires BookOk(sid, h, book) && m.id !in book && m.id != "" && m.session == sid && m.index != 0
    requires m.role == (if h.owner == "" then OwnerRole else MemberRole)
    requires h.joinLimit > 0 ==> h.joinsUsed < h.joinLimit
    ensures BookOk(sid, Admitted(h, m.id), book[m.id := m])
  {
    assert book[m.id := m].Keys == book.Keys + {m.id};
  }

  lemma OwnGenuine(sid: SessionId, h: Head, book: Members, m: Member)
    requires BookOk(sid, h, book) && m.id !in book && (m.status == Active || h.owner != "")
    ensures Genuine(book[m.id := m], Admitted(h, m.id).owner, m)
  {
  }

  lemma EnterKeepsGenuine(sid: SessionId, w: World, m: Member, s': Session)
    requires Inv(sid, w) && m.id !in w.book && (m.status == Active || w.s.head.owner != "")
    requires s'.members == w.s.members[m.id := m] && s'.head == Admitted(w.s.head, m.id)
    ensures AllGenuine(w.(s := s', book := w.book[m.id := m]))
  {
    var book, owner := w.book[m.id := m], s'.head.owner;
    hide SessionOk, BookOk, Genuine;
    forall o | o in w.s.members ensures Genuine(book, owner, w.s.members[o]) {
      StillGenuine(sid, w.s.head, w.book, w.s.members[o], m);
    }
    forall h | h in w.pending ensures Genuine(book, owner, w.pending[h]) {
      StillGenuine(sid, w.s.head, w.book, w.pending[h], m);
    }
    OwnGenuine(sid, w.s.head, w.book, m);
  }

  lemma EnterKeepsInv(sid: SessionId, w: World, id: MemberId, index: u16, req: JoinRequest, now: Time)
    requires Inv(sid, w) && id !in w.book && id != "" && index != 0
    requires w.s.head.joinLimit > 0 ==> w.s.head.joinsUsed < w.s.head.joinLimit
    requires forall o :: o in w.s.members ==> w.s.members[o].index != index && w.s.members[o].nodeId != req.nodeId
    ensures var m := Newcomer(w.s.head, id, index, req, now);
      Inv(sid, w.(s := Enter(w.s, id, index, req, now).0, book := w.book[id := m]))
  {
    hide Inv, BookOk, AllGenuine, SessionOk;
    var m := Newcomer(w.s.head, id, index, req, now);
    InvParts(sid, w);
    NotYetAdmitted(sid, w, id);
    EnterKeepsGenuine(sid, w, m, Enter(w.s, id, index, req, now).0);
    Admission(sid, w.s.head, w.book, m);
    EnterKeeps(sid, w.s, id, index, req, now);
    InvFromParts(sid, w, w.(s := Enter(w.s, id, index, req, now).0, book := w.book[id := m]), m);
  }

  lemma InvParts(sid: SessionId, w: World)
    requires Inv(sid, w)
    ensures SessionOk(sid, w.s) && w.s.head.id == sid && BookOk(sid, w.s.head, w.book) && AllGenuine(w)
  {
    hide BookOk, AllGenuine;
  }

  lemma InvFromParts(sid: SessionId, w: World, w': World, m: Member)
    requires Inv(sid, w) && m.id !in w.book && m.id !in w.s.members
    requires SessionOk(sid, w'.s) && BookOk(sid, w'.s.head, w'.book) && AllGenuine(w')
    requires w'.book == w.book[m.id := m] && w'.s.members == w.s.members[m.id := m] && w'.removed == w.removed
    ensures Inv(sid, w')
  {
    hide SessionOk, BookOk, AllGenuine;
    assert w'.book.Keys == w.book.Keys + {m.id} && w'.s.members.Keys == w.s.members.Keys + {m.id};
  }

  lemma NotYetAdmitted(sid: SessionId, w: World, id: MemberId)
    requires Inv(sid, w)
    ensures id in w.s.members ==> id in w.book
  {
    if id in w.s.members { assert Genuine(w.book, w.s.head.owner, w.s.members[id]); }
  }

  lemma StillGenuine(sid: SessionId, h: Head, book: Members, was: Member, m: Member)
    requires BookOk(sid, h, book) && Genuine(book, h.owner, was) && m.id !in book
    ensures Genuine(book[m.id := m], Admitted(h, m.id).owner, was)
  {
  }

  /** A join is the return of a known node or the entry of a new member. */
  lemma JoinCases(s: Session, req: JoinRequest, now: Time, rand: Random)
    requires Joining(s, req, now, rand).Ok?
    ensures match ByNode(s.members, req.nodeId)
      case Some(id) => id in s.members && Joining(s, req, now, rand) == Ok(Rejoin(s, id, req, now))
      case None =>
        var index := FreeIndex(Indices(s.members));
        && index != 0 && (s.head.joinLimit > 0 ==> s.head.joinsUsed < s.head.joinLimit)
        && (!Pends(s.head) && s.head.maxMembers > 0 ==> |ActiveIds(s.members)| < s.head.maxMembers)
        && (forall o :: o in s.members ==> s.members[o].index != index && s.members[o].nodeId != req.nodeId)
        && Joining(s, req, now, rand) == Ok(Enter(s, Draw(rand, s.members.Keys), index, req, now))
  {
    if ByNode(s.members, req.nodeId) == None {
      forall o | o in s.members ensures s.members[o].index != FreeIndex(Indices(s.members)) { FreshIndex(s.members, o); }
    }
  }

  /** So the step leaves the world alone, brings a known node back, or lets a new one into an open session. */
  lemma JoinLeads(w: World, req: JoinRequest, now: Time, rand: Random)
    ensures var w' := Next(w, Joins(req, now, rand));
      match ByNode(w.s.members, req.nodeId)
      case Some(id) => id in w.s.members && (w' == w || w' == w.(s := Rejoin(w.s, id, req, now).0))
      case None =>
        var id, index := Draw(rand, w.s.members.Keys), FreeIndex(Indices(w.s.members));
        var m := Newcomer(w.s.head, id, index, req, now);
        w' == w || (!w.s.head.revoked && !w.s.head.closed && w' == w.(s := Enter(w.s, id, index, req, now).0, book := w.book[m.id := m]))
  {
    hide FreeIndex, Draw, Indices, ActiveIds;
  }

  lemma JoinKeepsInv(sid: SessionId, w: World, req: JoinRequest, now: Time, rand: Random)
    requires Inv(sid, w) && DrawsFresh(w, Joins(req, now, rand))
    ensures Inv(sid, JoinNext(w, req, now, rand))
  {
    hide Inv, Joining, Refreshed;
    if Joining(w.s, req, now, rand).Ok? {
      JoinCases(w.s, req, now, rand);
      match ByNode(w.s.members, req.nodeId)
      case Some(id) => RejoinKeepsInv(sid, w, id, req, now);
      case None => EnterKeepsInv(sid, w, Draw(rand, w.s.members.Keys), FreeIndex(Indices(w.s.members)), req, now);
    }
  }

  lemma NextKeepsInv(sid: SessionId, w: World, e: Event)
    requires Inv(sid, w) && DrawsFresh(w, e)
    ensures Inv(sid, Next(w, e))
  {
    hide Inv, Decide, Removing, Offlining, JoinNext, FinishNext;
    match e
    case Begin(h, c) => BeginKeepsInv(sid, w, h, c);
    case Finish(h) => FinishKeepsInv(sid, w, h);
    case Joins(req, now, rand) => JoinKeepsInv(sid, w, req, now, rand);
    case Removes(mid) => RemoveKeepsInv(sid, w, mid);
    case Disconnects(mid, conn, now) => DisconnectKeepsInv(sid, w, mid, conn, now);
    case Revokes => FlagsKeepInv(sid, w, e);
    case Rotates(_, _) => FlagsKeepInv(sid, w, e);
    case Closes => FlagsKeepInv(sid, w, e);
  }

  lemma FlagsKeepInv(sid: SessionId, w: World, e: Event)
    requires Inv(sid, w) && (e.Revokes? || e.Rotates? || e.Closes?)
    ensures Inv(sid, Next(w, e))
  {
    hide Joining, Decide, Removing, Offlining, Genuine;
  }

  lemma {:induction false} RunsKeepInv(h: Head, run: seq<Event>)
    requires Newborn(h) && FreshRun(h, run)
    ensures Inv(h.id, Exec(h, run))
    decreases |run|
  {
    if run == [] {
      assert Keyed(h.id, map[]) && DistinctIndices(map[]) && DistinctNodes(map[]);
    } else {
      RunsKeepInv(h, run[..|run| - 1]);
      NextKeepsInv(h.id, Exec(h, run[..|run| - 1]), run[|run| - 1]);
    }
  }

  // ---- Main results ----------------------------------------------------------------------------

  /** At every moment: identifiers, indices in 1..65535 and nodes are pairwise distinct; the owner, if
      present, is the only one and is active; joins are the members present and the members removed,
      and stay within the limit. */
  lemma {:induction false} EveryMoment(h: Head, run: seq<Event>)
    requires Newborn(h) && FreshRun(h, run)
    ensures var s := Exec(h, run).s;
      && (forall a :: a in s.members ==> s.members[a].id == a && 1 <= s.members[a].index)
      && (forall a, b :: a in s.members && b in s.members
              && (s.members[a].index == s.members[b].index || s.members[a].nodeId == s.members[b].nodeId)
            ==> a == b)
      && (forall a :: a in s.members && s.members[a].role == OwnerRole ==> a == s.head.owner && s.members[a].status == Active)
      && s.head.joinsUsed == |s.members| + Exec(h, run).removed
      && (s.head.joinLimit > 0 ==> s.head.joinsUsed <= s.head.joinLimit)
  {
    RunsKeepInv(h, run);
    var w := Exec(h, run);
    forall a | a in w.s.members
      ensures w.s.members[a].id == a && 1 <= w.s.members[a].index
      ensures w.s.members[a].role == OwnerRole ==> a == w.s.head.owner && w.s.members[a].status == Active
    {
      assert Genuine(w.book, w.s.head.owner, w.s.members[a]);
    }
    hide Exec, FreshRun;
  }

  lemma NextKeepsBook(w: World, e: Event, id: MemberId)
    requires id in w.book && DrawsFresh(w, e)
    ensures id in Next(w, e).book && Next(w, e).book[id] == w.book[id]
  {
    if e.Joins? && ByNode(w.s.members, e.req.nodeId) == None { assert Draw(e.rand, w.s.members.Keys) != id; }
  }

  lemma {:induction false} BookLasts(h: Head, run: seq<Event>, i: nat, id: MemberId)
    requires FreshRun(h, run) && i <= |run| && id in Exec(h, run[..i]).book
    ensures id in Exec(h, run).book && Exec(h, run).book[id] == Exec(h, run[..i]).book[id]
    decreases |run|
  {
    if i == |run| {
      assert run[..i] == run;
    } else {
      assert run[..|run| - 1][..i] == run[..i];
      BookLasts(h, run[..|run| - 1], i, id);
      NextKeepsBook(Exec(h, run[..|run| - 1]), run[|run| - 1], id);
    }
  }

  lemma {:induction false} FreshPrefix(h: Head, run: seq<Event>, i: nat)
    requires FreshRun(h, run) && i <= |run|
    ensures FreshRun(h, run[..i])
    decreases |run|
  {
    if i == |run| {
      assert run[..i] == run;
    } else {
      assert run[..|run| - 1][..i] == run[..i];
      FreshPrefix(h, run[..|run| - 1], i);
    }
  }

  /** A member ID means one index, node and role for the whole life of the session. */
  lemma {:induction false} IdentityIsForLife(h: Head, run: seq<Event>, i: nat, id: MemberId)
    requires Newborn(h) && FreshRun(h, run) && i <= |run|
    requires id in Exec(h, run[..i]).s.members && id in Exec(h, run).s.members
    ensures SameIdentity(Exec(h, run[..i]).s.members[id], Exec(h, run).s.members[id])
  {
    FreshPrefix(h, run, i);
    RunsKeepInv(h, run[..i]);
    RunsKeepInv(h, run);
    var v, w := Exec(h, run[..i]), Exec(h, run);
    assert Genuine(v.book, v.s.head.owner, v.s.members[id]) && Genuine(w.book, w.s.head.owner, w.s.members[id]);
    BookLasts(h, run, i, id);
    hide Exec, FreshRun;
  }

  // ---- What does not survive -----------------------------------------------------------------

  /** Two approvals that both read before either writes put the session over its capacity. */
  lemma ConcurrentApprovalsOvershoot(w: World, owner: MemberId, a: MemberId, b: MemberId, h: nat, k: nat, now: Time)
    requires IsOwner(w.s, owner) && a in w.s.members && b in w.s.members && a != b && h != k && a != "" && b != ""
    requires w.s.members[a].id == a && w.s.members[b].id == b
    requires w.s.members[a].status == Pending && w.s.members[b].status == Pending
    requires w.s.head.maxMembers > 0 && |ActiveIds(w.s.members)| == w.s.head.maxMembers - 1
    ensures var w1 := Next(Next(w, Begin(h, Change.Approve(owner, a, now))), Begin(k, Change.Approve(owner, b, now)));
      var w2 := Next(Next(w1, Finish(h)), Finish(k));
      w2.s.head == w.s.head && |ActiveIds(w2.s.members)| == w.s.head.maxMembers + 1
  {
    var m, n := w.s.members[a].(status := Active, joinedAt := now), w.s.members[b].(status := Active, joinedAt := now);
    var w1 := Next(Next(w, Begin(h, Change.Approve(owner, a, now))), Begin(k, Change.Approve(owner, b, now)));
    assert w1 == w.(pending := w.pending[h := m][k := n]);
    var w2 := Next(Next(w1, Finish(h)), Finish(k));
    assert w2.s.members == w.s.members[a := m][b := n];
    assert ActiveIds(w2.s.members) == ActiveIds(w.s.members) + {a} + {b};
  }

  /** A heartbeat read before a rejection and written after it takes the rejection back. */
  lemma StaleTouchUndoesRejection(w: World, owner: MemberId, b: MemberId, h: nat, k: nat, now: Time)
    requires IsOwner(w.s, owner) && b in w.s.members && b != owner && h != k && b != "" && w.s.members[b].id == b
    ensures var w1 := Next(Next(w, Begin(h, Change.Touch(b, "", now))), Begin(k, Change.Reject(owner, b)));
      var w2 := Next(w1, Finish(k));
      var w3 := Next(w2, Finish(h));
      w2.s.members[b].status == Denied && w3.s.members[b] == w.s.members[b].(lastSeen := now)
  {
  }

  lemma RejoinSwitchesConnection(sid: SessionId, w: World, b: MemberId, req: JoinRequest, now: Time, rand: Random)
    requires Inv(sid, w) && b in w.s.members && req.nodeId == w.s.members[b].nodeId
    requires !w.s.head.closed && !IsExpired(w.s.head, now)
    ensures Next(w, Joins(req, now, rand)) == w.(s := Rejoin(w.s, b, req, now).0)
    ensures b != "" && w.s.members[b].id == b
  {
    assert Genuine(w.book, w.s.head.owner, w.s.members[b]);
    assert ByNode(w.s.members, req.nodeId) == Some(b);
    hide AllGenuine;
  }

  /** A heartbeat read before a rejoin and written after it puts the old connection back on record, so that
      the old socket's close then marks the member offline. */
  lemma StaleTouchRevivesOldConnection(sid: SessionId, w: World, b: MemberId, h: nat, req: JoinRequest, now: Time, rand: Random)
    requires Inv(sid, w) && b in w.s.members && w.s.members[b].connectionId !in ["", req.connectionId]
    requires req.nodeId == w.s.members[b].nodeId && !w.s.head.closed && !IsExpired(w.s.head, now)
    ensures var old' := w.s.members[b].connectionId;
      var w1 := Next(Next(w, Begin(h, Change.Touch(b, old', now))), Joins(req, now, rand));
      var w2 := Next(w1, Finish(h));
      && ConnectionOf(w1, b) == req.connectionId && ConnectionOf(w2, b) == old'
      && Next(w1, Disconnects(b, old', now)) == w1
      && ConnectionOf(Next(w2, Disconnects(b, old', now)), b) == ""
  {
    hide Inv, JoinNext, Removing, IsExpired;
    var begun := Next(w, Begin(h, Change.Touch(b, w.s.members[b].connectionId, now)));
    BeginKeepsInv(sid, w, h, Change.Touch(b, w.s.members[b].connectionId, now));
    assert begun.s == w.s;
    RejoinSwitchesConnection(sid, begun, b, req, now, rand);
    assert w.s.members[b].id == b && b != "" by { RejoinSwitchesConnection(sid, w, b, req, now, rand); }
  }

  function ConnectionOf(w: World, id: MemberId): string
  {
    if id in w.s.members then w.s.members[id].connectionId else ""
  }

  // ---- A run that overshoots -------------------------------------------------------------------

  lemma JoinsAs(w: World, node: NodeId, id: MemberId, index: u16)
    requires var h := w.s.head;
      !h.closed && h.expiresAt == 0 && !h.revoked && h.joinLimit == 0 && (Pends(h) || h.maxMembers == 0 || |ActiveIds(w.s.members)| < h.maxMembers)
    requires id !in w.s.members && (forall o :: o in w.s.members ==> w.s.members[o].nodeId != node)
    requires FreeIndex(Indices(w.s.members)) == index != 0
    ensures var req := JoinRequest(node, "k", "c", [], [], 5);
      Next(w, Joins(req, 5, Random([id], "")))
      == w.(s := Enter(w.s, id, index, req, 5).0, book := w.book[id := Newcomer(w.s.head, id, index, req, 5)])
    ensures Draw(Random([id], ""), w.s.members.Keys) == id
  {
  }

  function GroupHead(owner: MemberId, joins: nat): Head
  {
    Head("s", "group", "", "t", 0, joins, 2, true, owner, false, false, 1, 0, 0)
  }

  function Someone(id: MemberId, index: u16, node: NodeId, role: Role, status: Status): Member
  {
    Member(id, "s", index, node, "k", role, status, [], [], "c", 5, 5, 0)
  }

  const A := Someone("a", 1, "A", OwnerRole, Active)
  const B := Someone("b", 2, "B", MemberRole, Pending)
  const C := Someone("c", 3, "C", MemberRole, Pending)

  function JoinOf(node: NodeId, id: MemberId): Event
  {
    Joins(JoinRequest(node, "k", "c", [], [], 5), 5, Random([id], ""))
  }

  function With(ms: Members, joins: nat): World
  {
    World(Session(GroupHead(if joins == 0 then "" else "a", joins), ms), map[], ms, 0)
  }

  lemma FirstJoin()
    ensures Next(With(map[], 0), JoinOf("A", "a")) == With(map["a" := A], 1) && DrawsFresh(With(map[], 0), JoinOf("A", "a"))
  {
    var ms: Members := map[];
    assert Indices(ms) == {} && ActiveIds(ms) == {};
    JoinsAs(With(ms, 0), "A", "a", 1);
  }

  lemma SecondJoin()
    ensures var w := With(map["a" := A], 1); DrawsFresh(w, JoinOf("B", "b"))
    ensures Next(With(map["a" := A], 1), JoinOf("B", "b")) == With(map["a" := A, "b" := B], 2)
  {
    var ms: Members := map["a" := A];
    assert "a" in ms && Indices(ms) == {1};
    assert FreeFrom({1}, 2) == 2;
    JoinsAs(With(ms, 1), "B", "b", 2);
  }

  lemma ThirdJoin()
    ensures var w := With(map["a" := A, "b" := B], 2); DrawsFresh(w, JoinOf("C", "c"))
    ensures Next(With(map["a" := A, "b" := B], 2), JoinOf("C", "c")) == With(map["a" := A, "b" := B, "c" := C], 3)
  {
    var ms: Members := map["a" := A, "b" := B];
    assert Indices(ms) == {1, 2} by {
      assert ms.Keys == {"a", "b"} && ms["a"].index == 1 && ms["b"].index == 2;
    }
    assert FreeFrom({1, 2}, 2) == FreeFrom({1, 2}, 3) == 3;
    JoinsAs(With(ms, 2), "C", "c", 3);
  }

  lemma RunNext(h: Head, run: seq<Event>, e: Event)
    ensures Exec(h, run + [e]) == Next(Exec(h, run), e)
    ensures FreshRun(h, run) && DrawsFresh(Exec(h, run), e) ==> FreshRun(h, run + [e])
  {
    assert (run + [e])[..|run|] == run;
  }

  lemma ThreeJoined(h: Head) returns (run: seq<Event>)
    requires h == GroupHead("", 0)
    ensures FreshRun(h, run) && Exec(h, run) == With(map["a" := A, "b" := B, "c" := C], 3)
  {
    var none: seq<Event> := [];
    assert Exec(h, none) == With(map[], 0) && FreshRun(h, none);
    hide Exec, FreshRun, Next, DrawsFresh, With;
    FirstJoin();
    RunNext(h, none, JoinOf("A", "a"));
    SecondJoin();
    RunNext(h, none + [JoinOf("A", "a")], JoinOf("B", "b"));
    ThirdJoin();
    RunNext(h, none + [JoinOf("A", "a")] + [JoinOf("B", "b")], JoinOf("C", "c"));
    run := none + [JoinOf("A", "a")] + [JoinOf("B", "b")] + [JoinOf("C", "c")];
  }

  lemma OneIsActive()
    ensures |ActiveIds(map["a" := A, "b" := B, "c" := C])| == 1
  {
    assert ActiveIds(map["a" := A, "b" := B, "c" := C]) == {"a"};
  }

  /** From a new session for two: the owner and two others join, and both approvals are begun before either
      is finished. */
  lemma ConcurrentApprovalsAreReachable()
    ensures exists h: Head, run: seq<Event> ::
      Newborn(h) && FreshRun(h, run) && h.maxMembers == 2 && |ActiveIds(Exec(h, run).s.members)| == 3
  {
    var h := GroupHead("", 0);
    var run := ThreeJoined(h);
    var w := Exec(h, run);
    OneIsActive();
    ConcurrentApprovalsOvershoot(w, "a", "b", "c", 1, 2, 5);
    assert w.s.head.maxMembers == 2;
    hide Exec, FreshRun, Next, Decide, ActiveIds, With;
    var all := FourMore(h, run, Begin(1, Change.Approve("a", "b", 5)), Begin(2, Change.Approve("a", "c", 5)), Finish(1), Finish(2));
    assert Newborn(h) && FreshRun(h, all) && |ActiveIds(Exec(h, all).s.members)| == 3;
  }

  lemma FourMore(h: Head, run: seq<Event>, p: Event, q: Event, e: Event, f: Event) returns (all: seq<Event>)
    requires FreshRun(h, run) && !p.Joins? && !q.Joins? && !e.Joins? && !f.Joins?
    ensures FreshRun(h, all) && Exec(h, all) == Next(Next(Next(Next(Exec(h, run), p), q), e), f)
    ensures |all| == |run| + 4 && Exec(h, all[..|run| + 3]) == Next(Next(Next(Exec(h, run), p), q), e)
    ensures all[|run| + 3] == f
  {
    hide Exec, FreshRun, Next;
    RunNext(h, run, p);
    RunNext(h, run + [p], q);
    RunNext(h, run + [p] + [q], e);
    RunNext(h, run + [p] + [q] + [e], f);
    all := run + [p] + [q] + [e] + [f];
    assert all[..|run| + 3] == run + [p] + [q] + [e];
  }

  // ---- Runs with a heartbeat that comes too late --------------------------------------------------

  /** The owner, B approved, and C; the book has B as it was admitted. */
  function BApproved(): World
  {
    With(map["a" := A, "b" := B, "c" := C], 3)
      .(s := Session(GroupHead("a", 3), map["a" := A, "b" := B_ACTIVE, "c" := C]))
  }

  lemma ApprovingB()
    ensures var w := With(map["a" := A, "b" := B, "c" := C], 3);
      Next(Next(w, Begin(0, Change.Approve("a", "b", 5))), Finish(0)) == BApproved()
  {
    var w := With(map["a" := A, "b" := B, "c" := C], 3);
    OneIsActive();
    var begun := Next(w, Begin(0, Change.Approve("a", "b", 5)));
    assert begun == w.(pending := map[0 := B_ACTIVE]);
    assert map[0 := B_ACTIVE] - {0} == map[];
    assert map["a" := A, "b" := B, "c" := C]["b" := B_ACTIVE] == map["a" := A, "b" := B_ACTIVE, "c" := C];
    hide ActiveIds;
  }

  lemma Approved(h: Head) returns (run: seq<Event>)
    requires h == GroupHead("", 0)
    ensures FreshRun(h, run) && Exec(h, run) == BApproved()
  {
    hide Exec, FreshRun, Next, With, BApproved;
    var joined := ThreeJoined(h);
    var approve := Begin(0, Change.Approve("a", "b", 5));
    ApprovingB();
    RunNext(h, joined, approve);
    RunNext(h, joined + [approve], Finish(0));
    run := joined + [approve] + [Finish(0)];
  }

  const B_ACTIVE := B.(status := Active)

  /** From a new session: B is approved and online; its heartbeat reads the record, the owner rejects B, and
      the heartbeat's write makes B active again. */
  lemma UndoneRejectionIsReachable()
    ensures exists h: Head, run: seq<Event> ::
      && Newborn(h) && FreshRun(h, run) && run != [] && run[|run| - 1].Finish?
      && StatusOf(Exec(h, run[..|run| - 1]), "b") == Some(Denied) && StatusOf(Exec(h, run), "b") == Some(Active)
  {
    var h := GroupHead("", 0);
    var run := Approved(h);
    var w := Exec(h, run);
    StaleTouchUndoesRejection(w, "a", "b", 1, 2, 6);
    hide Exec, FreshRun, Next, Decide, With;
    var all := FourMore(h, run, Begin(1, Change.Touch("b", "", 6)), Begin(2, Change.Reject("a", "b")), Finish(2), Finish(1));
    assert all[..|all| - 1] == all[..|run| + 3];
  }

  function StatusOf(w: World, id: MemberId): Option<Status>
  {
    if id in w.s.members then Some(w.s.members[id].status) else None
  }

  /** From a new session: B comes back on a new connection between its old heartbeat's read and write; the
      old socket's close is then taken for the current one's and marks B offline. */
  lemma RevivedConnectionIsReachable()
    ensures exists h: Head, run: seq<Event>, i: nat ::
      && Newborn(h) && FreshRun(h, run) && i < |run| && run[i].Joins? && run[i].req.nodeId == "B"
      && ConnectionOf(Exec(h, run[..i + 1]), "b") == run[i].req.connectionId != ""
      && (forall j :: i < j < |run| ==> run[j].Finish? || (run[j].Disconnects? && run[j].conn != run[i].req.connectionId))
      && ConnectionOf(Exec(h, run), "b") == ""
  {
    hide Exec, FreshRun, Next, Decide, Inv, DrawsFresh, ConnectionOf;
    var h := GroupHead("", 0);
    var run := ThreeJoined(h);
    RunsKeepInv(h, run);
    var back := Joins(JoinRequest("B", "k", "d", [], [], 6), 6, Random(["d"], ""));
    var touch, gone := Begin(1, Change.Touch("b", "c", 6)), Disconnects("b", "c", 6);
    StaleTouchRevivesOldConnection("s", Exec(h, run), "b", 1, back.req, 6, back.rand);
    TouchDrawsFresh(back);
    hide With;
    RunNext(h, run, touch);
    RunNext(h, run + [touch], back);
    RunNext(h, run + [touch] + [back], Finish(1));
    RunNext(h, run + [touch] + [back] + [Finish(1)], gone);
    NoJoinDrawsFresh(Exec(h, run), touch);
    NoJoinDrawsFresh(Exec(h, run + [touch] + [back]), Finish(1));
    NoJoinDrawsFresh(Exec(h, run + [touch] + [back] + [Finish(1)]), gone);
    var all := run + [touch] + [back] + [Finish(1)] + [gone];
    var i := |run| + 1;
    assert all[..i + 1] == run + [touch] + [back];
    assert all[i] == back && all[i + 1] == Finish(1) && all[i + 2] == gone;
  }

  lemma NoJoinDrawsFresh(w: World, e: Event)
    requires !e.Joins?
    ensures DrawsFresh(w, e)
  {
  }

  lemma TouchDrawsFresh(back: Event)
    requires back.Joins? && back.rand == Random(["d"], "")
    ensures var w := With(map["a" := A, "b" := B, "c" := C], 3);
      DrawsFresh(Next(w, Begin(1, Change.Touch("b", "c", 6))), back)
  {
  }

  // ---- The steps are the store's -----------------------------------------------------------------

  /** The store call a step makes, if any: reading makes none that changes anything. */
  function CallOf(sid: SessionId, w: World, e: Event): Option<Op>
  {
    match e
    case Begin(_, _) => None
    case Finish(h) => if h in w.pending then Some(UpdateMember(sid, w.pending[h])) else None
    case Joins(req, now, rand) => Some(Op.Join(sid, req.(now := now), now, rand))
    case Removes(mid) => Some(RemoveMember(sid, mid))
    case Disconnects(mid, conn, now) => Some(MarkOffline(sid, mid, conn, now, now))
    case Revokes => Some(Revoke(sid))
    case Rotates(hash, code) => Some(RotateToken(sid, hash, code))
    case Closes => Some(Op.Close(sid))
  }

  /** A step leaves the session as the call leaves it in a store that holds it (where a new token's code is
      not another session's). */
  lemma StepIsTheCall(st: Store, sid: SessionId, w: World, e: Event)
    requires sid in st && st[sid] == w.s
    requires e.Rotates? ==> !CodeTaken(st, Normalize(e.code)) || Normalize(e.code) == Normalize(w.s.head.joinCode)
    ensures match CallOf(sid, w, e)
      case None => Next(w, e).s == w.s
      case Some(op) => sid in Step(st, op).0 && Step(st, op).0[sid] == Next(w, e).s
  {
    hide Normalize, CodeTaken, Decide, FreeIndex, Draw, Indices, ActiveIds;
  }
}
