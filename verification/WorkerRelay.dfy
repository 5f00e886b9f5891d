/** The edge worker's own relay (cloudflare/worker.js, the data-plane handler), written by hand over the
    bytes, and its agreement with the Go relay. An emission is the target member and the bytes sent to
    each of its open sockets. */
module WorkerRelay {
  import opened Machine
  import H = Hub
  import F = Frames
  import R = Relay

  datatype WorkerMember = WorkerMember(id: H.MemberId, index: u16, active: bool)

  /** `order` is the insertion order of the keys of `byIndex`. */
  datatype Worker = Worker(byIndex: map<u16, H.MemberId>, order: seq<u16>, members: map<H.MemberId, WorkerMember>)

  type Emission = (H.MemberId, Bytes)

  function Target(w: Worker, me: WorkerMember, index: u16): Option<H.MemberId>
  {
    if index !in w.byIndex || w.byIndex[index] == "" || w.byIndex[index] == me.id then None
    else
      var t := w.byIndex[index];
      if t !in w.members || !w.members[t].active then None else Some(t)
  }

  /** One unicast frame per reachable index, in order. */
  function Emitted(w: Worker, me: WorkerMember, f: F.Frame, targets: seq<u16>): (out: seq<Emission>)
    decreases |targets|
  {
    if targets == [] then []
    else Emitted(w, me, f, targets[..|targets| - 1]) + EmittedTo(w, me, f, targets[|targets| - 1])
  }

  function EmittedTo(w: Worker, me: WorkerMember, f: F.Frame, index: u16): seq<Emission>
  {
    match Target(w, me, index)
    case None => []
    case Some(t) => [(t, F.Encoded(R.One(f, index)))]
  }

  /** Who an accepted upload addresses. */
  function Addressed(w: Worker, f: F.Frame): seq<u16>
  {
    if f.dstType == F.DST_BROADCAST then w.order else f.dst
  }

  /** The handler: what it accepts, and what it sends. */
  method OnRelayFrame(w: Worker, me: WorkerMember, buf: Bytes) returns (accepted: bool, sent: seq<Emission>)
    ensures accepted <==> me.active && F.Parsed(buf).Ok?
    ensures accepted ==>
      var f := R.Stamped(buf, me.index); sent == Emitted(w, me, f, Addressed(w, f))
    ensures !accepted ==> sent == []
  {
    if !me.active { return false, []; }
    if |buf| < 12 || buf[0] != F.FRAME_MAGIC { return false, []; }
    var dstType := buf[4];
    var streamId := GetU32(buf[5..9]);
    var number := GetU16(buf[9..11]);
    var targets: seq<u16> := [];
    var payloadOffset := 12;
    if dstType == F.DST_UNICAST {
      if |buf| < 14 { return false, []; }
      targets := [GetU16(buf[12..14])];
      payloadOffset := 14;
    } else if dstType == F.DST_MULTICAST {
      if |buf| < 13 { return false, []; }
      var n: nat := buf[12];
      if n == 0 || |buf| < 13 + 2 * n { return false, []; }
      for i := 0 to n
        invariant targets == F.GetAll(buf[13..], i)
      {
        assert buf[13..][2 * i..2 * i + 2] == buf[13 + 2 * i..15 + 2 * i];
        targets := targets + [GetU16(buf[13 + 2 * i..15 + 2 * i])];
      }
      payloadOffset := 13 + 2 * n;
    } else if dstType == F.DST_BROADCAST {
      targets := w.order;
    } else {
      return false, [];
    }
    ghost var f := R.Stamped(buf, me.index);
    assert targets == Addressed(w, f);
    accepted := true;
    sent := SendAll(w, me, buf[1], streamId, number, targets, buf[payloadOffset..], f);
  }

  method SendAll(w: Worker, me: WorkerMember, flags: u8, streamId: u32, number: u16, targets: seq<u16>, payload: Bytes,
                 ghost f: F.Frame)
    returns (sent: seq<Emission>)
    requires f.flags == flags && f.srcIndex == me.index && f.streamId == streamId && f.number == number && f.payload == payload
    ensures sent == Emitted(w, me, f, targets)
  {
    sent := [];
    for i := 0 to |targets|
      invariant sent == Emitted(w, me, f, targets[..i])
    {
      assert targets[..i + 1][..i] == targets[..i];
      var index := targets[i];
      if index in w.byIndex && w.byIndex[index] != "" && w.byIndex[index] != me.id {
        var t := w.byIndex[index];
        if t in w.members && w.members[t].active {
          var frame := Pack(flags, me.index, streamId, number, index, payload);
          assert R.One(f, index) == F.Frame(flags, me.index, F.DST_UNICAST, [index], streamId, number, payload);
          sent := sent + [(t, frame[..])];
        }
      }
    }
    assert targets[..|targets|] == targets;
  }

  /** The bytes written by hand are the Go encoding of the unicast frame. */
  method Pack(flags: u8, srcIndex: u16, streamId: u32, number: u16, index: u16, payload: Bytes) returns (frame: array<u8>)
    ensures fresh(frame)
    ensures frame[..] == F.Encoded(F.Frame(flags, srcIndex, F.DST_UNICAST, [index], streamId, number, payload))
  {
    frame := new u8[14 + |payload|](_ => 0);
    PackHeader(frame, flags, srcIndex, streamId, number);
    F.PutU16At(frame, 12, index);
    assert frame[..14] == frame[..12] + frame[12..14];
    F.PutPayload(frame, 14, payload);
    assert frame[..] == frame[..14] + frame[14..];
  }

  method PackHeader(frame: array<u8>, flags: u8, srcIndex: u16, streamId: u32, number: u16)
    requires frame.Length >= 14 && frame[11] == 0
    modifies frame
    ensures frame[..12] == F.Fixed(flags, srcIndex, F.DST_UNICAST, streamId, number)
  {
    frame[0] := F.FRAME_MAGIC;
    frame[1] := flags;
    F.PutU16At(frame, 2, srcIndex);
    ghost var src := frame[2..4];
    frame[4] := F.DST_UNICAST;
    F.PutU32At(frame, 5, streamId);
    ghost var id := frame[5..9];
    F.PutU16At(frame, 9, number);
    assert frame[2..4] == src && frame[5..9] == id;
    ghost var header := F.Fixed(flags, srcIndex, F.DST_UNICAST, streamId, number);
    ghost var head := frame[..12];
    assert head[2..4] == frame[2..4] && head[5..9] == frame[5..9] && head[9..11] == frame[9..11];
    F.HeaderBytes(header, head);
  }

  // ---- Agreement ---------------------------------------------------------------------------

  /** The Go relay's deliveries for a listed frame, in the same notation. */
  function Plan(r: H.Room, memb: R.Membership, sender: H.MemberId, f: F.Frame, dst: seq<u16>): seq<Emission>
    decreases |dst|
  {
    if dst == [] then []
    else
      Plan(r, memb, sender, f, dst[..|dst| - 1])
      + match R.Target(r, memb, sender, dst[|dst| - 1])
        case None => []
        case Some(t) => [(t, F.Encoded(R.One(f, dst[|dst| - 1])))]
  }

  function DeliverAll(r: H.Room, plan: seq<Emission>): (H.Room, nat)
  {
    if plan == [] then (r, 0)
    else
      var (r1, k) := DeliverAll(r, plan[..|plan| - 1]);
      var (r2, ok) := H.Deliver(r1, plan[|plan| - 1].0, H.Binary(plan[|plan| - 1].1));
      (r2, if ok then k + 1 else k)
  }

  /** Looking each target up as it goes, the Go relay carries out a plan fixed beforehand. */
  lemma {:induction false} EachIsPlan(r: H.Room, memb: R.Membership, sender: H.MemberId, f: F.Frame, dst: seq<u16>)
    ensures R.Each(r, memb, sender, f, dst) == DeliverAll(r, Plan(r, memb, sender, f, dst))
    decreases |dst|
  {
    if dst != [] {
      var init, index := dst[..|dst| - 1], dst[|dst| - 1];
      EachIsPlan(r, memb, sender, f, init);
      R.EachAddressing(r, memb, sender, f, init);
      var (r1, k) := R.Each(r, memb, sender, f, init);
      R.TargetIsStable(r, r1, memb, sender, index);
      hide F.Encoded, H.Deliver, R.Target;
      var p := Plan(r, memb, sender, f, init);
      match R.Target(r, memb, sender, index)
      case None => assert Plan(r, memb, sender, f, dst) == p;
      case Some(t) =>
        var e := (t, F.Encoded(R.One(f, index)));
        assert Plan(r, memb, sender, f, dst) == p + [e];
        assert (p + [e])[..|p|] == p;
    }
  }

  /** One table of members, all active and all online, seen by both relays. */
  ghost predicate SameTable(r: H.Room, memb: R.Membership, w: Worker, me: WorkerMember, table: map<u16, H.MemberId>)
  {
    && me.active && me.id in memb && memb[me.id] == me.index
    && (forall i: u16 :: H.LookupMemberByIndex(r, i) == if i in table then Some(table[i]) else None)
    && (forall i :: i in table ==> table[i] != "" && table[i] in memb && memb[table[i]] == i)
    && w.byIndex == table
    && (forall i :: i in table ==> table[i] in w.members && w.members[table[i]].active)
    && (forall i: u16 :: i in w.order <==> i in table)
    && (forall j, k :: 0 <= j < k < |w.order| ==> w.order[j] != w.order[k])
  }

  lemma SameTarget(r: H.Room, memb: R.Membership, w: Worker, me: WorkerMember, table: map<u16, H.MemberId>, index: u16)
    requires SameTable(r, memb, w, me, table)
    ensures Target(w, me, index) == R.Target(r, memb, me.id, index)
  {
    assert H.LookupMemberByIndex(r, index) == if index in table then Some(table[index]) else None;
  }

  lemma {:induction false} SamePlan(r: H.Room, memb: R.Membership, w: Worker, me: WorkerMember, table: map<u16, H.MemberId>,
                                    f: F.Frame, dst: seq<u16>)
    requires SameTable(r, memb, w, me, table)
    ensures Emitted(w, me, f, dst) == Plan(r, memb, me.id, f, dst)
    decreases |dst|
  {
    if dst != [] {
      SamePlan(r, memb, w, me, table, f, dst[..|dst| - 1]);
      SameTarget(r, memb, w, me, table, dst[|dst| - 1]);
      hide SameTable, Target, R.Target, F.Encoded;
    }
  }

  /** Unicast and multicast: byte for byte and in order, what the worker emits is what Forward delivers. */
  lemma TheRelaysAgree(s: R.State, memb: R.Membership, w: Worker, me: WorkerMember, table: map<u16, H.MemberId>,
                       maxFrame: nat, raw: Bytes)
    requires SameTable(s.room, memb, w, me, table)
    requires F.Parsed(raw).Ok? && F.Parsed(raw).value.dstType != F.DST_BROADCAST
    requires |F.Parsed(raw).value.payload| <= maxFrame
    ensures var f := R.Stamped(raw, me.index);
      var (s', res) := R.Forwarded(s, memb, maxFrame, me.id, raw);
      var (r, k) := DeliverAll(s.room, Emitted(w, me, f, Addressed(w, f)));
      s'.room == r && res == if k == 0 then Err(R.TargetNotFound) else Ok(k)
  {
    var f := R.Stamped(raw, me.index);
    SamePlan(s.room, memb, w, me, table, f, f.dst);
    EachIsPlan(s.room, memb, me.id, f, f.dst);
    if f.dstType == F.DST_UNICAST { R.UnicastIsEach(s.room, memb, me.id, f); }
    hide F.Encoded, H.Deliver, R.Target, Plan, DeliverAll, Emitted;
  }

  // ---- Broadcast -----------------------------------------------------------------------------

  /** Every emission answers one of the addressed indices. */
  lemma {:induction false} EmittedFrom(w: Worker, me: WorkerMember, f: F.Frame, dst: seq<u16>, k: nat) returns (i: u16)
    requires k < |Emitted(w, me, f, dst)|
    ensures i in dst && Target(w, me, i) == Some(Emitted(w, me, f, dst)[k].0)
    ensures Emitted(w, me, f, dst)[k].1 == F.Encoded(R.One(f, i))
    decreases |dst|
  {
    hide Target, F.Encoded;
    var init := dst[..|dst| - 1];
    if k < |Emitted(w, me, f, init)| { i := EmittedFrom(w, me, f, init, k); } else { i := dst[|dst| - 1]; }
  }

  /** Every addressed index with a target is answered. */
  lemma {:induction false} EmittedFor(w: Worker, me: WorkerMember, f: F.Frame, dst: seq<u16>, i: u16) returns (k: nat)
    requires i in dst && Target(w, me, i) != None
    ensures k < |Emitted(w, me, f, dst)| && Emitted(w, me, f, dst)[k].0 == Target(w, me, i).value
    decreases |dst|
  {
    hide Target, F.Encoded;
    var init := dst[..|dst| - 1];
    if i in init { k := EmittedFor(w, me, f, init, i); } else { k := |Emitted(w, me, f, init)|; }
  }

  /** A broadcast reaches the same members through either relay. */
  lemma BroadcastReachesTheSame(r: H.Room, memb: R.Membership, w: Worker, me: WorkerMember,
                                table: map<u16, H.MemberId>, f: F.Frame, m: H.MemberId)
    requires H.Valid(r) && H.Inverse(r) && SameTable(r, memb, w, me, table)
    ensures (m in r.members && H.Hears(r, me.id, m))
            <==> exists k :: 0 <= k < |Emitted(w, me, f, w.order)| && Emitted(w, me, f, w.order)[k].0 == m
  {
    hide H.Valid, H.Inverse, SameTable, F.Encoded, Target, H.Hears, Emitted, R.Target, H.LookupMemberByIndex;
    if m in r.members && H.Hears(r, me.id, m) {
      HearerIsListed(r, memb, w, me, table, m);
      var _ := EmittedFor(w, me, f, w.order, H.OnlineOf(r, m).index);
    }
    if k :| 0 <= k < |Emitted(w, me, f, w.order)| && Emitted(w, me, f, w.order)[k].0 == m {
      var i := EmittedFrom(w, me, f, w.order, k);
      SameTarget(r, memb, w, me, table, i);
      R.TargetHears(r, memb, me.id, i);
      ListedIsMember(r, i);
    }
  }

  /** Both forms carry the same flags, source, stream, number and payload. */
  lemma BroadcastMeansTheSame(w: Worker, me: WorkerMember, raw: Bytes, k: nat)
    requires F.Parsed(raw).Ok? && F.Parsed(raw).value.dstType == F.DST_BROADCAST
    requires k < |Emitted(w, me, R.Stamped(raw, me.index), w.order)|
    ensures var f := R.Stamped(raw, me.index);
      && F.Parsed(F.Encoded(f)) == Ok(f)
      && exists i :: F.Parsed(Emitted(w, me, f, w.order)[k].1) == Ok(R.One(f, i))
  {
    var f := R.Stamped(raw, me.index);
    F.ParseOfEncode(f);
    var i := EmittedFrom(w, me, f, w.order, k);
    F.ParseOfEncode(R.One(f, i));
    hide F.Encoded, F.Parsed;
  }

  lemma HearerIsListed(r: H.Room, memb: R.Membership, w: Worker, me: WorkerMember, table: map<u16, H.MemberId>, m: H.MemberId)
    requires H.Valid(r) && H.Inverse(r) && SameTable(r, memb, w, me, table)
    requires m in r.members && H.Hears(r, me.id, m)
    ensures H.IsOnline(r, m)
    ensures H.OnlineOf(r, m).index in w.order && Target(w, me, H.OnlineOf(r, m).index) == Some(m)
  {
    assert H.ListedAt(r, m) && H.OnlineFits(r, m);
    var i := H.OnlineOf(r, m).index;
    assert H.LookupMemberByIndex(r, i) == Some(m);
    assert i in table;
  }

  lemma ListedIsMember(r: H.Room, i: u16)
    requires H.Valid(r) && H.Inverse(r) && H.LookupMemberByIndex(r, i).Some?
    ensures H.LookupMemberByIndex(r, i).value in r.members
  {
    assert H.BackedAt(r, i);
  }

  /** But never with the same bytes: the worker re-packs a broadcast as a unicast, the Go relay keeps it one. */
  lemma BroadcastBytesDiffer(w: Worker, me: WorkerMember, raw: Bytes, k: nat)
    requires F.Parsed(raw).Ok? && F.Parsed(raw).value.dstType == F.DST_BROADCAST
    requires k < |Emitted(w, me, R.Stamped(raw, me.index), w.order)|
    ensures Emitted(w, me, R.Stamped(raw, me.index), w.order)[k].1 != F.Encoded(R.Stamped(raw, me.index))
  {
    var f := R.Stamped(raw, me.index);
    var i := EmittedFrom(w, me, f, w.order, k);
    assert F.Encoded(R.One(f, i))[4] == F.DST_UNICAST && F.Encoded(f)[4] == F.DST_BROADCAST;
  }

  // ---- Who may be sent to --------------------------------------------------------------------

  /** The member the worker's table has under the index, active and not the sender. */
  predicate MaySendTo(w: Worker, me: WorkerMember, index: u16, t: H.MemberId)
  {
    index in w.byIndex && w.byIndex[index] == t && t != "" && t != me.id && t in w.members && w.members[t].active
  }

  /** Nothing goes to a member that is gone, not active, or the sender, or to an index that was not addressed;
      and every addressed index that may be sent to is answered with a unicast under it. */
  lemma SentOnlyToActive(w: Worker, me: WorkerMember, f: F.Frame, dst: seq<u16>)
    ensures forall e :: e in Emitted(w, me, f, dst) ==>
      exists i :: i in dst && MaySendTo(w, me, i, e.0) && e.1 == F.Encoded(R.One(f, i))
    ensures forall i, t :: i in dst && MaySendTo(w, me, i, t) ==> exists k :: 0 <= k < |Emitted(w, me, f, dst)| && Emitted(w, me, f, dst)[k].0 == t
  {
    hide Emitted, F.Encoded;
    var out := Emitted(w, me, f, dst);
    forall e | e in out ensures exists i :: i in dst && MaySendTo(w, me, i, e.0) && e.1 == F.Encoded(R.One(f, i)) {
      var k :| 0 <= k < |out| && out[k] == e;
      var i := EmittedFrom(w, me, f, dst, k);
      assert MaySendTo(w, me, i, e.0);
    }
    forall i, t | i in dst && MaySendTo(w, me, i, t) ensures exists k :: 0 <= k < |out| && out[k].0 == t {
      var k := EmittedFor(w, me, f, dst, i);
      assert out[k].0 == t;
    }
  }

  /** The indices an upload is for: those it lists, or every index in the table for a broadcast. */
  predicate IsFor(w: Worker, up: F.Frame, index: u16)
  {
    if up.dstType == 3 then index in w.order else index in up.dst
  }

  /** The bytes are the uploaded frame as a unicast under this index. */
  predicate IsUnicastOf(up: F.Frame, src: u16, index: u16, bytes: Bytes)
  {
    F.Parsed(bytes) == Ok(F.Frame(up.flags, src, 1, [index], up.streamId, up.number, up.payload))
  }

  /** So an accepted upload goes to exactly the members it may be sent to under the indices it is for, each time
      as a unicast under that index with the sender's own one, and otherwise as it came. */
  lemma UploadReaches(w: Worker, me: WorkerMember, raw: Bytes)
    requires F.Parsed(raw).Ok?
    ensures var up, f := F.Parsed(raw).value, R.Stamped(raw, me.index);
      var out := Emitted(w, me, f, Addressed(w, f));
      && (forall e :: e in out ==>
            exists i :: IsFor(w, up, i) && MaySendTo(w, me, i, e.0) && IsUnicastOf(up, me.index, i, e.1))
      && (forall i, t :: IsFor(w, up, i) && MaySendTo(w, me, i, t) ==> exists k :: 0 <= k < |out| && out[k].0 == t)
  {
    hide Emitted, F.Encoded, F.Parsed, MaySendTo;
    var up, f := F.Parsed(raw).value, R.Stamped(raw, me.index);
    var out := Emitted(w, me, f, Addressed(w, f));
    SentOnlyToActive(w, me, f, Addressed(w, f));
    forall i: u16 ensures IsFor(w, up, i) <==> i in Addressed(w, f) {}
    forall e | e in out
      ensures exists i :: IsFor(w, up, i) && MaySendTo(w, me, i, e.0) && IsUnicastOf(up, me.index, i, e.1)
    {
      var i :| i in Addressed(w, f) && MaySendTo(w, me, i, e.0) && e.1 == F.Encoded(R.One(f, i));
      F.ParseOfEncode(R.One(f, i));
      assert IsFor(w, up, i) && IsUnicastOf(up, me.index, i, e.1);
    }
  }
}
