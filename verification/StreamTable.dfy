/** The client's table of logical streams: ID allocation, and streams that come into being through
    either of two independent connections (pkg/sessionclient/loops.go). */
module StreamTable {
  import opened Machine

  type Time = int

  const CLOSED_STREAM_TTL: Time := 30_000_000_000
  const MAX_TRIES: nat := 0x8000

  /** Peer by stream ID, closing time by stream ID, and the IDs OnStream was called with. */
  datatype Table = Table(streams: map<u32, Bytes>, closed: map<u32, Time>, notified: seq<u32>)

  /** What arrives: control messages and data-plane frames (their payload only matters through whether
      it decrypts). `from` is None when the sender is not a known peer. */
  datatype Event =
    | StreamOpen(from: Option<Bytes>, id: u32)
    | StreamClose(id: u32)
    | CloseFrame(from: Option<Bytes>, id: u32)
    | ResetFrame(from: Option<Bytes>, id: u32)
    | PingFrame(from: Option<Bytes>, id: u32)
    | DataFrame(from: Option<Bytes>, id: u32, decrypts: bool)

  function Create(t: Table, peer: Bytes, id: u32): Table
  {
    Table(t.streams[id := peer], t.closed, t.notified + [id])
  }

  function Drop(t: Table, id: u32, now: Time): Table
  {
    var noted := t.closed[id := now];
    Table(t.streams - {id}, map k | k in noted && now - noted[k] <= CLOSED_STREAM_TTL :: noted[k], t.notified)
  }

  function RemoteClosed(t: Table, id: u32, now: Time): Table
  {
    if id in t.streams then Drop(t, id, now) else t
  }

  function Handle(t: Table, e: Event, now: Time): Table
  {
    match e
    case StreamOpen(from, id) =>
      if from == None || id in t.streams then t
      else if id in t.closed && now - t.closed[id] < CLOSED_STREAM_TTL then t
      else Create(t, from.value, id)
    case StreamClose(id) => RemoteClosed(t, id, now)
    case CloseFrame(from, id) => if from == None then t else RemoteClosed(t, id, now)
    case ResetFrame(from, id) => if from == None then t else RemoteClosed(t, id, now)
    case PingFrame(_, _) => t
    case DataFrame(from, id, decrypts) =>
      if from == None || !decrypts || id in t.streams then t else Create(t, from.value, id)
  }

  // ---- Stream IDs ------------------------------------------------------------------

  /** `*start += 2` on a uint32. */
  function Plus2(v: u32): u32
  {
    if v < TWO32 - 2 then v + 2 else v + 2 - TWO32
  }

  /** The i-th ID tried from `start` on. */
  function Candidate(start: u32, i: nat): (v: u32)
    ensures v % 2 == start % 2
  {
    if i == 0 then start else Plus2(Candidate(start, i - 1))
  }

  /** Some number of tries, at most MAX_TRIES, finds a free ID. */
  ghost predicate FreeAt(busy: set<u32>, start: u32, i: nat)
  {
    && i < MAX_TRIES && Candidate(start, i) !in busy
    && forall k :: 0 <= k < i ==> Candidate(start, k) in busy
  }

  ghost predicate Least(busy: set<u32>, v: u32)
  {
    v !in busy && forall k: u32 :: k < v ==> k in busy
  }

  /** The ID handed out and the counter left behind. */
  ghost function Alloc(busy: set<u32>, start: u32): (r: (u32, u32))
    requires |busy| < TWO32
    ensures r.0 !in busy && r.1 % 2 == start % 2
  {
    if exists i: nat :: FreeAt(busy, start, i) then
      var i: nat :| FreeAt(busy, start, i);
      (Candidate(start, i), Candidate(start, i + 1))
    else
      LeastExists(busy);
      var v :| Least(busy, v);
      (v, Candidate(start, MAX_TRIES))
  }

  lemma FirstFreeIs(busy: set<u32>, start: u32, i: nat)
    requires |busy| < TWO32 && FreeAt(busy, start, i)
    ensures Alloc(busy, start) == (Candidate(start, i), Candidate(start, i + 1))
  {
    hide Candidate;
    assert forall j: nat :: FreeAt(busy, start, j) ==> j == i;
  }

  lemma NoneFreeIs(busy: set<u32>, start: u32)
    requires |busy| < TWO32 && forall k :: 0 <= k < MAX_TRIES ==> Candidate(start, k) in busy
    ensures !exists i: nat :: FreeAt(busy, start, i)
  {
  }

  lemma LeastFreeIs(busy: set<u32>, v: u32)
    requires |busy| < TWO32 && Least(busy, v)
    ensures forall w :: Least(busy, w) ==> w == v
  {
  }

  lemma {:induction false} AllBusy(busy: set<u32>, n: nat)
    requires n <= TWO32 && forall k: u32 :: k < n ==> k in busy
    ensures |busy| >= n
    decreases n
  {
    if n > 0 {
      var last: u32 := n - 1;
      AllBusy(busy - {last}, n - 1);
    }
  }

  lemma LeastExists(busy: set<u32>)
    requires |busy| < TWO32
    ensures exists v :: Least(busy, v)
  {
    if forall k: u32 :: k in busy {
      AllBusy(busy, TWO32);
      assert false;
    }
    var v: u32 :| v !in busy;
    LeastBelow(busy, v);
  }

  lemma {:induction false} LeastBelow(busy: set<u32>, v: u32)
    requires v !in busy
    ensures exists w :: Least(busy, w)
    decreases v
  {
    if exists k: u32 :: k < v && k !in busy {
      var k: u32 :| k < v && k !in busy;
      LeastBelow(busy, k);
    } else {
      assert Least(busy, v);
    }
  }

  lemma {:induction false} CandidateIs(start: u32, i: nat)
    ensures Candidate(start, i) == (start + 2 * i) % TWO32
  {
    if i > 0 {
      CandidateIs(start, i - 1);
    }
  }

  function Tried(start: u32, n: nat): set<u32>
  {
    if n == 0 then {} else Tried(start, n - 1) + {Candidate(start, n - 1)}
  }

  /** Within MAX_TRIES no ID is tried twice, although the counter may wrap. */
  lemma {:induction false} TriedOnce(start: u32, n: nat, i: nat)
    requires n <= i < MAX_TRIES
    ensures Candidate(start, i) !in Tried(start, n)
    decreases n
  {
    hide Candidate;
    if n > 0 {
      TriedOnce(start, n - 1, i);
      CandidateIs(start, i);
      CandidateIs(start, n - 1);
    }
  }

  lemma {:induction false} TriedCount(busy: set<u32>, start: u32, n: nat)
    requires n <= MAX_TRIES && forall k :: 0 <= k < n ==> Candidate(start, k) in busy
    ensures Tried(start, n) <= busy && |Tried(start, n)| == n
    decreases n
  {
    hide Candidate;
    if n > 0 {
      TriedCount(busy, start, n - 1);
      TriedOnce(start, n - 1, n - 1);
    }
  }

  lemma {:induction false} SubsetCount(a: set<u32>, b: set<u32>)
    requires a <= b
    ensures |a| <= |b|
    decreases a
  {
    if a != {} {
      var x :| x in a;
      SubsetCount(a - {x}, b - {x});
    }
  }

  /** Fewer than 32768 streams always leave a free ID of the right parity within reach. */
  lemma {:induction false} FewStreamsSuffice(busy: set<u32>, start: u32)
    requires |busy| < MAX_TRIES
    ensures exists i: nat :: FreeAt(busy, start, i)
    ensures Alloc(busy, start).0 % 2 == start % 2
  {
    if forall k :: 0 <= k < MAX_TRIES ==> Candidate(start, k) in busy {
      TriedCount(busy, start, MAX_TRIES);
      SubsetCount(Tried(start, MAX_TRIES), busy);
      assert false;
    }
    var i :| 0 <= i < MAX_TRIES && Candidate(start, i) !in busy;
    FirstFreeBelow(busy, start, i);
    var f: nat :| FreeAt(busy, start, f);
    FirstFreeIs(busy, start, f);
  }

  lemma {:induction false} FirstFreeBelow(busy: set<u32>, start: u32, i: nat)
    requires i < MAX_TRIES && Candidate(start, i) !in busy
    ensures exists f: nat :: FreeAt(busy, start, f)
    decreases i
  {
    hide Candidate;
    if exists k :: 0 <= k < i && Candidate(start, k) !in busy {
      var k :| 0 <= k < i && Candidate(start, k) !in busy;
      FirstFreeBelow(busy, start, k);
    } else {
      assert FreeAt(busy, start, i);
    }
  }

  // ---- A two-member session --------------------------------------------------------

  /** One side: its streams, its counter, every ID it ever issued. */
  datatype Side = Side(streams: set<u32>, next: u32, issued: set<u32>)

  datatype Pair = Pair(even: Side, odd: Side)

  datatype Step = OpenEven | OpenOdd | Inbound(atEven: bool, id: u32) | DropAt(atEven: bool, id: u32)

  function StartOf(next: u32, even: bool): u32 { if next == 0 && !even then 1 else next }

  ghost function Open(s: Side, even: bool): Side
    requires |s.streams| < TWO32
  {
    var (id, next) := Alloc(s.streams, StartOf(s.next, even));
    Side(s.streams + {id}, next, s.issued + {id})
  }

  ghost predicate CanStep(p: Pair, e: Step)
  {
    match e
    case OpenEven => |p.even.streams| < TWO32
    case OpenOdd => |p.odd.streams| < TWO32
    case _ => true
  }

  ghost function Take(p: Pair, e: Step): Pair
    requires CanStep(p, e)
  {
    match e
    case OpenEven => p.(even := Open(p.even, true))
    case OpenOdd => p.(odd := Open(p.odd, false))
    case Inbound(true, id) => p.(even := p.even.(streams := p.even.streams + {id}))
    case Inbound(false, id) => p.(odd := p.odd.(streams := p.odd.streams + {id}))
    case DropAt(true, id) => p.(even := p.even.(streams := p.even.streams - {id}))
    case DropAt(false, id) => p.(odd := p.odd.(streams := p.odd.streams - {id}))
  }

  ghost predicate Steps(p: Pair, run: seq<Step>, q: Pair)
    decreases |run|
  {
    if run == [] then p == q
    else CanStep(p, run[0]) && Steps(Take(p, run[0]), run[1..], q)
  }

  ghost predicate Parities(p: Pair)
  {
    && p.even.next % 2 == 0 && (p.odd.next == 0 || p.odd.next % 2 == 1)
    && (forall v :: v in p.even.issued ==> v % 2 == 0)
    && (forall v :: v in p.odd.issued ==> v % 2 == 1)
  }

  /** A free ID of the wanted parity is within reach, or the least free ID happens to have it. */
  ghost predicate ParityHolds(busy: set<u32>, start: u32)
  {
    (exists i: nat :: FreeAt(busy, start, i)) || (exists v: u32 :: Least(busy, v) && v % 2 == start % 2)
  }

  /** An allocation keeps the parity in exactly these cases. */
  lemma AllocKeepsParityIff(busy: set<u32>, start: u32)
    requires |busy| < TWO32
    ensures Alloc(busy, start).0 % 2 == start % 2 <==> ParityHolds(busy, start)
  {
    if f: nat :| FreeAt(busy, start, f) {
      FirstFreeIs(busy, start, f);
    } else {
      LeastExists(busy);
      var v: u32 :| Least(busy, v);
      LeastFreeIs(busy, v);
      assert Alloc(busy, start).0 == v;
    }
  }

  ghost predicate OpensInParity(p: Pair, e: Step)
  {
    match e
    case OpenEven => ParityHolds(p.even.streams, StartOf(p.even.next, true))
    case OpenOdd => ParityHolds(p.odd.streams, StartOf(p.odd.next, false))
    case _ => true
  }

  ghost predicate AllInParity(p: Pair, run: seq<Step>)
    decreases |run|
  {
    run == [] || (CanStep(p, run[0]) && OpensInParity(p, run[0]) && AllInParity(Take(p, run[0]), run[1..]))
  }

  /** Over every run of opens, inbound streams and drops, counters wrapping included, no ID is ever issued
      by both sides while every open keeps its parity. */
  lemma {:induction false} SidesNeverCollide(p: Pair, run: seq<Step>, q: Pair)
    requires Parities(p) && Steps(p, run, q) && AllInParity(p, run)
    ensures Parities(q) && q.even.issued !! q.odd.issued
    decreases |run|
  {
    if run != [] {
      StepKeepsParities(p, run[0]);
      SidesNeverCollide(Take(p, run[0]), run[1..], q);
    }
  }

  lemma StepKeepsParities(p: Pair, e: Step)
    requires Parities(p) && CanStep(p, e) && OpensInParity(p, e)
    ensures Parities(Take(p, e))
  {
    hide ParityHolds;
    match e
    case OpenEven => AllocKeepsParityIff(p.even.streams, StartOf(p.even.next, true));
    case OpenOdd => AllocKeepsParityIff(p.odd.streams, StartOf(p.odd.next, false));
    case _ =>
  }

  lemma {:induction false} TriedParity(start: u32, n: nat)
    ensures forall v :: v in Tried(start, n) ==> v % 2 == start % 2
  {
    if n > 0 {
      TriedParity(start, n - 1);
    }
  }

  lemma {:induction false} TriedHas(start: u32, n: nat, k: nat)
    requires k < n
    ensures Candidate(start, k) in Tried(start, n)
  {
    hide Candidate;
    if k < n - 1 {
      TriedHas(start, n - 1, k);
    }
  }

  lemma FallbackIsOne(n: nat)
    requires n == MAX_TRIES
    ensures |Tried(0, n)| == n && Alloc(Tried(0, n), 0).0 == 1
  {
    hide Candidate, Tried;
    var busy := Tried(0, n);
    forall k | 0 <= k < n ensures Candidate(0, k) in busy { TriedHas(0, n, k); }
    TriedCount(busy, 0, n);
    NoneFreeIs(busy, 0);
    TriedParity(0, n);
    CandidateIs(0, 0);
    assert Least(busy, 1);
    LeastFreeIs(busy, 1);
  }

  /** With the first 32768 even IDs busy, the even side is given the odd ID 1. */
  lemma FallbackCrossesParity()
    ensures var busy := Tried(0, MAX_TRIES); |busy| < TWO32 && Alloc(busy, 0).0 == 1
  {
    FallbackIsOne(MAX_TRIES);
  }

  const NEWBORN := Pair(Side({}, 0, {}), Side({}, 0, {}))

  /** The even side holds its first n streams, its counter stands at the j-th even ID, and it has issued the
      j before that. */
  ghost function Holding(n: nat, j: nat): Pair
  {
    Pair(Side(Tried(0, n), Candidate(0, j), Tried(0, j)), Side({}, 0, {}))
  }

  lemma TriedSize(n: nat)
    requires n <= MAX_TRIES
    ensures |Tried(0, n)| == n
  {
    hide Candidate, Tried;
    forall k | 0 <= k < n ensures Candidate(0, k) in Tried(0, n) { TriedHas(0, n, k); }
    TriedCount(Tried(0, n), 0, n);
  }

  /** Even IDs not tried yet are free, as long as the counter has not come round. */
  lemma {:induction false} NotTriedYet(n: nat, j: nat)
    requires n <= j < TWO32 / 2
    ensures Candidate(0, j) !in Tried(0, n)
    decreases n
  {
    hide Candidate;
    if n > 0 {
      NotTriedYet(n - 1, j);
      CandidateIs(0, j);
      CandidateIs(0, n - 1);
    }
  }

  lemma NextOpen(n: nat, j: nat)
    requires n <= MAX_TRIES && n <= j < TWO32 / 2
    ensures CanStep(Holding(n, j), OpenEven)
    ensures var p := Take(Holding(n, j), OpenEven);
      p.odd == Side({}, 0, {}) && p.even == Side(Tried(0, n) + {Candidate(0, j)}, Candidate(0, j + 1), Tried(0, j + 1))
  {
    TriedSize(n);
    NotTriedYet(n, j);
    var start := Candidate(0, j);
    assert Candidate(start, 0) == start && Candidate(start, 1) == Plus2(start) == Candidate(0, j + 1);
    hide Tried;
    assert FreeAt(Tried(0, n), start, 0);
    FirstFreeIs(Tried(0, n), start, 0);
    IssuedNext(j);
  }

  lemma IssuedNext(j: nat)
    ensures Tried(0, j + 1) == Tried(0, j) + {Candidate(0, j)}
  {
  }

  function OpenAndKeep(j: nat, n: nat): seq<Step>
    requires j <= n
    decreases n - j
  {
    if j == n then [] else [OpenEven] + OpenAndKeep(j + 1, n)
  }

  function OpenAndDrop(j: nat, n: nat): seq<Step>
    requires j <= n
    decreases n - j
  {
    if j == n then [] else [OpenEven] + ([DropAt(true, Candidate(0, j))] + OpenAndDrop(j + 1, n))
  }

  lemma {:induction false} Keeps(j: nat, n: nat, rest: seq<Step>, q: Pair)
    requires j <= n <= MAX_TRIES && Steps(Holding(n, n), rest, q)
    ensures Steps(Holding(j, j), OpenAndKeep(j, n) + rest, q)
    decreases n - j
  {
    hide Candidate, Take, CanStep, Tried;
    var run := OpenAndKeep(j, n) + rest;
    if j == n {
      assert run == rest;
    } else {
      Keeps(j + 1, n, rest, q);
      NextOpen(j, j);
      IssuedNext(j);
      assert run[0] == OpenEven && run[1..] == OpenAndKeep(j + 1, n) + rest;
    }
  }

  lemma DropAgain(n: nat, j: nat)
    requires n <= MAX_TRIES && n <= j < TWO32 / 2 && CanStep(Holding(n, j), OpenEven)
    ensures var p, e := Take(Holding(n, j), OpenEven), DropAt(true, Candidate(0, j));
      CanStep(p, e) && Take(p, e) == Holding(n, j + 1)
  {
    NextOpen(n, j);
    NotTriedYet(n, j);
    hide Candidate, Tried, Alloc;
    assert Tried(0, n) + {Candidate(0, j)} - {Candidate(0, j)} == Tried(0, n);
  }

  lemma {:induction false} Drops(n: nat, j: nat, wrap: nat, rest: seq<Step>, q: Pair)
    requires n <= MAX_TRIES && n <= j <= wrap <= TWO32 / 2 && Steps(Holding(n, wrap), rest, q)
    ensures Steps(Holding(n, j), OpenAndDrop(j, wrap) + rest, q)
    decreases wrap - j
  {
    hide Candidate, Take, CanStep, Tried, Holding;
    var run := OpenAndDrop(j, wrap) + rest;
    if j == wrap {
      assert run == rest;
    } else {
      Drops(n, j + 1, wrap, rest, q);
      NextOpen(n, j);
      DropAgain(n, j);
      var tail := [DropAt(true, Candidate(0, j))] + OpenAndDrop(j + 1, wrap) + rest;
      assert run[0] == OpenEven && run[1..] == tail;
      assert tail[0] == DropAt(true, Candidate(0, j)) && tail[1..] == OpenAndDrop(j + 1, wrap) + rest;
      assert Steps(Take(Holding(n, j), OpenEven), tail, q);
    }
  }

  lemma FirstOddIsOne()
    ensures Alloc({}, 1) == (1, 3)
  {
    assert Candidate(1, 0) == 1 && Candidate(1, 1) == 3;
    assert FreeAt({}, 1, 0);
    FirstFreeIs({}, 1, 0);
  }

  lemma EvenFallsBack(n: nat, wrap: nat)
    requires n == MAX_TRIES && wrap == TWO32 / 2
    ensures CanStep(Holding(n, wrap), OpenEven)
    ensures var p := Take(Holding(n, wrap), OpenEven); 1 in p.even.issued && p.odd == Side({}, 0, {})
  {
    hide Candidate, Tried, Alloc;
    FallbackIsOne(n);
    CandidateIs(0, wrap);
  }

  lemma OddOpensOne(p: Pair)
    requires p.odd == Side({}, 0, {})
    ensures CanStep(p, OpenOdd)
    ensures Take(p, OpenOdd).even == p.even && 1 in Take(p, OpenOdd).odd.issued
  {
    FirstOddIsOne();
    hide Alloc;
  }

  lemma BothOpenOne(n: nat, wrap: nat) returns (rest: seq<Step>, q: Pair)
    requires n == MAX_TRIES && wrap == TWO32 / 2
    ensures Steps(Holding(n, wrap), rest, q) && 1 in q.even.issued * q.odd.issued
  {
    hide Holding, Take, CanStep;
    EvenFallsBack(n, wrap);
    var p1 := Take(Holding(n, wrap), OpenEven);
    OddOpensOne(p1);
    q := Take(p1, OpenOdd);
    rest := [OpenEven, OpenOdd];
    assert rest[1..] == [OpenOdd] && [OpenOdd][1..] == [];
    assert Steps(p1, [OpenOdd], q);
  }

  /** The condition is needed, by two sides alone: the even one keeps its first 32768 streams, opens and
      drops others until its counter has come round, and opens once more; then the odd one opens its first. */
  lemma BothSidesIssueOne()
    ensures exists run: seq<Step>, q: Pair ::
      Parities(NEWBORN) && Steps(NEWBORN, run, q) && 1 in q.even.issued * q.odd.issued
  {
    Collide(MAX_TRIES, TWO32 / 2);
  }

  lemma Collide(n: nat, wrap: nat)
    requires n == MAX_TRIES && wrap == TWO32 / 2
    ensures exists run: seq<Step>, q: Pair :: Steps(NEWBORN, run, q) && 1 in q.even.issued * q.odd.issued
  {
    hide Steps, Take;
    var rest, q := BothOpenOne(n, wrap);
    Drops(n, n, wrap, rest, q);
    Keeps(0, n, OpenAndDrop(n, wrap) + rest, q);
    NothingHeld();
    assert Steps(NEWBORN, OpenAndKeep(0, n) + (OpenAndDrop(n, wrap) + rest), q);
  }

  lemma NothingHeld()
    ensures Holding(0, 0) == NEWBORN
  {
  }

  /** Exactly one end of a pair draws from the even IDs: the string order decides, and it is total. */
  lemma OppositeParities(a: Bytes, b: Bytes)
    requires a != b
    ensures Less(a, b) <==> !Less(b, a)
  {
    LessIsTotal(a, b);
  }

  class StreamRegistry {
    const selfID: Bytes
    var streams: map<u32, Bytes>
    var closedStreams: map<u32, Time>
    var notified: seq<u32>
    var nextEven: u32
    var nextOdd: u32

    ghost function State(): Table
      reads this
    {
      Table(streams, closedStreams, notified)
    }

    constructor (selfID: Bytes)
      ensures State() == Table(map[], map[], []) && nextEven == 0 && nextOdd == 0 && this.selfID == selfID
    {
      this.selfID := selfID;
      streams, closedStreams, notified, nextEven, nextOdd := map[], map[], [], 0, 0;
    }

    /** Takes the next free ID of this side's parity; after MAX_TRIES busy ones, the least free ID. */
    method AllocStreamID(peerID: Bytes) returns (id: u32)
      requires |streams| < TWO32
      modifies this`nextEven, this`nextOdd
      ensures var even := Less(selfID, peerID);
        var start := if even then old(nextEven) else if old(nextOdd) == 0 then 1 else old(nextOdd);
        && (id, if even then nextEven else nextOdd) == Alloc(streams.Keys, start)
        && (if even then nextOdd == old(nextOdd) else nextEven == old(nextEven))
    {
      var even := Less(selfID, peerID);
      var start := if even then nextEven else nextOdd;
      if start == 0 && !even {
        start := 1;
      }
      var found, v, next := TryIDs(start);
      if even { nextEven := next; } else { nextOdd := next; }
      if found {
        return v;
      }
      id := LeastFreeID();
      LeastFreeIs(streams.Keys, id);
    }

    /** The bounded search; `next` is where the counter ends up. */
    method TryIDs(start: u32) returns (found: bool, v: u32, next: u32)
      requires |streams| < TWO32
      ensures found <==> exists i: nat :: FreeAt(streams.Keys, start, i)
      ensures found ==> (v, next) == Alloc(streams.Keys, start)
      ensures !found ==> next == Candidate(start, MAX_TRIES)
    {
      next := start;
      var i := 0;
      while i < MAX_TRIES
        invariant i <= MAX_TRIES && next == Candidate(start, i)
        invariant forall k :: 0 <= k < i ==> Candidate(start, k) in streams
      {
        v := next;
        next := Plus2(next);
        if v !in streams {
          assert FreeAt(streams.Keys, start, i);
          FirstFreeIs(streams.Keys, start, i);
          return true, v, next;
        }
        i := i + 1;
      }
      v := 0;
      found := false;
    }

    /** Linear probing from 0; it ends because not every uint32 is busy. */
    method LeastFreeID() returns (v: u32)
      requires |streams| < TWO32
      ensures Least(streams.Keys, v)
    {
      v := 0;
      while v in streams
        invariant forall k: u32 :: k < v ==> k in streams
        decreases TWO32 - v
      {
        if v == TWO32 - 1 {
          AllBusy(streams.Keys, TWO32);
          assert false;
        }
        v := v + 1;
      }
    }

    method DropStream(id: u32, now: Time)
      modifies this`streams, this`closedStreams
      ensures State() == Drop(old(State()), id, now)
    {
      streams := streams - {id};
      closedStreams := closedStreams[id := now];
      ghost var noted := closedStreams;
      var sids := closedStreams.Keys;
      while sids != {}
        invariant streams == old(streams) - {id} && sids <= noted.Keys
        invariant forall k :: k in closedStreams <==> k in noted && (k in sids || now - noted[k] <= CLOSED_STREAM_TTL)
        invariant forall k :: k in closedStreams ==> closedStreams[k] == noted[k]
        decreases sids
      {
        var sid :| sid in sids;
        if now - closedStreams[sid] > CLOSED_STREAM_TTL {
          closedStreams := closedStreams - {sid};
        }
        sids := sids - {sid};
      }
      assert closedStreams == Drop(old(State()), id, now).closed;
    }

    method OnStreamOpen(from: Option<Bytes>, id: u32, now: Time)
      modifies this`streams, this`notified
      ensures State() == Handle(old(State()), StreamOpen(from, id), now)
    {
      if from.None? {
        return;
      }
      if id in streams {
        return;
      }
      if id in closedStreams && now - closedStreams[id] < CLOSED_STREAM_TTL {
        return;
      }
      streams := streams[id := from.value];
      notified := notified + [id];
    }

    method OnStreamClose(id: u32, now: Time)
      modifies this`streams, this`closedStreams
      ensures State() == Handle(old(State()), StreamClose(id), now)
    {
      if id !in streams {
        return;
      }
      DropStream(id, now);
    }

    /** Idempotent: an existing stream is returned as it is. */
    method RegisterInboundStream(peer: Bytes, id: u32)
      modifies this`streams, this`notified
      ensures State() == if id in old(streams) then old(State()) else Create(old(State()), peer, id)
    {
      if id in streams {
        return;
      }
      streams := streams[id := peer];
      notified := notified + [id];
    }

    /** A data-plane frame; `fed` says the payload goes to the stream's reorder buffer. */
    method OnDataFrame(frame: Event, now: Time) returns (fed: bool)
      requires !frame.StreamOpen? && !frame.StreamClose?
      modifies this`streams, this`closedStreams, this`notified
      ensures State() == Handle(old(State()), frame, now)
      ensures fed ==> frame.DataFrame? && frame.id in streams
      ensures fed <==> frame.DataFrame? && frame.from != None && frame.decrypts
    {
      fed := false;
      if frame.from.None? {
        return;
      }
      match frame
      case CloseFrame(_, id) =>
        OnStreamClose(id, now);
      case ResetFrame(_, id) =>
        if id in streams {
          DropStream(id, now);
        }
      case PingFrame(_, _) =>
      case DataFrame(from, id, decrypts) =>
        if !decrypts {
          return;
        }
        if id !in streams {
          RegisterInboundStream(from.value, id);
        }
        fed := true;
    }
  }

  // ---- One stream, two connections -----------------------------------------------
  // A timed run of arrivals in the order the client handles them. The control connection carries the
  // open, the relay connection the data and then the close; any other stream may do anything.

  datatype Timed = Timed(now: Time, e: Event)

  ghost function Run(t: Table, run: seq<Timed>): Table
  {
    if run == [] then t
    else Handle(Run(t, run[..|run| - 1]), run[|run| - 1].e, run[|run| - 1].now)
  }

  predicate IsOpen(e: Event, id: u32) { e.StreamOpen? && e.id == id && e.from != None }

  predicate IsData(e: Event, id: u32) { e.DataFrame? && e.id == id && e.from != None && e.decrypts }

  predicate IsClose(e: Event, id: u32)
  {
    e.id == id && (e.StreamClose? || ((e.CloseFrame? || e.ResetFrame?) && e.from != None))
  }

  /** Leaves stream id alone in every state. */
  predicate Irrelevant(e: Event, id: u32)
  {
    e.id != id || e.PingFrame? || (!e.StreamClose? && e.from == None) || (e.DataFrame? && !e.decrypts)
  }

  /** Event o is the open, event c the close; all data comes before the close, as its connection is FIFO. */
  ghost predicate Script(run: seq<Timed>, id: u32, o: nat, c: nat)
  {
    && o < |run| && c < |run| && o != c
    && IsOpen(run[o].e, id) && IsClose(run[c].e, id)
    && (forall k :: 0 <= k < |run| && k != o && k != c ==>
         Irrelevant(run[k].e, id) || (k < c && IsData(run[k].e, id)))
    && (forall j, k :: 0 <= j < k < |run| ==> run[j].now <= run[k].now)
  }

  /** What is known of the ID beforehand: how often the application was told of it, and when a stream of
      it was last closed. */
  datatype Past = Past(calls: nat, closedAt: Option<Time>)

  function PastOf(t: Table, id: u32): Past
  {
    Past(Calls(t.notified, id), if id in t.closed then Some(t.closed[id]) else None)
  }

  /** An open that comes too soon after the last close is taken for a late one of that stream. */
  predicate TooSoon(past: Past, now: Time)
  {
    past.closedAt != None && now - past.closedAt.value < CLOSED_STREAM_TTL
  }

  predicate Creates(past: Past, m: Timed, id: u32)
  {
    (IsOpen(m.e, id) && !TooSoon(past, m.now)) || IsData(m.e, id)
  }

  /** Something created the stream among the first k events. */
  ghost predicate Created(past: Past, run: seq<Timed>, id: u32, k: nat)
    requires k <= |run|
  {
    exists j :: 0 <= j < k && Creates(past, run[j], id)
  }

  ghost predicate DataBefore(run: seq<Timed>, id: u32, c: nat)
    requires c <= |run|
  {
    exists j :: 0 <= j < c && IsData(run[j].e, id)
  }

  function Calls(notified: seq<u32>, id: u32): nat
  {
    multiset(notified)[id]
  }

  lemma CallsOfCreate(t: Table, peer: Bytes, id: u32, other: u32)
    ensures Calls(Create(t, peer, id).notified, other) == Calls(t.notified, other) + if id == other then 1 else 0
  {
  }

  /** Where stream id stands. */
  datatype Phase = Absent | Live | Finished(at: Time) | Revived(times: nat)

  /** The closing time on record, or one that has expired and been cleared. */
  predicate OnRecord(t: Table, id: u32, at: Time, now: Time)
  {
    if id in t.closed then t.closed[id] == at else now - at > CLOSED_STREAM_TTL
  }

  ghost predicate InPhase(past: Past, t: Table, id: u32, p: Phase, now: Time)
  {
    var calls := Calls(t.notified, id) - past.calls;
    match p
    case Absent =>
      id !in t.streams && calls == 0
      && (if past.closedAt == None then id !in t.closed else OnRecord(t, id, past.closedAt.value, now))
    case Live => id in t.streams && calls == 1
    case Finished(at) => id !in t.streams && calls == 1 && OnRecord(t, id, at, now)
    case Revived(times) => id in t.streams && calls == times
  }

  ghost function Next(past: Past, p: Phase, m: Timed, id: u32): Phase
  {
    if IsOpen(m.e, id) then
      match p
      case Absent => if TooSoon(past, m.now) then Absent else Live
      case Live => Live
      case Finished(at) => if m.now - at < CLOSED_STREAM_TTL then p else Revived(2)
      case Revived(_) => p
    else if IsData(m.e, id) then (if p.Absent? then Live else p)
    else if IsClose(m.e, id) then (if p.Live? then Finished(m.now) else p)
    else p
  }

  lemma HandleFollowsPhase(past: Past, t: Table, id: u32, p: Phase, before: Time, m: Timed)
    requires InPhase(past, t, id, p, before) && before <= m.now
    requires p.Finished? ==> !IsData(m.e, id)
    requires p.Revived? ==> Irrelevant(m.e, id)
    ensures InPhase(past, Handle(t, m.e, m.now), id, Next(past, p, m, id), m.now)
  {
    match p
    case Absent => HandleWhenAbsent(past, t, id, before, m);
    case Live => HandleWhenLive(past, t, id, before, m);
    case Finished(_) => HandleAfterTheEnd(past, t, id, p, before, m);
    case Revived(_) => HandleAfterTheEnd(past, t, id, p, before, m);
  }

  lemma HandleWhenAbsent(past: Past, t: Table, id: u32, before: Time, m: Timed)
    requires InPhase(past, t, id, Absent, before) && before <= m.now
    ensures InPhase(past, Handle(t, m.e, m.now), id, Next(past, Absent, m, id), m.now)
  {
    if !m.e.StreamClose? && m.e.from != None {
      CallsOfCreate(t, m.e.from.value, m.e.id, id);
    }
    hide Calls;
  }

  lemma HandleWhenLive(past: Past, t: Table, id: u32, before: Time, m: Timed)
    requires InPhase(past, t, id, Live, before)
    ensures InPhase(past, Handle(t, m.e, m.now), id, Next(past, Live, m, id), m.now)
  {
    if !m.e.StreamClose? && m.e.from != None {
      CallsOfCreate(t, m.e.from.value, m.e.id, id);
    }
    hide Calls;
  }

  lemma HandleAfterTheEnd(past: Past, t: Table, id: u32, p: Phase, before: Time, m: Timed)
    requires InPhase(past, t, id, p, before) && before <= m.now
    requires (p.Finished? && !IsData(m.e, id)) || (p.Revived? && Irrelevant(m.e, id))
    ensures InPhase(past, Handle(t, m.e, m.now), id, Next(past, p, m, id), m.now)
  {
    if !m.e.StreamClose? && m.e.from != None {
      CallsOfCreate(t, m.e.from.value, m.e.id, id);
    }
    hide Calls;
  }

  ghost function PhaseAt(past: Past, run: seq<Timed>, id: u32, k: nat): Phase
    requires k <= |run|
  {
    if k == 0 then Absent else Next(past, PhaseAt(past, run, id, k - 1), run[k - 1], id)
  }

  /** The phases of a script, in closed form. */
  ghost function Expected(past: Past, run: seq<Timed>, id: u32, o: nat, c: nat, k: nat): Phase
    requires o < |run| && c < |run| && k <= |run|
  {
    if k <= c then (if Created(past, run, id, k) then Live else Absent)
    else if o > c && k > o then
      if !DataBefore(run, id, c) then (if TooSoon(past, run[o].now) then Absent else Live)
      else if run[o].now - run[c].now < CLOSED_STREAM_TTL then Finished(run[c].now)
      else Revived(2)
    else if Created(past, run, id, c) then Finished(run[c].now)
    else Absent
  }

  lemma {:induction false} PhasesOfScript(past: Past, run: seq<Timed>, id: u32, o: nat, c: nat, k: nat)
    requires Script(run, id, o, c) && k <= |run|
    ensures PhaseAt(past, run, id, k) == Expected(past, run, id, o, c, k)
    decreases k
  {
    if k > 0 {
      PhasesOfScript(past, run, id, o, c, k - 1);
      CreatedStep(past, run, id, k - 1);
      CreatedBy(past, run, id, o, c);
      var e := run[k - 1].e;
      assert k - 1 == o || k - 1 == c || Irrelevant(e, id) || (k - 1 < c && IsData(e, id));
      hide Created, DataBefore;
    }
  }

  lemma CreatedStep(past: Past, run: seq<Timed>, id: u32, k: nat)
    requires k < |run|
    ensures Created(past, run, id, k + 1) <==> Created(past, run, id, k) || Creates(past, run[k], id)
  {
  }

  /** Before the close, a stream is created by its open, unless that comes too soon, or by its data. */
  lemma CreatedBy(past: Past, run: seq<Timed>, id: u32, o: nat, c: nat)
    requires Script(run, id, o, c)
    ensures Created(past, run, id, c) <==> (o < c && !TooSoon(past, run[o].now)) || DataBefore(run, id, c)
  {
    if Created(past, run, id, c) {
      var j :| 0 <= j < c && Creates(past, run[j], id);
      assert j != c && (j == o || Irrelevant(run[j].e, id) || IsData(run[j].e, id));
    }
    if o < c && !TooSoon(past, run[o].now) { assert Creates(past, run[o], id); }
    if DataBefore(run, id, c) {
      var j :| 0 <= j < c && IsData(run[j].e, id);
      assert Creates(past, run[j], id);
    }
  }

  lemma ScriptFitsPhases(past: Past, run: seq<Timed>, id: u32, o: nat, c: nat, k: nat)
    requires Script(run, id, o, c) && k < |run|
    ensures PhaseAt(past, run, id, k).Finished? ==> !IsData(run[k].e, id)
    ensures PhaseAt(past, run, id, k).Revived? ==> Irrelevant(run[k].e, id)
  {
    PhasesOfScript(past, run, id, o, c, k);
    assert k == o || k == c || Irrelevant(run[k].e, id) || (k < c && IsData(run[k].e, id));
  }

  lemma StartsAbsent(t: Table, id: u32, now: Time)
    requires id !in t.streams
    ensures InPhase(PastOf(t, id), t, id, Absent, now)
  {
    hide Calls;
  }

  lemma RunOfPrefix(t: Table, run: seq<Timed>, k: nat)
    requires 0 < k <= |run|
    ensures Run(t, run[..k]) == Handle(Run(t, run[..k - 1]), run[k - 1].e, run[k - 1].now)
  {
    assert run[..k][..k - 1] == run[..k - 1];
    hide Handle;
  }

  lemma {:induction false} RunFollowsPhases(t: Table, run: seq<Timed>, id: u32, o: nat, c: nat, k: nat)
    requires Script(run, id, o, c) && 0 < k <= |run| && id !in t.streams
    ensures InPhase(PastOf(t, id), Run(t, run[..k]), id, PhaseAt(PastOf(t, id), run, id, k), run[k - 1].now)
    decreases k
  {
    hide InPhase, Handle, Next, PastOf, Run;
    var past := PastOf(t, id);
    var before := if k == 1 then run[0].now else run[k - 2].now;
    if k == 1 {
      assert run[..0] == [];
      RunOfNothing(t);
      StartsAbsent(t, id, before);
    } else {
      RunFollowsPhases(t, run, id, o, c, k - 1);
    }
    RunOfPrefix(t, run, k);
    ScriptFitsPhases(past, run, id, o, c, k - 1);
    assert before <= run[k - 1].now;
    hide Script;
    HandleFollowsPhase(past, Run(t, run[..k - 1]), id, PhaseAt(past, run, id, k - 1), before, run[k - 1]);
  }

  lemma RunOfNothing(t: Table)
    ensures Run(t, []) == t
  {
  }

  /** For every interleaving, and whatever became of earlier streams of that ID: the application is told of
      the stream once more and the stream is gone at the end exactly if, with data before the close, the
      open was not late by the TTL or more; and without, the open came before the close and not within the
      TTL of an earlier stream's close. */
  lemma {:induction false} OpenedOnceAndGone(t: Table, run: seq<Timed>, id: u32, o: nat, c: nat)
    requires Script(run, id, o, c) && id !in t.streams
    ensures var end := Run(t, run);
      (id !in end.streams && Calls(end.notified, id) == Calls(t.notified, id) + 1)
      <==> (if DataBefore(run, id, c) then o < c || run[o].now - run[c].now < CLOSED_STREAM_TTL
            else o < c && !TooSoon(PastOf(t, id), run[o].now))
  {
    var past := PastOf(t, id);
    RunFollowsPhases(t, run, id, o, c, |run|);
    PhasesOfScript(past, run, id, o, c, |run|);
    CreatedBy(past, run, id, o, c);
    assert run[..|run|] == run;
    hide Created, DataBefore, Calls, PhaseAt;
  }

  // ---- The ways it goes wrong ----------------------------------------------------------------------

  const UNUSED := Table(map[], map[], [])

  lemma RunOfTwo(t: Table, a: Timed, b: Timed)
    ensures Run(t, [a, b]) == Handle(Handle(t, a.e, a.now), b.e, b.now)
  {
    assert [a, b][..1] == [a] && [a][..0] == [];
    assert Run(t, [a]) == Handle(Run(t, []), a.e, a.now);
    hide Handle;
  }

  lemma RunOfThree(t: Table, a: Timed, b: Timed, c: Timed)
    ensures Run(t, [a, b, c]) == Handle(Run(t, [a, b]), c.e, c.now)
  {
    assert [a, b, c][..2] == [a, b];
    hide Handle;
  }

  /** From an empty table: a stream without data whose close overtakes its open stays for good. */
  lemma LateOpenStaysOpen(peer: Bytes, id: u32)
    ensures var run := [Timed(0, StreamClose(id)), Timed(1, StreamOpen(Some(peer), id))];
      Script(run, id, 1, 0) && id in Run(UNUSED, run).streams
  {
    RunOfTwo(UNUSED, Timed(0, StreamClose(id)), Timed(1, StreamOpen(Some(peer), id)));
  }

  function VeryLate(peer: Bytes, id: u32): seq<Timed>
  {
    [Timed(0, DataFrame(Some(peer), id, true)), Timed(1, StreamClose(id)),
     Timed(1 + CLOSED_STREAM_TTL, StreamOpen(Some(peer), id))]
  }

  lemma VeryLateIsAScript(peer: Bytes, id: u32)
    ensures Script(VeryLate(peer, id), id, 2, 1)
  {
  }

  /** From an empty table: an open that is late by the TTL brings a finished stream back, a second time. */
  lemma VeryLateOpenComesTwice(peer: Bytes, id: u32)
    ensures var run := VeryLate(peer, id);
      Script(run, id, 2, 1) && id in Run(UNUSED, run).streams && Calls(Run(UNUSED, run).notified, id) == 2
  {
    hide Run, Calls, Script;
    VeryLateIsAScript(peer, id);
    var run := VeryLate(peer, id);
    RunOfTwo(UNUSED, run[0], run[1]);
    RunOfThree(UNUSED, run[0], run[1], run[2]);
    var t1 := Create(UNUSED, peer, id);
    var t2 := Drop(t1, id, 1);
    CallsOfCreate(UNUSED, peer, id, id);
    CallsOfCreate(t2, peer, id, id);
    NeverCalled(id);
  }

  lemma NeverCalled(id: u32)
    ensures Calls(UNUSED.notified, id) == 0
  {
  }

  /** From an empty table: an ID used again within the TTL of its last close, without data in time, is not
      announced at all. */
  lemma ReusedTooSoonIsMissed(peer: Bytes, id: u32)
    ensures var first := [Timed(0, DataFrame(Some(peer), id, true)), Timed(1, StreamClose(id))];
      var second := [Timed(2, StreamOpen(Some(peer), id)), Timed(3, StreamClose(id))];
      var t := Run(UNUSED, first);
      && id !in t.streams && Calls(t.notified, id) == 1
      && Script(second, id, 0, 1) && Calls(Run(t, second).notified, id) == 1
  {
    RunOfTwo(UNUSED, Timed(0, DataFrame(Some(peer), id, true)), Timed(1, StreamClose(id)));
    var t := Drop(Create(UNUSED, peer, id), id, 1);
    assert t.notified == [id] && t.closed == map[id := 1] && id !in t.streams;
    RunOfTwo(t, Timed(2, StreamOpen(Some(peer), id)), Timed(3, StreamClose(id)));
  }

  // ---- Whose stream it is ------------------------------------------------------------

  /** An announcement or data of stream id from this peer. */
  predicate Introduces(e: Event, id: u32, peer: Bytes)
  {
    (IsOpen(e, id) || IsData(e, id)) && e.from == Some(peer)
  }

  /** From k events on the stream is there and is this peer's. */
  ghost predicate OwnedSince(t: Table, run: seq<Timed>, id: u32, peer: Bytes, k: nat)
    requires k <= |run|
  {
    forall j :: k <= j <= |run| ==> id in Run(t, run[..j]).streams && Run(t, run[..j]).streams[id] == peer
  }

  ghost predicate BroughtBy(t: Table, run: seq<Timed>, id: u32, peer: Bytes, k: nat)
    requires k < |run|
  {
    Introduces(run[k].e, id, peer) && id !in Run(t, run[..k]).streams && OwnedSince(t, run, id, peer, k + 1)
  }

  lemma HandleKeepsOwner(t: Table, e: Event, now: Time, id: u32)
    requires id in Handle(t, e, now).streams
    ensures if id in t.streams then Handle(t, e, now).streams[id] == t.streams[id]
            else Introduces(e, id, Handle(t, e, now).streams[id])
  {
  }

  lemma OwnedLonger(t: Table, run: seq<Timed>, id: u32, peer: Bytes, k: nat)
    requires run != [] && k < |run| && OwnedSince(t, run[..|run| - 1], id, peer, k)
    requires id in Run(t, run).streams && Run(t, run).streams[id] == peer
    ensures OwnedSince(t, run, id, peer, k)
  {
    hide Run;
    var init := run[..|run| - 1];
    assert run[..|run|] == run;
    forall j | k <= j <= |run| ensures id in Run(t, run[..j]).streams && Run(t, run[..j]).streams[id] == peer {
      if j < |run| { assert init[..j] == run[..j]; }
    }
  }

  /** In every state of every run a stream belongs to the peer whose open or data brought it, and has done so
      without a break since; neither a later open nor data from another peer takes it over. */
  lemma {:induction false} StreamBelongsToItsBringer(t: Table, run: seq<Timed>, id: u32)
    requires id in Run(t, run).streams
    ensures var peer := Run(t, run).streams[id];
      OwnedSince(t, run, id, peer, 0) || exists k :: 0 <= k < |run| && BroughtBy(t, run, id, peer, k)
    decreases |run|
  {
    var peer := Run(t, run).streams[id];
    if run == [] {
      assert run[..0] == run;
    } else {
      var init, m := run[..|run| - 1], run[|run| - 1];
      assert Run(t, run) == Handle(Run(t, init), m.e, m.now);
      assert run[..|run|] == run;
      hide Run, Handle, OwnedSince, IsOpen, IsData, Introduces;
      HandleKeepsOwner(Run(t, init), m.e, m.now, id);
      if id in Run(t, init).streams {
        StreamBelongsToItsBringer(t, init, id);
        if OwnedSince(t, init, id, peer, 0) {
          OwnedLonger(t, run, id, peer, 0);
        } else {
          var k :| 0 <= k < |init| && BroughtBy(t, init, id, peer, k);
          OwnedLonger(t, run, id, peer, k + 1);
          assert init[..k] == run[..k];
          assert BroughtBy(t, run, id, peer, k);
        }
      } else {
        OwnedAtTheEnd(t, run, id);
        assert BroughtBy(t, run, id, peer, |run| - 1);
      }
    }
  }

  lemma OwnedAtTheEnd(t: Table, run: seq<Timed>, id: u32)
    requires id in Run(t, run).streams
    ensures OwnedSince(t, run, id, Run(t, run).streams[id], |run|)
  {
    assert run[..|run|] == run;
    hide Run;
  }

  // ---- What is remembered, and what is handed out --------------------------------------

  /** A drop removes the stream, notes when, and forgets the closings of more than 30 seconds ago. */
  lemma DropNotes(t: Table, id: u32, now: Time)
    ensures var t' := Drop(t, id, now);
      && t'.streams == t.streams - {id} && t'.notified == t.notified
      && id in t'.closed && t'.closed[id] == now
      && (forall k :: k in t'.closed && k != id ==> k in t.closed && t'.closed[k] == t.closed[k])
      && (forall k :: k in t.closed && k != id ==> (k in t'.closed <==> now - t.closed[k] <= 30_000_000_000))
  {
  }

  /** The i-th candidate, on 32 bits. */
  function Nth(start: u32, i: nat): u32 { (start + 2 * i) % 0x1_0000_0000 }

  /** The first free one of 32768 candidates is handed out and the counter is left behind it; if all are busy
      it is the least free ID, and the counter is left behind the last candidate. */
  lemma HandsOut(busy: set<u32>, start: u32, i: nat)
    requires |busy| < TWO32 && i <= 32768 && (i < 32768 ==> Nth(start, i) !in busy)
    requires forall k :: 0 <= k < i ==> Nth(start, k) in busy
    ensures var (id, next) := Alloc(busy, start);
      if i < 32768 then id == Nth(start, i) && next == Nth(start, i + 1)
      else id !in busy && (forall k: u32 :: k < id ==> k in busy) && next == Nth(start, 32768)
  {
    hide Candidate, Alloc;
    forall k: nat ensures Candidate(start, k) == Nth(start, k) { CandidateIs(start, k); }
    if i < 32768 {
      assert FreeAt(busy, start, i);
      FirstFreeIs(busy, start, i);
    } else {
      NoneFreeIs(busy, start);
      NothingInReach(busy, start);
    }
  }

  lemma NothingInReach(busy: set<u32>, start: u32)
    requires |busy| < TWO32 && !exists i: nat :: FreeAt(busy, start, i)
    ensures Least(busy, Alloc(busy, start).0) && Alloc(busy, start).1 == Candidate(start, MAX_TRIES)
  {
    LeastExists(busy);
    hide Candidate, FreeAt;
  }

  /** What a step of the pair does: an open adds an ID that was free at that side and notes it as issued there,
      an inbound stream adds its ID and a drop removes it, at that side alone. */
  lemma StepActsOnOneSide(p: Pair, e: Step)
    requires CanStep(p, e)
    ensures var q := Take(p, e);
      match e
      case OpenEven =>
        q.odd == p.odd && exists v :: v !in p.even.streams && q.even.streams == p.even.streams + {v} && q.even.issued == p.even.issued + {v}
      case OpenOdd =>
        q.even == p.even && exists v :: v !in p.odd.streams && q.odd.streams == p.odd.streams + {v} && q.odd.issued == p.odd.issued + {v}
      case Inbound(even, id) =>
        && (if even then q.odd == p.odd else q.even == p.even)
        && (if even then q.even == p.even.(streams := p.even.streams + {id}) else q.odd == p.odd.(streams := p.odd.streams + {id}))
      case DropAt(even, id) =>
        && (if even then q.odd == p.odd else q.even == p.even)
        && (if even then q.even == p.even.(streams := p.even.streams - {id}) else q.odd == p.odd.(streams := p.odd.streams - {id}))
  {
    hide Candidate, FreeAt, Least;
    if e.OpenEven? {
      var v := Alloc(p.even.streams, StartOf(p.even.next, true)).0;
      assert v !in p.even.streams && Take(p, e).even.streams == p.even.streams + {v};
    } else if e.OpenOdd? {
      var v := Alloc(p.odd.streams, StartOf(p.odd.next, false)).0;
      assert v !in p.odd.streams && Take(p, e).odd.streams == p.odd.streams + {v};
    }
  }
}
