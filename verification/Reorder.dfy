/** The receive side of a logical stream: a 16-bit wrapping sequence number, a bounded reorder
    buffer that evicts, and what any run of arrivals makes of them
    (pkg/sessionclient/stream.go, deliver). */
module Reorder {
  import opened Machine

  const MAX_REORDER_BUFFER: nat := 256

  type Chunk = seq<u8>

  datatype Receiver = Receiver(next: u16, buf: map<u16, Chunk>)

  const EMPTY := Receiver(0, map[])

  /** Incrementing a uint16. */
  function Succ(s: u16): u16 { if s == TWO16 - 1 then 0 else s + 1 }

  /** The number the sender's i-th frame carries: a uint16 counter after i increments. */
  function Number(i: nat): u16
  {
    if i == 0 then 0 else Succ(Number(i - 1))
  }

  lemma {:induction false} NumberIsMod(i: nat)
    ensures Number(i) == i % TWO16
  {
    if i > 0 {
      NumberIsMod(i - 1);
    }
  }

  /** int16(k - next): the signed distance Go computes on uint16 operands. */
  function SignedDistance(k: u16, next: u16): int
  {
    var d := (k - next) % TWO16;
    if d < 0x8000 then d else d - TWO16
  }

  /** The buffered number the eviction loop ends with. */
  ghost predicate IsOldest(buf: map<u16, Chunk>, next: u16, k: u16)
  {
    k in buf && forall other :: other in buf ==> SignedDistance(k, next) <= SignedDistance(other, next)
  }

  /** What evicting from a full buffer leaves. */
  ghost predicate Evicted(buf: map<u16, Chunk>, next: u16, left: map<u16, Chunk>)
  {
    if |buf| < MAX_REORDER_BUFFER then left == buf
    else exists k :: IsOldest(buf, next, k) && left == buf - {k}
  }

  /** Distances tell numbers apart, so the eviction loop's answer does not depend on map order. */
  lemma DistancesDiffer(a: u16, b: u16, next: u16)
    requires SignedDistance(a, next) == SignedDistance(b, next)
    ensures a == b
  {
  }

  lemma OldestIsUnique(buf: map<u16, Chunk>, next: u16, a: u16, b: u16)
    requires IsOldest(buf, next, a) && IsOldest(buf, next, b)
    ensures a == b
  {
    DistancesDiffer(a, b, next);
  }

  lemma {:induction false} OldestExists(buf: map<u16, Chunk>, next: u16)
    requires |buf| > 0
    ensures exists k :: IsOldest(buf, next, k)
    decreases |buf|
  {
    var x :| x in buf.Keys;
    var rest := buf - {x};
    if |rest| == 0 {
      assert rest.Keys == buf.Keys - {x};
      assert buf.Keys == {x};
      assert IsOldest(buf, next, x);
    } else {
      OldestExists(rest, next);
      var y :| IsOldest(rest, next, y);
      var k := if SignedDistance(x, next) <= SignedDistance(y, next) then x else y;
      forall o | o in buf ensures SignedDistance(k, next) <= SignedDistance(o, next) {
        if o != x { assert o in rest; }
      }
      assert IsOldest(buf, next, k);
    }
  }

  ghost function Evict(buf: map<u16, Chunk>, next: u16): (left: map<u16, Chunk>)
    ensures Evicted(buf, next, left)
    ensures |buf| <= MAX_REORDER_BUFFER ==> |left| < MAX_REORDER_BUFFER
  {
    if |buf| < MAX_REORDER_BUFFER then buf
    else
      OldestExists(buf, next);
      var k :| IsOldest(buf, next, k);
      buf - {k}
  }

  /** Everything that became contiguous once `next` moved. */
  function Drain(r: Receiver): (res: (Receiver, seq<Chunk>))
    decreases |r.buf|
  {
    if r.next in r.buf then
      var (r', out) := Drain(Receiver(Succ(r.next), r.buf - {r.next}));
      (r', [r.buf[r.next]] + out)
    else
      (r, [])
  }

  /** One arrival: the new receiver state and the chunks handed to the application, in order. */
  ghost function Deliver(r: Receiver, s: u16, payload: Chunk): (res: (Receiver, seq<Chunk>))
  {
    if s == r.next then
      var (r', out) := Drain(Receiver(Succ(s), r.buf));
      (r', [payload] + out)
    else
      (Receiver(r.next, Evict(r.buf, r.next)[s := payload]), [])
  }

  // ---- Runs ------------------------------------------------------------------
  // The sender's i-th frame carries number i % 65536; an arrival is named by i.

  datatype State = State(r: Receiver, out: seq<Chunk>)

  ghost predicate Named(sent: seq<Chunk>, arrivals: seq<nat>)
  {
    forall k :: 0 <= k < |arrivals| ==> arrivals[k] < |sent|
  }

  ghost function Arrive(sent: seq<Chunk>, st: State, i: nat): State
    requires i < |sent|
  {
    var (r, out) := Deliver(st.r, Number(i), sent[i]);
    State(r, st.out + out)
  }

  ghost function Run(sent: seq<Chunk>, arrivals: seq<nat>): State
    requires Named(sent, arrivals)
  {
    if arrivals == [] then State(EMPTY, [])
    else Arrive(sent, Run(sent, arrivals[..|arrivals| - 1]), arrivals[|arrivals| - 1])
  }

  ghost predicate Distinct(arrivals: seq<nat>)
  {
    forall j, k :: 0 <= j < k < |arrivals| ==> arrivals[j] != arrivals[k]
  }

  /** No frame arrives 65536 or more ahead of the next one expected. */
  ghost predicate InWindow(sent: seq<Chunk>, arrivals: seq<nat>)
    requires Named(sent, arrivals)
  {
    forall k :: 0 <= k < |arrivals| ==> arrivals[k] < |Run(sent, arrivals[..k]).out| + TWO16
  }

  lemma FrameExists(k: u16, n: nat)
    ensures exists j: nat :: n <= j < n + TWO16 && Number(j) == k
  {
    var j := n + (k - n) % TWO16;
    NumberIsMod(j);
    assert Number(j) == k;
  }

  /** The only frame in [n, n + 65536) that carries number k. */
  ghost function FrameOf(k: u16, n: nat): (j: nat)
    ensures n <= j < n + TWO16 && Number(j) == k
  {
    FrameExists(k, n);
    var j: nat :| n <= j < n + TWO16 && Number(j) == k;
    j
  }

  /** Inside a window, frames carry different numbers. */
  lemma NumbersDiffer(n: nat, i: nat)
    requires n < i < n + TWO16
    ensures Number(i) != Number(n)
  {
    NumberIsMod(i);
    NumberIsMod(n);
  }

  lemma FrameOfNumber(i: nat, n: nat)
    requires n <= i < n + TWO16
    ensures FrameOf(Number(i), n) == i
  {
    var j := FrameOf(Number(i), n);
    if i < j { NumbersDiffer(i, j); } else if j < i { NumbersDiffer(j, i); }
  }

  /** Buffer entry (k, p) is an arrived frame of the sender, once n frames were handed over. */
  ghost predicate EntryMeans(sent: seq<Chunk>, arrived: set<nat>, n: nat, k: u16, p: Chunk)
  {
    var j := FrameOf(k, n);
    j < |sent| && j in arrived && p == sent[j]
  }

  ghost predicate BufferMeans(sent: seq<Chunk>, arrived: set<nat>, n: nat, buf: map<u16, Chunk>)
  {
    forall k :: k in buf ==> EntryMeans(sent, arrived, n, k, buf[k])
  }

  /** What the receiver's wrapped state means once n frames were handed over. */
  ghost predicate Means(sent: seq<Chunk>, arrived: set<nat>, r: Receiver, n: nat)
  {
    && n <= |sent|
    && r.next == Number(n)
    && r.next !in r.buf
    && (forall j :: 0 <= j < n ==> j in arrived)
    && BufferMeans(sent, arrived, n, r.buf)
  }

  ghost function Arrived(arrivals: seq<nat>): set<nat>
  {
    set k | 0 <= k < |arrivals| :: arrivals[k]
  }

  /** An entry other than the one just handed over keeps its meaning. */
  lemma EntrySkips(sent: seq<Chunk>, arrived: set<nat>, n: nat, k: u16, p: Chunk)
    requires EntryMeans(sent, arrived, n, k, p) && k != Number(n)
    ensures EntryMeans(sent, arrived, n + 1, k, p)
  {
    var j := FrameOf(k, n);
    assert n + 1 <= j;
    FrameOfNumber(j, n + 1);
  }

  lemma BufferSkips(sent: seq<Chunk>, arrived: set<nat>, n: nat, buf: map<u16, Chunk>)
    requires BufferMeans(sent, arrived, n, buf) && Number(n) !in buf
    ensures BufferMeans(sent, arrived, n + 1, buf)
  {
    forall k | k in buf ensures EntryMeans(sent, arrived, n + 1, k, buf[k]) {
      EntrySkips(sent, arrived, n, k, buf[k]);
    }
  }

  lemma SliceCons(sent: seq<Chunk>, n: nat, m: nat)
    requires n < m <= |sent|
    ensures [sent[n]] + sent[n + 1..m] == sent[n..m]
  {
  }

  lemma SliceAppend(sent: seq<Chunk>, n: nat, m: nat)
    requires n <= m <= |sent|
    ensures sent[..n] + sent[n..m] == sent[..m]
  {
  }

  lemma BufferShrinks(sent: seq<Chunk>, arrived: set<nat>, n: nat, buf: map<u16, Chunk>, rest: map<u16, Chunk>)
    requires BufferMeans(sent, arrived, n, buf)
    requires forall k :: k in rest ==> k in buf && rest[k] == buf[k]
    ensures BufferMeans(sent, arrived, n, rest)
  {
    forall k | k in rest ensures EntryMeans(sent, arrived, n, k, rest[k]) {
      assert EntryMeans(sent, arrived, n, k, buf[k]);
    }
  }

  lemma HeadEntry(sent: seq<Chunk>, arrived: set<nat>, n: nat, buf: map<u16, Chunk>)
    requires BufferMeans(sent, arrived, n, buf) && Number(n) in buf
    ensures n < |sent| && n in arrived && buf[Number(n)] == sent[n]
  {
    assert EntryMeans(sent, arrived, n, Number(n), buf[Number(n)]);
    FrameOfNumber(n, n);
  }

  lemma NumberNext(n: nat)
    ensures Number(n + 1) == Succ(Number(n))
  {
  }

  /** Draining hands over sent[n..n'] for some n' >= n and leaves a buffer that still means the same frames. */
  lemma {:induction false} DrainMeans(sent: seq<Chunk>, arrived: set<nat>, r: Receiver, n: nat)
    requires n <= |sent| && r.next == Number(n)
    requires forall j :: 0 <= j < n ==> j in arrived
    requires BufferMeans(sent, arrived, n, r.buf)
    ensures var (r', out) := Drain(r);
      && Means(sent, arrived, r', n + |out|)
      && out == sent[n..n + |out|]
    decreases |r.buf|
  {
    hide BufferMeans, Number;
    if r.next in r.buf {
      NumberNext(n);
      HeadEntry(sent, arrived, n, r.buf);
      var rest := r.buf - {r.next};
      var one := Receiver(Succ(r.next), rest);
      BufferShrinks(sent, arrived, n, r.buf, rest);
      BufferSkips(sent, arrived, n, rest);
      DrainMeans(sent, arrived, one, n + 1);
      var out := Drain(one).1;
      SliceCons(sent, n, n + 1 + |out|);
    }
  }

  lemma InOrderMeans(sent: seq<Chunk>, arrived: set<nat>, r: Receiver, n: nat)
    requires Means(sent, arrived, r, n) && n < |sent|
    ensures var (r', out) := Deliver(r, r.next, sent[n]);
      && Means(sent, arrived + {n}, r', n + |out|)
      && out == sent[n..n + |out|]
  {
    hide BufferMeans, Drain;
    var one := Receiver(Succ(r.next), r.buf);
    BufferGrows(sent, arrived, n, n, r.buf);
    BufferSkips(sent, arrived + {n}, n, r.buf);
    DrainMeans(sent, arrived + {n}, one, n + 1);
    var out := Drain(one).1;
    SliceCons(sent, n, n + 1 + |out|);
  }

  lemma OutOfOrderMeans(sent: seq<Chunk>, arrived: set<nat>, r: Receiver, n: nat, i: nat, left: map<u16, Chunk>)
    requires Means(sent, arrived, r, n)
    requires n < i < |sent| && i < n + TWO16
    requires forall k :: k in left ==> k in r.buf && left[k] == r.buf[k]
    ensures Means(sent, arrived + {i}, Receiver(r.next, left[Number(i) := sent[i]]), n)
  {
    BufferGrows(sent, arrived, i, n, r.buf);
    FrameOfNumber(i, n);
    var buf := left[Number(i) := sent[i]];
    forall k | k in buf ensures EntryMeans(sent, arrived + {i}, n, k, buf[k]) {
      if k != Number(i) {
        assert EntryMeans(sent, arrived + {i}, n, k, r.buf[k]);
      }
    }
    NumbersDiffer(n, i);
  }

  /** One in-window arrival of a frame that never arrived before. */
  lemma DeliverMeans(sent: seq<Chunk>, arrived: set<nat>, r: Receiver, n: nat, i: nat)
    requires Means(sent, arrived, r, n)
    requires i < |sent| && i !in arrived && i < n + TWO16
    ensures var (r', out) := Deliver(r, Number(i), sent[i]);
      && Means(sent, arrived + {i}, r', n + |out|)
      && out == sent[n..n + |out|]
  {
    hide BufferMeans, Drain, Number;
    assert n <= i;
    if i == n {
      InOrderMeans(sent, arrived, r, n);
    } else {
      NumbersDiffer(n, i);
      OutOfOrderMeans(sent, arrived, r, n, i, Evict(r.buf, r.next));
    }
  }

  lemma BufferGrows(sent: seq<Chunk>, arrived: set<nat>, i: nat, n: nat, buf: map<u16, Chunk>)
    requires BufferMeans(sent, arrived, n, buf)
    ensures BufferMeans(sent, arrived + {i}, n, buf)
  {
    forall k | k in buf ensures EntryMeans(sent, arrived + {i}, n, k, buf[k]) {
      assert EntryMeans(sent, arrived, n, k, buf[k]);
    }
  }

  /** The buffer never holds more than MAX_REORDER_BUFFER entries, whatever arrives. */
  lemma BufferBounded(r: Receiver, s: u16, payload: Chunk)
    requires |r.buf| <= MAX_REORDER_BUFFER
    ensures |Deliver(r, s, payload).0.buf| <= MAX_REORDER_BUFFER
  {
    if s == r.next {
      DrainShrinks(Receiver(Succ(s), r.buf));
    }
  }

  lemma {:induction false} DrainShrinks(r: Receiver)
    ensures |Drain(r).0.buf| <= |r.buf|
    decreases |r.buf|
  {
    if r.next in r.buf {
      DrainShrinks(Receiver(Succ(r.next), r.buf - {r.next}));
    }
  }

  lemma ArrivedSnoc(arrivals: seq<nat>)
    requires arrivals != []
    ensures Arrived(arrivals) == Arrived(arrivals[..|arrivals| - 1]) + {arrivals[|arrivals| - 1]}
  {
    var init, last := arrivals[..|arrivals| - 1], arrivals[|arrivals| - 1];
    forall x | x in Arrived(arrivals) ensures x in Arrived(init) + {last} {
      var k :| 0 <= k < |arrivals| && arrivals[k] == x;
      if k < |init| { assert init[k] == x; }
    }
    forall x | x in Arrived(init) ensures x in Arrived(arrivals) {
      var k :| 0 <= k < |init| && init[k] == x;
      assert arrivals[k] == x;
    }
    assert arrivals[|arrivals| - 1] in Arrived(arrivals);
  }

  /** A run's hypotheses hold of every prefix of it. */
  lemma PrefixHypotheses(sent: seq<Chunk>, arrivals: seq<nat>)
    requires Named(sent, arrivals) && Distinct(arrivals) && InWindow(sent, arrivals)
    requires arrivals != []
    ensures var init := arrivals[..|arrivals| - 1];
      && Named(sent, init) && Distinct(init) && InWindow(sent, init)
      && arrivals[|arrivals| - 1] !in Arrived(init)
      && arrivals[|arrivals| - 1] < |Run(sent, init).out| + TWO16
  {
    var init := arrivals[..|arrivals| - 1];
    forall k | 0 <= k < |init| ensures init[k] < |Run(sent, init[..k]).out| + TWO16 {
      assert init[..k] == arrivals[..k];
      assert arrivals[k] < |Run(sent, arrivals[..k]).out| + TWO16;
    }
  }

  /** What holds after every run: the meaning of the state, and how much was handed over. */
  ghost predicate RunInvariant(sent: seq<Chunk>, arrived: set<nat>, st: State)
  {
    && Means(sent, arrived, st.r, |st.out|)
    && st.out == sent[..|st.out|]
    && |st.r.buf| <= MAX_REORDER_BUFFER
  }

  lemma StepInvariant(sent: seq<Chunk>, arrived: set<nat>, st: State, i: nat)
    requires RunInvariant(sent, arrived, st)
    requires i < |sent| && i !in arrived && i < |st.out| + TWO16
    ensures RunInvariant(sent, arrived + {i}, Arrive(sent, st, i))
  {
    hide BufferMeans, Drain, Evict, Number;
    var n := |st.out|;
    var (r, out) := Deliver(st.r, Number(i), sent[i]);
    assert Means(sent, arrived + {i}, r, n + |out|) && out == sent[n..n + |out|] by {
      DeliverMeans(sent, arrived, st.r, n, i);
    }
    assert |r.buf| <= MAX_REORDER_BUFFER by { BufferBounded(st.r, Number(i), sent[i]); }
    assert st.out + out == sent[..n + |out|] by {
      SliceAppend(sent, n, n + |out|);
    }
    assert |st.out + out| == n + |out|;
  }

  lemma {:induction false} RunMeans(sent: seq<Chunk>, arrivals: seq<nat>)
    requires Named(sent, arrivals) && Distinct(arrivals) && InWindow(sent, arrivals)
    ensures RunInvariant(sent, Arrived(arrivals), Run(sent, arrivals))
    decreases |arrivals|
  {
    if arrivals != [] {
      var init := arrivals[..|arrivals| - 1];
      PrefixHypotheses(sent, arrivals);
      RunMeans(sent, init);
      ArrivedSnoc(arrivals);
      StepInvariant(sent, Arrived(init), Run(sent, init), arrivals[|arrivals| - 1]);
    }
  }

  /** Safety across wrap-around: whatever was evicted, the application has been handed a prefix of
      what the sender wrote, and the buffer is bounded. */
  lemma ReorderSafety(sent: seq<Chunk>, arrivals: seq<nat>)
    requires Named(sent, arrivals) && Distinct(arrivals) && InWindow(sent, arrivals)
    ensures Run(sent, arrivals).out <= sent
    ensures |Run(sent, arrivals).r.buf| <= MAX_REORDER_BUFFER
  {
    RunMeans(sent, arrivals);
  }

  // ---- Completeness: runs in which nothing is evicted ---------------------------

  ghost predicate Evicts(r: Receiver, s: u16)
  {
    s != r.next && |r.buf| >= MAX_REORDER_BUFFER
  }

  ghost predicate NoEviction(sent: seq<Chunk>, arrivals: seq<nat>)
    requires Named(sent, arrivals)
  {
    forall k :: 0 <= k < |arrivals| ==> !Evicts(Run(sent, arrivals[..k]).r, Number(arrivals[k]))
  }

  /** Every arrived frame was handed over or is still buffered under its own number. */
  ghost predicate Keeps(arrived: set<nat>, n: nat, buf: map<u16, Chunk>)
  {
    forall j :: j in arrived && n <= j ==> j < n + TWO16 && Number(j) in buf
  }

  lemma {:induction false} DrainKeeps(arrived: set<nat>, r: Receiver, n: nat)
    requires r.next == Number(n) && Keeps(arrived, n, r.buf)
    ensures var (r', out) := Drain(r); Keeps(arrived, n + |out|, r'.buf)
    decreases |r.buf|
  {
    if r.next in r.buf {
      var rest := r.buf - {r.next};
      forall j | j in arrived && n + 1 <= j ensures j < n + 1 + TWO16 && Number(j) in rest {
        NumbersDiffer(n, j);
      }
      DrainKeeps(arrived, Receiver(Succ(r.next), rest), n + 1);
    }
  }

  lemma KeepsAfterNext(arrived: set<nat>, n: nat, buf: map<u16, Chunk>)
    requires Keeps(arrived, n, buf)
    ensures Keeps(arrived + {n}, n + 1, buf)
  {
  }

  lemma KeepsInserted(arrived: set<nat>, n: nat, buf: map<u16, Chunk>, i: nat, p: Chunk)
    requires Keeps(arrived, n, buf) && i < n + TWO16
    ensures Keeps(arrived + {i}, n, buf[Number(i) := p])
  {
    hide Number;
  }

  lemma DeliverKeeps(sent: seq<Chunk>, arrived: set<nat>, r: Receiver, n: nat, i: nat)
    requires Means(sent, arrived, r, n) && Keeps(arrived, n, r.buf)
    requires i < |sent| && i !in arrived && i < n + TWO16 && !Evicts(r, Number(i))
    ensures var (r', out) := Deliver(r, Number(i), sent[i]);
      Keeps(arrived + {i}, n + |out|, r'.buf)
  {
    hide BufferMeans, Drain, Keeps;
    assert n <= i;
    if i == n {
      KeepsAfterNext(arrived, n, r.buf);
      DrainKeeps(arrived + {i}, Receiver(Succ(r.next), r.buf), n + 1);
    } else {
      NumbersDiffer(n, i);
      KeepsInserted(arrived, n, r.buf, i, sent[i]);
    }
  }

  lemma StepKeeps(sent: seq<Chunk>, arrived: set<nat>, st: State, i: nat)
    requires RunInvariant(sent, arrived, st) && Keeps(arrived, |st.out|, st.r.buf)
    requires i < |sent| && i !in arrived && i < |st.out| + TWO16 && !Evicts(st.r, Number(i))
    ensures var st' := Arrive(sent, st, i); Keeps(arrived + {i}, |st'.out|, st'.r.buf)
  {
    DeliverKeeps(sent, arrived, st.r, |st.out|, i);
  }

  lemma {:induction false} RunKeeps(sent: seq<Chunk>, arrivals: seq<nat>)
    requires Named(sent, arrivals) && Distinct(arrivals) && InWindow(sent, arrivals)
    requires NoEviction(sent, arrivals)
    ensures var st := Run(sent, arrivals); Keeps(Arrived(arrivals), |st.out|, st.r.buf)
    decreases |arrivals|
  {
    hide Means, RunInvariant, Arrive, Number;
    if arrivals != [] {
      var init, i := arrivals[..|arrivals| - 1], arrivals[|arrivals| - 1];
      PrefixHypotheses(sent, arrivals);
      forall k | 0 <= k < |init| ensures !Evicts(Run(sent, init[..k]).r, Number(init[k])) {
        assert init[..k] == arrivals[..k];
        assert !Evicts(Run(sent, arrivals[..k]).r, Number(arrivals[k]));
      }
      RunKeeps(sent, init);
      RunMeans(sent, init);
      ArrivedSnoc(arrivals);
      StepKeeps(sent, Arrived(init), Run(sent, init), i);
    }
  }

  /** The hand-over stops exactly at the first frame that has not arrived. */
  lemma ReorderCompleteness(sent: seq<Chunk>, arrivals: seq<nat>, gap: nat)
    requires Named(sent, arrivals) && Distinct(arrivals) && InWindow(sent, arrivals)
    requires NoEviction(sent, arrivals)
    requires gap !in Arrived(arrivals) && forall j :: 0 <= j < gap ==> j in Arrived(arrivals)
    requires gap <= |sent|
    ensures Run(sent, arrivals).out == sent[..gap]
  {
    RunMeans(sent, arrivals);
    RunKeeps(sent, arrivals);
    var st := Run(sent, arrivals);
    var n := |st.out|;
    NothingSkipped(sent, Arrived(arrivals), st.r, n);
  }

  /** The first frame not handed over has not arrived. */
  lemma NothingSkipped(sent: seq<Chunk>, arrived: set<nat>, r: Receiver, n: nat)
    requires Means(sent, arrived, r, n) && Keeps(arrived, n, r.buf)
    ensures n !in arrived
  {
  }

  /** Order does not matter: two eviction-free runs over the same set of frames end in the same state. */
  lemma OrderDoesNotMatter(sent: seq<Chunk>, a: seq<nat>, b: seq<nat>)
    requires Named(sent, a) && Distinct(a) && InWindow(sent, a) && NoEviction(sent, a)
    requires Named(sent, b) && Distinct(b) && InWindow(sent, b) && NoEviction(sent, b)
    requires Arrived(a) == Arrived(b)
    ensures Run(sent, a) == Run(sent, b)
  {
    hide Arrived, Number;
    RunMeans(sent, a); RunKeeps(sent, a);
    RunMeans(sent, b); RunKeeps(sent, b);
    var arrived, p, q := Arrived(a), Run(sent, a), Run(sent, b);
    var n := |p.out|;
    NothingSkipped(sent, arrived, p.r, |p.out|);
    NothingSkipped(sent, arrived, q.r, |q.out|);
    assert n == |q.out|;
    BufferDetermined(sent, arrived, n, p.r.buf, q.r.buf);
    BufferDetermined(sent, arrived, n, q.r.buf, p.r.buf);
    assert p.r.buf == q.r.buf;
  }

  lemma FrameIsKept(arrived: set<nat>, n: nat, buf: map<u16, Chunk>, k: u16)
    requires Keeps(arrived, n, buf) && FrameOf(k, n) in arrived
    ensures k in buf
  {
  }

  lemma BufferDetermined(sent: seq<Chunk>, arrived: set<nat>, n: nat, a: map<u16, Chunk>, b: map<u16, Chunk>)
    requires BufferMeans(sent, arrived, n, a)
    requires BufferMeans(sent, arrived, n, b) && Keeps(arrived, n, b)
    ensures forall k :: k in a ==> k in b && a[k] == b[k]
  {
    forall k | k in a ensures k in b && a[k] == b[k] {
      assert EntryMeans(sent, arrived, n, k, a[k]);
      FrameIsKept(arrived, n, b, k);
      assert EntryMeans(sent, arrived, n, k, b[k]);
    }
  }

  /** Every arrival is at most 256 places past the next frame expected. */
  ghost predicate SlightlyReordered(sent: seq<Chunk>, arrivals: seq<nat>)
    requires Named(sent, arrivals)
  {
    forall k :: 0 <= k < |arrivals| ==> arrivals[k] <= |Run(sent, arrivals[..k]).out| + MAX_REORDER_BUFFER
  }

  /** Then nothing is evicted and no window is needed: the two hypotheses of completeness come for free. */
  lemma SlightReorderingNeverEvicts(sent: seq<Chunk>, arrivals: seq<nat>)
    requires Named(sent, arrivals) && Distinct(arrivals) && SlightlyReordered(sent, arrivals)
    ensures InWindow(sent, arrivals) && NoEviction(sent, arrivals)
  {
    forall k | 0 <= k < |arrivals| ensures arrivals[k] < |Run(sent, arrivals[..k]).out| + TWO16 {
      assert arrivals[k] <= |Run(sent, arrivals[..k]).out| + MAX_REORDER_BUFFER;
    }
    forall k | 0 <= k < |arrivals| ensures !Evicts(Run(sent, arrivals[..k]).r, Number(arrivals[k])) {
      ArrivalFits(sent, arrivals, k);
    }
  }

  lemma ArrivalFits(sent: seq<Chunk>, arrivals: seq<nat>, k: nat)
    requires Named(sent, arrivals) && Distinct(arrivals) && SlightlyReordered(sent, arrivals)
    requires InWindow(sent, arrivals) && k < |arrivals|
    ensures !Evicts(Run(sent, arrivals[..k]).r, Number(arrivals[k]))
  {
    hide Means, Number, Evicts, Arrive;
    var init, i := arrivals[..k], arrivals[k];
    assert init + arrivals[k..] == arrivals;
    Hypotheses(sent, init, arrivals[k..]);
    RunMeans(sent, init);
    ArrivedNearby(sent, arrivals, k);
    var st := Run(sent, init);
    assert i !in Arrived(init);
    assert i <= |st.out| + MAX_REORDER_BUFFER;
    RoomForOneMore(sent, Arrived(init), st.r, |st.out|, i);
  }

  lemma RoomForOneMore(sent: seq<Chunk>, arrived: set<nat>, r: Receiver, n: nat, i: nat)
    requires Means(sent, arrived, r, n) && i !in arrived && i <= n + MAX_REORDER_BUFFER
    requires forall j :: j in arrived ==> j <= n + MAX_REORDER_BUFFER
    ensures !Evicts(r, Number(i))
  {
    if i != n {
      FrameOfNumber(i, n);
      var near := Numbers(n, MAX_REORDER_BUFFER);
      forall x | x in r.buf ensures x in near && x != Number(i) {
        assert EntryMeans(sent, arrived, n, x, r.buf[x]);
        FrameOfNumber(n, n);
        NumberInRange(n, MAX_REORDER_BUFFER, FrameOf(x, n));
      }
      NumberInRange(n, MAX_REORDER_BUFFER, i);
      SubsetSize(r.buf.Keys + {Number(i)}, near);
    }
  }

  /** The numbers of frames n + 1 .. n + d. */
  function Numbers(n: nat, d: nat): (s: set<u16>)
    ensures |s| <= d
  {
    if d == 0 then {} else Numbers(n, d - 1) + {Number(n + d)}
  }

  lemma {:induction false} NumberInRange(n: nat, d: nat, j: nat)
    requires n < j <= n + d
    ensures Number(j) in Numbers(n, d)
    decreases d
  {
    if j < n + d {
      NumberInRange(n, d - 1, j);
    }
  }

  lemma {:induction false} SubsetSize(a: set<u16>, b: set<u16>)
    requires a <= b
    ensures |a| <= |b|
    decreases a
  {
    if a != {} {
      var x :| x in a;
      SubsetSize(a - {x}, b - {x});
    }
  }

  /** What has arrived so far stays within 256 places, because the hand-over only moves forward. */
  lemma {:induction false} ArrivedNearby(sent: seq<Chunk>, arrivals: seq<nat>, k: nat)
    requires Named(sent, arrivals) && SlightlyReordered(sent, arrivals) && k <= |arrivals|
    ensures forall j :: j in Arrived(arrivals[..k]) ==> j <= |Run(sent, arrivals[..k]).out| + MAX_REORDER_BUFFER
    decreases k
  {
    hide Deliver, Number;
    if k > 0 {
      ArrivedNearby(sent, arrivals, k - 1);
      assert arrivals[..k][..k - 1] == arrivals[..k - 1];
      ArrivedSnoc(arrivals[..k]);
      assert arrivals[k - 1] <= |Run(sent, arrivals[..k - 1]).out| + MAX_REORDER_BUFFER;
    }
  }

  // ---- Where the assumptions come from ---------------------------------------

  /** Outside the window a frame can be taken for another one. */
  lemma AliasedFrameIsHandedOver(sent: seq<Chunk>)
    requires |sent| == TWO16 + 1 && sent[0] != sent[TWO16]
    ensures Named(sent, [TWO16]) && Distinct([TWO16])
    ensures !(Run(sent, [TWO16]).out <= sent)
  {
    assert [TWO16][..0] == [];
    assert Run(sent, []) == State(EMPTY, []);
    NumberIsMod(TWO16);
    assert Drain(Receiver(1, map[])) == (Receiver(1, map[]), []);
    assert Arrive(sent, State(EMPTY, []), TWO16).out == [sent[TWO16]];
  }

  /** Frame j arrived, was not handed over, and is no longer buffered. */
  ghost predicate Lost(arrived: set<nat>, n: nat, buf: map<u16, Chunk>, j: nat)
  {
    j in arrived && n <= j < n + TWO16 && Number(j) !in buf
  }

  lemma {:induction false} DrainStopsAtLost(r: Receiver, n: nat, j: nat)
    requires r.next == Number(n) && n <= j < n + TWO16 && Number(j) !in r.buf
    ensures var (r', out) := Drain(r);
      n + |out| <= j && r'.buf.Keys <= r.buf.Keys
    decreases |r.buf|
  {
    if r.next in r.buf {
      DrainStopsAtLost(Receiver(Succ(r.next), r.buf - {r.next}), n + 1, j);
    }
  }

  lemma LostStaysLost(sent: seq<Chunk>, arrived: set<nat>, r: Receiver, n: nat, i: nat, j: nat)
    requires Means(sent, arrived, r, n) && Lost(arrived, n, r.buf, j)
    requires i < |sent| && i !in arrived && i < n + TWO16
    ensures var (r', out) := Deliver(r, Number(i), sent[i]);
      Lost(arrived + {i}, n + |out|, r'.buf, j)
  {
    assert n <= i && i != j;
    FrameOfNumber(i, n);
    FrameOfNumber(j, n);
    if i == n {
      DrainStopsAtLost(Receiver(Succ(r.next), r.buf), n + 1, j);
    } else {
      NumbersDiffer(n, i);
    }
  }

  /** The state in which frame j is lost. */
  ghost predicate LostIn(sent: seq<Chunk>, arrivals: seq<nat>, j: nat)
    requires Named(sent, arrivals)
  {
    var st := Run(sent, arrivals);
    Lost(Arrived(arrivals), |st.out|, st.r.buf, j)
  }

  lemma LostStep(sent: seq<Chunk>, arrivals: seq<nat>, j: nat)
    requires Named(sent, arrivals) && Distinct(arrivals) && InWindow(sent, arrivals)
    requires arrivals != [] && LostIn(sent, arrivals[..|arrivals| - 1], j)
    ensures LostIn(sent, arrivals, j)
  {
    var init := arrivals[..|arrivals| - 1];
    PrefixHypotheses(sent, arrivals);
    RunMeans(sent, init);
    ArrivedSnoc(arrivals);
    var st := Run(sent, init);
    LostStaysLost(sent, Arrived(init), st.r, |st.out|, arrivals[|arrivals| - 1], j);
  }

  lemma {:induction false} LostForever(sent: seq<Chunk>, arrivals: seq<nat>, more: seq<nat>, j: nat)
    requires Named(sent, arrivals + more) && Distinct(arrivals + more) && InWindow(sent, arrivals + more)
    requires Named(sent, arrivals) && LostIn(sent, arrivals, j)
    ensures LostIn(sent, arrivals + more, j)
    decreases |more|
  {
    if more == [] {
      assert arrivals + more == arrivals;
    } else {
      var all, init := arrivals + more, more[..|more| - 1];
      assert all[..|all| - 1] == arrivals + init;
      PrefixHypotheses(sent, all);
      LostForever(sent, arrivals, init, j);
      LostStep(sent, all, j);
    }
  }

  /** The source says eviction keeps a stream from being dragged to a halt. It does the opposite:
      once an arrival i evicts, no later arrivals ever get the stream past the evicted frame. */
  lemma EvictionStallsForever(sent: seq<Chunk>, arrivals: seq<nat>, i: nat, more: seq<nat>) returns (j: nat)
    requires Named(sent, arrivals + [i] + more) && Distinct(arrivals + [i] + more)
    requires InWindow(sent, arrivals + [i] + more)
    requires Named(sent, arrivals) && Evicts(Run(sent, arrivals).r, Number(i))
    ensures j in Arrived(arrivals) && |Run(sent, arrivals + [i] + more).out| <= j
  {
    var upto := arrivals + [i];
    assert upto[..|upto| - 1] == arrivals && upto[|upto| - 1] == i;
    Hypotheses(sent, upto, more);
    PrefixHypotheses(sent, upto);
    RunMeans(sent, arrivals);
    ArrivedSnoc(upto);
    var st := Run(sent, arrivals);
    j := EvictionLoses(sent, Arrived(arrivals), st.r, |st.out|, i);
    LostForever(sent, upto, more, j);
  }

  lemma EvictionLoses(sent: seq<Chunk>, arrived: set<nat>, r: Receiver, n: nat, i: nat) returns (j: nat)
    requires Means(sent, arrived, r, n) && Evicts(r, Number(i))
    requires i < |sent| && i !in arrived && i < n + TWO16
    ensures j in arrived
    ensures var (r', out) := Deliver(r, Number(i), sent[i]); Lost(arrived + {i}, n + |out|, r'.buf, j)
  {
    var left := Evict(r.buf, r.next);
    var k :| IsOldest(r.buf, r.next, k) && left == r.buf - {k};
    assert EntryMeans(sent, arrived, n, k, r.buf[k]);
    j := FrameOf(k, n);
    FrameOfNumber(i, n);
  }

  /** The hypotheses of a longer run hold of a shorter one. */
  lemma {:induction false} Hypotheses(sent: seq<Chunk>, arrivals: seq<nat>, more: seq<nat>)
    requires Named(sent, arrivals + more) && Distinct(arrivals + more) && InWindow(sent, arrivals + more)
    ensures Named(sent, arrivals) && Distinct(arrivals) && InWindow(sent, arrivals)
    decreases |more|
  {
    if more == [] {
      assert arrivals + more == arrivals;
    } else {
      var all, init := arrivals + more, more[..|more| - 1];
      assert all[..|all| - 1] == arrivals + init;
      PrefixHypotheses(sent, all);
      Hypotheses(sent, arrivals, init);
    }
  }

  // ---- An eviction happens ------------------------------------------------------------------------

  /** The frames 1 to k, in order, frame 0 missing. */
  function Ahead(k: nat): seq<nat>
  {
    if k == 0 then [] else Ahead(k - 1) + [k]
  }

  lemma {:induction false} AheadIs(k: nat)
    ensures |Ahead(k)| == k && forall j :: 0 <= j < k ==> Ahead(k)[j] == j + 1
  {
    if k > 0 { AheadIs(k - 1); }
  }

  /** The frames 1 to k wait, and frame 0 is expected. */
  ghost predicate Waiting(st: State, k: nat)
  {
    st.out == [] && st.r.next == 0 && |st.r.buf| == k && forall s :: s in st.r.buf ==> 1 <= s <= k
  }

  lemma OneMoreWaits(sent: seq<Chunk>, st: State, k: nat)
    requires k + 1 < |sent| && k < MAX_REORDER_BUFFER && Waiting(st, k)
    ensures Waiting(Arrive(sent, st, k + 1), k + 1)
  {
    NumberIsMod(k + 1);
    hide Number, Drain;
    assert Evict(st.r.buf, st.r.next) == st.r.buf;
  }

  lemma NothingWaits(sent: seq<Chunk>)
    ensures Waiting(Run(sent, []), 0)
  {
  }

  lemma RunNext(sent: seq<Chunk>, arrivals: seq<nat>, i: nat)
    requires Named(sent, arrivals) && i < |sent|
    ensures Named(sent, arrivals + [i]) && Run(sent, arrivals + [i]) == Arrive(sent, Run(sent, arrivals), i)
  {
    assert (arrivals + [i])[..|arrivals|] == arrivals;
  }

  lemma {:induction false} AheadWaits(sent: seq<Chunk>, k: nat)
    requires k < |sent| && k <= MAX_REORDER_BUFFER
    ensures Named(sent, Ahead(k)) && Waiting(Run(sent, Ahead(k)), k)
    decreases k
  {
    hide Run, Number, Waiting, Arrive, Named;
    if k == 0 {
      NothingWaits(sent);
      NobodyNamed(sent);
    } else {
      AheadWaits(sent, k - 1);
      RunNext(sent, Ahead(k - 1), k);
      OneMoreWaits(sent, Run(sent, Ahead(k - 1)), k - 1);
    }
  }

  lemma NobodyNamed(sent: seq<Chunk>)
    ensures Named(sent, [])
  {
  }

  lemma AheadInWindow(sent: seq<Chunk>, n: nat)
    requires n + 1 < |sent| && n < TWO16 - 1
    ensures var all := Ahead(n) + [n + 1]; Named(sent, all) && Distinct(all) && InWindow(sent, all)
  {
    AheadIs(n);
    hide Ahead, Run;
  }

  /** With frame 0 late, the 257th frame after it evicts: such runs exist for every longer transmission. */
  lemma EvictionIsReachable(sent: seq<Chunk>, n: nat)
    requires n == MAX_REORDER_BUFFER && |sent| >= n + 2
    ensures var all := Ahead(n) + [n + 1]; Named(sent, all) && Distinct(all) && InWindow(sent, all)
    ensures Named(sent, Ahead(n)) && Evicts(Run(sent, Ahead(n)).r, Number(n + 1))
  {
    hide Ahead, Run, Number, InWindow;
    AheadWaits(sent, n);
    AheadInWindow(sent, n);
    NumberIsMod(n + 1);
  }

  // ---- One arrival, entry by entry ---------------------------------------------

  /** d is how far k lies ahead of next as a signed 16-bit number. */
  predicate AheadBy(k: u16, next: u16, d: int)
  {
    -0x8000 <= d < 0x8000 && (k - next - d) % 0x1_0000 == 0
  }

  lemma DistanceIsSigned(k: u16, next: u16, d: int)
    ensures AheadBy(k, next, d) <==> d == SignedDistance(k, next)
  {
  }

  /** No buffered number lies further behind than k. */
  ghost predicate FurthestBehind(buf: map<u16, Chunk>, next: u16, k: u16)
  {
    k in buf && forall o: u16, d: int, e: int :: o in buf && AheadBy(k, next, d) && AheadBy(o, next, e) ==> d <= e
  }

  lemma OldestIsFurthestBehind(buf: map<u16, Chunk>, next: u16, k: u16)
    requires IsOldest(buf, next, k)
    ensures FurthestBehind(buf, next, k)
  {
    forall o: u16, d: int, e: int | o in buf && AheadBy(k, next, d) && AheadBy(o, next, e) ensures d <= e {
      DistanceIsSigned(k, next, d);
      DistanceIsSigned(o, next, e);
    }
  }

  /** A frame out of turn waits, and hands nothing over; in a full buffer the one furthest behind makes room. */
  lemma OutOfTurnWaits(r: Receiver, s: u16, payload: Chunk)
    requires s != r.next
    ensures var (r', out) := Deliver(r, s, payload);
      && out == [] && r'.next == r.next
      && (|r.buf| < 256 ==> r'.buf == r.buf[s := payload])
      && (|r.buf| >= 256 ==> exists k: u16 :: FurthestBehind(r.buf, r.next, k) && r'.buf == (r.buf - {k})[s := payload])
  {
    hide SignedDistance, AheadBy, FurthestBehind;
    if |r.buf| >= 256 {
      assert Evicted(r.buf, r.next, Evict(r.buf, r.next));
      var k: u16 :| IsOldest(r.buf, r.next, k) && Evict(r.buf, r.next) == r.buf - {k};
      OldestIsFurthestBehind(r.buf, r.next, k);
    }
  }

  function Nth(next: u16, i: nat): u16 { (next + i) % 0x1_0000 }

  /** The frames numbered from next on, without a gap, leave the buffer in that order. */
  ghost predicate HandsOver(r: Receiver, r': Receiver, out: seq<Chunk>)
  {
    && (forall i :: 0 <= i < |out| ==> Nth(r.next, i) in r.buf && out[i] == r.buf[Nth(r.next, i)])
    && r'.next == Nth(r.next, |out|) && r'.next !in r'.buf
    && (forall k :: k in r'.buf ==> k in r.buf && r'.buf[k] == r.buf[k])
    && (forall k :: k in r.buf ==> (k !in r'.buf <==> exists i :: 0 <= i < |out| && Nth(r.next, i) == k))
  }

  lemma {:induction false} DrainHandsOver(r: Receiver)
    ensures var (r', out) := Drain(r); HandsOver(r, r', out)
    decreases |r.buf|
  {
    if r.next in r.buf {
      var less := Receiver(Succ(r.next), r.buf - {r.next});
      var (r', rest) := Drain(less);
      DrainHandsOver(less);
      HandsOverOneMore(r, less, r', rest);
    }
  }

  lemma HandsOverOneMore(r: Receiver, less: Receiver, r': Receiver, rest: seq<Chunk>)
    requires r.next in r.buf && less == Receiver(Succ(r.next), r.buf - {r.next}) && HandsOver(less, r', rest)
    ensures HandsOver(r, r', [r.buf[r.next]] + rest)
  {
    var out := [r.buf[r.next]] + rest;
    assert Nth(r.next, 0) == r.next;
    forall i: nat ensures Nth(less.next, i) == Nth(r.next, i + 1) {}
    hide Nth;
    forall i | 0 <= i < |out| ensures Nth(r.next, i) in r.buf && out[i] == r.buf[Nth(r.next, i)] {
      if i > 0 { assert out[i] == rest[i - 1] && Nth(less.next, i - 1) == Nth(r.next, i); }
    }
    forall k | k in r.buf ensures k !in r'.buf <==> exists i :: 0 <= i < |out| && Nth(r.next, i) == k {
      if k !in r'.buf && k != r.next {
        var i :| 0 <= i < |rest| && Nth(less.next, i) == k;
        assert Nth(r.next, i + 1) == k;
      }
      if i :| 0 <= i < |out| && Nth(r.next, i) == k {
        if i > 0 { assert Nth(less.next, i - 1) == k; }
      }
    }
  }

  /** The frame that is due is handed over, and behind it whatever waits without a gap. */
  lemma InTurnHandsOver(r: Receiver, payload: Chunk)
    ensures var (r', out) := Deliver(r, r.next, payload);
      out != [] && out[0] == payload && HandsOver(Receiver(Nth(r.next, 1), r.buf), r', out[1..])
  {
    DrainHandsOver(Receiver(Succ(r.next), r.buf));
    hide HandsOver, Drain;
  }
}
