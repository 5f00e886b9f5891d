/** One logical stream: chunked writes, reordering reads through a bounded queue
    (pkg/sessionclient/stream.go). */
module Streams {
  import opened Machine
  import opened Reorder

  const MAX_STREAM_CHUNK: nat := 16 * 1024
  const QUEUE_CAPACITY: nat := 64

  /** Why a stream ended, as its readers see it. */
  datatype CloseErr = Closed | Overflow | ResetByPeer

  datatype WriteErr = WriteClosed | SendFailed

  datatype ReadResult = Data(chunk: Chunk) | Failed(err: CloseErr) | WouldBlock

  /** The chunks of one Write. */
  function Chunks(p: seq<u8>): (cs: seq<Chunk>)
    ensures forall k :: 0 <= k < |cs| ==> 0 < |cs[k]| <= MAX_STREAM_CHUNK
  {
    if p == [] then []
    else if |p| <= MAX_STREAM_CHUNK then [p]
    else [p[..MAX_STREAM_CHUNK]] + Chunks(p[MAX_STREAM_CHUNK..])
  }

  lemma {:induction false} ChunksLoseNothing(p: seq<u8>)
    ensures Flatten(Chunks(p)) == p
  {
    if |p| > MAX_STREAM_CHUNK {
      ChunksLoseNothing(p[MAX_STREAM_CHUNK..]);
    }
  }

  /** How many of n sends succeed before the first failure. */
  function Accepted(link: nat -> bool, n: nat): (k: nat)
    ensures k <= n && (forall j :: 0 <= j < k ==> link(j)) && (k < n ==> !link(k))
  {
    if n == 0 then 0
    else
      var k := Accepted(link, n - 1);
      if k == n - 1 && link(n - 1) then n else k
  }

  lemma AcceptedIs(link: nat -> bool, n: nat, k: nat)
    requires k <= n && (forall j :: 0 <= j < k ==> link(j)) && (k < n ==> !link(k))
    ensures Accepted(link, n) == k
  {
  }

  /** The frames that carry the chunks cs, the first of them being the sender's n-th. */
  function OnWire(n: nat, cs: seq<Chunk>): seq<(u16, Chunk)>
  {
    if cs == [] then []
    else OnWire(n, cs[..|cs| - 1]) + [(Number(n + |cs| - 1), cs[|cs| - 1])]
  }

  lemma {:induction false} WireCarriesTheChunks(n: nat, cs: seq<Chunk>, i: nat)
    requires i < |cs|
    ensures |OnWire(n, cs)| == |cs| && OnWire(n, cs)[i] == (Number(n + i), cs[i])
    decreases |cs|
  {
    hide Number;
    if |cs| > 1 {
      WireCarriesTheChunks(n, cs[..|cs| - 1], if i < |cs| - 1 then i else 0);
    }
  }

  /** The i-th turn of the chunking loop cuts the i-th chunk. */
  lemma NextChunk(p: seq<u8>, off: nat, end: nat, cs: seq<Chunk>, i: nat)
    requires off < |p| && i <= |cs| && cs[i..] == Chunks(p[off..])
    requires end == if off + MAX_STREAM_CHUNK > |p| then |p| else off + MAX_STREAM_CHUNK
    ensures i < |cs| && cs[i] == p[off..end] && cs[i + 1..] == Chunks(p[end..])
    ensures end == |p| ==> i + 1 == |cs|
  {
    var rest, chunk := p[off..], p[off..end];
    if |rest| > MAX_STREAM_CHUNK {
      assert rest[..MAX_STREAM_CHUNK] == chunk && rest[MAX_STREAM_CHUNK..] == p[end..];
    } else {
      assert rest == chunk && p[end..] == [];
    }
    assert cs[i] == cs[i..][0] && cs[i + 1..] == cs[i..][1..];
  }

  /** Sender bookkeeping: `numbered` frames so far and the frames the transport took. */
  datatype Sender = Sender(numbered: seq<Chunk>, wire: seq<(u16, Chunk)>)

  /** `now` is `was` after the first k chunks of a Write were numbered and sent, `total` bytes in all. */
  ghost predicate SentSoFar(was: Sender, cs: seq<Chunk>, k: nat, now: Sender, total: nat)
    requires k <= |cs|
  {
    && now.numbered == was.numbered + cs[..k]
    && now.wire == was.wire + OnWire(|was.numbered|, cs[..k])
    && total == |Flatten(cs[..k])|
  }

  lemma SentOneMore(was: Sender, cs: seq<Chunk>, k: nat, now: Sender, total: nat)
    requires k < |cs| && SentSoFar(was, cs, k, now, total)
    ensures now.numbered + [cs[k]] == was.numbered + cs[..k + 1]
    ensures SentSoFar(was, cs, k + 1,
                      Sender(now.numbered + [cs[k]], now.wire + [(Number(|now.numbered|), cs[k])]), total + |cs[k]|)
  {
    hide Number;
    assert cs[..k + 1] == cs[..k] + [cs[k]];
    assert cs[..k + 1][..k] == cs[..k];
    FlattenConcat(cs[..k], [cs[k]]);
    assert Flatten([cs[k]]) == cs[k] + Flatten([]);
  }

  /** Where the chunking loop stands: k chunks of p sent, the rest of p still to be cut. */
  ghost predicate Going(was: Sender, p: seq<u8>, off: nat, k: nat, now: Sender, total: nat)
  {
    && off <= |p| && k <= |Chunks(p)| && (off == |p| ==> k == |Chunks(p)|)
    && Chunks(p)[k..] == Chunks(p[off..])
    && SentSoFar(was, Chunks(p), k, now, total)
  }

  lemma GoesOn(was: Sender, p: seq<u8>, off: nat, end: nat, k: nat, now: Sender, total: nat)
    requires Going(was, p, off, k, now, total) && off < |p|
    requires end == if off + MAX_STREAM_CHUNK > |p| then |p| else off + MAX_STREAM_CHUNK
    ensures k < |Chunks(p)| && Chunks(p)[k] == p[off..end]
    ensures now.numbered == was.numbered + Chunks(p)[..k]
    ensures now.numbered + [p[off..end]] == was.numbered + Chunks(p)[..k + 1]
    ensures Going(was, p, end, k + 1,
                  Sender(now.numbered + [p[off..end]], now.wire + [(Number(|now.numbered|), p[off..end])]),
                  total + end - off)
  {
    hide Number, SentSoFar, Chunks;
    NextChunk(p, off, end, Chunks(p), k);
    SentOneMore(was, Chunks(p), k, now, total);
    SentMeans(was, Chunks(p), k, now, total);
  }

  lemma SentMeans(was: Sender, cs: seq<Chunk>, k: nat, now: Sender, total: nat)
    requires k <= |cs| && SentSoFar(was, cs, k, now, total)
    ensures now.numbered == was.numbered + cs[..k]
  {
  }

  lemma GoingStarts(was: Sender, p: seq<u8>)
    ensures Going(was, p, 0, 0, was, 0)
  {
    assert p[0..] == p && (p == [] ==> Chunks(p) == []);
    assert Chunks(p)[0..] == Chunks(p);
  }

  lemma GoingUpTo(was: Sender, p: seq<u8>, off: nat, k: nat, now: Sender, total: nat)
    requires Going(was, p, off, k, now, total)
    ensures k <= |Chunks(p)| && SentSoFar(was, Chunks(p), k, Sender(was.numbered + Chunks(p)[..k], now.wire), total)
  {
  }

  lemma GoingEnds(was: Sender, p: seq<u8>, k: nat, now: Sender, total: nat)
    requires Going(was, p, |p|, k, now, total)
    ensures k == |Chunks(p)| && now.numbered == was.numbered + Chunks(p)[..k]
    ensures SentSoFar(was, Chunks(p), k, Sender(was.numbered + Chunks(p)[..k], now.wire), total)
  {
  }

  /** What a channel of QUEUE_CAPACITY takes of `out` when it already holds q. */
  function Taken(q: seq<Chunk>, out: seq<Chunk>): seq<Chunk>
    requires |q| <= QUEUE_CAPACITY
  {
    var room := QUEUE_CAPACITY - |q|;
    if |out| <= room then out else out[..room]
  }

  /** The application's side: all that push was given, the queue, whether anything was dropped, the error noted. */
  datatype Intake = Intake(emitted: seq<Chunk>, inq: seq<Chunk>, lost: bool, closeErr: Option<CloseErr>)

  ghost function PushAll(a: Intake, out: seq<Chunk>): Intake
    requires |a.inq| <= QUEUE_CAPACITY
  {
    var overflows := |a.inq| + |out| > QUEUE_CAPACITY;
    Intake(a.emitted + out, a.inq + Taken(a.inq, out), a.lost || overflows,
           if overflows && a.closeErr == None then Some(Overflow) else a.closeErr)
  }

  lemma PushInOrder(a: Intake, out: seq<Chunk>, more: seq<Chunk>)
    requires |a.inq| <= QUEUE_CAPACITY
    ensures |PushAll(a, out).inq| <= QUEUE_CAPACITY
    ensures PushAll(PushAll(a, out), more) == PushAll(a, out + more)
  {
    AppendAssoc(a.emitted, out, more);
    var q := a.inq + Taken(a.inq, out);
    assert q + Taken(q, more) == a.inq + Taken(a.inq, out + more);
  }

  class Stream {
    var sendSeq: u16
    var recvNext: u16
    var recvBuf: map<u16, Chunk>
    var inq: seq<Chunk>
    var closed: bool
    var closeErr: Option<CloseErr>

    /** Payload of the i-th frame numbered by Write, and the frames the transport took. */
    ghost var numbered: seq<Chunk>
    ghost var wire: seq<(u16, Chunk)>
    /** Everything handed to push, everything read, and whether push ever dropped anything. */
    ghost var emitted: seq<Chunk>
    ghost var read: seq<Chunk>
    ghost var lost: bool

    ghost predicate Valid()
      reads this
    {
      && sendSeq == Number(|numbered|)
      && |recvBuf| <= MAX_REORDER_BUFFER
      && |inq| <= QUEUE_CAPACITY
      && (!lost ==> emitted == read + inq)
      && (lost ==> closeErr != None)
    }

    ghost function Sent(): Sender
      reads this
    {
      Sender(numbered, wire)
    }

    ghost function App(): Intake
      reads this
    {
      Intake(emitted, inq, lost, closeErr)
    }

    ghost function View(): Receiver
      reads this
    {
      Receiver(recvNext, recvBuf)
    }

    constructor ()
      ensures Valid() && View() == EMPTY && !closed && closeErr == None
      ensures numbered == [] && wire == [] && emitted == [] && read == [] && inq == [] && !lost
    {
      sendSeq, recvNext, recvBuf := 0, 0, map[];
      inq, closed, closeErr := [], false, None;
      numbered, wire, emitted, read, lost := [], [], [], [], false;
    }

    /** Numbers a chunk and offers it to the transport. A refused chunk has consumed its number. */
    method SendChunk(chunk: Chunk, accepted: bool)
      requires sendSeq == Number(|numbered|)
      modifies this`sendSeq, this`numbered, this`wire
      ensures sendSeq == Number(|numbered|)
      ensures numbered == old(numbered) + [chunk]
      ensures wire == if accepted then old(wire) + [(Number(|old(numbered)|), chunk)] else old(wire)
    {
      var s := sendSeq;
      sendSeq := Succ(sendSeq);
      numbered := numbered + [chunk];
      if accepted {
        wire := wire + [(s, chunk)];
      }
    }

    /** `link` says which of the chunks of this call the transport accepts. */
    method Write(p: seq<u8>, link: nat -> bool) returns (total: nat, err: Option<WriteErr>)
      requires Valid()
      modifies this`sendSeq, this`numbered, this`wire
      ensures Valid()
      ensures closed ==> total == 0 && err == Some(WriteClosed) && numbered == old(numbered) && wire == old(wire)
      ensures !closed ==>
        var cs := Chunks(p);
        var k := Accepted(link, |cs|);
        && numbered == old(numbered) + cs[..if k < |cs| then k + 1 else k]
        && wire == old(wire) + OnWire(|old(numbered)|, cs[..k])
        && total == |Flatten(cs[..k])|
        && err == (if k < |cs| then Some(SendFailed) else None)
    {
      if closed {
        return 0, Some(WriteClosed);
      }
      var k, failed;
      total, k, failed := WriteChunks(p, link);
      AcceptedIs(link, |Chunks(p)|, k);
      err := if failed then Some(SendFailed) else None;
    }

    /** The chunking loop; k chunks were accepted. */
    method WriteChunks(p: seq<u8>, link: nat -> bool) returns (total: nat, k: nat, failed: bool)
      requires sendSeq == Number(|numbered|)
      modifies this`sendSeq, this`numbered, this`wire
      ensures sendSeq == Number(|numbered|)
      ensures k <= |Chunks(p)| && (forall j :: 0 <= j < k ==> link(j)) && failed == (k < |Chunks(p)|)
      ensures failed ==> !link(k)
      ensures numbered == old(numbered) + Chunks(p)[..if failed then k + 1 else k]
      ensures SentSoFar(old(Sent()), Chunks(p), k, Sender(old(numbered) + Chunks(p)[..k], wire), total)
    {
      hide Number, SentSoFar, Chunks, Going;
      ghost var was := Sent();
      GoingStarts(was, p);
      total, k := 0, 0;
      var off := 0;
      while off < |p|
        invariant 0 <= off <= |p| && Going(was, p, off, k, Sent(), total)
        invariant sendSeq == Number(|numbered|) && forall j :: 0 <= j < k ==> link(j)
      {
        var end := if off + MAX_STREAM_CHUNK > |p| then |p| else off + MAX_STREAM_CHUNK;
        var chunk := p[off..end];
        GoesOn(was, p, off, end, k, Sent(), total);
        ghost var before := Sent();
        SendChunk(chunk, link(k));
        if !link(k) {
          GoingUpTo(was, p, off, k, before, total);
          return total, k, true;
        }
        total := total + |chunk|;
        off := end;
        k := k + 1;
      }
      GoingEnds(was, p, k, Sent(), total);
      failed := false;
    }

    /** A non-blocking send on the application queue; a full queue drops the chunk. */
    method Push(data: Chunk)
      requires Valid()
      modifies this`inq, this`closeErr, this`emitted, this`lost
      ensures Valid()
      ensures App() == PushAll(old(App()), [data])
    {
      emitted := emitted + [data];
      if |inq| < QUEUE_CAPACITY {
        inq := inq + [data];
      } else {
        lost := true;
        if closeErr == None {
          closeErr := Some(Overflow);
        }
      }
    }

    /** Removes the buffered number with the least signed distance from the one expected next. */
    method EvictOldest()
      requires |recvBuf| == MAX_REORDER_BUFFER
      modifies this`recvBuf
      ensures recvBuf == Evict(old(recvBuf), recvNext)
    {
      var keys := recvBuf.Keys;
      var oldest: u16 := 0;
      var first := true;
      while keys != {}
        invariant keys <= recvBuf.Keys
        invariant first ==> keys == recvBuf.Keys
        invariant !first ==> oldest in recvBuf
        invariant !first ==> forall o :: o in recvBuf && o !in keys ==>
          SignedDistance(oldest, recvNext) <= SignedDistance(o, recvNext)
        decreases keys
      {
        var k :| k in keys;
        if first || SignedDistance(k, recvNext) < SignedDistance(oldest, recvNext) {
          oldest, first := k, false;
        }
        keys := keys - {k};
      }
      assert IsOldest(recvBuf, recvNext, oldest);
      ghost var full := recvBuf;
      recvBuf := recvBuf - {oldest};
      ghost var k :| IsOldest(full, recvNext, k) && Evict(full, recvNext) == full - {k};
      OldestIsUnique(full, recvNext, oldest, k);
    }

    /** One decrypted frame. */
    method Deliver(s: u16, payload: Chunk)
      requires Valid()
      modifies this`recvNext, this`recvBuf, this`inq, this`closeErr, this`emitted, this`lost
      ensures Valid()
      ensures var (r, out) := Reorder.Deliver(old(View()), s, payload);
        View() == r && App() == PushAll(old(App()), out)
    {
      if recvNext == s {
        recvNext := Succ(recvNext);
        Push(payload);
        label pushed:
        DrainBuffer();
        ghost var rest := Drain(old@pushed(View())).1;
        PushInOrder(old(App()), [payload], rest);
        return;
      }
      BufferBounded(View(), s, payload);
      if |recvBuf| >= MAX_REORDER_BUFFER {
        EvictOldest();
      }
      recvBuf := recvBuf[s := payload];
    }

    /** Hands over everything that is contiguous by now. */
    method DrainBuffer()
      requires Valid()
      modifies this`recvNext, this`recvBuf, this`inq, this`closeErr, this`emitted, this`lost
      ensures Valid()
      ensures var (r, out) := Drain(old(View())); View() == r && App() == PushAll(old(App()), out)
    {
      ghost var out: seq<Chunk> := [];
      assert PushAll(App(), []) == App();
      assert out + Drain(View()).1 == Drain(View()).1;
      hide PushAll;
      while recvNext in recvBuf
        invariant Valid()
        invariant var (r, rest) := Drain(View()); (r, out + rest) == Drain(old(View()))
        invariant App() == PushAll(old(App()), out)
        decreases |recvBuf|
      {
        var next := recvBuf[recvNext];
        PushInOrder(old(App()), out, [next]);
        AppendAssoc(out, [next], Drain(Receiver(Succ(recvNext), recvBuf - {recvNext})).1);
        recvBuf := recvBuf - {recvNext};
        recvNext := Succ(recvNext);
        Push(next);
        out := out + [next];
      }
      assert out + [] == out;
    }

    /** Buffered chunks come before the end of the stream, and in the order they were handed over. */
    method ReadMessage() returns (res: ReadResult)
      requires Valid()
      modifies this`inq, this`read
      ensures Valid()
      ensures old(inq) != [] ==> res == Data(old(inq)[0]) && inq == old(inq)[1..] && read == old(read) + [old(inq)[0]]
      ensures old(inq) == [] ==> inq == [] && read == old(read)
      ensures old(inq) == [] ==> res == (if !closed then WouldBlock
                                         else if closeErr == None then Failed(Closed) else Failed(closeErr.value))
      ensures !lost ==> read <= emitted && (res.Failed? ==> read == emitted)
    {
      if inq != [] {
        var data := inq[0];
        assert old(inq) == [data] + inq[1..];
        inq := inq[1..];
        read := read + [data];
        return Data(data);
      }
      if !closed {
        return WouldBlock;
      }
      if closeErr != None {
        return Failed(closeErr.value);
      }
      return Failed(Closed);
    }

    /** Read(p): as many bytes as fit, the rest of the chunk back into the queue, which has room for it. */
    method Read(n: nat) returns (res: ReadResult)
      requires Valid()
      modifies this`inq, this`read
      ensures |inq| <= QUEUE_CAPACITY
      ensures old(inq) != [] ==> (res, inq) == (Data(ReadOff(old(inq), n).0), ReadOff(old(inq), n).1)
      ensures old(inq) == [] ==> inq == [] && res == (if !closed then WouldBlock
                                                      else if closeErr == None then Failed(Closed) else Failed(closeErr.value))
      ensures (old(inq) != [] ==> |old(inq)[0]| <= n) ==> Valid()
    {
      if inq != [] {
        var data := inq[0];
        inq := inq[1..];
        read := read + [data];
        if n < |data| {
          if |inq| < QUEUE_CAPACITY { inq := inq + [data[n..]]; }
          return Data(data[..n]);
        }
        return Data(data);
      }
      if !closed {
        return WouldBlock;
      }
      return Failed(if closeErr != None then closeErr.value else Closed);
    }

    /** The peer's close or reset; `first` says the table entry must be dropped (once.Do). */
    method MarkRemoteClosed(reset: bool) returns (first: bool)
      requires Valid()
      modifies this`closed, this`closeErr
      ensures Valid() && closed && first == !old(closed)
      ensures closeErr ==
        if reset then Some(ResetByPeer) else if old(closeErr) == None then Some(Closed) else old(closeErr)
    {
      if reset {
        closeErr := Some(ResetByPeer);
      } else if closeErr == None {
        closeErr := Some(Closed);
      }
      first := !closed;
      closed := true;
    }
  }

  // ---- End to end --------------------------------------------------------------

  /** The frames of a sequence of Writes. */
  function Frames(writes: seq<seq<u8>>): seq<Chunk>
  {
    if writes == [] then [] else Chunks(writes[0]) + Frames(writes[1..])
  }

  lemma {:induction false} FramesLoseNothing(writes: seq<seq<u8>>)
    ensures Flatten(Frames(writes)) == Flatten(writes)
  {
    if writes != [] {
      ChunksLoseNothing(writes[0]);
      FramesLoseNothing(writes[1..]);
      FlattenConcat(Chunks(writes[0]), Frames(writes[1..]));
    }
  }

  /** Any arrival permutation in which nothing is evicted hands over exactly the bytes written. */
  lemma {:induction false} EndToEnd(writes: seq<seq<u8>>, arrivals: seq<nat>)
    requires var sent := Frames(writes);
      && Named(sent, arrivals) && Distinct(arrivals) && InWindow(sent, arrivals) && NoEviction(sent, arrivals)
      && forall i :: 0 <= i < |sent| ==> i in Arrived(arrivals)
    ensures Flatten(Run(Frames(writes), arrivals).out) == Flatten(writes)
  {
    var sent := Frames(writes);
    assert |sent| !in Arrived(arrivals);
    ReorderCompleteness(sent, arrivals, |sent|);
    assert sent[..|sent|] == sent;
    FramesLoseNothing(writes);
  }

  /** Up to 65536 frames need no window assumption: no two of them share a number. */
  lemma {:induction false} EndToEndShort(writes: seq<seq<u8>>, arrivals: seq<nat>)
    requires var sent := Frames(writes);
      && |sent| <= TWO16 && Named(sent, arrivals) && Distinct(arrivals) && NoEviction(sent, arrivals)
      && forall i :: 0 <= i < |sent| ==> i in Arrived(arrivals)
    ensures Flatten(Run(Frames(writes), arrivals).out) == Flatten(writes)
  {
    EndToEnd(writes, arrivals);
  }

  /** A chunk the transport refused has used up its number: whatever else arrives, in whatever order and
      however much is evicted, the reader never gets past the chunk before it. */
  lemma RefusedChunkStallsTheReader(sent: seq<Chunk>, arrivals: seq<nat>, refused: nat)
    requires Named(sent, arrivals) && Distinct(arrivals) && InWindow(sent, arrivals)
    requires refused < |sent| && refused !in Arrived(arrivals)
    ensures Run(sent, arrivals).out <= sent[..refused]
  {
    RunMeans(sent, arrivals);
    hide BufferMeans, Run, Number;
  }

  // ---- From Write to ReadMessage -------------------------------------------------------------------

  /** What happens at the receiving end: a frame arrives, or the application reads. */
  datatype Act = Arrives(i: nat) | Reads

  /** The receiver, the application's side of it, and what was read. */
  datatype Reading = Reading(st: State, app: Intake, read: seq<Chunk>)

  const NOTHING := Reading(State(EMPTY, []), Intake([], [], false, None), [])

  predicate Acts(sent: seq<Chunk>, acts: seq<Act>)
  {
    forall k :: 0 <= k < |acts| && acts[k].Arrives? ==> acts[k].i < |sent|
  }

  /** Stream.Deliver and Stream.ReadMessage as their contracts describe them. */
  ghost function Turn(sent: seq<Chunk>, g: Reading, a: Act): Reading
    requires |g.app.inq| <= QUEUE_CAPACITY && (a.Arrives? ==> a.i < |sent|)
  {
    match a
    case Arrives(i) =>
      var out := Reorder.Deliver(g.st.r, Number(i), sent[i]).1;
      Reading(Arrive(sent, g.st, i), PushAll(g.app, out), g.read)
    case Reads =>
      if g.app.inq == [] then g
      else Reading(g.st, g.app.(inq := g.app.inq[1..]), g.read + [g.app.inq[0]])
  }

  ghost function Reception(sent: seq<Chunk>, acts: seq<Act>): (g: Reading)
    requires Acts(sent, acts)
    ensures |g.app.inq| <= QUEUE_CAPACITY
  {
    if acts == [] then NOTHING
    else Turn(sent, Reception(sent, acts[..|acts| - 1]), acts[|acts| - 1])
  }

  function ArrivalsOf(acts: seq<Act>): seq<nat>
  {
    if acts == [] then []
    else ArrivalsOf(acts[..|acts| - 1]) + (if acts[|acts| - 1].Arrives? then [acts[|acts| - 1].i] else [])
  }

  lemma ArrivesNext(sent: seq<Chunk>, acts: seq<Act>)
    requires Acts(sent, acts) && acts != [] && acts[|acts| - 1].Arrives?
    requires Named(sent, ArrivalsOf(acts[..|acts| - 1]))
    ensures Named(sent, ArrivalsOf(acts))
    ensures Run(sent, ArrivalsOf(acts)) == Arrive(sent, Run(sent, ArrivalsOf(acts[..|acts| - 1])), acts[|acts| - 1].i)
  {
    RunNext(sent, ArrivalsOf(acts[..|acts| - 1]), acts[|acts| - 1].i);
    hide Arrive, Run, Named;
  }

  lemma TurnMeans(sent: seq<Chunk>, g: Reading, a: Act)
    requires |g.app.inq| <= QUEUE_CAPACITY && (a.Arrives? ==> a.i < |sent|) && g.app.emitted == g.st.out
    ensures Turn(sent, g, a).st == (if a.Arrives? then Arrive(sent, g.st, a.i) else g.st)
    ensures Turn(sent, g, a).app.emitted == Turn(sent, g, a).st.out
  {
    hide Reorder.Deliver, Number, Taken;
  }

  lemma {:induction false} ReceptionRuns(sent: seq<Chunk>, acts: seq<Act>)
    requires Acts(sent, acts)
    ensures Named(sent, ArrivalsOf(acts)) && Reception(sent, acts).st == Run(sent, ArrivalsOf(acts))
    ensures Reception(sent, acts).app.emitted == Reception(sent, acts).st.out
    decreases |acts|
  {
    if acts != [] {
      var init, a := acts[..|acts| - 1], acts[|acts| - 1];
      ReceptionRuns(sent, init);
      hide Run, Arrive, Turn;
      TurnMeans(sent, Reception(sent, init), a);
      if a.Arrives? { ArrivesNext(sent, acts); } else { assert ArrivalsOf(acts) == ArrivalsOf(init); }
    }
  }

  predicate NoneEmpty(cs: seq<Chunk>) { forall k :: 0 <= k < |cs| ==> cs[k] != [] }

  lemma {:induction false} NoneEmptyHasBytes(cs: seq<Chunk>)
    requires NoneEmpty(cs)
    ensures |Flatten(cs)| >= |cs|
  {
    if cs != [] { NoneEmptyHasBytes(cs[1..]); }
  }

  /** What was read and what waits is what was handed over, less exactly what was dropped. */
  ghost predicate Accounted(a: Intake, read: seq<Chunk>)
  {
    && (!a.lost ==> read + a.inq == a.emitted)
    && (a.lost ==> |Flatten(read + a.inq)| < |Flatten(a.emitted)|)
  }

  lemma TakenBytes(q: seq<Chunk>, out: seq<Chunk>)
    requires |q| <= QUEUE_CAPACITY && NoneEmpty(out)
    ensures |q| + |out| <= QUEUE_CAPACITY ==> Taken(q, out) == out
    ensures |Flatten(Taken(q, out))| <= |Flatten(out)|
    ensures |q| + |out| > QUEUE_CAPACITY ==> |Flatten(Taken(q, out))| < |Flatten(out)|
  {
    var room := QUEUE_CAPACITY - |q|;
    if |out| > room {
      assert out == out[..room] + out[room..];
      FlattenConcat(out[..room], out[room..]);
      NoneEmptyHasBytes(out[room..]);
    }
  }

  lemma PushAccounts(a: Intake, read: seq<Chunk>, out: seq<Chunk>)
    requires |a.inq| <= QUEUE_CAPACITY && Accounted(a, read) && NoneEmpty(out)
    ensures Accounted(PushAll(a, out), read)
  {
    TakenBytes(a.inq, out);
    AppendAssoc(read, a.inq, Taken(a.inq, out));
    FlattenConcat(read + a.inq, Taken(a.inq, out));
    FlattenConcat(a.emitted, out);
    hide Taken, Flatten;
  }

  lemma {:induction false} ReceptionAccounts(sent: seq<Chunk>, acts: seq<Act>)
    requires Acts(sent, acts) && NoneEmpty(Reception(sent, acts).app.emitted)
    ensures Accounted(Reception(sent, acts).app, Reception(sent, acts).read)
    decreases |acts|
  {
    if acts != [] {
      var init, a := acts[..|acts| - 1], acts[|acts| - 1];
      var g := Reception(sent, init);
      hide Reorder.Deliver, Number, Taken, Accounted, Flatten;
      if a.Arrives? {
        var out := Reorder.Deliver(g.st.r, Number(a.i), sent[a.i]).1;
        assert Reception(sent, acts).app.emitted == g.app.emitted + out;
        NoneEmptyParts(g.app.emitted, out);
        ReceptionAccounts(sent, init);
        PushAccounts(g.app, g.read, out);
      } else {
        ReceptionAccounts(sent, init);
        ReadAccounts(g.app, g.read);
      }
    }
  }

  lemma NoneEmptyParts(a: seq<Chunk>, b: seq<Chunk>)
    requires NoneEmpty(a + b)
    ensures NoneEmpty(a) && NoneEmpty(b)
  {
    assert forall k :: 0 <= k < |a| ==> (a + b)[k] == a[k];
    assert forall k :: 0 <= k < |b| ==> (a + b)[|a| + k] == b[k];
  }

  lemma ReadAccounts(a: Intake, read: seq<Chunk>)
    requires Accounted(a, read)
    ensures a.inq != [] ==> Accounted(a.(inq := a.inq[1..]), read + [a.inq[0]])
  {
    if a.inq != [] {
      assert read + [a.inq[0]] + a.inq[1..] == read + a.inq;
      hide Flatten;
    }
  }

  lemma {:induction false} FramesAreNotEmpty(writes: seq<seq<u8>>)
    ensures NoneEmpty(Frames(writes))
  {
    if writes != [] { FramesAreNotEmpty(writes[1..]); }
  }

  /** How many chunks are handed over and not yet read, were the queue unbounded: what the arrivals so far
      hand over, less a read each time something waits. */
  ghost function Waiting(sent: seq<Chunk>, acts: seq<Act>): int
    requires Acts(sent, acts) && Named(sent, ArrivalsOf(acts))
  {
    if acts == [] then 0
    else
      var init := acts[..|acts| - 1];
      PrefixNamed(sent, acts);
      var w := Waiting(sent, init);
      match acts[|acts| - 1]
      case Arrives(_) => w + |Run(sent, ArrivalsOf(acts)).out| - |Run(sent, ArrivalsOf(init)).out|
      case Reads => if w > 0 then w - 1 else w
  }

  lemma PrefixNamed(sent: seq<Chunk>, acts: seq<Act>)
    requires acts != [] && Named(sent, ArrivalsOf(acts))
    ensures Named(sent, ArrivalsOf(acts[..|acts| - 1]))
  {
    var before, all := ArrivalsOf(acts[..|acts| - 1]), ArrivalsOf(acts);
    assert forall k :: 0 <= k < |before| ==> all[k] == before[k];
  }

  lemma ActsNamed(sent: seq<Chunk>, acts: seq<Act>, k: nat)
    requires Acts(sent, acts) && k <= |acts|
    ensures Acts(sent, acts[..k]) && Named(sent, ArrivalsOf(acts[..k]))
  {
    ReceptionRuns(sent, acts[..k]);
  }

  /** The application keeps up: at no moment do more chunks wait than the queue holds. */
  ghost predicate KeepsUp(sent: seq<Chunk>, acts: seq<Act>)
    requires Acts(sent, acts)
  {
    forall k :: 0 <= k <= |acts| ==> WaitingAt(sent, acts, k) <= QUEUE_CAPACITY
  }

  ghost function WaitingAt(sent: seq<Chunk>, acts: seq<Act>, k: nat): int
    requires Acts(sent, acts) && k <= |acts|
  {
    ActsNamed(sent, acts, k);
    Waiting(sent, acts[..k])
  }

  lemma LostIsForGood(sent: seq<Chunk>, acts: seq<Act>)
    requires Acts(sent, acts) && acts != []
    ensures Reception(sent, acts[..|acts| - 1]).app.lost ==> Reception(sent, acts).app.lost
  {
    hide Reorder.Deliver, Number, Taken;
  }

  /** While nothing was dropped, what waits is what the queue holds; one turn drops if and only if more
      would then wait than it holds. */
  lemma TurnWaits(sent: seq<Chunk>, acts: seq<Act>)
    requires Acts(sent, acts) && acts != [] && Named(sent, ArrivalsOf(acts))
    requires var init := acts[..|acts| - 1];
      Named(sent, ArrivalsOf(init)) && !Reception(sent, init).app.lost
      && Waiting(sent, init) == |Reception(sent, init).app.inq|
    ensures Reception(sent, acts).app.lost <==> Waiting(sent, acts) > QUEUE_CAPACITY
    ensures !Reception(sent, acts).app.lost ==> Waiting(sent, acts) == |Reception(sent, acts).app.inq|
  {
    hide Reorder.Deliver, Number, Run, Arrive;
    var init := acts[..|acts| - 1];
    ReceptionRuns(sent, acts);
    ReceptionRuns(sent, init);
  }

  lemma {:induction false} NothingLostWhileKeepingUp(sent: seq<Chunk>, acts: seq<Act>)
    requires Acts(sent, acts) && Named(sent, ArrivalsOf(acts))
    ensures !Reception(sent, acts).app.lost <==> KeepsUp(sent, acts)
    ensures !Reception(sent, acts).app.lost ==> Waiting(sent, acts) == |Reception(sent, acts).app.inq|
    decreases |acts|
  {
    assert acts[..|acts|] == acts;
    if acts != [] {
      var init := acts[..|acts| - 1];
      PrefixNamed(sent, acts);
      NothingLostWhileKeepingUp(sent, init);
      KeepsUpNext(sent, acts);
      LostIsForGood(sent, acts);
      hide Reception, Waiting, KeepsUp, Run;
      if !Reception(sent, init).app.lost { TurnWaits(sent, acts); }
    }
  }

  lemma KeepsUpNext(sent: seq<Chunk>, acts: seq<Act>)
    requires Acts(sent, acts) && acts != [] && Named(sent, ArrivalsOf(acts))
    ensures KeepsUp(sent, acts) <==> KeepsUp(sent, acts[..|acts| - 1]) && Waiting(sent, acts) <= QUEUE_CAPACITY
  {
    hide Waiting, Run;
    var n := |acts| - 1;
    assert acts[..n + 1] == acts;
    assert WaitingAt(sent, acts, n + 1) == Waiting(sent, acts);
    forall k | 0 <= k <= n ensures WaitingAt(sent, acts, k) == WaitingAt(sent, acts[..n], k) {
      assert acts[..n][..k] == acts[..k];
    }
  }

  /** The whole way: frames arrive in any order in which nothing is evicted, reads come in between as they
      may, and in the end the queue has been read empty. Then the bytes read are the bytes written if and
      only if the application kept up: never more than 64 chunks handed over and not yet read. */
  lemma {:induction false} ReadIsWrittenIff(writes: seq<seq<u8>>, acts: seq<Act>)
    requires var sent, arrivals := Frames(writes), ArrivalsOf(acts);
      && Acts(sent, acts) && Named(sent, arrivals) && Distinct(arrivals) && InWindow(sent, arrivals)
      && NoEviction(sent, arrivals) && (forall i :: 0 <= i < |sent| ==> i in Arrived(arrivals))
      && Reception(sent, acts).app.inq == []
    ensures Flatten(Reception(Frames(writes), acts).read) == Flatten(writes) <==> KeepsUp(Frames(writes), acts)
    ensures KeepsUp(Frames(writes), acts) <==> !Reception(Frames(writes), acts).app.lost
  {
    var sent, arrivals := Frames(writes), ArrivalsOf(acts);
    var g := Reception(sent, acts);
    ReceptionRuns(sent, acts);
    assert |sent| !in Arrived(arrivals);
    ReorderCompleteness(sent, arrivals, |sent|);
    assert sent[..|sent|] == sent;
    FramesAreNotEmpty(writes);
    FramesLoseNothing(writes);
    hide NoEviction, InWindow, Run, Arrived, Distinct, Reception, Flatten, Frames, NoneEmpty, KeepsUp;
    ReceptionAccounts(sent, acts);
    NothingLostWhileKeepingUp(sent, acts);
    assert g.read + [] == g.read;
  }

  // ---- Sizes -------------------------------------------------------------------------------------

  lemma {:induction false} CutCount(p: seq<u8>)
    ensures |Chunks(p)| == (|p| + 16383) / 16384
    decreases |p|
  {
    if |p| > 16384 { CutCount(p[16384..]); }
  }

  /** A Write is cut every 16384 bytes. */
  lemma {:induction false} CutEvery16K(p: seq<u8>, i: nat)
    requires i < (|p| + 16383) / 16384
    ensures |Chunks(p)| == (|p| + 16383) / 16384 && 16384 * i < |p|
    ensures Chunks(p)[i] == p[16384 * i..if 16384 * (i + 1) < |p| then 16384 * (i + 1) else |p|]
    decreases |p|
  {
    CutCount(p);
    if |p| > 16384 {
      var rest := p[16384..];
      assert Chunks(p) == [p[..16384]] + Chunks(rest);
      if i > 0 {
        CutEvery16K(rest, i - 1);
        var end := if 16384 * i < |rest| then 16384 * i else |rest|;
        assert Chunks(p)[i] == Chunks(rest)[i - 1] == rest[16384 * (i - 1)..end];
        assert rest[16384 * (i - 1)..end] == p[16384 * i..16384 + end];
      }
      hide Chunks;
    }
  }

  /** A chunk handed over waits for the reader while fewer than 64 do; after that it is dropped, and the first
      error noted stays. */
  lemma PushTakesOrDrops(a: Intake, c: Chunk)
    requires |a.inq| <= 64
    ensures var a' := PushAll(a, [c]);
      && a'.emitted == a.emitted + [c]
      && (if |a.inq| < 64 then a'.inq == a.inq + [c] && a'.lost == a.lost && a'.closeErr == a.closeErr
          else a'.inq == a.inq && a'.lost && a'.closeErr == if a.closeErr == None then Some(Overflow) else a.closeErr)
  {
  }

  // ---- Read with a short buffer --------------------------------------------------------------------

  /** What Read(p) returns with room for n bytes, and the queue it leaves: the tail goes to the back. */
  function ReadOff(q: seq<Chunk>, n: nat): (Chunk, seq<Chunk>)
    requires q != []
  {
    if |q[0]| <= n then (q[0], q[1..]) else (q[0][..n], q[1..] + [q[0][n..]])
  }

  /** Nothing behind the first chunk has bytes. */
  predicate Alone(q: seq<Chunk>) { forall k :: 1 <= k < |q| ==> q[k] == [] }

  /** Queues of one shape hold as many bytes at each place. */
  predicate SameShape(q: seq<Chunk>, r: seq<Chunk>)
  {
    |q| == |r| && forall k :: 0 <= k < |q| ==> |q[k]| == |r[k]|
  }

  lemma {:induction false} FlattenEmpty(q: seq<Chunk>)
    requires forall k :: 0 <= k < |q| ==> q[k] == []
    ensures Flatten(q) == []
  {
    if q != [] { FlattenEmpty(q[1..]); }
  }

  lemma ReadInOrder(q: seq<Chunk>, n: nat)
    requires q != [] && (|q[0]| <= n || Alone(q))
    ensures var (got, left) := ReadOff(q, n); got + Flatten(left) == Flatten(q)
  {
    if |q[0]| > n {
      FlattenConcat(q[1..], [q[0][n..]]);
      FlattenEmpty(q[1..]);
      assert Flatten([q[0][n..]]) == q[0][n..] + Flatten([]);
      assert q[0] == q[0][..n] + q[0][n..];
    }
  }

  /** The queue of this shape that holds ones behind its first chunk, which holds zeros. */
  function Marked(q: seq<Chunk>): seq<Chunk>
  {
    seq(|q|, k requires 0 <= k < |q| => seq(|q[k]|, _ => if k == 0 then 0 else 1))
  }

  lemma {:induction false} FirstByte(q: seq<Chunk>, v: u8)
    requires exists k :: 0 <= k < |q| && q[k] != []
    requires forall k, i :: 0 <= k < |q| && 0 <= i < |q[k]| ==> q[k][i] == v
    ensures Flatten(q) != [] && Flatten(q)[0] == v
  {
    if q[0] == [] {
      var k :| 0 <= k < |q| && q[k] != [];
      assert q[1..][k - 1] == q[k];
      FirstByte(q[1..], v);
    } else {
      assert q[0][0] == v;
    }
  }

  lemma ReadOutOfOrder(q: seq<Chunk>, n: nat)
    requires q != [] && |q[0]| > n && !Alone(q)
    ensures var r := Marked(q); SameShape(q, r) && var (got, left) := ReadOff(r, n); got + Flatten(left) != Flatten(r)
  {
    var r := Marked(q);
    var (got, left) := ReadOff(r, n);
    var k :| 1 <= k < |q| && q[k] != [];
    assert r[1..][k - 1] == r[k] && r[k] != [];
    FirstByte(r[1..], 1);
    FlattenConcat(r[1..], [r[0][n..]]);
    assert Flatten(left)[0] == 1;
    assert (got + Flatten(left))[n] == 1;
    assert Flatten(r) == r[0] + Flatten(r[1..]);
    assert Flatten(r)[n] == r[0][n] == 0;
  }

  /** Read keeps the order of the bytes of whatever is queued if and only if the first chunk fits its buffer
      or nothing with bytes in it waits behind. */
  lemma ReadKeepsOrderIff(q: seq<Chunk>, n: nat)
    requires q != []
    ensures (forall r: seq<Chunk> :: SameShape(q, r) ==> ReadOff(r, n).0 + Flatten(ReadOff(r, n).1) == Flatten(r))
       <==> (|q[0]| <= n || Alone(q))
  {
    hide Flatten, ReadOff, Marked;
    if |q[0]| <= n || Alone(q) {
      forall r: seq<Chunk> | SameShape(q, r) ensures ReadOff(r, n).0 + Flatten(ReadOff(r, n).1) == Flatten(r) {
        assert |r[0]| == |q[0]| && (Alone(q) ==> Alone(r));
        ReadInOrder(r, n);
      }
    } else {
      ReadOutOfOrder(q, n);
    }
  }
}
