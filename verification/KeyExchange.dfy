/** Pairwise key exchange between the clients of one session: two idempotence flags per peer over a
    control channel that may silently lose messages
    (pkg/sessionclient/loops.go, pkg/sessionclient/crypto.go, internal/server/ws.go). */
module KeyExchange {
  import opened Machine

  type Id = string

  // ---- Key derivation ----------------------------------------------------------

  /** The primitives, uninterpreted: `dh` is None where the library rejects a public key. */
  datatype Suite = Suite(
    publicOf: nat -> Bytes,
    dh: (nat, Bytes) -> Option<Bytes>,
    sha256: Bytes -> Bytes,
    hkdf: (Bytes, Bytes, Bytes) -> Bytes)

  /** X25519's law: both ends compute the same shared secret, and honest public keys are accepted. */
  ghost predicate Commutes(s: Suite)
  {
    && (forall a: nat :: |s.publicOf(a)| == 32)
    && (forall a: nat, b: nat :: s.dh(a, s.publicOf(b)).Some? && s.dh(a, s.publicOf(b)) == s.dh(b, s.publicOf(a)))
  }

  datatype Identity = Identity(secret: nat, nodeId: Bytes, sessionId: Bytes)

  function Ascii(s: string): Bytes
  {
    seq(|s|, i requires 0 <= i < |s| => if s[i] < 128 as char then s[i] as int else 63)
  }

  const KEY_INFO_PREFIX: string := "p2psession/pairwise/v1"

  function Info(self: Bytes, peer: Bytes): Bytes
  {
    var (a, b) := if Less(peer, self) then (peer, self) else (self, peer);
    Ascii(KEY_INFO_PREFIX) + [0] + a + [0] + b
  }

  lemma InfoIsSymmetric(a: Bytes, b: Bytes)
    ensures Info(a, b) == Info(b, a)
  {
    LessIsTotal(a, b);
  }

  lemma {:induction false} SplitAtZero(a: Bytes, b: Bytes, c: Bytes, d: Bytes)
    requires 0 !in a && 0 !in c && a + [0] + b == c + [0] + d
    ensures a == c && b == d
    decreases |a|
  {
    var l, r := a + [0] + b, c + [0] + d;
    assert l[0] == (if a == [] then 0 else a[0]) && r[0] == (if c == [] then 0 else c[0]);
    assert (a != [] ==> a[0] in a) && (c != [] ==> c[0] in c);
    assert a == [] <==> c == [];
    if a == [] {
      assert l[1..] == b && r[1..] == d;
    } else {
      assert l[1..] == a[1..] + [0] + b && r[1..] == c[1..] + [0] + d;
      SplitAtZero(a[1..], b, c[1..], d);
      assert a == [a[0]] + a[1..] && c == [c[0]] + c[1..];
    }
  }

  /** The info string names the pair: different pairs of NodeIDs never share one. */
  lemma InfoNamesThePair(a: Bytes, b: Bytes, c: Bytes, d: Bytes)
    requires 0 !in a && 0 !in b && 0 !in c && 0 !in d
    requires Info(a, b) == Info(c, d)
    ensures (a == c && b == d) || (a == d && b == c)
  {
    var p := Ascii(KEY_INFO_PREFIX) + [0];
    var (a', b') := if Less(b, a) then (b, a) else (a, b);
    var (c', d') := if Less(d, c) then (d, c) else (c, d);
    assert (p + a' + [0] + b')[|p|..] == a' + [0] + b';
    assert (p + c' + [0] + d')[|p|..] == c' + [0] + d';
    SplitAtZero(a', b', c', d');
  }

  function Derive(s: Suite, self: Identity, peerNode: Bytes, peerPub: Bytes): Option<Bytes>
  {
    if |peerPub| != 32 then None
    else
      match s.dh(self.secret, peerPub)
      case None => None
      case Some(shared) => Some(s.hkdf(shared, s.sha256(self.sessionId), Info(self.nodeId, peerNode)))
  }

  /** Both ends of a pair derive the same key. */
  lemma DeriveAgrees(s: Suite, a: Identity, b: Identity)
    requires Commutes(s) && a.sessionId == b.sessionId
    ensures Derive(s, a, b.nodeId, s.publicOf(b.secret)).Some?
    ensures Derive(s, a, b.nodeId, s.publicOf(b.secret)) == Derive(s, b, a.nodeId, s.publicOf(a.secret))
  {
    InfoIsSymmetric(a.nodeId, b.nodeId);
    assert |s.publicOf(a.secret)| == 32 && |s.publicOf(b.secret)| == 32;
    assert s.dh(a.secret, s.publicOf(b.secret)) == s.dh(b.secret, s.publicOf(a.secret));
  }

  // ---- Key separation ------------------------------------------------------------

  /** No two inputs share an output: what collision resistance comes to without probabilities. */
  ghost predicate Injective(s: Suite)
  {
    && (forall x, y :: s.sha256(x) == s.sha256(y) ==> x == y)
    && (forall k, salt, info, k', salt', info' ::
          s.hkdf(k, salt, info) == s.hkdf(k', salt', info') ==> k == k' && salt == salt' && info == info')
  }

  predicate SamePair(a: Bytes, b: Bytes, c: Bytes, d: Bytes)
  {
    (a == c && b == d) || (a == d && b == c)
  }

  /** Two keys are the same exactly when the shared secret, the session and the pair of nodes are. */
  lemma KeySeparation(s: Suite, a: Identity, aPeer: Bytes, aPub: Bytes, b: Identity, bPeer: Bytes, bPub: Bytes)
    requires Injective(s) && 0 !in a.nodeId && 0 !in aPeer && 0 !in b.nodeId && 0 !in bPeer
    requires Derive(s, a, aPeer, aPub).Some? && Derive(s, b, bPeer, bPub).Some?
    ensures Derive(s, a, aPeer, aPub) == Derive(s, b, bPeer, bPub)
       <==> (s.dh(a.secret, aPub) == s.dh(b.secret, bPub) && a.sessionId == b.sessionId
             && SamePair(a.nodeId, aPeer, b.nodeId, bPeer))
  {
    hide Info;
    InfoIsSymmetric(a.nodeId, aPeer);
    if Info(a.nodeId, aPeer) == Info(b.nodeId, bPeer) { InfoNamesThePair(a.nodeId, aPeer, b.nodeId, bPeer); }
  }

  /** A public key gives a key exactly when it has 32 bytes and the curve accepts it. */
  lemma DerivesIff(s: Suite, self: Identity, peerNode: Bytes, peerPub: Bytes)
    ensures Derive(s, self, peerNode, peerPub).Some? <==> |peerPub| == 32 && s.dh(self.secret, peerPub).Some?
  {
    hide Info;
  }

  /** What a client in another language must compute: HKDF over the shared secret, salted with the hashed
      session, for the version's name and the two NodeIDs, the lesser first, each after a zero byte. */
  lemma KeyOnTheWire(s: Suite, self: Identity, peer: Bytes, peerPub: Bytes, low: Bytes, high: Bytes)
    requires |peerPub| == 32 && s.dh(self.secret, peerPub).Some?
    requires SamePair(low, high, self.nodeId, peer) && (Less(low, high) || low == high)
    ensures Derive(s, self, peer, peerPub)
         == Some(s.hkdf(s.dh(self.secret, peerPub).value, s.sha256(self.sessionId), VERSION + [0] + low + [0] + high))
  {
    LessIsTotal(low, high);
    assert Ascii(KEY_INFO_PREFIX) == VERSION;
  }

  /** "p2psession/pairwise/v1" in bytes. */
  const VERSION: Bytes := [112, 50, 112, 115, 101, 115, 115, 105, 111, 110, 47, 112, 97, 105, 114, 119, 105, 115, 101, 47, 118, 49]

  // ---- One client ----------------------------------------------------------------

  /** A decoded payload; pub is None for bad hex. */
  datatype Payload = Empty | BadJson | Body(kex: string, pub: Option<Bytes>, nodeId: Bytes)

  datatype Msg = Msg(from: Id, to: Id, payload: Payload)

  datatype Failure = BadRequest | Unsupported | Unauthorized

  datatype Local = Local(helloSent: set<Id>, helloReplied: set<Id>, keys: map<Id, Bytes>)

  const FRESH := Local({}, {}, map[])

  function Offer(s: Suite, id: Id, self: Identity, to: Id): Msg
  {
    Msg(id, to, Body("x25519", Some(s.publicOf(self.secret)), self.nodeId))
  }

  /** sendHelloTo: at most one hello per peer. */
  function Hello(s: Suite, id: Id, self: Identity, l: Local, to: Id): (Local, seq<Msg>)
  {
    if to == "" || to == id || to in l.helloSent then (l, [])
    else (l.(helloSent := l.helloSent + {to}), [Offer(s, id, self, to)])
  }

  /** replyHello: at most one reply per peer, counted apart from the hello. */
  function Reply(s: Suite, id: Id, self: Identity, l: Local, to: Id): (Local, seq<Msg>)
  {
    if to == "" || to == id || to in l.helloReplied then (l, [])
    else (l.(helloReplied := l.helloReplied + {to}), [Offer(s, id, self, to)])
  }

  /** onKeyExchange; `peers` holds the NodeIDs the server announced. */
  function Receive(s: Suite, id: Id, self: Identity, peers: map<Id, Bytes>, l: Local, m: Msg): (Local, seq<Msg>, Option<Failure>)
  {
    if m.from == "" || m.payload == Empty then (l, [], None)
    else if m.payload == BadJson then (l, [], Some(BadRequest))
    else if m.payload.kex != "x25519" then (l, [], Some(Unsupported))
    else if m.payload.pub == None then (l, [], Some(BadRequest))
    else
      var node := if m.payload.nodeId == [] && m.from in peers then peers[m.from] else m.payload.nodeId;
      match Derive(s, self, node, m.payload.pub.value)
      case None => (l, [], Some(Unauthorized))
      case Some(key) =>
        var (l', out) := Reply(s, id, self, l.(keys := l.keys[m.from := key]), m.from);
        (l', out, None)
  }

  /** removePeer forgets the key; the two flags stay. */
  function Forget(l: Local, peer: Id): Local
  {
    l.(keys := l.keys - {peer})
  }

  class Client {
    const suite: Suite
    const id: Id
    const self: Identity
    var peers: map<Id, Bytes>
    var helloSent: set<Id>
    var helloReplied: set<Id>
    var keys: map<Id, Bytes>
    /** Messages written to the control connection, in order. */
    var outbox: seq<Msg>

    ghost function State(): Local
      reads this
    {
      Local(helloSent, helloReplied, keys)
    }

    constructor (suite: Suite, id: Id, self: Identity)
      ensures State() == FRESH && outbox == [] && peers == map[]
      ensures this.suite == suite && this.id == id && this.self == self
    {
      this.suite, this.id, this.self := suite, id, self;
      peers, helloSent, helloReplied, keys, outbox := map[], {}, {}, map[], [];
    }

    method SendKeyExchange(to: Id)
      modifies this`outbox
      ensures outbox == old(outbox) + [Offer(suite, id, self, to)]
    {
      outbox := outbox + [Msg(id, to, Body("x25519", Some(suite.publicOf(self.secret)), self.nodeId))];
    }

    method SendHelloTo(to: Id)
      modifies this`helloSent, this`outbox
      ensures var (l, out) := Hello(suite, id, self, old(State()), to);
        State() == l && outbox == old(outbox) + out
    {
      if to == "" || to == id {
        return;
      }
      if to in helloSent {
        return;
      }
      helloSent := helloSent + {to};
      SendKeyExchange(to);
    }

    method ReplyHello(to: Id)
      modifies this`helloReplied, this`outbox
      ensures var (l, out) := Reply(suite, id, self, old(State()), to);
        State() == l && outbox == old(outbox) + out
    {
      if to == "" || to == id {
        return;
      }
      if to in helloReplied {
        return;
      }
      helloReplied := helloReplied + {to};
      SendKeyExchange(to);
    }

    method OnKeyExchange(m: Msg) returns (err: Option<Failure>)
      modifies this`helloReplied, this`keys, this`outbox
      ensures var (l, out, failure) := Receive(suite, id, self, peers, old(State()), m);
        State() == l && outbox == old(outbox) + out && err == failure
    {
      if m.from == "" || m.payload.Empty? {
        return None;
      }
      if m.payload.BadJson? {
        return Some(BadRequest);
      }
      if m.payload.kex != "x25519" {
        return Some(Unsupported);
      }
      if m.payload.pub.None? {
        return Some(BadRequest);
      }
      var node := m.payload.nodeId;
      if node == [] && m.from in peers {
        node := peers[m.from];
      }
      var key := Derive(suite, self, node, m.payload.pub.value);
      if key.None? {
        return Some(Unauthorized);
      }
      keys := keys[m.from := key.value];
      ReplyHello(m.from);
      err := None;
    }
  }

  // ---- The network ---------------------------------------------------------------
  // One incarnation per client; the server forwards, or loses, each message.

  datatype Happening = Sent(a: Id, b: Id) | Delivered(a: Id, b: Id) | Lost(a: Id, b: Id)

  datatype Net = Net(clients: map<Id, Local>, flight: multiset<Msg>, hist: multiset<Happening>)

  datatype Event = Discover(a: Id, b: Id) | Arrive(m: Msg) | Drop(m: Msg)

  /** The parties: distinct names, one session, NodeIDs as in their messages. */
  type World = map<Id, Identity>

  ghost predicate WellFormed(s: Suite, w: World)
  {
    && Commutes(s)
    && "" !in w
    && (forall a, b :: a in w && b in w ==> w[a].sessionId == w[b].sessionId)
  }

  ghost function Start(w: World): (n: Net)
    ensures n.clients.Keys == w.Keys
  {
    Net(map a | a in w :: FRESH, multiset{}, multiset{})
  }

  ghost predicate Enabled(w: World, n: Net, e: Event)
  {
    match e
    case Discover(a, b) => a in w && b in w
    case Arrive(m) => m in n.flight
    case Drop(m) => m in n.flight
  }

  ghost function Post(n: Net, out: seq<Msg>): Net
  {
    if out == [] then n
    else n.(flight := n.flight + multiset{out[0]}, hist := n.hist + multiset{Sent(out[0].from, out[0].to)})
  }

  ghost function Step(s: Suite, w: World, n: Net, e: Event): (n': Net)
    requires n.clients.Keys == w.Keys
    ensures n'.clients.Keys == w.Keys
  {
    match e
    case Discover(a, b) =>
      if a !in w then n
      else
        var (l, out) := Hello(s, a, w[a], n.clients[a], b);
        Post(n.(clients := n.clients[a := l]), out)
    case Drop(m) =>
      n.(flight := n.flight - multiset{m}, hist := n.hist + multiset{Lost(m.from, m.to)})
    case Arrive(m) =>
      var taken := n.(flight := n.flight - multiset{m}, hist := n.hist + multiset{Delivered(m.from, m.to)});
      if m.to !in w then taken
      else
        var (l, out, _) := Receive(s, m.to, w[m.to], map[], n.clients[m.to], m);
        Post(taken.(clients := n.clients[m.to := l]), out)
  }

  ghost predicate IsRun(s: Suite, w: World, events: seq<Event>)
  {
    events == [] ||
    var init := events[..|events| - 1];
    IsRun(s, w, init) && Enabled(w, Exec(s, w, init), events[|events| - 1])
  }

  ghost function Exec(s: Suite, w: World, events: seq<Event>): (n: Net)
    ensures n.clients.Keys == w.Keys
  {
    if events == [] then Start(w)
    else Step(s, w, Exec(s, w, events[..|events| - 1]), events[|events| - 1])
  }

  function One(b: bool): nat { if b then 1 else 0 }

  /** How often something happened since n0. */
  ghost function Since(n0: Net, n: Net, h: Happening): int
  {
    (n.hist[h] as int) - (n0.hist[h] as int)
  }

  /** The books of one ordered pair since n0: every message sent since, or under way then, is in flight,
      delivered or lost; a hello and a reply are sent as their flags are set, never again; the first
      delivery sets the reply flag, and every delivery the key. */
  ghost predicate Books(s: Suite, w: World, n0: Net, n: Net, a: Id, b: Id)
    requires n0.clients.Keys == w.Keys && n.clients.Keys == w.Keys && a in w && b in w
  {
    var at0, to0, at, to := n0.clients[a], n0.clients[b], n.clients[a], n.clients[b];
    var sent, got, lost := Since(n0, n, Sent(a, b)), Since(n0, n, Delivered(a, b)), Since(n0, n, Lost(a, b));
    && got >= 0 && lost >= 0
    && (b in at0.helloSent ==> b in at.helloSent) && (b in at0.helloReplied ==> b in at.helloReplied)
    && sent == One(b in at.helloSent) - One(b in at0.helloSent) + One(b in at.helloReplied) - One(b in at0.helloReplied)
    && n0.flight[Offer(s, a, w[a], b)] + sent == n.flight[Offer(s, a, w[a], b)] + got + lost
    && (a in to.helloReplied <==> a in to0.helloReplied || got > 0)
    && (got > 0 ==> a in to.keys && Some(to.keys[a]) == Derive(s, w[b], w[a].nodeId, s.publicOf(w[a].secret)))
    && (got == 0 ==> (a in to.keys <==> a in to0.keys) && (a in to.keys ==> to.keys[a] == to0.keys[a]))
  }

  /** Everything in flight is what its sender's present incarnation offers. */
  ghost predicate Honest(s: Suite, w: World, n: Net)
  {
    forall m :: m in n.flight ==>
      m.from in w && m.to in w && m.from != m.to && m == Offer(s, m.from, w[m.from], m.to)
  }

  ghost predicate Inv(s: Suite, w: World, n: Net)
  {
    && n.clients.Keys == w.Keys && Honest(s, w, n)
    && forall a, b :: a in w && b in w && a != b ==> Books(s, w, Start(w), n, a, b)
  }

  /** What an honest key_exchange does to the client that receives it. */
  lemma HonestReceive(s: Suite, w: World, l: Local, a: Id, b: Id)
    requires WellFormed(s, w) && a in w && b in w && a != b
    ensures var (l', out, err) := Receive(s, b, w[b], map[], l, Offer(s, a, w[a], b));
      && err == None
      && l'.helloSent == l.helloSent && l'.helloReplied == l.helloReplied + {a}
      && l'.keys.Keys == l.keys.Keys + {a}
      && Some(l'.keys[a]) == Derive(s, w[b], w[a].nodeId, s.publicOf(w[a].secret))
      && (forall c :: c in l.keys && c != a ==> l'.keys[c] == l.keys[c])
      && out == if a in l.helloReplied then [] else [Offer(s, b, w[b], a)]
  {
    DeriveAgrees(s, w[b], w[a]);
    hide Info, Derive;
  }

  /** The only entries the books of (c, d) depend on: four counts and six entries of the two clients. */
  ghost predicate SameCounts(s: Suite, w: World, n: Net, n': Net, c: Id, d: Id)
    requires c in w
  {
    && n.hist[Sent(c, d)] == n'.hist[Sent(c, d)]
    && n.hist[Delivered(c, d)] == n'.hist[Delivered(c, d)]
    && n.hist[Lost(c, d)] == n'.hist[Lost(c, d)]
    && n.flight[Offer(s, c, w[c], d)] == n'.flight[Offer(s, c, w[c], d)]
  }

  ghost predicate SameFlags(n: Net, n': Net, c: Id, d: Id)
    requires c in n.clients && d in n.clients && c in n'.clients && d in n'.clients
  {
    var at, to, at', to' := n.clients[c], n.clients[d], n'.clients[c], n'.clients[d];
    && (d in at.helloSent <==> d in at'.helloSent) && (d in at.helloReplied <==> d in at'.helloReplied)
    && (c in to.helloReplied <==> c in to'.helloReplied)
    && (c in to.keys <==> c in to'.keys) && (c in to.keys ==> to.keys[c] == to'.keys[c])
  }

  lemma SameEntriesSameBooks(s: Suite, w: World, n0: Net, n: Net, n': Net, c: Id, d: Id)
    requires n0.clients.Keys == w.Keys && n.clients.Keys == w.Keys && n'.clients.Keys == w.Keys && c in w && d in w
    requires SameCounts(s, w, n, n', c, d) && SameFlags(n, n', c, d) && Books(s, w, n0, n, c, d)
    ensures Books(s, w, n0, n', c, d)
  {
    hide Derive;
  }

  lemma HelloKeepsOwnBooks(s: Suite, w: World, n0: Net, n: Net, a: Id, b: Id)
    requires n0.clients.Keys == w.Keys && n.clients.Keys == w.Keys && Honest(s, w, n)
    requires "" !in w && a in w && b in w && a != b
    requires Books(s, w, n0, n, a, b)
    ensures Books(s, w, n0, Step(s, w, n, Discover(a, b)), a, b)
  {
    hide Derive, Honest;
  }

  lemma HelloTouchesOneEntry(s: Suite, w: World, n: Net, a: Id, b: Id, c: Id, d: Id)
    requires WellFormed(s, w) && n.clients.Keys == w.Keys && a in w && b in w && c in w && d in w && c != d
    requires (c, d) != (a, b)
    ensures var n' := Step(s, w, n, Discover(a, b));
      n'.clients.Keys == w.Keys && SameCounts(s, w, n, n', c, d) && SameFlags(n, n', c, d)
  {
    hide Derive, WellFormed;
  }

  lemma HelloKeepsOtherBooks(s: Suite, w: World, n0: Net, n: Net, a: Id, b: Id, c: Id, d: Id)
    requires WellFormed(s, w) && n0.clients.Keys == w.Keys && n.clients.Keys == w.Keys && Honest(s, w, n)
    requires a in w && b in w && c in w && d in w && c != d && (c, d) != (a, b)
    requires Books(s, w, n0, n, c, d)
    ensures Books(s, w, n0, Step(s, w, n, Discover(a, b)), c, d)
  {
    hide Derive, WellFormed, Books, Step, SameCounts, SameFlags;
    HelloTouchesOneEntry(s, w, n, a, b, c, d);
    SameEntriesSameBooks(s, w, n0, n, Step(s, w, n, Discover(a, b)), c, d);
  }

  lemma DropKeepsBooks(s: Suite, w: World, n0: Net, n: Net, m: Msg, c: Id, d: Id)
    requires n0.clients.Keys == w.Keys && n.clients.Keys == w.Keys && Honest(s, w, n)
    requires m in n.flight && c in w && d in w && c != d
    requires Books(s, w, n0, n, c, d)
    ensures Books(s, w, n0, Step(s, w, n, Drop(m)), c, d)
  {
    hide Derive;
  }

  /** An honest arrival in full: what leaves and enters the network, and the receiver's new state. */
  lemma HonestArrival(s: Suite, w: World, n: Net, a: Id, b: Id)
    requires WellFormed(s, w) && n.clients.Keys == w.Keys && a in w && b in w && a != b
    requires Offer(s, a, w[a], b) in n.flight
    ensures var n' := Step(s, w, n, Arrive(Offer(s, a, w[a], b)));
      var l, l' := n.clients[b], n'.clients[b];
      var replies := a !in l.helloReplied;
      && n'.flight == n.flight - multiset{Offer(s, a, w[a], b)} + (if replies then multiset{Offer(s, b, w[b], a)} else multiset{})
      && n'.hist == n.hist + multiset{Delivered(a, b)} + (if replies then multiset{Sent(b, a)} else multiset{})
      && n'.clients == n.clients[b := l']
      && l'.helloSent == l.helloSent && l'.helloReplied == l.helloReplied + {a}
      && l'.keys.Keys == l.keys.Keys + {a}
      && Some(l'.keys[a]) == Derive(s, w[b], w[a].nodeId, s.publicOf(w[a].secret))
      && (forall c :: c in l.keys && c != a ==> l'.keys[c] == l.keys[c])
  {
    HonestReceive(s, w, n.clients[b], a, b);
    hide Derive, WellFormed, Receive;
  }

  lemma ArrivalKeepsOwnBooks(s: Suite, w: World, n0: Net, n: Net, a: Id, b: Id)
    requires WellFormed(s, w) && n0.clients.Keys == w.Keys && n.clients.Keys == w.Keys && a in w && b in w && a != b
    requires Offer(s, a, w[a], b) in n.flight && Books(s, w, n0, n, a, b)
    ensures Books(s, w, n0, Step(s, w, n, Arrive(Offer(s, a, w[a], b))), a, b)
  {
    HonestArrival(s, w, n, a, b);
    hide Derive, WellFormed, Step;
  }

  lemma ArrivalKeepsReverseBooks(s: Suite, w: World, n0: Net, n: Net, a: Id, b: Id)
    requires WellFormed(s, w) && n0.clients.Keys == w.Keys && n.clients.Keys == w.Keys && a in w && b in w && a != b
    requires Offer(s, a, w[a], b) in n.flight && Books(s, w, n0, n, b, a)
    ensures Books(s, w, n0, Step(s, w, n, Arrive(Offer(s, a, w[a], b))), b, a)
  {
    HonestArrival(s, w, n, a, b);
    hide Derive, WellFormed, Step;
  }

  lemma ArrivalKeepsOtherCounts(s: Suite, w: World, n: Net, a: Id, b: Id, c: Id, d: Id)
    requires WellFormed(s, w) && n.clients.Keys == w.Keys && a in w && b in w && a != b
    requires Offer(s, a, w[a], b) in n.flight
    requires c in w && d in w && (c, d) != (a, b) && (c, d) != (b, a)
    ensures SameCounts(s, w, n, Step(s, w, n, Arrive(Offer(s, a, w[a], b))), c, d)
  {
    HonestArrival(s, w, n, a, b);
    hide Derive, WellFormed, Step;
  }

  lemma ArrivalKeepsOtherFlags(s: Suite, w: World, n: Net, a: Id, b: Id, c: Id, d: Id)
    requires WellFormed(s, w) && n.clients.Keys == w.Keys && a in w && b in w && a != b
    requires Offer(s, a, w[a], b) in n.flight
    requires c in w && d in w && (c, d) != (a, b) && (c, d) != (b, a)
    ensures SameFlags(n, Step(s, w, n, Arrive(Offer(s, a, w[a], b))), c, d)
  {
    HonestArrival(s, w, n, a, b);
    hide Derive, WellFormed, Step, Offer;
  }

  lemma ArrivalKeepsOtherBooks(s: Suite, w: World, n0: Net, n: Net, a: Id, b: Id, c: Id, d: Id)
    requires WellFormed(s, w) && n0.clients.Keys == w.Keys && n.clients.Keys == w.Keys && a in w && b in w && a != b
    requires Offer(s, a, w[a], b) in n.flight && c in w && d in w && c != d && (c, d) != (a, b) && (c, d) != (b, a)
    requires Books(s, w, n0, n, c, d)
    ensures Books(s, w, n0, Step(s, w, n, Arrive(Offer(s, a, w[a], b))), c, d)
  {
    hide Derive, WellFormed, Step, Books, SameCounts, SameFlags;
    ArrivalKeepsOtherCounts(s, w, n, a, b, c, d);
    ArrivalKeepsOtherFlags(s, w, n, a, b, c, d);
    SameEntriesSameBooks(s, w, n0, n, Step(s, w, n, Arrive(Offer(s, a, w[a], b))), c, d);
  }

  lemma HelloKeepsHonesty(s: Suite, w: World, n: Net, a: Id, b: Id)
    requires n.clients.Keys == w.Keys && Honest(s, w, n) && a in w && b in w
    ensures Honest(s, w, Step(s, w, n, Discover(a, b)))
  {
    hide Receive;
  }

  lemma ArrivalKeepsHonesty(s: Suite, w: World, n: Net, m: Msg)
    requires WellFormed(s, w) && n.clients.Keys == w.Keys && Honest(s, w, n) && m in n.flight
    ensures Honest(s, w, Step(s, w, n, Arrive(m)))
  {
    HonestArrival(s, w, n, m.from, m.to);
    hide Step, WellFormed;
  }

  lemma StepKeepsHonesty(s: Suite, w: World, n: Net, e: Event)
    requires WellFormed(s, w) && n.clients.Keys == w.Keys && Honest(s, w, n) && Enabled(w, n, e)
    ensures Honest(s, w, Step(s, w, n, e))
  {
    hide WellFormed, Receive, Hello;
    match e
    case Discover(a, b) => HelloKeepsHonesty(s, w, n, a, b);
    case Arrive(m) => ArrivalKeepsHonesty(s, w, n, m);
    case Drop(_) =>
  }

  lemma StepKeepsBooks(s: Suite, w: World, n0: Net, n: Net, e: Event, c: Id, d: Id)
    requires WellFormed(s, w) && n0.clients.Keys == w.Keys && n.clients.Keys == w.Keys
    requires Honest(s, w, n) && Enabled(w, n, e)
    requires c in w && d in w && c != d && Books(s, w, n0, n, c, d)
    ensures Books(s, w, n0, Step(s, w, n, e), c, d)
  {
    hide Books, Step;
    match e
    case Discover(a, b) =>
      if (c, d) == (a, b) {
        HelloKeepsOwnBooks(s, w, n0, n, a, b);
      } else {
        HelloKeepsOtherBooks(s, w, n0, n, a, b, c, d);
      }
    case Arrive(m) =>
      if (c, d) == (m.from, m.to) {
        ArrivalKeepsOwnBooks(s, w, n0, n, c, d);
      } else if (c, d) == (m.to, m.from) {
        ArrivalKeepsReverseBooks(s, w, n0, n, d, c);
      } else {
        ArrivalKeepsOtherBooks(s, w, n0, n, m.from, m.to, c, d);
      }
    case Drop(m) => DropKeepsBooks(s, w, n0, n, m, c, d);
  }

  lemma StepKeepsInv(s: Suite, w: World, n: Net, e: Event)
    requires WellFormed(s, w) && Inv(s, w, n) && Enabled(w, n, e)
    ensures Inv(s, w, Step(s, w, n, e))
  {
    hide Books, Step, Enabled, WellFormed, Honest, Start;
    StepKeepsHonesty(s, w, n, e);
    forall c, d | c in w && d in w && c != d ensures Books(s, w, Start(w), Step(s, w, n, e), c, d) {
      StepKeepsBooks(s, w, Start(w), n, e, c, d);
    }
  }

  lemma {:induction false} RunKeepsInv(s: Suite, w: World, events: seq<Event>)
    requires WellFormed(s, w) && IsRun(s, w, events)
    ensures Inv(s, w, Exec(s, w, events))
    decreases |events|
  {
    if events != [] {
      var init := events[..|events| - 1];
      RunKeepsInv(s, w, init);
      StepKeepsInv(s, w, Exec(s, w, init), events[|events| - 1]);
    }
  }

  /** No storm: in any run each ordered pair sends at most two messages, so at most two arrive or get lost. */
  lemma {:induction false} AtMostTwoMessages(s: Suite, w: World, events: seq<Event>, a: Id, b: Id)
    requires WellFormed(s, w) && IsRun(s, w, events) && a in w && b in w && a != b
    ensures var h := Exec(s, w, events).hist;
      h[Delivered(a, b)] + h[Lost(a, b)] <= h[Sent(a, b)] <= 2
  {
    RunKeepsInv(s, w, events);
    assert Books(s, w, Start(w), Exec(s, w, events), a, b);
  }

  /** Neither end has anything in flight towards the other. */
  ghost predicate Quiet(n: Net, a: Id, b: Id)
  {
    forall m :: m in n.flight ==> !((m.from == a && m.to == b) || (m.from == b && m.to == a))
  }

  ghost predicate BothReady(n: Net, a: Id, b: Id)
    requires a in n.clients && b in n.clients
  {
    b in n.clients[a].keys && a in n.clients[b].keys && n.clients[a].keys[b] == n.clients[b].keys[a]
  }

  /** Once a pair that discovered each other falls quiet, it has converged unless one direction lost
      every message it sent; losing one message of the pair never does that. */
  lemma {:induction false} Convergence(s: Suite, w: World, events: seq<Event>, a: Id, b: Id)
    requires WellFormed(s, w) && IsRun(s, w, events) && a in w && b in w && a != b
    requires var n := Exec(s, w, events);
      Quiet(n, a, b) && b in n.clients[a].helloSent && a in n.clients[b].helloSent
    ensures var n := Exec(s, w, events);
      && (BothReady(n, a, b) <==> n.hist[Lost(a, b)] < n.hist[Sent(a, b)] && n.hist[Lost(b, a)] < n.hist[Sent(b, a)])
      && (n.hist[Lost(a, b)] + n.hist[Lost(b, a)] <= 1 ==> BothReady(n, a, b))
  {
    RunKeepsInv(s, w, events);
    var n := Exec(s, w, events);
    assert Books(s, w, Start(w), n, a, b) && Books(s, w, Start(w), n, b, a);
    assert Offer(s, a, w[a], b) !in n.flight && Offer(s, b, w[b], a) !in n.flight;
    DeriveAgrees(s, w[a], w[b]);
  }

  /** Without losses one discovery is enough: whoever answers brings the other end up too. */
  lemma {:induction false} OneDiscoveryIsEnough(s: Suite, w: World, events: seq<Event>, a: Id, b: Id)
    requires WellFormed(s, w) && IsRun(s, w, events) && a in w && b in w && a != b
    requires var n := Exec(s, w, events);
      && Quiet(n, a, b) && b in n.clients[a].helloSent
      && n.hist[Lost(a, b)] == 0 && n.hist[Lost(b, a)] == 0
    ensures BothReady(Exec(s, w, events), a, b)
  {
    RunKeepsInv(s, w, events);
    var n := Exec(s, w, events);
    assert Books(s, w, Start(w), n, a, b) && Books(s, w, Start(w), n, b, a);
    assert Offer(s, a, w[a], b) !in n.flight && Offer(s, b, w[b], a) !in n.flight;
    DeriveAgrees(s, w[a], w[b]);
  }

  /** NodeIDs are text without NUL. */
  predicate PlainNames(w: World)
  {
    forall a :: a in w ==> 0 !in w[a].nodeId
  }

  lemma HeldKeyIsDerived(s: Suite, w: World, events: seq<Event>, a: Id, b: Id)
    requires WellFormed(s, w) && IsRun(s, w, events) && a in w && b in w && a != b
    requires b in Exec(s, w, events).clients[a].keys
    ensures Some(Exec(s, w, events).clients[a].keys[b]) == Derive(s, w[a], w[b].nodeId, s.publicOf(w[b].secret))
  {
    RunKeepsInv(s, w, events);
    assert Books(s, w, Start(w), Exec(s, w, events), b, a);
    hide Derive, Offer, WellFormed;
  }

  /** Over any two runs, of one session or of two: keys held for two pairs are the same exactly when the
      sessions, the pairs of nodes and the Diffie-Hellman secrets are. In one session different pairs never
      share a key, and a pair that meets again in another session gets another key, even where every
      Diffie-Hellman secret is the same. */
  lemma HeldKeysSeparate(s: Suite, w: World, events: seq<Event>, a: Id, b: Id,
                         v: World, other: seq<Event>, c: Id, d: Id)
    requires WellFormed(s, w) && IsRun(s, w, events) && a in w && b in w && a != b
    requires WellFormed(s, v) && IsRun(s, v, other) && c in v && d in v && c != d
    requires Injective(s) && PlainNames(w) && PlainNames(v)
    requires b in Exec(s, w, events).clients[a].keys && d in Exec(s, v, other).clients[c].keys
    ensures Exec(s, w, events).clients[a].keys[b] == Exec(s, v, other).clients[c].keys[d]
       <==> (s.dh(w[a].secret, s.publicOf(w[b].secret)) == s.dh(v[c].secret, s.publicOf(v[d].secret))
             && w[a].sessionId == v[c].sessionId && SamePair(w[a].nodeId, w[b].nodeId, v[c].nodeId, v[d].nodeId))
  {
    hide Exec, IsRun, WellFormed, Derive, Injective;
    HeldKeyIsDerived(s, w, events, a, b);
    HeldKeyIsDerived(s, v, other, c, d);
    KeySeparation(s, w[a], w[b].nodeId, s.publicOf(w[b].secret), v[c], v[d].nodeId, s.publicOf(v[d].secret));
  }

  // ---- What a client makes of a key_exchange -----------------------------------------

  predicate Accepts(s: Suite, self: Identity, pub: Bytes) { |pub| == 32 && s.dh(self.secret, pub).Some? }

  /** It is taken, and answered once, exactly when it names its sender and the curve and brings a key the
      curve accepts; then only the sender's key and reply flag change. Anything else changes nothing: a
      message without sender or payload is ignored, any other reported. */
  lemma TakenIff(s: Suite, id: Id, self: Identity, peers: map<Id, Bytes>, l: Local, m: Msg)
    ensures var (l', out, err) := Receive(s, id, self, peers, l, m);
      var taken := m.from != "" && m.payload.Body? && m.payload.kex == "x25519" && m.payload.pub.Some?
                   && Accepts(s, self, m.payload.pub.value);
      && (!taken ==> l' == l && out == [] && (err == None <==> m.from == "" || m.payload.Empty?))
      && (taken ==>
            && err == None && l'.helloSent == l.helloSent && l'.keys.Keys == l.keys.Keys + {m.from}
            && (forall c :: c in l.keys && c != m.from ==> l'.keys[c] == l.keys[c])
            && l'.helloReplied == l.helloReplied + (if m.from == id then {} else {m.from})
            && out == (if m.from == id || m.from in l.helloReplied then []
                       else [Msg(id, m.from, Body("x25519", Some(s.publicOf(self.secret)), self.nodeId))]))
  {
    hide Info;
  }

  /** The errors, in the order of the checks. */
  lemma RefusedAs(s: Suite, id: Id, self: Identity, peers: map<Id, Bytes>, l: Local, m: Msg)
    requires m.from != "" && !m.payload.Empty?
    ensures var (err, p) := (Receive(s, id, self, peers, l, m).2, m.payload);
      && (p.BadJson? ==> err == Some(BadRequest))
      && (p.Body? && p.kex != "x25519" ==> err == Some(Unsupported))
      && (p.Body? && p.kex == "x25519" && p.pub == None ==> err == Some(BadRequest))
      && (p.Body? && p.kex == "x25519" && p.pub.Some? && !Accepts(s, self, p.pub.value) ==> err == Some(Unauthorized))
  {
    hide Info;
  }

  /** A message without a NodeID gives the key it would give with the one the server announced; one that
      names its node is believed. */
  lemma NodeIsNamedOrAnnounced(s: Suite, id: Id, self: Identity, peers: map<Id, Bytes>, l: Local, m: Msg, node: Bytes)
    requires m.from != "" && m.payload.Body? && m.payload.kex == "x25519" && m.payload.pub.Some?
    requires node == (if m.payload.nodeId != [] || m.from !in peers then m.payload.nodeId else peers[m.from])
    ensures var (l', _, err) := Receive(s, id, self, peers, l, m);
      err == None ==> m.from in l'.keys && Some(l'.keys[m.from]) == Derive(s, self, node, m.payload.pub.value)
  {
    hide Info, Derive;
  }

  /** A hello goes to a peer that is named, not oneself and not greeted before, and to no other; it changes
      nothing but that peer's flag. Forgetting a peer drops its key and spends no flag. */
  lemma HelloIff(s: Suite, id: Id, self: Identity, l: Local, to: Id)
    ensures var (l', out) := Hello(s, id, self, l, to);
      var greets := to != "" && to != id && to !in l.helloSent;
      && out == (if greets then [Msg(id, to, Body("x25519", Some(s.publicOf(self.secret)), self.nodeId))] else [])
      && l'.helloSent == (if greets then l.helloSent + {to} else l.helloSent)
      && l'.helloReplied == l.helloReplied && l'.keys == l.keys
    ensures var l' := Forget(l, to);
      && l'.helloSent == l.helloSent && l'.helloReplied == l.helloReplied
      && l'.keys.Keys == l.keys.Keys - {to} && forall c :: c in l'.keys ==> l'.keys[c] == l.keys[c]
  {
  }
}
