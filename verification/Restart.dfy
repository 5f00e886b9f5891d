/** A client that comes back as a new process under its old member ID, with a new key pair and no memory of
    whom it greeted, while the other end keeps both flags
    (pkg/sessionclient/loops.go, pkg/sessionclient/crypto.go, internal/server/ws.go). */
module Restart {
  import opened Machine
  import opened KeyExchange

  datatype Life = Life(w: World, n: Net)

  /** `Forgets` is member_left at a; `Restarts` the return of b with a new secret. */
  datatype Turn = Plain(e: Event) | Forgets(a: Id, b: Id) | Restarts(b: Id, secret: nat)

  /** What a former process sent reaches its peers' queues ahead of anything the new one sends, so it has
      arrived or is lost by then; what is on its way to it may still reach the new one. */
  ghost predicate Possible(x: Life, t: Turn)
  {
    match t
    case Plain(e) => Enabled(x.w, x.n, e)
    case Forgets(a, b) => a in x.w && b in x.w
    case Restarts(b, _) => b in x.w && forall m :: m in x.n.flight ==> m.from != b
  }

  ghost function Live(s: Suite, x: Life, t: Turn): (x': Life)
    requires x.n.clients.Keys == x.w.Keys
    ensures x'.n.clients.Keys == x'.w.Keys == x.w.Keys
  {
    match t
    case Plain(e) => x.(n := Step(s, x.w, x.n, e))
    case Forgets(a, b) =>
      if a !in x.w then x else x.(n := x.n.(clients := x.n.clients[a := Forget(x.n.clients[a], b)]))
    case Restarts(b, secret) =>
      if b !in x.w then x
      else Life(x.w[b := x.w[b].(secret := secret)], x.n.(clients := x.n.clients[b := FRESH]))
  }

  ghost function Lives(s: Suite, x: Life, turns: seq<Turn>): (x': Life)
    requires x.n.clients.Keys == x.w.Keys
    ensures x'.n.clients.Keys == x'.w.Keys == x.w.Keys
  {
    if turns == [] then x else Live(s, Lives(s, x, turns[..|turns| - 1]), turns[|turns| - 1])
  }

  ghost predicate IsHistory(s: Suite, x: Life, turns: seq<Turn>)
    requires x.n.clients.Keys == x.w.Keys
  {
    turns == [] ||
    var init := turns[..|turns| - 1];
    IsHistory(s, x, init) && Possible(Lives(s, x, init), turns[|turns| - 1])
  }

  ghost function Birth(w: World): (x: Life)
    ensures x.n.clients.Keys == x.w.Keys == w.Keys
  {
    Life(w, Start(w))
  }

  // ---- What every history keeps ------------------------------------------------------------------

  ghost predicate Sound(s: Suite, x: Life)
  {
    WellFormed(s, x.w) && x.n.clients.Keys == x.w.Keys && Honest(s, x.w, x.n)
  }

  lemma TurnKeepsSound(s: Suite, x: Life, t: Turn)
    requires Sound(s, x) && Possible(x, t)
    ensures Sound(s, Live(s, x, t))
  {
    match t
    case Plain(e) =>
      StepKeepsHonesty(s, x.w, x.n, e);
      hide Honest, Step, WellFormed, Enabled;
    case Forgets(_, _) => hide WellFormed;
    case Restarts(b, secret) =>
      hide Commutes;
      forall m | m in x.n.flight ensures m == Offer(s, m.from, Live(s, x, t).w[m.from], m.to) {}
  }

  lemma {:induction false} HistoryKeepsSound(s: Suite, x: Life, turns: seq<Turn>)
    requires x.n.clients.Keys == x.w.Keys && Sound(s, x) && IsHistory(s, x, turns)
    ensures Sound(s, Lives(s, x, turns))
    decreases |turns|
  {
    hide Sound, Live, Possible;
    if turns != [] {
      HistoryKeepsSound(s, x, turns[..|turns| - 1]);
      TurnKeepsSound(s, Lives(s, x, turns[..|turns| - 1]), turns[|turns| - 1]);
    }
  }

  /** Neither end of the pair restarts or forgets the other. */
  predicate LeavesAlone(t: Turn, a: Id, b: Id)
  {
    match t
    case Plain(_) => true
    case Forgets(c, d) => !(c == a && d == b) && !(c == b && d == a)
    case Restarts(c, _) => c != a && c != b
  }

  predicate LeftAlone(turns: seq<Turn>, a: Id, b: Id)
  {
    forall i :: 0 <= i < |turns| ==> LeavesAlone(turns[i], a, b)
  }

  /** The pair's books since n0, and its two identities. */
  ghost predicate PairBooks(s: Suite, x0: Life, x: Life, a: Id, b: Id)
    requires x0.n.clients.Keys == x0.w.Keys == x.w.Keys == x.n.clients.Keys && a in x.w && b in x.w
  {
    && x.w[a] == x0.w[a] && x.w[b] == x0.w[b]
    && Books(s, x.w, x0.n, x.n, a, b) && Books(s, x.w, x0.n, x.n, b, a)
  }

  lemma ElsewhereKeepsBooks(s: Suite, n0: Net, x: Life, t: Turn, a: Id, b: Id)
    requires n0.clients.Keys == x.w.Keys == x.n.clients.Keys && a in x.w && b in x.w && a != b
    requires !t.Plain? && LeavesAlone(t, a, b) && Books(s, x.w, n0, x.n, a, b)
    ensures Books(s, Live(s, x, t).w, n0, Live(s, x, t).n, a, b)
  {
    hide Derive;
  }

  lemma TurnKeepsPairBooks(s: Suite, x0: Life, x: Life, t: Turn, a: Id, b: Id)
    requires Sound(s, x) && Possible(x, t) && LeavesAlone(t, a, b)
    requires x0.n.clients.Keys == x0.w.Keys == x.w.Keys && a in x.w && b in x.w && a != b
    requires PairBooks(s, x0, x, a, b)
    ensures PairBooks(s, x0, Live(s, x, t), a, b)
  {
    hide Books, Honest, WellFormed, Step, Enabled;
    if t.Plain? {
      StepKeepsBooks(s, x.w, x0.n, x.n, t.e, a, b);
      StepKeepsBooks(s, x.w, x0.n, x.n, t.e, b, a);
    } else {
      ElsewhereKeepsBooks(s, x0.n, x, t, a, b);
      ElsewhereKeepsBooks(s, x0.n, x, t, b, a);
    }
  }

  lemma {:induction false} HistoryKeepsPairBooks(s: Suite, x0: Life, turns: seq<Turn>, a: Id, b: Id)
    requires Sound(s, x0) && IsHistory(s, x0, turns) && LeftAlone(turns, a, b) && a in x0.w && b in x0.w && a != b
    ensures PairBooks(s, x0, Lives(s, x0, turns), a, b)
    decreases |turns|
  {
    if turns == [] {
      hide Derive;
    } else {
      hide PairBooks, Live, Possible, LeavesAlone;
      var init := turns[..|turns| - 1];
      assert LeftAlone(init, a, b);
      HistoryKeepsPairBooks(s, x0, init, a, b);
      HistoryKeepsSound(s, x0, init);
      TurnKeepsPairBooks(s, x0, Lives(s, x0, init), turns[|turns| - 1], a, b);
    }
  }

  // ---- After a restart ---------------------------------------------------------------------------

  /** The key the survivor may still hold is not the one the new pair would derive. */
  ghost predicate OldKeyIsStale(s: Suite, x: Life, a: Id, b: Id)
    requires x.n.clients.Keys == x.w.Keys && a in x.w && b in x.w
  {
    b in x.n.clients[a].keys ==>
      Some(x.n.clients[a].keys[b]) != Derive(s, x.w[a], x.w[b].nodeId, s.publicOf(x.w[b].secret))
  }

  /** Between the restart x0 and a later moment x: the pair is ready if and only if in each direction not
      everything was lost; all that a sends is what its two flags had left; and without losses, the pair is
      ready if and only if a message was on its way to b when it restarted or a had a flag left. */
  ghost predicate ReadyExactly(s: Suite, x0: Life, x: Life, a: Id, b: Id)
    requires a in x0.w && a in x0.n.clients && a in x.n.clients && b in x.n.clients
  {
    var hadSent, hadReplied := b in x0.n.clients[a].helloSent, b in x0.n.clients[a].helloReplied;
    var onItsWay := x0.n.flight[Offer(s, a, x0.w[a], b)];
    var sentAB, lostAB := Since(x0.n, x.n, Sent(a, b)), Since(x0.n, x.n, Lost(a, b));
    var sentBA, lostBA := Since(x0.n, x.n, Sent(b, a)), Since(x0.n, x.n, Lost(b, a));
    && (BothReady(x.n, a, b) <==> lostAB < onItsWay + sentAB && lostBA < sentBA)
    && sentAB == One(!hadSent) + One(!hadReplied && lostBA < sentBA)
    && (lostAB == 0 == lostBA ==> (BothReady(x.n, a, b) <==> onItsWay > 0 || !hadSent || !hadReplied))
  }

  lemma PairAfterRestart(s: Suite, x0: Life, x: Life, a: Id, b: Id)
    requires Sound(s, x0) && Sound(s, x) && x0.w.Keys == x.w.Keys && a in x.w && b in x.w && a != b
    requires PairBooks(s, x0, x, a, b) && x0.n.clients[b] == FRESH && OldKeyIsStale(s, x0, a, b)
    requires Offer(s, b, x0.w[b], a) !in x0.n.flight
    requires Quiet(x.n, a, b) && b in x.n.clients[a].helloSent && a in x.n.clients[b].helloSent
    ensures ReadyExactly(s, x0, x, a, b)
  {
    assert Offer(s, a, x.w[a], b) !in x.n.flight && Offer(s, b, x.w[b], a) !in x.n.flight;
    DeriveAgrees(s, x.w[a], x.w[b]);
    hide Derive, Honest, Commutes;
  }

  /** After any history b restarts, and then any history that leaves the pair alone follows, at whose end
      the two have discovered each other again and nothing is under way between them. */
  lemma {:induction false} RestartedPairIsReadyIff(s: Suite, w: World, before: seq<Turn>, a: Id, b: Id, secret: nat,
        after: seq<Turn>)
    requires WellFormed(s, w) && a in w && b in w && a != b
    requires IsHistory(s, Birth(w), before) && Possible(Lives(s, Birth(w), before), Restarts(b, secret))
    requires var x0 := Live(s, Lives(s, Birth(w), before), Restarts(b, secret));
      var x := Lives(s, x0, after);
      && IsHistory(s, x0, after) && LeftAlone(after, a, b) && OldKeyIsStale(s, x0, a, b)
      && Quiet(x.n, a, b) && b in x.n.clients[a].helloSent && a in x.n.clients[b].helloSent
    ensures var x0 := Live(s, Lives(s, Birth(w), before), Restarts(b, secret));
      ReadyExactly(s, x0, Lives(s, x0, after), a, b)
  {
    hide Lives, IsHistory, PairBooks, OldKeyIsStale, Quiet, ReadyExactly, Honest, Commutes, LeftAlone;
    var was := Lives(s, Birth(w), before);
    var x0 := Live(s, was, Restarts(b, secret));
    assert Sound(s, Birth(w)) by { BirthIsSound(s, w); }
    FreshAtRestart(s, was, b, secret, a);
    hide Sound, Birth, Offer, Live;
    HistoryKeepsSound(s, Birth(w), before);
    TurnKeepsSound(s, was, Restarts(b, secret));
    hide Possible;
    HistoryKeepsSound(s, x0, after);
    HistoryKeepsPairBooks(s, x0, after, a, b);
    PairAfterRestart(s, x0, Lives(s, x0, after), a, b);
  }

  lemma BirthIsSound(s: Suite, w: World)
    requires WellFormed(s, w)
    ensures Sound(s, Birth(w))
  {
  }

  lemma FreshAtRestart(s: Suite, was: Life, b: Id, secret: nat, a: Id)
    requires was.n.clients.Keys == was.w.Keys && b in was.w && Possible(was, Restarts(b, secret))
    ensures var x0 := Live(s, was, Restarts(b, secret));
      x0.n.clients[b] == FRESH && Offer(s, b, x0.w[b], a) !in x0.n.flight
  {
    assert Offer(s, b, Live(s, was, Restarts(b, secret)).w[b], a).from == b;
  }

  // ---- With both flags spent -----------------------------------------------------------------------

  /** Nothing from a is on its way to b, and a will send nothing any more. */
  ghost predicate Silent(n: Net, a: Id, b: Id)
    requires a in n.clients && b in n.clients
  {
    && b in n.clients[a].helloSent && b in n.clients[a].helloReplied && a !in n.clients[b].keys
    && forall m :: m in n.flight ==> !(m.from == a && m.to == b)
  }

  /** Whatever message arrives, only its sender's entries change. */
  lemma ReceiveIsLocal(s: Suite, id: Id, self: Identity, l: Local, m: Msg)
    ensures var (l', out, _) := Receive(s, id, self, map[], l, m);
      && l'.helloSent == l.helloSent && l.helloReplied <= l'.helloReplied
      && (forall c :: c != m.from ==> (c in l'.keys <==> c in l.keys))
      && |out| <= 1 && (out != [] ==> out[0].from == id && out[0].to == m.from && m.from !in l.helloReplied)
  {
    hide Derive;
  }

  lemma SilentArrive(s: Suite, w: World, n: Net, m: Msg, a: Id, b: Id)
    requires n.clients.Keys == w.Keys && a in w && b in w && a != b && m in n.flight && Silent(n, a, b)
    ensures Silent(Step(s, w, n, Arrive(m)), a, b)
  {
    if m.to in w {
      ReceiveIsLocal(s, m.to, w[m.to], n.clients[m.to], m);
    }
    hide Receive;
  }

  lemma SilentTurn(s: Suite, x: Life, t: Turn, a: Id, b: Id)
    requires x.n.clients.Keys == x.w.Keys && a in x.w && b in x.w && a != b && Silent(x.n, a, b)
    requires Possible(x, t) && (t.Restarts? ==> t.b != a && t.b != b)
    ensures Silent(Live(s, x, t).n, a, b)
  {
    match t
    case Plain(Discover(c, d)) =>
    case Plain(Arrive(m)) => SilentArrive(s, x.w, x.n, m, a, b);
    case Plain(Drop(m)) =>
    case _ =>
  }

  /** A process that comes back to a peer with both flags spent and nothing under way never gets that peer's
      key, whatever is discovered again, forgotten, delivered or lost. */
  lemma {:induction false} SpentFlagsStrandThePair(s: Suite, x: Life, turns: seq<Turn>, a: Id, b: Id)
    requires x.n.clients.Keys == x.w.Keys && a in x.w && b in x.w && a != b && Silent(x.n, a, b)
    requires IsHistory(s, x, turns)
    requires forall i :: 0 <= i < |turns| && turns[i].Restarts? ==> turns[i].b != a && turns[i].b != b
    ensures Silent(Lives(s, x, turns).n, a, b) && !BothReady(Lives(s, x, turns).n, a, b)
    decreases |turns|
  {
    if turns != [] {
      hide Silent, Live, Possible;
      var init := turns[..|turns| - 1];
      SpentFlagsStrandThePair(s, x, init, a, b);
      SilentTurn(s, Lives(s, x, init), turns[|turns| - 1], a, b);
    }
    assert Silent(Lives(s, x, turns).n, a, b);
  }

  // ---- A run that strands a pair -----------------------------------------------------------------

  /** Greetings and arrivals only: nothing lost, nobody restarted, nothing forgotten. */
  predicate Untroubled(turns: seq<Turn>)
  {
    forall i :: 0 <= i < |turns| ==> turns[i].Plain? && !turns[i].e.Drop?
  }

  lemma UntroubledLeavesAlone(turns: seq<Turn>, a: Id, b: Id)
    requires Untroubled(turns)
    ensures LeftAlone(turns, a, b)
  {
  }

  lemma LivesNext(s: Suite, x: Life, turns: seq<Turn>, t: Turn)
    requires x.n.clients.Keys == x.w.Keys
    ensures Lives(s, x, turns + [t]) == Live(s, Lives(s, x, turns), t)
    ensures IsHistory(s, x, turns + [t]) <==> IsHistory(s, x, turns) && Possible(Lives(s, x, turns), t)
  {
    assert (turns + [t])[..|turns|] == turns;
    hide Live, Possible;
  }

  lemma Greets(s: Suite, x: Life, a: Id, b: Id)
    requires x.n.clients.Keys == x.w.Keys && a in x.w && b in x.w && a != b && "" !in x.w
    ensures var x', known := Live(s, x, Plain(Discover(a, b))), b in x.n.clients[a].helloSent;
      && x'.w == x.w && (known ==> x' == x)
      && (known || x'.n.flight == x.n.flight + multiset{Offer(s, a, x.w[a], b)})
      && (known || x'.n.clients == x.n.clients[a := x.n.clients[a].(helloSent := x.n.clients[a].helloSent + {b})])
  {
  }

  lemma Hears(s: Suite, x: Life, a: Id, b: Id)
    requires Sound(s, x) && a in x.w && b in x.w && a != b && Offer(s, a, x.w[a], b) in x.n.flight
    ensures var x' := Live(s, x, Plain(Arrive(Offer(s, a, x.w[a], b))));
      var l, l' := x.n.clients[b], x'.n.clients[b];
      && x'.w == x.w && x'.n.clients == x.n.clients[b := l']
      && l'.helloSent == l.helloSent && l'.helloReplied == l.helloReplied + {a} && l'.keys.Keys == l.keys.Keys + {a}
      && x'.n.flight == x.n.flight - multiset{Offer(s, a, x.w[a], b)}
                        + (if a in l.helloReplied then multiset{} else multiset{Offer(s, b, x.w[b], a)})
  {
    HonestArrival(s, x.w, x.n, a, b);
    hide Step, WellFormed, Honest;
  }

  /** Some such turns lead from x0 to x. */
  ghost predicate Reaches(s: Suite, x0: Life, turns: seq<Turn>, x: Life)
    requires x0.n.clients.Keys == x0.w.Keys
  {
    IsHistory(s, x0, turns) && Lives(s, x0, turns) == x && Untroubled(turns) && Sound(s, x)
  }

  lemma ReachesNext(s: Suite, x0: Life, turns: seq<Turn>, x: Life, t: Turn)
    requires x0.n.clients.Keys == x0.w.Keys && Reaches(s, x0, turns, x) && Possible(x, t)
    requires t.Plain? && !t.e.Drop?
    ensures x.n.clients.Keys == x.w.Keys && Reaches(s, x0, turns + [t], Live(s, x, t))
  {
    LivesNext(s, x0, turns, t);
    TurnKeepsSound(s, x, t);
    hide Live, Possible, Sound, IsHistory, Lives;
  }

  lemma ReachesNothing(s: Suite, x0: Life)
    requires Sound(s, x0)
    ensures Reaches(s, x0, [], x0)
  {
  }

  /** One discovery, and its answers: both ends have their keys, and nothing is under way. */
  lemma TheyMeet(s: Suite, x0: Life, a: Id, b: Id) returns (turns: seq<Turn>, x: Life)
    requires Sound(s, x0) && a in x0.w && b in x0.w && a != b && x0.n.flight == multiset{}
    requires x0.n.clients[a] == FRESH == x0.n.clients[b]
    ensures Reaches(s, x0, turns, x) && x.w == x0.w && x.n.clients.Keys == x.w.Keys && x.n.flight == multiset{}
    ensures b in x.n.clients[a].helloSent && b in x.n.clients[a].helloReplied
    ensures b in x.n.clients[a].keys && a in x.n.clients[b].keys
  {
    var w := x0.w;
    var greet, p, q := Plain(Discover(a, b)), Plain(Arrive(Offer(s, a, w[a], b))), Plain(Arrive(Offer(s, b, w[b], a)));
    ReachesNothing(s, x0);
    assert "" !in w;
    hide Live, Reaches, Offer, WellFormed, Honest;
    Greets(s, x0, a, b);
    var x1 := Live(s, x0, greet);
    ReachesNext(s, x0, [], x0, greet);
    SoundWhereReached(s, x0, [] + [greet], x1);
    Hears(s, x1, a, b);
    var x2 := Live(s, x1, p);
    ReachesNext(s, x0, [] + [greet], x1, p);
    SoundWhereReached(s, x0, [] + [greet] + [p], x2);
    Hears(s, x2, b, a);
    var x3 := Live(s, x2, q);
    ReachesNext(s, x0, [] + [greet] + [p], x2, q);
    SoundWhereReached(s, x0, [] + [greet] + [p] + [q], x3);
    Hears(s, x3, a, b);
    ReachesNext(s, x0, [] + [greet] + [p] + [q], x3, p);
    turns, x := [] + [greet] + [p] + [q] + [p], Live(s, x3, p);
  }

  lemma SoundWhereReached(s: Suite, x0: Life, turns: seq<Turn>, x: Life)
    requires x0.n.clients.Keys == x0.w.Keys && Reaches(s, x0, turns, x)
    ensures Sound(s, x)
  {
  }

  /** The same discovery once b has come back: a takes b's new key and answers nothing. */
  lemma TheyMeetAgain(s: Suite, x0: Life, a: Id, b: Id) returns (turns: seq<Turn>, x: Life)
    requires Sound(s, x0) && a in x0.w && b in x0.w && a != b && x0.n.flight == multiset{}
    requires x0.n.clients[b] == FRESH && b in x0.n.clients[a].helloSent && b in x0.n.clients[a].helloReplied
    ensures Reaches(s, x0, turns, x) && a in x.n.clients && b in x.n.clients
    ensures x.n.flight == multiset{} && b in x.n.clients[a].helloSent && a in x.n.clients[b].helloSent
    ensures a !in x.n.clients[b].keys
  {
    var w := x0.w;
    var d, q, e := Plain(Discover(b, a)), Plain(Arrive(Offer(s, b, w[b], a))), Plain(Discover(a, b));
    ReachesNothing(s, x0);
    assert "" !in w;
    hide Live, Reaches, Offer, WellFormed, Honest;
    Greets(s, x0, b, a);
    var x1 := Live(s, x0, d);
    ReachesNext(s, x0, [], x0, d);
    SoundWhereReached(s, x0, [] + [d], x1);
    Hears(s, x1, b, a);
    var x2 := Live(s, x1, q);
    ReachesNext(s, x0, [] + [d], x1, q);
    Greets(s, x2, a, b);
    ReachesNext(s, x0, [] + [d] + [q], x2, e);
    turns, x := [] + [d] + [q] + [e], Live(s, x2, e);
  }

  lemma BooksMeanReady(s: Suite, x0: Life, x: Life, a: Id, b: Id)
    requires Sound(s, x) && x0.n.clients.Keys == x0.w.Keys == x.w.Keys && a in x.w && b in x.w && a != b
    requires PairBooks(s, x0, x, a, b) && x0.n.clients[a] == FRESH == x0.n.clients[b]
    requires b in x.n.clients[a].keys && a in x.n.clients[b].keys
    ensures BothReady(x.n, a, b)
  {
    DeriveAgrees(s, x.w[a], x.w[b]);
    hide Derive, Honest, Commutes;
  }

  /** An untroubled history after b's restart: the two discover each other, and are not ready. */
  ghost predicate Stranded(s: Suite, was: Life, a: Id, b: Id, secret: nat, after: seq<Turn>)
    requires was.n.clients.Keys == was.w.Keys && a in was.w && b in was.w
  {
    var x0 := Live(s, was, Restarts(b, secret));
    var x := Lives(s, x0, after);
    && Possible(was, Restarts(b, secret)) && IsHistory(s, x0, after) && Untroubled(after)
    && Quiet(x.n, a, b) && b in x.n.clients[a].helloSent && a in x.n.clients[b].helloSent && !BothReady(x.n, a, b)
  }

  lemma ComesBackStranded(s: Suite, was: Life, a: Id, b: Id, secret: nat) returns (after: seq<Turn>)
    requires Sound(s, was) && a in was.w && b in was.w && a != b && was.n.flight == multiset{}
    requires b in was.n.clients[a].helloSent && b in was.n.clients[a].helloReplied
    ensures Stranded(s, was, a, b, secret, after)
  {
    hide Lives, IsHistory, Untroubled, WellFormed, Honest;
    assert Possible(was, Restarts(b, secret));
    TurnKeepsSound(s, was, Restarts(b, secret));
    var x;
    after, x := TheyMeetAgain(s, Live(s, was, Restarts(b, secret)), a, b);
    hide Possible, Sound, Live;
  }

  /** From the start, for any two clients and any new key: an untroubled history makes them ready, and b's
      restart then strands them. */
  lemma RestartStrandsThePair(s: Suite, w: World, a: Id, b: Id, secret: nat)
    requires WellFormed(s, w) && a in w && b in w && a != b
    ensures exists before: seq<Turn>, after: seq<Turn> ::
      var was := Lives(s, Birth(w), before);
      && IsHistory(s, Birth(w), before) && Untroubled(before) && BothReady(was.n, a, b)
      && Stranded(s, was, a, b, secret, after)
  {
    BirthIsSound(s, w);
    assert Birth(w).n.clients[a] == FRESH == Birth(w).n.clients[b];
    hide Birth, Lives, IsHistory, Untroubled, WellFormed, Honest, PairBooks, BothReady, Stranded, Sound;
    var before, was := TheyMeet(s, Birth(w), a, b);
    UntroubledLeavesAlone(before, a, b);
    SoundWhereReached(s, Birth(w), before, was);
    HistoryKeepsPairBooks(s, Birth(w), before, a, b);
    BooksMeanReady(s, Birth(w), was, a, b);
    var after := ComesBackStranded(s, was, a, b, secret);
  }

  // ---- What the two turns do ---------------------------------------------------------------------

  /** member_left costs the pair's key at that end and nothing else; a restart gives the client a new secret,
      clears what it knew, and touches neither its names nor the others nor what is under way. */
  lemma TurnsAre(s: Suite, x: Life, t: Turn)
    requires x.n.clients.Keys == x.w.Keys && Possible(x, t) && !t.Plain?
    ensures var x', who := Live(s, x, t), if t.Forgets? then t.a else t.b;
      && who in x.w && x'.n.flight == x.n.flight && x'.n.hist == x.n.hist
      && (forall c :: c in x.w && c != who ==> x'.n.clients[c] == x.n.clients[c] && x'.w[c] == x.w[c])
      && x'.w[who].nodeId == x.w[who].nodeId && x'.w[who].sessionId == x.w[who].sessionId
      && (t.Forgets? ==>
            && x'.w == x.w && x'.n.clients[who].helloSent == x.n.clients[who].helloSent
            && x'.n.clients[who].helloReplied == x.n.clients[who].helloReplied
            && x'.n.clients[who].keys == x.n.clients[who].keys - {t.b})
      && (t.Restarts? ==> x'.w[who].secret == t.secret && x'.n.clients[who] == Local({}, {}, map[]))
  {
  }
}
