/** The per-key fixed-window limiter (internal/server/server.go, bucket). */
module RateLimit {

  type Time = int

  datatype Window = Window(counts: map<string, nat>, reset: Time)

  function CountOf(counts: map<string, nat>, key: string): nat
  {
    if key in counts then counts[key] else 0
  }

  class Bucket {
    const limit: int
    const window: Time
    var counts: map<string, nat>
    var reset: Time

    ghost function State(): Window
      reads this
    {
      Window(counts, reset)
    }

    constructor (limit: int, window: Time)
      ensures State() == Window(map[], 0) && this.limit == limit && this.window == window
    {
      this.limit, this.window := limit, window;
      counts, reset := map[], 0;
    }

    method Allow(key: string, now: Time) returns (ok: bool)
      modifies this`counts, this`reset
      ensures limit <= 0 ==> ok && State() == old(State())
      ensures limit > 0 ==> (State(), ok) == Do(limit, window, old(State()), Call(key, now))
    {
      if limit <= 0 {
        return true;
      }
      if now > reset {
        counts := map[];
        reset := now + window;
      }
      counts := counts[key := CountOf(counts, key) + 1];
      ok := counts[key] <= limit;
    }

    /** The clock is read twice: once for the test and once, not earlier, for the new reset time. */
    method Sweep(now: Time, later: Time)
      requires now <= later
      modifies this`counts, this`reset
      ensures State() == Do(limit, window, old(State()), Event.Sweep(now, later)).0
    {
      if now > reset {
        counts := map[];
        reset := later + window;
      }
    }
  }

  // ---- Runs --------------------------------------------------------------------

  datatype Event = Call(key: string, now: Time) | Sweep(now: Time, later: Time)

  function Ends(e: Event): Time { if e.Sweep? then e.later else e.now }

  /** The state after the event, and whether the event is an admitted call. */
  function Do(limit: int, window: Time, b: Window, e: Event): (Window, bool)
  {
    var current := if e.now > b.reset then Window(map[], Ends(e) + window) else b;
    match e
    case Sweep(_, _) => (current, false)
    case Call(key, _) =>
      var n := CountOf(current.counts, key) + 1;
      (Window(current.counts[key := n], current.reset), n <= limit)
  }

  /** The state after k events and the number of counting windows begun by then. */
  function At(limit: int, window: Time, b: Window, run: seq<Event>, k: nat): (Window, nat)
    requires k <= |run|
  {
    if k == 0 then (b, 0)
    else
      var (before, epoch) := At(limit, window, b, run, k - 1);
      var e := run[k - 1];
      (Do(limit, window, before, e).0, if e.now > before.reset then epoch + 1 else epoch)
  }

  /** A monotone clock. */
  ghost predicate Monotone(run: seq<Event>)
  {
    && (forall k :: 0 <= k < |run| ==> run[k].now <= Ends(run[k]))
    && (forall j, k :: 0 <= j < k < |run| ==> Ends(run[j]) <= run[k].now)
  }

  predicate IsCall(run: seq<Event>, k: nat, key: string)
    requires k < |run|
  {
    run[k].Call? && run[k].key == key
  }

  predicate Admitted(limit: int, window: Time, b: Window, run: seq<Event>, k: nat, key: string)
    requires k < |run|
  {
    IsCall(run, k, key) && Do(limit, window, At(limit, window, b, run, k).0, run[k]).1
  }

  /** Calls, and admitted calls, for key among the first k events that fall in counting window `epoch`. */
  function Calls(limit: int, window: Time, b: Window, run: seq<Event>, k: nat, key: string, epoch: nat): nat
    requires k <= |run|
  {
    if k == 0 then 0
    else Calls(limit, window, b, run, k - 1, key, epoch)
         + (if IsCall(run, k - 1, key) && At(limit, window, b, run, k).1 == epoch then 1 else 0)
  }

  function Admissions(limit: int, window: Time, b: Window, run: seq<Event>, k: nat, key: string, epoch: nat): nat
    requires k <= |run|
  {
    if k == 0 then 0
    else Admissions(limit, window, b, run, k - 1, key, epoch)
         + (if Admitted(limit, window, b, run, k - 1, key) && At(limit, window, b, run, k).1 == epoch then 1 else 0)
  }

  /** Admitted calls for key among the first k events made at a time in [from, to]. */
  function AdmittedIn(limit: int, window: Time, b: Window, run: seq<Event>, k: nat, key: string, from: Time, to: Time): nat
    requires k <= |run|
  {
    if k == 0 then 0
    else AdmittedIn(limit, window, b, run, k - 1, key, from, to)
         + (if Admitted(limit, window, b, run, k - 1, key) && from <= run[k - 1].now <= to then 1 else 0)
  }

  function Min(a: int, b: int): int { if a < b then a else b }

  lemma {:induction false} EpochsGrow(limit: int, window: Time, b: Window, run: seq<Event>, j: nat, k: nat)
    requires j <= k <= |run|
    ensures At(limit, window, b, run, j).1 <= At(limit, window, b, run, k).1
    decreases k
  {
    if j < k {
      EpochsGrow(limit, window, b, run, j, k - 1);
    }
  }

  lemma {:induction false} NoCallsAhead(limit: int, window: Time, b: Window, run: seq<Event>, k: nat, key: string, epoch: nat)
    requires k <= |run| && epoch > At(limit, window, b, run, k).1
    ensures Calls(limit, window, b, run, k, key, epoch) == 0
    ensures Admissions(limit, window, b, run, k, key, epoch) == 0
    decreases k
  {
    if k > 0 {
      EpochsGrow(limit, window, b, run, k - 1, k);
      NoCallsAhead(limit, window, b, run, k - 1, key, epoch);
    }
  }

  /** One counting window admits exactly min(calls, limit) per key. */
  lemma {:induction false} WindowAdmitsUpToLimit(limit: int, window: Time, b: Window, run: seq<Event>, k: nat, key: string, epoch: nat)
    requires limit > 0 && k <= |run| && b.counts == map[]
    ensures Admissions(limit, window, b, run, k, key, epoch)
         == Min(Calls(limit, window, b, run, k, key, epoch), limit)
    ensures epoch == At(limit, window, b, run, k).1 ==>
         CountOf(At(limit, window, b, run, k).0.counts, key) == Calls(limit, window, b, run, k, key, epoch)
    decreases k
  {
    if k > 0 {
      WindowAdmitsUpToLimit(limit, window, b, run, k - 1, key, epoch);
      var before := At(limit, window, b, run, k - 1);
      if run[k - 1].now > before.0.reset && epoch == before.1 + 1 {
        NoCallsAhead(limit, window, b, run, k - 1, key, epoch);
      }
    }
  }

  /** Two windows begun after event j means more than `window` has passed since it. */
  lemma {:induction false} TwoWindowsLater(limit: int, window: Time, b: Window, run: seq<Event>, j: nat, k: nat)
    requires Monotone(run) && j < k <= |run|
    ensures var (now, epoch) := At(limit, window, b, run, k); var then_ := At(limit, window, b, run, j + 1).1;
      && (epoch > then_ ==> now.reset >= run[j].now + window)
      && (epoch > then_ + 1 ==> run[k - 1].now > run[j].now + window)
    decreases k
  {
    if j + 1 < k {
      TwoWindowsLater(limit, window, b, run, j, k - 1);
      EpochsGrow(limit, window, b, run, j + 1, k - 1);
      assert Ends(run[j]) <= run[k - 1].now <= Ends(run[k - 1]);
    }
  }

  /** Events in an interval of length `window` that starts at or after event j's window fall in two windows. */
  lemma {:induction false} IntervalSpansTwo(limit: int, window: Time, b: Window, run: seq<Event>, k: nat, key: string, from: Time, epoch: nat)
    requires limit > 0 && Monotone(run) && k <= |run| && b.counts == map[]
    requires forall j :: 0 <= j < k && from <= run[j].now <= from + window ==>
      epoch <= At(limit, window, b, run, j + 1).1 <= epoch + 1
    ensures AdmittedIn(limit, window, b, run, k, key, from, from + window)
         <= Admissions(limit, window, b, run, k, key, epoch) + Admissions(limit, window, b, run, k, key, epoch + 1)
    decreases k
  {
    if k > 0 {
      IntervalSpansTwo(limit, window, b, run, k - 1, key, from, epoch);
    }
  }

  lemma {:induction false} EmptyInterval(limit: int, window: Time, b: Window, run: seq<Event>, k: nat, key: string, from: Time, to: Time)
    requires k <= |run| && forall j :: 0 <= j < k ==> !(from <= run[j].now <= to)
    ensures AdmittedIn(limit, window, b, run, k, key, from, to) == 0
    decreases k
  {
    if k > 0 {
      EmptyInterval(limit, window, b, run, k - 1, key, from, to);
    }
  }

  /** Whatever keys, calls and sweeps are mixed, any closed interval as long as the window admits at
      most twice the limit for one key. */
  lemma {:induction false} AtMostTwiceTheLimit(limit: int, window: Time, b: Window, run: seq<Event>, key: string, from: Time)
    requires limit > 0 && Monotone(run) && b.counts == map[]
    ensures AdmittedIn(limit, window, b, run, |run|, key, from, from + window) <= 2 * limit
  {
    hide At, Do, Admissions, Calls, AdmittedIn;
    if !(exists j :: 0 <= j < |run| && from <= run[j].now <= from + window) {
      EmptyInterval(limit, window, b, run, |run|, key, from, from + window);
    } else {
      var first := FirstInside(run, from, from + window);
      var epoch := At(limit, window, b, run, first + 1).1;
      forall j | 0 <= j < |run| && from <= run[j].now <= from + window
        ensures epoch <= At(limit, window, b, run, j + 1).1 <= epoch + 1 {
        EpochsGrow(limit, window, b, run, first + 1, j + 1);
        TwoWindowsLater(limit, window, b, run, first, j + 1);
      }
      IntervalSpansTwo(limit, window, b, run, |run|, key, from, epoch);
      WindowAdmitsUpToLimit(limit, window, b, run, |run|, key, epoch);
      WindowAdmitsUpToLimit(limit, window, b, run, |run|, key, epoch + 1);
    }
  }

  lemma FirstInside(run: seq<Event>, from: Time, to: Time) returns (first: nat)
    requires exists j :: 0 <= j < |run| && from <= run[j].now <= to
    ensures first < |run| && from <= run[first].now <= to
    ensures forall j :: 0 <= j < |run| && from <= run[j].now <= to ==> first <= j
  {
    first := 0;
    while !(from <= run[first].now <= to)
      invariant first < |run|
      invariant forall j :: 0 <= j < first ==> !(from <= run[j].now <= to)
      decreases |run| - first
    {
      first := first + 1;
    }
  }

  /** Event j begins a counting window and events j + 1 to k - 1 do not. */
  ghost predicate BegunBy(limit: int, window: Time, b: Window, run: seq<Event>, j: nat, k: nat)
    requires j < k <= |run|
  {
    At(limit, window, b, run, j).1 < At(limit, window, b, run, j + 1).1 == At(limit, window, b, run, k).1
  }

  lemma {:induction false} ResetIs(limit: int, window: Time, b: Window, run: seq<Event>, j: nat, k: nat)
    requires j < k <= |run| && BegunBy(limit, window, b, run, j, k)
    ensures At(limit, window, b, run, k).0.reset == Ends(run[j]) + window
    decreases k
  {
    if j + 1 < k {
      EpochsGrow(limit, window, b, run, j + 1, k - 1);
      EpochsGrow(limit, window, b, run, k - 1, k);
      ResetIs(limit, window, b, run, j, k - 1);
    }
  }

  /** A window lasts as long as configured: an event begins the next one exactly when it comes more than the
      window after the event that began the last. */
  lemma {:induction false} WindowLasts(limit: int, window: Time, b: Window, run: seq<Event>, j: nat, k: nat)
    requires j < k < |run| && BegunBy(limit, window, b, run, j, k)
    ensures At(limit, window, b, run, k + 1).1
         == At(limit, window, b, run, k).1 + (if run[k].now > Ends(run[j]) + window then 1 else 0)
  {
    ResetIs(limit, window, b, run, j, k);
  }
}
