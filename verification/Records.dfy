/** Session and member records and the helpers on them (internal/storage/store.go), member IDs and code
    normalisation (internal/storage/memory.go). Records are values: both stores copy them in and out. */
module Records {
  import opened Machine

  type SessionId = string
  type MemberId = string
  type NodeId = string
  type Candidate = string

  /** Nanoseconds since the Unix epoch; 0 stands for the zero time. */
  type Time = nat

  datatype Status = Active | Pending | Denied | Left
  datatype Role = OwnerRole | MemberRole

  datatype Member = Member(
    id: MemberId, session: SessionId, index: u16, nodeId: NodeId, publicKey: string,
    role: Role, status: Status, capabilities: seq<string>, candidates: seq<Candidate>,
    connectionId: string, joinedAt: Time, lastSeen: Time, leaveAt: Time)

  datatype Head = Head(
    id: SessionId, mode: string, joinCode: string, tokenHash: string,
    joinLimit: int, joinsUsed: int, maxMembers: int, requireApproval: bool,
    owner: MemberId, revoked: bool, closed: bool,
    createdAt: Time, expiresAt: Time, idleTimeout: int)

  /** A record as the code passes it around: members in a list. */
  datatype Record = Record(head: Head, members: seq<Member>)

  type Members = map<MemberId, Member>

  /** A session as both stores mean it: members by ID. */
  datatype Session = Session(head: Head, members: Members)

  datatype StoreErr =
    | NotFound | Expired | Revoked | Closed | Full | JoinLimit | MemberMissing | Conflict

  datatype JoinRequest = JoinRequest(
    nodeId: NodeId, publicKey: string, connectionId: string,
    capabilities: seq<string>, candidates: seq<Candidate>, now: Time)

  /** The random strings one call may draw: eight attempts and a last base. */
  datatype Random = Random(tries: seq<MemberId>, base: string)

  predicate Online(m: Member) { m.connectionId != "" }

  predicate IsExpired(h: Head, now: Time) { h.expiresAt != 0 && now > h.expiresAt }

  // ---- Members in a list ---------------------------------------------------------------

  ghost function ById(ms: seq<Member>): Members
  {
    if ms == [] then map[] else ById(ms[..|ms| - 1])[ms[|ms| - 1].id := ms[|ms| - 1]]
  }

  ghost function UsedIn(ms: seq<Member>): set<u16>
  {
    set i | 0 <= i < |ms| :: ms[i].index
  }

  ghost predicate DistinctIds(ms: seq<Member>)
  {
    forall i, j :: 0 <= i < j < |ms| ==> ms[i].id != ms[j].id
  }

  ghost function View(r: Record): Session
  {
    Session(r.head, ById(r.members))
  }

  lemma {:induction false} ByIdKeys(ms: seq<Member>, id: MemberId)
    ensures id in ById(ms) <==> exists i :: 0 <= i < |ms| && ms[i].id == id
    ensures id in ById(ms) ==> ById(ms)[id].id == id && ById(ms)[id] in ms
  {
    if ms != [] {
      var init, last := ms[..|ms| - 1], ms[|ms| - 1];
      ByIdKeys(init, id);
      if id in ById(init) {
        var i :| 0 <= i < |init| && init[i].id == id;
        assert ms[i].id == id;
      }
      if i :| 0 <= i < |ms| && ms[i].id == id {
        if i < |init| { assert init[i].id == id; }
      }
      assert last in ms && forall x :: x in init ==> x in ms;
    }
  }

  lemma {:induction false} ByIdAt(ms: seq<Member>, i: nat)
    requires DistinctIds(ms) && i < |ms|
    ensures ms[i].id in ById(ms) && ById(ms)[ms[i].id] == ms[i]
    decreases |ms|
  {
    if i < |ms| - 1 {
      assert ms[..|ms| - 1][i] == ms[i];
      ByIdAt(ms[..|ms| - 1], i);
    }
  }

  lemma {:induction false} ByIdUpdate(ms: seq<Member>, i: nat, m: Member)
    requires DistinctIds(ms) && i < |ms| && m.id == ms[i].id
    ensures DistinctIds(ms[i := m]) && ById(ms[i := m]) == ById(ms)[m.id := m]
    decreases |ms|
  {
    var init, last := ms[..|ms| - 1], ms[|ms| - 1];
    if i == |init| {
      assert ms[i := m][..|init|] == init;
    } else {
      assert init[i] == ms[i];
      ByIdUpdate(init, i, m);
      assert ms[i := m][..|init|] == init[i := m];
    }
  }

  lemma RemoveKeepsDistinct(ms: seq<Member>, i: nat)
    requires DistinctIds(ms) && i < |ms|
    ensures DistinctIds(ms[..i] + ms[i + 1..])
  {
    var rest := ms[..i] + ms[i + 1..];
    forall j, k | 0 <= j < k < |rest| ensures rest[j].id != rest[k].id {
      assert rest[j] == (if j < i then ms[j] else ms[j + 1]);
      assert rest[k] == (if k < i then ms[k] else ms[k + 1]);
    }
  }

  lemma {:induction false} ByIdRemove(ms: seq<Member>, i: nat)
    requires DistinctIds(ms) && i < |ms|
    ensures ById(ms[..i] + ms[i + 1..]) == ById(ms) - {ms[i].id}
    decreases |ms|
  {
    var init, last := ms[..|ms| - 1], ms[|ms| - 1];
    if i == |init| {
      ByIdRemoveLast(ms);
    } else {
      var less := init[..i] + init[i + 1..];
      assert DistinctIds(init) && init[i] == ms[i] && last.id != ms[i].id;
      ByIdRemove(init, i);
      assert ms[..i] + ms[i + 1..] == less + [last];
      ByIdAppend(less, last);
      hide ById, DistinctIds;
      assert ById(ms) == ById(init)[last.id := last] by { assert ms == init + [last]; ByIdAppend(init, last); }
    }
  }

  lemma {:induction false} ByIdLacks(ms: seq<Member>, id: MemberId)
    requires forall i :: 0 <= i < |ms| ==> ms[i].id != id
    ensures id !in ById(ms)
  {
    if ms != [] { ByIdLacks(ms[..|ms| - 1], id); }
  }

  lemma AppendNone<T>(s: seq<T>)
    ensures s + [] == s
  {
  }

  lemma AddThenRemove<K, V>(m: map<K, V>, k: K, v: V)
    requires k !in m
    ensures m[k := v] - {k} == m
  {
  }

  lemma ByIdRemoveLast(ms: seq<Member>)
    requires DistinctIds(ms) && ms != []
    ensures var i := |ms| - 1; ById(ms[..i] + ms[i + 1..]) == ById(ms) - {ms[i].id}
  {
    var i := |ms| - 1;
    ByIdLacks(ms[..i], ms[i].id);
    AddThenRemove(ById(ms[..i]), ms[i].id, ms[i]);
    assert ms[i + 1..] == [];
    AppendNone(ms[..i]);
    hide DistinctIds;
  }

  lemma ByIdAppend(ms: seq<Member>, m: Member)
    ensures ById(ms + [m]) == ById(ms)[m.id := m]
  {
    assert (ms + [m])[..|ms|] == ms;
  }

  // ---- Lookups -------------------------------------------------------------------------

  /** Where the first member with this ID is, or the length. */
  function IndexOfId(ms: seq<Member>, id: MemberId): (i: nat)
    ensures i <= |ms| && (i < |ms| ==> ms[i].id == id)
    ensures forall k :: 0 <= k < i ==> ms[k].id != id
  {
    if ms == [] then 0 else if ms[0].id == id then 0
    else
      var i := IndexOfId(ms[1..], id);
      assert forall k :: 1 <= k < i + 1 ==> ms[k] == ms[1..][k - 1];
      i + 1
  }

  function IndexOfNode(ms: seq<Member>, node: NodeId): (i: nat)
    ensures i <= |ms| && (i < |ms| ==> ms[i].nodeId == node)
    ensures forall k :: 0 <= k < i ==> ms[k].nodeId != node
  {
    if ms == [] then 0 else if ms[0].nodeId == node then 0
    else
      var i := IndexOfNode(ms[1..], node);
      assert forall k :: 1 <= k < i + 1 ==> ms[k] == ms[1..][k - 1];
      i + 1
  }

  method MemberById(ms: seq<Member>, id: MemberId) returns (i: nat)
    ensures i == IndexOfId(ms, id)
  {
    i := 0;
    while i < |ms|
      invariant i <= |ms| && forall k :: 0 <= k < i ==> ms[k].id != id
    {
      if ms[i].id == id { return; }
      i := i + 1;
    }
  }

  method MemberByNodeId(ms: seq<Member>, node: NodeId) returns (i: nat)
    ensures i == IndexOfNode(ms, node)
  {
    i := 0;
    while i < |ms|
      invariant i <= |ms| && forall k :: 0 <= k < i ==> ms[k].nodeId != node
    {
      if ms[i].nodeId == node { return; }
      i := i + 1;
    }
  }

  /** How many members are active. */
  ghost function ActiveIds(ms: Members): set<MemberId>
  {
    set id | id in ms && ms[id].status == Active
  }

  function ActiveCount(ms: seq<Member>): nat
  {
    if ms == [] then 0
    else ActiveCount(ms[..|ms| - 1]) + if ms[|ms| - 1].status == Active then 1 else 0
  }

  lemma {:induction false} ActiveCountIsSize(ms: seq<Member>)
    requires DistinctIds(ms)
    ensures ActiveCount(ms) == |ActiveIds(ById(ms))|
    decreases |ms|
  {
    if ms != [] {
      var init, last := ms[..|ms| - 1], ms[|ms| - 1];
      ActiveCountIsSize(init);
      ByIdKeys(init, last.id);
      assert last.id !in ById(init);
      assert ActiveIds(ById(ms)) == if last.status == Active then ActiveIds(ById(init)) + {last.id} else ActiveIds(ById(init));
    }
  }

  method ActiveMembers(ms: seq<Member>) returns (n: nat)
    ensures n == ActiveCount(ms)
  {
    n := 0;
    for i := 0 to |ms|
      invariant n == ActiveCount(ms[..i])
    {
      assert ms[..i + 1][..i] == ms[..i];
      if ms[i].status == Active { n := n + 1; }
    }
    assert ms[..|ms|] == ms;
  }

  // ---- Indices ---------------------------------------------------------------------------

  ghost function Indices(ms: Members): set<u16>
  {
    set id | id in ms :: ms[id].index
  }

  /** The least index from i on that is not used; 0 when none is left. */
  ghost function FreeFrom(used: set<u16>, i: nat): u16
    requires i <= TWO16
    decreases TWO16 - i
  {
    if i == TWO16 then 0 else if i !in used then i else FreeFrom(used, i + 1)
  }

  lemma {:induction false} FreeFromIsLeast(used: set<u16>, i: nat)
    requires 1 <= i <= TWO16
    ensures var r := FreeFrom(used, i);
      if r == 0 then forall k: u16 :: i <= k ==> k in used
      else i <= r && r !in used && forall k: u16 :: i <= k < r ==> k in used
    decreases TWO16 - i
  {
    if i < TWO16 && i in used { FreeFromIsLeast(used, i + 1); }
  }

  ghost function FreeIndex(used: set<u16>): u16
  {
    FreeFrom(used, 1)
  }

  /** The loop over a 16-bit counter that stops when it wraps. */
  method FreeIndexOf(ms: seq<Member>) returns (index: u16)
    ensures index == FreeIndex(UsedIn(ms))
  {
    var used := UsedIndices(ms);
    index := FirstFree(used);
  }

  method UsedIndices(ms: seq<Member>) returns (used: set<u16>)
    ensures used == UsedIn(ms)
  {
    used := {};
    for j := 0 to |ms|
      invariant used == set i | 0 <= i < j :: ms[i].index
    {
      used := used + {ms[j].index};
    }
  }

  method FirstFree(used: set<u16>) returns (index: u16)
    ensures index == FreeIndex(used)
  {
    index := 1;
    while index != 0
      invariant FreeIndex(used) == FreeFrom(used, if index == 0 then TWO16 else index)
      decreases if index == 0 then 0 else TWO16 - index
    {
      if index !in used { return; }
      index := (index + 1) % TWO16;
    }
  }

  lemma IndicesOfList(ms: seq<Member>)
    requires DistinctIds(ms)
    ensures Indices(ById(ms)) == UsedIn(ms)
  {
    var s := UsedIn(ms);
    forall x | x in s ensures x in Indices(ById(ms)) {
      var i :| 0 <= i < |ms| && ms[i].index == x;
      ByIdAt(ms, i);
    }
    forall x | x in Indices(ById(ms)) ensures x in s {
      var id :| id in ById(ms) && ById(ms)[id].index == x;
      ByIdKeys(ms, id);
    }
  }

  // ---- Member IDs -----------------------------------------------------------------------

  function Digit(d: nat): (c: char)
    requires d < 10
  {
    (d + 48) as char
  }

  function Itoa(n: nat): (s: string)
    ensures s != []
  {
    if n < 10 then [Digit(n)] else Itoa(n / 10) + [Digit(n % 10)]
  }

  lemma {:induction false} ItoaIsInjective(m: nat, n: nat)
    requires Itoa(m) == Itoa(n)
    ensures m == n
  {
    var s, t := Itoa(m), Itoa(n);
    assert s[|s| - 1] == Digit(m % 10) && t[|t| - 1] == Digit(n % 10);
    if m >= 10 && n >= 10 {
      assert s[..|s| - 1] == Itoa(m / 10) && t[..|t| - 1] == Itoa(n / 10);
      ItoaIsInjective(m / 10, n / 10);
    }
  }

  ghost function Probed(base: string, n: nat): set<MemberId>
  {
    set k | 0 <= k < n :: base + Itoa(k)
  }

  lemma ProbeIsFresh(base: string, n: nat)
    ensures base + Itoa(n) !in Probed(base, n)
  {
    if base + Itoa(n) in Probed(base, n) {
      var k :| 0 <= k < n && base + Itoa(k) == base + Itoa(n);
      assert Itoa(k) == (base + Itoa(k))[|base|..] == (base + Itoa(n))[|base|..] == Itoa(n);
      ItoaIsInjective(k, n);
    }
  }

  lemma ProbeShrinks(base: string, ids: set<MemberId>, n: nat)
    requires base + Itoa(n) in ids
    ensures |ids - Probed(base, n + 1)| < |ids - Probed(base, n)|
  {
    ProbeIsFresh(base, n);
    assert base + Itoa(n) in Probed(base, n + 1);
    assert Probed(base, n) <= Probed(base, n + 1);
    assert ids - Probed(base, n + 1) <= (ids - Probed(base, n)) - {base + Itoa(n)};
    Smaller(ids - Probed(base, n + 1), (ids - Probed(base, n)) - {base + Itoa(n)});
  }

  lemma {:induction false} Smaller<T>(a: set<T>, b: set<T>)
    requires a <= b
    ensures |a| <= |b|
    decreases |a|
  {
    if a != {} {
      var x :| x in a;
      Smaller(a - {x}, b - {x});
    }
  }

  ghost function Probe(base: string, ids: set<MemberId>, n: nat): (id: MemberId)
    ensures id !in ids
    decreases |ids - Probed(base, n)|
  {
    if base + Itoa(n) !in ids then base + Itoa(n)
    else
      ProbeShrinks(base, ids, n);
      Probe(base, ids, n + 1)
  }

  ghost function Draw(rand: Random, ids: set<MemberId>): (id: MemberId)
    ensures id !in ids
    decreases |rand.tries|
  {
    if rand.tries == [] then Probe(rand.base, ids, 0)
    else if rand.tries[0] !in ids then rand.tries[0]
    else Draw(rand.(tries := rand.tries[1..]), ids)
  }

  /** The retries and the counting fallback end, with an ID no member of the session has. */
  method NewMemberId(ms: seq<Member>, rand: Random) returns (id: MemberId)
    ensures id == Draw(rand, ById(ms).Keys) && id !in ById(ms)
  {
    ghost var ids := ById(ms).Keys;
    for i := 0 to |rand.tries|
      invariant Draw(rand, ids) == Draw(rand.(tries := rand.tries[i..]), ids)
    {
      assert rand.tries[i..][1..] == rand.tries[i + 1..];
      id := rand.tries[i];
      var j := MemberById(ms, id);
      IndexDecides(ms, id);
      if j == |ms| { return; }
    }
    var n := 0;
    while true
      invariant Draw(rand, ids) == Probe(rand.base, ids, n)
      decreases |ids - Probed(rand.base, n)|
    {
      id := rand.base + Itoa(n);
      var j := MemberById(ms, id);
      IndexDecides(ms, id);
      if j == |ms| { return; }
      ProbeShrinks(rand.base, ids, n);
      n := n + 1;
    }
  }

  lemma IndexDecides(ms: seq<Member>, id: MemberId)
    ensures IndexOfId(ms, id) < |ms| <==> id in ById(ms)
  {
    ByIdKeys(ms, id);
  }

  // ---- Join codes ---------------------------------------------------------------------------

  predicate IsSpace(c: char) { c in " \t\n\r" || c == 11 as char || c == 12 as char }

  function TrimLeft(s: string): string
  {
    if s != [] && IsSpace(s[0]) then TrimLeft(s[1..]) else s
  }

  function TrimRight(s: string): string
  {
    if s != [] && IsSpace(s[|s| - 1]) then TrimRight(s[..|s| - 1]) else s
  }

  function Upper(c: char): char
  {
    if 'a' <= c <= 'z' then ((c as int) - 32) as char else c
  }

  /** Upper case, without dashes and blanks. */
  function Compact(s: string): string
  {
    if s == [] then []
    else if s[0] == '-' || s[0] == ' ' then Compact(s[1..])
    else [Upper(s[0])] + Compact(s[1..])
  }

  function Normalize(code: string): string
  {
    Compact(TrimLeft(TrimRight(code)))
  }

  predicate WhiteSpace(s: string) { forall i :: 0 <= i < |s| ==> s[i] as int in {9, 10, 11, 12, 13, 32} }

  /** White space around a code does not count. */
  lemma {:induction false} NormalizeTrims(before: string, code: string, after: string)
    requires WhiteSpace(before) && WhiteSpace(after)
    requires code != "" ==> !WhiteSpace([code[0]]) && !WhiteSpace([code[|code| - 1]])
    ensures Normalize(before + code + after) == Compact(code)
  {
    TrimsRight(before + code, after);
    if code == "" {
      assert before + code == before;
      TrimsRight("", before);
      assert "" + before == before;
    } else {
      assert before + code == before + code + "";
      assert (before + code)[|before + code| - 1] == code[|code| - 1] && WhiteSpace([code[|code| - 1]]) == IsSpace(code[|code| - 1]);
      TrimsLeft(before, code);
    }
  }

  lemma {:induction false} TrimsRight(s: string, after: string)
    requires WhiteSpace(after)
    ensures TrimRight(s + after) == TrimRight(s)
    decreases |after|
  {
    if after == "" {
      assert s + after == s;
    } else {
      assert (s + after)[..|s + after| - 1] == s + after[..|after| - 1];
      TrimsRight(s, after[..|after| - 1]);
    }
  }

  lemma {:induction false} TrimsLeft(before: string, s: string)
    requires WhiteSpace(before) && (s != "" ==> !WhiteSpace([s[0]]))
    ensures TrimLeft(before + s) == s
    decreases |before|
  {
    if before == "" {
      assert before + s == s;
      if s != "" { assert !WhiteSpace([s[0]]) ==> !IsSpace(s[0]); }
    } else {
      assert (before + s)[1..] == before[1..] + s;
      TrimsLeft(before[1..], s);
    }
  }

  lemma {:induction false} CompactConcat(s: string, t: string)
    ensures Compact(s + t) == Compact(s) + Compact(t)
  {
    if s == [] {
      assert s + t == t;
    } else {
      assert (s + t)[1..] == s[1..] + t;
      CompactConcat(s[1..], t);
    }
  }

  /** Inside it dashes and blanks do not count and small letters are read as capitals; any other character
      stands for itself. */
  lemma NormalizeReads(s: string, c: char, t: string)
    ensures Compact(s + [c] + t) == Compact(s) + Compact([c]) + Compact(t)
    ensures c == '-' || c == ' ' ==> Compact([c]) == ""
    ensures 'a' <= c <= 'z' ==> Compact([c]) == [(c as int - 'a' as int + 'A' as int) as char]
    ensures c != '-' && c != ' ' && !('a' <= c <= 'z') ==> Compact([c]) == [c]
  {
    CompactConcat(s + [c], t);
    CompactConcat(s, [c]);
    assert [c][1..] == "" && Compact("") == "";
  }

  // ---- Which ID is drawn -------------------------------------------------------------------------

  /** The number a decimal text writes. */
  function Decimal(s: string): int
  {
    if s == "" then 0 else 10 * Decimal(s[..|s| - 1]) + (s[|s| - 1] as int - '0' as int)
  }

  lemma {:induction false} ItoaIsDecimal(n: nat)
    ensures Decimal(Itoa(n)) == n && (n > 0 ==> Itoa(n)[0] != '0')
    ensures forall i :: 0 <= i < |Itoa(n)| ==> '0' <= Itoa(n)[i] <= '9'
  {
    if n >= 10 {
      ItoaIsDecimal(n / 10);
      assert Itoa(n)[..|Itoa(n)| - 1] == Itoa(n / 10);
    } else {
      assert Itoa(n)[..0] == "";
    }
  }

  /** The first try nobody has is taken; after the last one the base is counted up from 0. */
  lemma {:induction false} DrawTakesTheFirst(rand: Random, ids: set<MemberId>, i: nat)
    requires i < |rand.tries| && rand.tries[i] !in ids && forall j :: 0 <= j < i ==> rand.tries[j] in ids
    ensures Draw(rand, ids) == rand.tries[i]
    decreases i
  {
    if i > 0 { DrawTakesTheFirst(rand.(tries := rand.tries[1..]), ids, i - 1); }
  }

  lemma {:induction false} DrawCountsUp(rand: Random, ids: set<MemberId>, n: nat)
    requires (forall j :: 0 <= j < |rand.tries| ==> rand.tries[j] in ids)
    requires rand.base + Itoa(n) !in ids && forall k :: 0 <= k < n ==> rand.base + Itoa(k) in ids
    ensures Draw(rand, ids) == rand.base + Itoa(n)
    decreases |rand.tries|
  {
    if rand.tries == [] {
      ProbeCountsUp(rand.base, ids, 0, n);
    } else {
      DrawCountsUp(rand.(tries := rand.tries[1..]), ids, n);
    }
  }

  lemma {:induction false} ProbeCountsUp(base: string, ids: set<MemberId>, k: nat, n: nat)
    requires k <= n && base + Itoa(n) !in ids && forall j :: k <= j < n ==> base + Itoa(j) in ids
    ensures Probe(base, ids, k) == base + Itoa(n)
    decreases n - k
  {
    hide Itoa;
    if k < n { ProbeCountsUp(base, ids, k + 1, n); }
  }
}
