/** Choosing a nameserver: balancing by hits times latency, backing off failures, dropping lying roots. */
module Selection {

  // ---- balance ----

  /** Latencies are floored at one millisecond, so none is zero. */
  predicate Latencies(latency: seq<real>) {
    forall i :: 0 <= i < |latency| ==> latency[i] >= 1.0
  }

  function Score(hits: nat, latency: real): real {
    hits as real * latency
  }

  /** The head of the ranking among healthy servers: no server has a smaller score. */
  predicate Leads(hits: seq<nat>, latency: seq<real>, k: nat)
    requires |hits| == |latency|
  {
    k < |hits| && forall j :: 0 <= j < |hits| ==> Score(hits[k], latency[k]) <= Score(hits[j], latency[j])
  }

  /** Each query goes to a leader and, answered, counts as a hit; ties fall any way. */
  ghost predicate Picks(hits: seq<nat>, latency: seq<real>, picks: seq<nat>, end: seq<nat>)
    requires |hits| == |latency|
    decreases |picks|
  {
    if picks == [] then end == hits
    else Leads(hits, latency, picks[0]) && Picks(hits[picks[0] := hits[picks[0]] + 1], latency, picks[1..], end)
  }

  /** No server is ahead of another by more than one of its own queries. */
  ghost predicate Balanced(hits: seq<nat>, latency: seq<real>)
    requires |hits| == |latency|
  {
    forall i, j :: 0 <= i < |hits| && 0 <= j < |hits| ==>
      Score(hits[i], latency[i]) <= Score(hits[j], latency[j]) + latency[i]
  }

  lemma ScoreGrows(hits: nat, latency: real)
    ensures Score(hits + 1, latency) == Score(hits, latency) + latency
  {
  }

  /** With latencies fixed, every run of picks from a cold start stays balanced: `hits` tracks 1/latency. */
  lemma {:induction false} PicksStayBalanced(hits: seq<nat>, latency: seq<real>, picks: seq<nat>, end: seq<nat>)
    requires |hits| == |latency| && Latencies(latency)
    requires Balanced(hits, latency) && Picks(hits, latency, picks, end)
    ensures |end| == |latency| && Balanced(end, latency)
    decreases |picks|
  {
    if picks != [] {
      var k := picks[0];
      var next := hits[k := hits[k] + 1];
      ScoreGrows(hits[k], latency[k]);
      forall i, j | 0 <= i < |next| && 0 <= j < |next|
        ensures Score(next[i], latency[i]) <= Score(next[j], latency[j]) + latency[i]
      {
        assert Score(hits[i], latency[i]) <= Score(hits[j], latency[j]) + latency[i];
        assert Score(hits[k], latency[k]) <= Score(hits[j], latency[j]);
      }
      PicksStayBalanced(next, latency, picks[1..], end);
    }
  }

  /** There is always someone to pick. */
  lemma {:induction false} SomeoneLeads(hits: seq<nat>, latency: seq<real>) returns (k: nat)
    requires |hits| == |latency| && hits != []
    ensures Leads(hits, latency, k)
    decreases |hits|
  {
    var n := |hits| - 1;
    if n == 0 {
      k := 0;
    } else {
      k := SomeoneLeads(hits[..n], latency[..n]);
      assert forall j :: 0 <= j < n ==> Score(hits[k], latency[k]) <= Score(hits[..n][j], latency[..n][j]);
      if Score(hits[n], latency[n]) <= Score(hits[k], latency[k]) {
        k := n;
      }
    }
  }

  /** From a cold start, then, after any picks: hits times latency differ by at most one query's worth. */
  lemma ColdStartBalances(latency: seq<real>, picks: seq<nat>, end: seq<nat>, i: nat, j: nat)
    requires Latencies(latency) && Picks(seq(|latency|, _ => 0), latency, picks, end)
    requires i < |latency| && j < |latency|
    ensures |end| == |latency| && end[i] as real * latency[i] <= (end[j] as real * latency[j]) + latency[i]
  {
    PicksStayBalanced(seq(|latency|, _ => 0), latency, picks, end);
    assert Score(end[i], latency[i]) <= Score(end[j], latency[j]) + latency[i];
  }

  /** No healthy server starves: once any server has been picked twice, every server has been picked. */
  lemma NobodyStarves(hits: seq<nat>, latency: seq<real>, i: nat, j: nat)
    requires |hits| == |latency| && Latencies(latency) && Balanced(hits, latency)
    requires i < |hits| && j < |hits| && hits[i] >= 2
    ensures hits[j] >= 1
  {
  }

  // ---- order ----

  datatype Server = Server(address: nat, v6: bool, backedOff: bool, score: real)

  predicate NotAfter(a: Server, b: Server) {
    if a.backedOff != b.backedOff then !a.backedOff else a.score <= b.score
  }

  ghost predicate Ranked(s: seq<Server>) {
    forall i, j :: 0 <= i < j < |s| ==> NotAfter(s[i], s[j])
  }

  method Insert(s: seq<Server>, x: Server) returns (r: seq<Server>)
    requires Ranked(s)
    ensures Ranked(r) && multiset(r) == multiset(s) + multiset{x}
  {
    var k := 0;
    while k < |s| && NotAfter(s[k], x)
      invariant 0 <= k <= |s|
      invariant forall i :: 0 <= i < k ==> NotAfter(s[i], x)
    {
      k := k + 1;
    }
    r := s[..k] + [x] + s[k..];
    assert s == s[..k] + s[k..];
    assert forall j :: k <= j < |s| ==> NotAfter(x, s[j]);
  }

  function Family(servers: seq<Server>, v6: bool): seq<Server> {
    if servers == [] then []
    else if servers[0].v6 == v6 then [servers[0]] + Family(servers[1..], v6)
    else Family(servers[1..], v6)
  }

  lemma {:induction false} FamiliesPartition(servers: seq<Server>)
    ensures multiset(Family(servers, false)) + multiset(Family(servers, true)) == multiset(servers)
    ensures forall v6, x :: x in Family(servers, v6) ==> x.v6 == v6
  {
    if servers != [] {
      FamiliesPartition(servers[1..]);
      assert servers == [servers[0]] + servers[1..];
    }
  }

  lemma SameElements(a: seq<Server>, b: seq<Server>)
    requires multiset(a) == multiset(b)
    ensures forall x :: x in a <==> x in b
  {
    forall x ensures x in a <==> x in b {
      assert x in a <==> x in multiset(a);
      assert x in b <==> x in multiset(b);
    }
  }

  method Rank(group: seq<Server>) returns (r: seq<Server>)
    ensures Ranked(r) && multiset(r) == multiset(group)
  {
    r := [];
    for i := 0 to |group|
      invariant Ranked(r) && multiset(r) == multiset(group[..i])
    {
      assert group[..i + 1] == group[..i] + [group[i]];
      r := Insert(r, group[i]);
    }
    assert group[..|group|] == group;
  }

  /** What `order_servers` promises: nobody dropped, IPv4 first, each family ranked. */
  ghost predicate Ordered(servers: seq<Server>, r: seq<Server>, split: nat) {
    && multiset(r) == multiset(servers) && split <= |r|
    && (forall i :: 0 <= i < |r| ==> (r[i].v6 <==> split <= i))
    && Ranked(r[..split]) && Ranked(r[split..])
  }

  method OrderServers(servers: seq<Server>) returns (r: seq<Server>, split: nat)
    ensures Ordered(servers, r, split)
  {
    FamiliesPartition(servers);
    var v4 := Rank(Family(servers, false));
    var v6 := Rank(Family(servers, true));
    r, split := v4 + v6, |v4|;
    SameElements(v4, Family(servers, false));
    SameElements(v6, Family(servers, true));
    assert forall i :: 0 <= i < split ==> r[i] in v4;
    assert forall i :: split <= i < |r| ==> r[i] in v6;
    assert r[..split] == v4 && r[split..] == v6;
  }

  /**
   * "Backed-off servers sort last" holds of the whole list exactly when no IPv4 server is backed off while
   * an IPv6 one is healthy: scoring never crosses the families.
   */
  lemma BackedOffLastIff(servers: seq<Server>, r: seq<Server>, split: nat)
    requires Ordered(servers, r, split)
    ensures (forall i, j :: 0 <= i < j < |r| && r[i].backedOff ==> r[j].backedOff) <==>
      !(exists a, b :: a in servers && b in servers && !a.v6 && a.backedOff && b.v6 && !b.backedOff)
  {
    SameElements(r, servers);
    if a, b :| a in servers && b in servers && !a.v6 && a.backedOff && b.v6 && !b.backedOff {
      var i :| 0 <= i < |r| && r[i] == a;
      var j :| 0 <= j < |r| && r[j] == b;
      assert i < j;
    } else {
      forall i, j | 0 <= i < j < |r| && r[i].backedOff ensures r[j].backedOff {
        if j < split {
          assert NotAfter(r[..split][i], r[..split][j]);
        } else if split <= i {
          assert NotAfter(r[split..][i - split], r[split..][j - split]);
        }
      }
    }
  }

  // ---- penalties ----

  function Pow2(n: nat): nat {
    if n == 0 then 1 else 2 * Pow2(n - 1)
  }

  function Min(a: nat, b: nat): nat {
    if a < b then a else b
  }

  /** The n-th offence in a row: the base doubled each time, the shift held at 16, the whole held at the cap. */
  function Penalty(base: nat, cap: nat, n: nat): nat
    requires n > 0
  {
    Min(base * Pow2(Min(n - 1, 16)), cap)
  }

  const FailureBase: nat := 2
  const FailureCap: nat := 300
  const BlameBase: nat := 900
  const BlameCap: nat := 86_400

  lemma {:induction false} Pow2Monotone(m: nat, n: nat)
    requires m <= n
    ensures Pow2(m) <= Pow2(n)
  {
    if m < n {
      Pow2Monotone(m, n - 1);
    }
  }

  /** The shift's own ceiling never shows: for every count the delay is the doubled base under the cap. */
  lemma PenaltyIsDoubling(n: nat)
    requires n > 0
    ensures Penalty(FailureBase, FailureCap, n) == Min(Pow2(n), 300)
    ensures Penalty(BlameBase, BlameCap, n) == Min(900 * Pow2(n - 1), 86_400)
  {
    assert Pow2(n) == 2 * Pow2(n - 1);
    if n > 17 {
      assert Pow2(16) == 65_536 by {
        assert Pow2(8) == 256;
        assert Pow2(12) == 4096;
      }
      Pow2Monotone(16, n - 1);
    }
  }

  /** What happens to one server, in order. `Validated` is a root DNSKEY answer that checked out. */
  datatype Event = Failed(at: nat) | Answered(at: nat) | Blamed(at: nat) | Validated

  datatype Health = Health(failures: nat, retryAfter: nat, blames: nat, blamedUntil: nat)

  const Clean: Health := Health(0, 0, 0, 0)

  function Apply(h: Health, e: Event): Health {
    match e
    case Failed(at) =>
      h.(failures := h.failures + 1, retryAfter := at + Penalty(FailureBase, FailureCap, h.failures + 1))
    case Answered(at) => h.(failures := 0, retryAfter := at)
    case Blamed(at) => h.(blames := h.blames + 1, blamedUntil := at + Penalty(BlameBase, BlameCap, h.blames + 1))
    case Validated => h.(blames := 0, blamedUntil := 0)
  }

  function After(events: seq<Event>): Health {
    if events == [] then Clean else Apply(After(events[..|events| - 1]), events[|events| - 1])
  }

  /** Consecutive failures: what came since the last answer, blame aside. */
  function FailuresIn(events: seq<Event>): nat {
    if events == [] then 0
    else
      var front, last := events[..|events| - 1], events[|events| - 1];
      if last.Answered? then 0 else FailuresIn(front) + if last.Failed? then 1 else 0
  }

  /** Offences since the last validated answer, however promptly the server answered in between. */
  function BlamesIn(events: seq<Event>): nat {
    if events == [] then 0
    else
      var front, last := events[..|events| - 1], events[|events| - 1];
      if last.Validated? then 0 else BlamesIn(front) + if last.Blamed? then 1 else 0
  }

  /** When the latest offence since the last validated answer was. */
  function LastBlame(events: seq<Event>): nat {
    if events == [] then 0
    else
      var front, last := events[..|events| - 1], events[|events| - 1];
      match last
      case Blamed(at) => at
      case Validated => 0
      case _ => LastBlame(front)
  }

  /** When the latest failure was, or the latest answer if that came since. */
  function LastExchange(events: seq<Event>): nat {
    if events == [] then 0
    else
      var front, last := events[..|events| - 1], events[|events| - 1];
      match last
      case Failed(at) => at
      case Answered(at) => at
      case _ => LastExchange(front)
  }

  lemma {:induction false} FailuresRemembered(events: seq<Event>)
    ensures After(events).failures == FailuresIn(events)
    ensures After(events).retryAfter ==
      LastExchange(events) + if FailuresIn(events) == 0 then 0 else Min(Pow2(FailuresIn(events)), 300)
  {
    if events != [] {
      FailuresRemembered(events[..|events| - 1]);
      if events[|events| - 1].Failed? {
        PenaltyIsDoubling(FailuresIn(events));
      }
    }
  }

  lemma {:induction false} BlamesRemembered(events: seq<Event>)
    ensures After(events).blames == BlamesIn(events)
    ensures After(events).blamedUntil ==
      if BlamesIn(events) == 0 then 0 else LastBlame(events) + Min(900 * Pow2(BlamesIn(events) - 1), 86_400)
  {
    if events != [] {
      BlamesRemembered(events[..|events| - 1]);
      if events[|events| - 1].Blamed? {
        PenaltyIsDoubling(BlamesIn(events));
      }
    }
  }

  /**
   * Over every history: backoff forgets at the first answer and only then, blame at the first validated answer
   * and only then; the k-th failure in a row holds the server back min(300, 2^k) seconds from that failure, and a
   * blamed root is out for the doubled penalty counted from its latest offence.
   */
  lemma HealthRemembers(events: seq<Event>)
    ensures After(events).failures == FailuresIn(events)
    ensures After(events).retryAfter ==
      LastExchange(events) + if FailuresIn(events) == 0 then 0 else Min(Pow2(FailuresIn(events)), 300)
    ensures After(events).blames == BlamesIn(events)
    ensures After(events).blamedUntil ==
      if BlamesIn(events) == 0 then 0 else LastBlame(events) + Min(900 * Pow2(BlamesIn(events) - 1), 86_400)
  {
    FailuresRemembered(events);
    BlamesRemembered(events);
  }

  /** `usable_roots`: blamed servers drop out, unless that would leave none. */
  method UsableRoots(roots: seq<nat>, health: map<nat, Health>, now: nat) returns (usable: seq<nat>)
    ensures roots != [] ==> usable != []
    ensures forall r :: r in usable ==> r in roots
    ensures (exists r :: r in roots && (r in health ==> health[r].blamedUntil <= now)) ==>
      forall r :: r in usable <==> r in roots && (r in health ==> health[r].blamedUntil <= now)
    ensures (forall r :: r in roots ==> r in health && health[r].blamedUntil > now) ==> usable == roots
  {
    usable := [];
    for i := 0 to |roots|
      invariant forall r :: r in usable <==> r in roots[..i] && !Omitted(health, r, now)
    {
      if !Omitted(health, roots[i], now) {
        usable := usable + [roots[i]];
      }
    }
    assert roots[..|roots|] == roots;
    assert usable != [] ==> usable[0] in usable;
    assert forall r :: r in roots && !Omitted(health, r, now) ==> r in usable;
    if usable == [] {
      usable := roots;
    }
  }

  predicate Omitted(health: map<nat, Health>, server: nat, now: nat) {
    server in health && health[server].blamedUntil > now
  }
}
