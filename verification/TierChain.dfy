/** The `auto` fallback chain: which tier answers, when the committed tier moves, what stays cached. */
module TierChain {
  import opened Basics

  const TierCount: nat := 4

  // ---- one query ----

  datatype Verdict = Secure | Insecure | Bogus | Indeterminate

  datatype Rcode = NoError | NxDomain | ServFail | OtherRcode

  type Answers = seq<string>

  datatype Response = Response(rcode: Rcode, answers: Answers)

  /** What comes back to a tier: from the roots a validated resolution or none, from forwarders a message or none. */
  datatype Upstream =
    | RootsFailed
    | Resolved(verdict: Verdict, resolution: Response)
    | NoReply
    | Forwarded(reply: Response)

  predicate Withholds(v: Verdict) {
    v == Bogus || v == Indeterminate
  }

  predicate FromRoots(u: Upstream) {
    u.RootsFailed? || u.Resolved?
  }

  predicate Definitive(r: Response) {
    r.rcode == NoError || r.rcode == NxDomain
  }

  /** `tier_roots` and `tier_forward`: the response the tier gives, or none to send the query on to the next. */
  function Respond(u: Upstream): Option<Response> {
    match u
    case RootsFailed => None
    case NoReply => None
    case Resolved(verdict, resolution) =>
      if Withholds(verdict) then Some(Response(ServFail, []))
      else if Definitive(resolution) then Some(resolution)
      else None
    case Forwarded(reply) => if Definitive(reply) then Some(reply) else None
  }

  /** Who answers: the roots when they withhold or the message is NOERROR or NXDOMAIN, a forwarder only then. */
  lemma RespondIff(u: Upstream)
    ensures Respond(u).Some? <==>
      || (u.Resolved? && (u.verdict in {Bogus, Indeterminate} || u.resolution.rcode in {NoError, NxDomain}))
      || (u.Forwarded? && u.reply.rcode in {NoError, NxDomain})
    ensures u.Resolved? && u.verdict in {Bogus, Indeterminate} ==> Respond(u) == Some(Response(ServFail, []))
    ensures u.Resolved? && u.verdict in {Secure, Insecure} && Respond(u).Some? ==> Respond(u).value == u.resolution
    ensures u.Forwarded? && Respond(u).Some? ==> Respond(u).value == u.reply
  {
  }

  /** `cache_from_wire` sees the message only: a positive answer, whoever gave it. */
  predicate Cacheable(r: Response) {
    r.rcode == NoError && r.answers != []
  }

  /** The first tier from `start` on that gives a response. */
  function Winner(start: nat, tiers: seq<Upstream>): (r: Option<nat>)
    requires |tiers| == TierCount
    ensures r.Some? ==> start <= r.value < TierCount && Respond(tiers[r.value]).Some?
    ensures forall i :: start <= i < (if r.Some? then r.value else TierCount) ==> Respond(tiers[i]).None?
    decreases TierCount - start
  {
    if start >= TierCount then None
    else if Respond(tiers[start]).Some? then Some(start)
    else Winner(start + 1, tiers)
  }

  /** The loop of `auto_resolve`: `asked` is the tiers that saw the query. */
  method AutoResolve(start: nat, tiers: seq<Upstream>) returns (winner: Option<nat>, asked: seq<nat>)
    requires |tiers| == 4 && start < 4
    ensures winner == Winner(start, tiers)
    ensures asked == seq((if winner.Some? then winner.value + 1 else 4) - start, i => start + i)
    ensures start == 0 && tiers[0].Resolved? && tiers[0].verdict in {Bogus, Indeterminate} ==> asked == [0]
    ensures start == 0 && tiers[0].RootsFailed? ==> 1 in asked
  {
    asked := [];
    var tier := start;
    while tier < TierCount
      invariant start <= tier <= TierCount
      invariant asked == seq(tier - start, i => start + i)
      invariant forall i :: start <= i < tier ==> Respond(tiers[i]).None?
      invariant Winner(tier, tiers) == Winner(start, tiers)
    {
      asked := asked + [tier];
      if Respond(tiers[tier]).Some? {
        assert tier > 0 && start == 0 ==> asked[1] == 1;
        return Some(tier), asked;
      }
      tier := tier + 1;
    }
    assert start == 0 ==> asked[1] == 1;
    winner := None;
  }

  // ---- the committed tier ----

  /** The sticky tier, the current run of deviating queries, and how often the tier has been switched. */
  datatype Committed = Committed(active: nat, streak: nat, switches: nat)

  function Grace(configured: nat): nat {
    if configured == 0 then 1 else configured
  }

  /** `note_auto_winner`. */
  function NoteWinner(c: Committed, winner: nat, grace: nat): Committed {
    if winner == c.active then c.(streak := 0)
    else if winner < c.active || c.streak + 1 >= Grace(grace) then Committed(winner, 0, c.switches + 1)
    else c.(streak := c.streak + 1)
  }

  /** `h[i]` is the committed state when the `i`-th winner is noted. */
  ghost predicate History(h: seq<Committed>, winners: seq<nat>, grace: nat) {
    && |h| == |winners| + 1 && h[0].streak == 0
    && forall i :: 0 <= i < |winners| ==> h[i + 1] == NoteWinner(h[i], winners[i], grace)
  }

  /** The `m` winners before the `k`-th all deviated downward from the one tier committed throughout. */
  ghost predicate DeviantRun(h: seq<Committed>, winners: seq<nat>, k: nat, m: nat)
    requires m <= k <= |winners| < |h|
  {
    forall j :: k - m <= j < k ==> winners[j] > h[j].active && h[j].active == h[k].active
  }

  lemma {:induction false} StreakIsRun(h: seq<Committed>, winners: seq<nat>, grace: nat, k: nat)
    requires History(h, winners, grace) && k <= |winners|
    ensures h[k].streak <= k && (grace == 0 ==> h[k].streak == 0) && (grace > 0 ==> h[k].streak < grace)
    ensures DeviantRun(h, winners, k, h[k].streak)
  {
    if k > 0 {
      StreakIsRun(h, winners, grace, k - 1);
      assert h[k] == NoteWinner(h[k - 1], winners[k - 1], grace);
    }
  }

  lemma {:induction false} RunIsStreak(h: seq<Committed>, winners: seq<nat>, grace: nat, k: nat, m: nat)
    requires History(h, winners, grace) && m <= k <= |winners| && DeviantRun(h, winners, k, m)
    ensures h[k].streak >= m
  {
    if m > 0 {
      assert h[k] == NoteWinner(h[k - 1], winners[k - 1], grace);
      assert winners[k - 1] > h[k - 1].active && h[k - 1].active == h[k].active;
      RunIsStreak(h, winners, grace, k - 1, m - 1);
    }
  }

  /**
   * The committed tier worsens at a query exactly when that query and the `grace - 1` before it all
   * deviated from one and the same committed tier.
   */
  lemma DegradesExactlyAfterGrace(h: seq<Committed>, winners: seq<nat>, grace: nat, k: nat)
    requires History(h, winners, grace) && k < |winners|
    ensures grace >= 1 ==>
      (h[k + 1].active > h[k].active <==>
         winners[k] > h[k].active && grace - 1 <= k && DeviantRun(h, winners, k, grace - 1))
    ensures grace == 0 ==> (h[k + 1].active > h[k].active <==> winners[k] > h[k].active)
  {
    StreakIsRun(h, winners, grace, k);
    assert h[k + 1] == NoteWinner(h[k], winners[k], grace);
    if Grace(grace) - 1 <= k && DeviantRun(h, winners, k, Grace(grace) - 1) {
      RunIsStreak(h, winners, grace, k, Grace(grace) - 1);
    }
  }

  // ---- queries in flight ----

  /**
   * `Won` is between the tier's answer and `note_auto_winner`; `Noted` between that and the cache. What the query got
   * from each tier, last one last, is kept for the model's sake.
   */
  datatype Query =
    | Walking(tier: nat, got: seq<Upstream>)
    | Won(tier: nat, got: seq<Upstream>, response: Response)
    | Noted(tier: nat, got: seq<Upstream>, response: Response, switches: nat)

  /** A cached answer, where it came from, and the switch count when its winner was noted. */
  datatype Entry = Entry(tier: nat, source: Upstream, answers: Answers, switches: nat)

  datatype Server = Server(committed: Committed, inflight: map<nat, Query>, cache: set<Entry>)

  datatype Step =
    | Start(id: nat)
    | Reply(id: nat, up: Upstream)
    | Note(id: nat)
    | Store(id: nat)
    | ProbeRoots(secure: bool)
    | ProbeTier(tier: nat)

  predicate Enabled(s: Server, a: Step, validating: bool) {
    match a
    case Start(id) => id !in s.inflight
    case Reply(id, up) => id in s.inflight && s.inflight[id].Walking? && (FromRoots(up) <==> s.inflight[id].tier == 0)
    case Note(id) => id in s.inflight && s.inflight[id].Won?
    case Store(id) => id in s.inflight && s.inflight[id].Noted? && s.inflight[id].got != []
    case ProbeRoots(secure) => validating ==> secure
    case ProbeTier(tier) => 0 < tier < TierCount
  }

  function Switched(s: Server, to: Committed): Server {
    // Every committed switch flushes the cache first.
    s.(committed := to, cache := if to.switches != s.committed.switches then {} else s.cache)
  }

  function Do(s: Server, a: Step, grace: nat, validating: bool): Server
    requires Enabled(s, a, validating)
  {
    match a
    case Start(id) => s.(inflight := s.inflight[id := Walking(s.committed.active, [])])
    case Reply(id, up) =>
      var q, r := s.inflight[id], Respond(up);
      if r.Some? then s.(inflight := s.inflight[id := Won(q.tier, q.got + [up], r.value)])
      else if q.tier + 1 < TierCount then s.(inflight := s.inflight[id := Walking(q.tier + 1, q.got + [up])])
      else s.(inflight := s.inflight - {id})
    case Note(id) =>
      var q := s.inflight[id];
      var to := NoteWinner(s.committed, q.tier, grace);
      Switched(s, to).(inflight := s.inflight[id := Noted(q.tier, q.got, q.response, to.switches)])
    case Store(id) =>
      var q := s.inflight[id];
      var e := Entry(q.tier, q.got[|q.got| - 1], q.response.answers, q.switches);
      s.(cache := s.cache + (if Cacheable(q.response) then {e} else {}), inflight := s.inflight - {id})
    case ProbeRoots(_) => Switched(s, NoteWinner(s.committed, 0, grace))
    case ProbeTier(tier) => Switched(s, NoteWinner(s.committed, tier, grace))
  }

  ghost predicate Run(s: Server, steps: seq<Step>, t: Server, grace: nat, validating: bool)
    decreases |steps|
  {
    if steps == [] then t == s
    else Enabled(s, steps[0], validating) && Run(Do(s, steps[0], grace, validating), steps[1..], t, grace, validating)
  }

  /** No query in flight is still at a tier better than the committed one. */
  predicate NoneAhead(s: Server) {
    forall id :: id in s.inflight && !s.inflight[id].Noted? ==> s.inflight[id].tier >= s.committed.active
  }

  /** Every cached answer was noted since the last switch. */
  predicate CacheCurrent(s: Server) {
    forall e :: e in s.cache ==> e.switches == s.committed.switches
  }

  predicate NotedCurrent(s: Server) {
    forall id :: id in s.inflight && s.inflight[id].Noted? ==> s.inflight[id].switches == s.committed.switches
  }

  /** The tier a step would commit, or the one already committed. */
  function Target(s: Server, a: Step, grace: nat, validating: bool): Committed
    requires Enabled(s, a, validating)
  {
    match a
    case Note(id) => NoteWinner(s.committed, s.inflight[id].tier, grace)
    case ProbeRoots(_) => NoteWinner(s.committed, 0, grace)
    case ProbeTier(tier) => NoteWinner(s.committed, tier, grace)
    case _ => s.committed
  }

  /** If the step switches, every other query is still walking or undecided, at the new tier or past it. */
  predicate CleanSwitch(s: Server, a: Step, grace: nat, validating: bool)
    requires Enabled(s, a, validating)
  {
    var to := Target(s, a, grace, validating);
    to.switches != s.committed.switches ==>
      forall id :: id in s.inflight && a != Note(id) ==> !s.inflight[id].Noted? && s.inflight[id].tier >= to.active
  }

  ghost predicate CleanRun(s: Server, steps: seq<Step>, grace: nat, validating: bool)
    decreases |steps|
  {
    steps == [] ||
    (Enabled(s, steps[0], validating) && CleanSwitch(s, steps[0], grace, validating)
     && CleanRun(Do(s, steps[0], grace, validating), steps[1..], grace, validating))
  }

  // ---- what every run keeps ----

  /** Everything but the last thing a query got sent it on to the next tier, and the last is what it answers with. */
  predicate Follows(q: Query) {
    match q
    case Walking(tier, got) => forall u :: u in got ==> Respond(u).None?
    case Won(tier, got, response) => Ended(tier, got, response)
    case Noted(tier, got, response, _) => Ended(tier, got, response)
  }

  predicate Ended(tier: nat, got: seq<Upstream>, response: Response) {
    && got != [] && Respond(got[|got| - 1]) == Some(response)
    && (FromRoots(got[|got| - 1]) <==> tier == 0)
    && forall u :: u in got[..|got| - 1] ==> Respond(u).None?
  }

  /** A cached answer is the very one its tier was given: with no error, and from the roots only if it validated. */
  predicate Legitimate(e: Entry) {
    && e.answers != []
    && match e.source
       case Resolved(verdict, resolution) =>
         verdict !in {Bogus, Indeterminate} && resolution == Response(NoError, e.answers) && e.tier == 0
       case Forwarded(reply) => reply == Response(NoError, e.answers) && e.tier > 0
       case _ => false
  }

  ghost predicate Honest(s: Server) {
    (forall id :: id in s.inflight ==> Follows(s.inflight[id])) && forall e :: e in s.cache ==> Legitimate(e)
  }

  /** A withheld resolution leaves the roots tier as an empty SERVFAIL, which the cache turns away by its rcode. */
  lemma CachedIsLegitimate(tier: nat, got: seq<Upstream>, response: Response, switches: nat)
    requires Ended(tier, got, response) && Cacheable(response)
    ensures Legitimate(Entry(tier, got[|got| - 1], response.answers, switches))
  {
  }

  lemma ReplyKeepsHonest(s: Server, id: nat, up: Upstream, grace: nat, validating: bool)
    requires Honest(s) && Enabled(s, Reply(id, up), validating)
    ensures Honest(Do(s, Reply(id, up), grace, validating))
  {
    var q := s.inflight[id];
    assert Follows(q);
    assert (q.got + [up])[..|q.got|] == q.got;
  }

  lemma StoreKeepsHonest(s: Server, id: nat, grace: nat, validating: bool)
    requires Honest(s) && Enabled(s, Store(id), validating)
    ensures Honest(Do(s, Store(id), grace, validating))
  {
    var q := s.inflight[id];
    assert Follows(q);
    if Cacheable(q.response) {
      CachedIsLegitimate(q.tier, q.got, q.response, q.switches);
    }
  }

  /**
   * In every run, whatever the interleaving: no cached answer came from a Bogus or Indeterminate verdict, or is other
   * than the answer its tier was given; and a query asks the next tier only when the one before it withheld nothing.
   */
  lemma {:induction false} NeverCachesWithheld(s: Server, steps: seq<Step>, t: Server, grace: nat, validating: bool)
    requires Honest(s) && Run(s, steps, t, grace, validating)
    ensures Honest(t)
    decreases |steps|
  {
    if steps != [] {
      match steps[0] {
        case Reply(id, up) => ReplyKeepsHonest(s, id, up, grace, validating);
        case Store(id) => StoreKeepsHonest(s, id, grace, validating);
        case _ =>
      }
      assert Honest(Do(s, steps[0], grace, validating));
      NeverCachesWithheld(Do(s, steps[0], grace, validating), steps[1..], t, grace, validating);
    }
  }

  /** So a query past the roots has not been given a verdict that withholds. */
  lemma WithheldEndsTheQuery(s: Server, id: nat, u: Upstream)
    requires Honest(s) && id in s.inflight && u in s.inflight[id].got && u.Resolved?
    requires u.verdict in {Bogus, Indeterminate}
    ensures !s.inflight[id].Walking? && s.inflight[id].tier == 0 && s.inflight[id].response == Response(ServFail, [])
  {
    var q := s.inflight[id];
    var n := |q.got| - 1;
    assert u == q.got[n] || u in q.got[..n];
    assert Respond(u) == Some(Response(ServFail, []));
    assert Follows(q);
  }

  /** No tier but the four is ever committed to or asked. */
  predicate InRange(s: Server) {
    s.committed.active < 4 && forall id :: id in s.inflight ==> s.inflight[id].tier < 4
  }

  lemma {:induction false} RunsStayInRange(s: Server, steps: seq<Step>, t: Server, grace: nat, validating: bool)
    requires InRange(s) && Run(s, steps, t, grace, validating)
    ensures InRange(t)
    decreases |steps|
  {
    if steps != [] {
      assert InRange(Do(s, steps[0], grace, validating));
      RunsStayInRange(Do(s, steps[0], grace, validating), steps[1..], t, grace, validating);
    }
  }

  /** A probe that succeeds commits its tier at once, any of them above the roots or the roots themselves. */
  lemma ProbeCommits(s: Server, tier: nat, grace: nat, validating: bool)
    requires tier < s.committed.active < 4
    ensures var a := if tier == 0 then ProbeRoots(true) else ProbeTier(tier);
      && Enabled(s, a, validating)
      && Do(s, a, grace, validating) == s.(committed := Committed(tier, 0, s.committed.switches + 1), cache := {})
  {
  }

  /** The replies of the tiers from `from` on, up to the one that settles the query. */
  function Replies(id: nat, tiers: seq<Upstream>, from: nat): seq<Step>
    requires from <= |tiers|
    decreases |tiers| - from
  {
    if from == |tiers| then []
    else if Respond(tiers[from]).Some? then [Reply(id, tiers[from])]
    else [Reply(id, tiers[from])] + Replies(id, tiers, from + 1)
  }

  /** The server once the query has been through them: won at the winner, or gone. */
  function Walked(s: Server, id: nat, tiers: seq<Upstream>, from: nat, got: seq<Upstream>): Server
    requires |tiers| == 4
  {
    var w := Winner(from, tiers);
    if w.None? then s.(inflight := s.inflight - {id})
    else s.(inflight := s.inflight[id := Won(w.value, got + tiers[from..w.value + 1], Respond(tiers[w.value]).value)])
  }

  lemma OneMoreGot(got: seq<Upstream>, tiers: seq<Upstream>, from: nat, to: nat)
    requires from < to <= |tiers|
    ensures got + tiers[from..to] == got + [tiers[from]] + tiers[from + 1..to]
  {
    assert tiers[from..to] == [tiers[from]] + tiers[from + 1..to];
  }

  lemma {:induction false} WalkIsAutoResolve(
    s: Server, id: nat, tiers: seq<Upstream>, from: nat, got: seq<Upstream>, grace: nat, validating: bool)
    requires |tiers| == 4 && from < 4 && id in s.inflight && s.inflight[id] == Walking(from, got)
    requires forall i :: 0 <= i < 4 ==> (FromRoots(tiers[i]) <==> i == 0)
    ensures Run(s, Replies(id, tiers, from), Walked(s, id, tiers, from, got), grace, validating)
    decreases 4 - from
  {
    var a := Reply(id, tiers[from]);
    var next, t := Do(s, a, grace, validating), Walked(s, id, tiers, from, got);
    if Respond(tiers[from]).Some? {
      assert tiers[from..from + 1] == [tiers[from]];
      RunCons(s, a, [], t, grace, validating);
    } else if from == 3 {
      assert Replies(id, tiers, 4) == [];
      RunCons(s, a, [], t, grace, validating);
    } else {
      WalkIsAutoResolve(next, id, tiers, from + 1, got + [tiers[from]], grace, validating);
      var w := Winner(from, tiers);
      if w.Some? {
        var q := Won(w.value, got + tiers[from..w.value + 1], Respond(tiers[w.value]).value);
        OneMoreGot(got, tiers, from, w.value + 1);
        assert next.inflight[id := q] == s.inflight[id := q];
      } else {
        assert next.inflight - {id} == s.inflight - {id};
      }
      RunCons(s, a, Replies(id, tiers, from + 1), t, grace, validating);
    }
  }

  /** A query undisturbed is `auto_resolve` from the committed tier: it ends where that does, with what that gives. */
  lemma QueryIsAutoResolve(s: Server, id: nat, tiers: seq<Upstream>, grace: nat, validating: bool)
    requires |tiers| == 4 && s.committed.active < 4 && id !in s.inflight
    requires forall i :: 0 <= i < 4 ==> (FromRoots(tiers[i]) <==> i == 0)
    ensures var from := s.committed.active;
      Run(s, [Start(id)] + Replies(id, tiers, from), Walked(s, id, tiers, from, []), grace, validating)
  {
    var from := s.committed.active;
    var started := Do(s, Start(id), grace, validating);
    WalkIsAutoResolve(started, id, tiers, from, [], grace, validating);
    var w := Winner(from, tiers);
    if w.Some? {
      var q := Won(w.value, [] + tiers[from..w.value + 1], Respond(tiers[w.value]).value);
      assert started.inflight[id := q] == s.inflight[id := q];
    } else {
      assert started.inflight - {id} == s.inflight - {id};
    }
    RunCons(s, Start(id), Replies(id, tiers, from), Walked(s, id, tiers, from, []), grace, validating);
  }

  predicate Good(s: Server) {
    NoneAhead(s) && CacheCurrent(s) && NotedCurrent(s)
  }

  /** One step keeps that exactly when its switch, if it makes one, overtakes nobody. */
  lemma StepKeepsGood(s: Server, a: Step, grace: nat, validating: bool)
    requires Good(s) && Enabled(s, a, validating)
    ensures Good(Do(s, a, grace, validating)) <==> CleanSwitch(s, a, grace, validating)
  {
    var t := Do(s, a, grace, validating);
    var to := Target(s, a, grace, validating);
    if id :| id in s.inflight && a != Note(id) && to.switches != s.committed.switches
             && !(!s.inflight[id].Noted? && s.inflight[id].tier >= to.active) {
      assert t.inflight[id] == s.inflight[id] && t.committed == to;
    }
  }

  /** Over runs whose switches are clean, the cache never holds an answer from before the last switch. */
  lemma {:induction false} CleanRunsKeepGood(s: Server, steps: seq<Step>, t: Server, grace: nat, validating: bool)
    requires Good(s) && Run(s, steps, t, grace, validating) && CleanRun(s, steps, grace, validating)
    ensures Good(t)
    decreases |steps|
  {
    if steps != [] {
      StepKeepsGood(s, steps[0], grace, validating);
      CleanRunsKeepGood(Do(s, steps[0], grace, validating), steps[1..], t, grace, validating);
    }
  }

  /** Over such runs the tier improves only through the probe, and to tier 0 only through validated roots. */
  lemma RecoveryIsProbed(s: Server, steps: seq<Step>, t: Server, a: Step, grace: nat, validating: bool)
    requires Good(s) && Run(s, steps, t, grace, validating) && CleanRun(s, steps, grace, validating)
    requires Enabled(t, a, validating)
    requires Do(t, a, grace, validating).committed.active < t.committed.active
    ensures a.ProbeRoots? || a.ProbeTier?
    ensures Do(t, a, grace, validating).committed.active == 0 ==> a.ProbeRoots? && (validating ==> a.secure)
  {
    CleanRunsKeepGood(s, steps, t, grace, validating);
  }

  // ---- a query overtaken by a switch ----

  lemma RunCons(s: Server, a: Step, rest: seq<Step>, t: Server, grace: nat, validating: bool)
    requires Enabled(s, a, validating) && Run(Do(s, a, grace, validating), rest, t, grace, validating)
    ensures Run(s, [a] + rest, t, grace, validating)
  {
  }

  const Yes: Response := Response(NoError, ["a"])
  const Root: Upstream := Resolved(Insecure, Yes)
  const Reached: Upstream := Forwarded(Yes)
  const Fresh: Server := Server(Committed(0, 0, 0), map[], {})
  const Degraded: Server :=
    Server(Committed(1, 0, 1), map[0 := Walking(0, []), 1 := Noted(1, [RootsFailed, Reached], Yes, 1)], {})
  const Recovered: Server :=
    Server(Committed(0, 0, 2), map[0 := Noted(0, [Root], Yes, 2)], {Entry(1, Reached, ["a"], 1)})

  /** Query 0 is in flight when query 1 degrades the chain. */
  const Degrade: seq<Step> := [Start(0), Start(1), Reply(1, RootsFailed), Reply(1, Reached), Note(1)]
  /** Its late root answer undoes the switch, and query 1 then stores what it got from tier 1. */
  const Undo: seq<Step> := [Reply(0, Root), Note(0), Store(1)]

  /** Both queries started at the roots; query 1 has fallen through to tier 1. */
  const FallenThrough: Server :=
    Server(Committed(0, 0, 0), map[0 := Walking(0, []), 1 := Walking(1, [RootsFailed])], {})

  lemma FallThroughRuns(rest: seq<Step>, t: Server, validating: bool)
    requires Run(FallenThrough, rest, t, 1, validating)
    ensures Run(Fresh, [Start(0)] + ([Start(1)] + ([Reply(1, RootsFailed)] + rest)), t, 1, validating)
  {
    var a := Do(Fresh, Start(0), 1, validating);
    var b := Do(a, Start(1), 1, validating);
    assert [] + [RootsFailed] == [RootsFailed];
    assert Do(b, Reply(1, RootsFailed), 1, validating).inflight == FallenThrough.inflight;
    assert Do(b, Reply(1, RootsFailed), 1, validating) == FallenThrough;
    RunCons(b, Reply(1, RootsFailed), rest, t, 1, validating);
    RunCons(a, Start(1), [Reply(1, RootsFailed)] + rest, t, 1, validating);
    RunCons(Fresh, Start(0), [Start(1)] + ([Reply(1, RootsFailed)] + rest), t, 1, validating);
  }

  lemma SwitchRuns(rest: seq<Step>, t: Server, validating: bool)
    requires Run(Degraded, rest, t, 1, validating)
    ensures Run(FallenThrough, [Reply(1, Reached)] + ([Note(1)] + rest), t, 1, validating)
  {
    var d := Do(FallenThrough, Reply(1, Reached), 1, validating);
    assert [RootsFailed] + [Reached] == [RootsFailed, Reached];
    assert Do(d, Note(1), 1, validating).inflight == Degraded.inflight;
    assert Do(d, Note(1), 1, validating) == Degraded;
    RunCons(d, Note(1), rest, t, 1, validating);
    RunCons(FallenThrough, Reply(1, Reached), [Note(1)] + rest, t, 1, validating);
  }

  lemma DegradeRuns(rest: seq<Step>, t: Server, validating: bool)
    requires Run(Degraded, rest, t, 1, validating)
    ensures Run(Fresh, Degrade + rest, t, 1, validating)
  {
    SwitchRuns(rest, t, validating);
    FallThroughRuns([Reply(1, Reached)] + ([Note(1)] + rest), t, validating);
    assert Degrade + rest ==
      [Start(0)] + ([Start(1)] + ([Reply(1, RootsFailed)] + ([Reply(1, Reached)] + ([Note(1)] + rest))));
  }

  lemma UndoRuns(validating: bool)
    ensures Run(Degraded, Undo, Recovered, 1, validating)
  {
    var f := Do(Degraded, Reply(0, Root), 1, validating);
    var g := Do(f, Note(0), 1, validating);
    assert [] + [Root] == [Root] && [RootsFailed, Reached][1] == Reached;
    assert Do(g, Store(1), 1, validating).inflight == Recovered.inflight;
    assert Do(g, Store(1), 1, validating) == Recovered;
    RunCons(g, Store(1), [], Recovered, 1, validating);
    RunCons(f, Note(0), [Store(1)], Recovered, 1, validating);
    RunCons(Degraded, Reply(0, Root), [Note(0), Store(1)], Recovered, 1, validating);
  }

  /**
   * With a grace of one, this run returns to tier 0 with no probe at all, and leaves in the cache an answer
   * that was noted under tier 1.
   */
  lemma OvertakenQueryRecovers(validating: bool)
    ensures Run(Fresh, Degrade + Undo, Recovered, 1, validating)
    ensures Recovered.committed.active == 0 && Recovered.committed.switches == 2 && !CacheCurrent(Recovered)
  {
    UndoRuns(validating);
    DegradeRuns(Undo, Recovered, validating);
    assert Entry(1, Reached, ["a"], 1) in Recovered.cache;
  }
}
