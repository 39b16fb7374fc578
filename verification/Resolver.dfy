/** The iterative resolver's walk, against servers and caches that behave in any way whatever. */
module Resolver {
  import opened Basics
  import opened Names

  const MaxReferrals: nat := 30
  const MaxCnameChain: nat := 16
  const MaxHiddenCuts: nat := 4
  const MaxDepth: nat := 16
  const MaxGluelessNs: nat := 4
  const QueryBudget: nat := 64
  const ValidationBudget: nat := 32

  /** A response, classified against the question; `cuts` is how many unannounced zone cuts its signer implies. */
  datatype Step =
    | Answer(cuts: nat)
    | Cname(target: Name, cuts: nat)
    | Negative(cuts: nat)
    | Referral(zone: Name, glue: nat, nsTargets: seq<Name>)

  /** What comes back from one server. A truncated reply is asked again over TCP. */
  datatype Reply = Silence(truncated: bool) | Response(truncated: bool, step: Step)

  /** Everything outside this code decides next: a server, a cache, a signature check. */
  datatype Choice = Choice(reply: Reply, cached: bool, warm: bool, warmZone: Name, count: nat, valid: bool)

  datatype Reason =
    | TooDeep | CnameLoop | CnameTooLong | OutOfBailiwick | DelegationLoop | NoServers | BudgetSpent | Unreachable
    | TooManyReferrals(name: Name)

  datatype Outcome = Resolved | Withheld | Refused | Failed(reason: Reason)

  datatype Asked = Got(step: Step) | Nothing(reason: Reason)

  /** `referral_in_bailiwick`: strictly below the zone that answered, and still above the name. */
  predicate InBailiwick(current: Name, zone: Name, name: Name) {
    InZone(zone, current) && zone != current && InZone(name, zone)
  }

  predicate IsArpa(name: Name) {
    name != [] && name[0] == "arpa"
  }

  function Limit(validating: bool): nat {
    if validating then QueryBudget + ValidationBudget else QueryBudget
  }

  /** How many of the replies were cut short, and so asked for again over TCP. */
  function Truncated(replies: seq<Reply>): nat {
    if replies == [] then 0
    else Truncated(replies[..|replies| - 1]) + if replies[|replies| - 1].truncated then 1 else 0
  }

  lemma {:induction false} TruncatedBounds(replies: seq<Reply>)
    ensures Truncated(replies) <= |replies|
    ensures Truncated(replies) == 0 <==> forall r :: r in replies ==> !r.truncated
    ensures Truncated(replies) == |replies| <==> forall r :: r in replies ==> r.truncated
  {
    if replies != [] {
      var front, last := replies[..|replies| - 1], replies[|replies| - 1];
      TruncatedBounds(front);
      assert forall r :: r in replies <==> r in front || r == last;
    }
  }

  /** A world with `n` servers everywhere, each of which cuts its UDP reply short and then says nothing over TCP. */
  ghost predicate Deaf(world: nat -> Choice, n: nat) {
    forall t :: world(t).reply == Silence(true) && !world(t).cached && !world(t).warm && world(t).count == n
  }

  /** A world that answers the question with the first reply it gives, hides few cuts, and signs what it says. */
  ghost predicate Honest(world: nat -> Choice) {
    forall t :: world(t).reply.Response? && IsFinal(world(t).reply.step) && world(t).reply.step.cuts <= 4 &&
      world(t).valid && world(t).count > 0
  }

  /** Nothing cached and no delegation to start from. */
  ghost predicate Cold(world: nat -> Choice) {
    forall t :: !world(t).cached && !world(t).warm
  }

  /** Nothing cached and no server that says anything. */
  ghost predicate Silent(world: nat -> Choice) {
    forall t :: world(t).reply.Silence? && !world(t).cached
  }

  /** A reason to withhold: something did not verify, did not come, or is too far below the zone that said it. */
  predicate Doubtful(c: Choice) {
    !c.valid || c.reply.Silence? || Cuts(c.reply.step) > 4
  }

  predicate IsFinal(step: Step) {
    step.Answer? || step.Negative?
  }

  function Cuts(step: Step): nat {
    match step
    case Answer(cuts) => cuts
    case Cname(_, cuts) => cuts
    case Negative(cuts) => cuts
    case Referral(_, _, _) => 1
  }

  /** The checks a chain of steps takes: every cut, every step itself, and from cold the root's keys for every alias. */
  function Needed(steps: seq<Step>, cold: bool): nat {
    if steps == [] then 0
    else
      var last := steps[|steps| - 1];
      Needed(steps[..|steps| - 1], cold) + Cuts(last) + 1 + if cold && last.Cname? then 1 else 0
  }

  function Aliases(steps: seq<Step>): nat {
    if steps == [] then 0 else Aliases(steps[..|steps| - 1]) + if steps[|steps| - 1].Cname? then 1 else 0
  }

  function Referrals(steps: seq<Step>): nat {
    if steps == [] then 0 else Referrals(steps[..|steps| - 1]) + if steps[|steps| - 1].Referral? then 1 else 0
  }

  lemma NeededMore(steps: seq<Step>, step: Step, cold: bool)
    ensures Needed(steps + [step], cold) == Needed(steps, cold) + Cuts(step) + 1 + if cold && step.Cname? then 1 else 0
    ensures Aliases(steps + [step]) == Aliases(steps) + if step.Cname? then 1 else 0
    ensures Referrals(steps + [step]) == Referrals(steps) + if step.Referral? then 1 else 0
  {
    assert (steps + [step])[..|steps|] == steps;
  }

  predicate Distinct(names: seq<Name>) {
    forall i, j :: 0 <= i < j < |names| ==> names[i] != names[j]
  }

  /** Natural subtraction. */
  function Minus(a: nat, b: nat): nat {
    if b < a then a - b else 0
  }

  ghost predicate Given(world: nat -> Choice, replies: seq<Reply>) {
    forall r :: r in replies ==> exists t :: world(t).reply == r
  }

  ghost predicate Tally(world: nat -> Choice, replies: seq<Reply>, sent: nat, retries: nat) {
    |replies| == sent && retries == Truncated(replies) && Given(world, replies)
  }

  lemma OneMoreReply(world: nat -> Choice, replies: seq<Reply>, sent: nat, retries: nat, t: nat)
    requires Tally(world, replies, sent, retries)
    ensures Tally(world, replies + [world(t).reply], sent + 1, retries + if world(t).reply.truncated then 1 else 0)
  {
    assert (replies + [world(t).reply])[..|replies|] == replies;
  }

  /** The checks are different choices of the world's, and each came out well. */
  ghost predicate Real(world: nat -> Choice, checks: seq<nat>, now: nat) {
    && (forall i :: 0 <= i < |checks| ==> checks[i] < now && world(checks[i]).valid)
    && forall i, j :: 0 <= i < j < |checks| ==> checks[i] < checks[j]
  }

  class Lookup {
    const world: nat -> Choice
    const validating: bool
    var tick: nat      // choices the outside has made so far
    var left: nat      // QueryBudget.remaining
    var sent: nat      // queries claimed
    var retries: nat   // of those, asked again over TCP
    // For the model's sake: what came back, what the answer rests on so far and which choices were the checks it
    // passed, and whether anything was found in a cache or gave a reason to withhold.
    var replies: seq<Reply>
    var taken: seq<Step>
    var checks: seq<nat>
    var cached: bool
    var doubted: bool

    constructor (world: nat -> Choice, validating: bool)
      ensures this.world == world && this.validating == validating
      ensures left == Limit(validating) && sent == 0 && retries == 0 && taken == [] && checks == [] && Valid()
    {
      this.world, this.validating := world, validating;
      tick, left, sent, retries, replies := 0, Limit(validating), 0, 0, [];
      taken, checks, cached, doubted := [], [], false, false;
    }

    /** One reply of the world's for every query claimed, and one retry for every truncated one. */
    ghost predicate Counted()
      reads this
    {
      Tally(world, replies, sent, retries)
    }

    /** When validating there is a check for every step taken and every cut it hides. */
    ghost predicate Valid()
      reads this
    {
      && Counted() && Real(world, checks, tick) && (validating ==> |checks| >= Needed(taken, false))
      && (cached ==> exists t :: world(t).cached) && (doubted ==> exists t :: Doubtful(world(t)))
    }

    /** From cold there are checks of the root's keys too: one for every alias, and `more`. */
    ghost predicate FromRoot(more: nat)
      reads this
    {
      validating && Cold(world) ==> |checks| >= Needed(taken, true) + more
    }

    /** The budget and the queries sent add up, and nothing is forgotten. */
    twostate predicate Accounts()
      reads this
    {
      && Valid() && sent + left == old(sent) + old(left) && old(tick) <= tick
      && (old(cached) ==> cached) && (old(doubted) ==> doubted)
    }

    /** What `Resolved` and `Withheld` mean: a final step taken, or one found; a doubt while validating. */
    ghost predicate Justified(o: Outcome)
      reads this
    {
      && (o == Resolved ==> FromRoot(1) && (cached || (taken != [] && IsFinal(taken[|taken| - 1]))))
      && (o == Withheld ==> validating && (doubted || left == 0))
    }

    /** What each failure means; `above` is how deep the lookup started. */
    ghost predicate Explained(o: Outcome, above: int)
      reads this
    {
      o.Failed? ==>
        match o.reason
        case DelegationLoop => false
        case TooManyReferrals(name) => |name| >= 30
        case BudgetSpent => left == 0
        case TooDeep => above + Aliases(taken) >= 17
        case CnameTooLong => Aliases(taken) >= 16
        case _ => true
    }

    method Next() returns (c: Choice)
      requires Valid()
      modifies this`tick, this`cached, this`doubted
      ensures c == world(old(tick)) && tick == old(tick) + 1 && Valid()
      ensures cached == (old(cached) || c.cached) && doubted == (old(doubted) || Doubtful(c))
    {
      c := world(tick);
      tick, cached, doubted := tick + 1, cached || c.cached, doubted || Doubtful(c);
    }

    /** Enters one query and what came back for it. */
    method Enter(ghost t: nat, r: Reply)
      requires Valid() && left > 0 && r == world(t).reply
      modifies this`left, this`sent, this`retries, this`replies
      ensures Valid() && left == old(left) - 1 && sent == old(sent) + 1
    {
      OneMoreReply(world, replies, sent, retries, t);
      left, sent, replies := left - 1, sent + 1, replies + [r];
      retries := retries + if r.truncated then 1 else 0;
      assert Counted();
    }

    /** Claims one query and gets one reply. */
    method Exchange() returns (r: Reply)
      requires Valid() && left > 0
      modifies this`tick, this`cached, this`doubted, this`left, this`sent, this`retries, this`replies
      ensures Accounts() && sent == old(sent) + 1
      ensures r == world(old(tick)).reply && doubted == (old(doubted) || Doubtful(world(old(tick))))
    {
      var c := Next();
      r := c.reply;
      Enter(tick - 1, r);
    }

    /** `query_servers`: each server in turn, every packet claimed first. */
    method QueryServers(servers: nat) returns (r: Asked)
      requires Valid()
      modifies this
      ensures Accounts() && taken == old(taken) && checks == old(checks)
      ensures r.Nothing? ==> r.reason in {BudgetSpent, Unreachable}
      ensures r == Nothing(BudgetSpent) ==> left == 0
      ensures r == Nothing(Unreachable) ==> sent == old(sent) + servers
      ensures r.Nothing? && servers > 0 ==> doubted || left == 0
      ensures r.Got? ==> servers > 0 && (Cuts(r.step) > 4 ==> doubted)
      ensures forall n: nat :: Deaf(world, n) ==> r.Nothing? && left == Minus(old(left), servers)
      ensures Honest(world) && servers > 0 && old(left) > 0 ==>
        r.Got? && left == old(left) - 1 && IsFinal(r.step) && r.step.cuts <= 4
      ensures Silent(world) ==> r.Nothing?
    {
      for i := 0 to servers
        invariant Accounts() && taken == old(taken) && checks == old(checks) && sent == old(sent) + i
        invariant i > 0 ==> doubted && !Honest(world)
      {
        if left == 0 {
          return Nothing(BudgetSpent);
        }
        var reply := Exchange();
        if reply.Response? {
          return Got(reply.step);
        }
      }
      r := Nothing(Unreachable);
    }

    /** Remembers a check that came out well. */
    method Pass(at: nat)
      requires Valid() && at < tick && world(at).valid && Real(world, checks, at)
      modifies this`checks
      ensures Valid() && checks == old(checks) + [at]
    {
      checks := checks + [at];
    }

    /** Crosses one zone cut: up to a DS and a DNSKEY lookup, either of which may break the chain. */
    method CrossCut(servers: nat) returns (ok: bool)
      requires Valid()
      modifies this
      ensures Accounts() && taken == old(taken)
      ensures |checks| == |old(checks)| + if ok then 1 else 0
      ensures !ok && servers > 0 ==> doubted || left == 0
      ensures Honest(world) && servers > 0 && old(left) >= 2 ==> ok && left >= old(left) - 2
    {
      var at := tick;
      var c := Next();
      for i := 0 to c.count % 3
        invariant Accounts() && taken == old(taken) && checks == old(checks) && at < tick
        invariant doubted || !Doubtful(c)
        invariant Honest(world) && servers > 0 && old(left) >= 2 ==> left == old(left) - i
      {
        var r := QueryServers(servers);
        if r.Nothing? {
          return false;
        }
      }
      ok := c.valid;
      if ok {
        Pass(at);
      }
    }

    /** `keys_for` and `extend_trust`: nothing to do unless validating. */
    method EstablishTrust(cuts: nat, servers: nat) returns (ok: bool)
      requires Valid()
      modifies this
      ensures Accounts() && taken == old(taken) && |checks| >= |old(checks)|
      ensures !validating ==> ok && sent == old(sent) && checks == old(checks)
      ensures ok && validating ==> cuts <= 4 && |checks| == |old(checks)| + cuts + 1
      ensures !ok && servers > 0 && cuts <= 4 ==> doubted || left == 0
      ensures Honest(world) && servers > 0 && cuts <= 4 && old(left) >= 8 ==> ok
    {
      if !validating {
        return true;
      }
      if cuts > MaxHiddenCuts {
        return false;
      }
      for i := 0 to cuts
        invariant Accounts() && taken == old(taken) && |checks| == |old(checks)| + i
        invariant Honest(world) && servers > 0 && old(left) >= 8 ==> left >= old(left) - 2 * i
      {
        var crossed := CrossCut(servers);
        if !crossed {
          return false;
        }
      }
      var at := tick;
      var c := Next();
      ok := c.valid;
      if ok {
        Pass(at);
      }
    }

    /** A step is taken only once it is trusted. */
    method Take(step: Step, servers: nat) returns (ok: bool)
      requires Valid() && servers > 0 && (Cuts(step) > 4 ==> doubted) && FromRoot(1)
      modifies this
      ensures Accounts() && taken == if ok then old(taken) + [step] else old(taken)
      ensures Aliases(taken) == Aliases(old(taken)) + if ok && step.Cname? then 1 else 0
      ensures Referrals(taken) == Referrals(old(taken)) + if ok && step.Referral? then 1 else 0
      ensures ok && validating ==> Cuts(step) <= 4 && |checks| == |old(checks)| + Cuts(step) + 1
      ensures FromRoot(if ok && step.Cname? then 0 else 1)
      ensures !ok ==> validating && (doubted || left == 0)
      ensures Honest(world) && Cuts(step) <= 4 && old(left) >= 8 ==> ok
    {
      ok := EstablishTrust(Cuts(step), servers);
      if ok {
        NeededMore(taken, step, false);
        NeededMore(taken, step, true);
        taken := taken + [step];
      }
    }

    /** `root_trust`: the root's keys, unless they are at hand; an error if the roots cannot be reached. */
    method TrustRoot() returns (o: Option<Outcome>, servers: nat)
      requires Valid() && FromRoot(0)
      modifies this
      ensures Accounts() && taken == old(taken) && |checks| >= |old(checks)|
      ensures o.None? ==> FromRoot(1)
      ensures o.Some? ==> validating && o.value in {Withheld, Failed(BudgetSpent), Failed(Unreachable)}
      ensures o == Some(Withheld) ==> doubted
      ensures o == Some(Failed(BudgetSpent)) ==> left == 0
      ensures !validating ==> left == old(left)
      ensures forall n: nat :: Deaf(world, n) ==>
        servers == n && if validating then o.Some? && left == Minus(old(left), n) else left == old(left)
      ensures Honest(world) && old(left) > 0 ==> o.None? && servers > 0 && left >= old(left) - 1
    {
      var at := tick;
      var roots := Next();
      servers := roots.count;
      o := None;
      if validating && !roots.cached {
        var keys := QueryServers(servers);
        // A root that cannot be reached is an error; one that does not validate withholds the answer.
        if keys.Nothing? {
          return Some(Failed(keys.reason)), servers;
        }
        if !roots.valid {
          return Some(Withheld), servers;
        }
        Pass(at);
      }
    }

    /** `resolve_inner`. */
    method ResolveInner(name: Name, depth: nat, seen: seq<Name>) returns (o: Outcome, trail: seq<Name>)
      requires |seen| <= depth <= MaxDepth + 1 && |seen| <= MaxCnameChain && Distinct(seen)
      requires Valid() && FromRoot(0) && Aliases(taken) == |seen|
      modifies this
      ensures Accounts() && Justified(o) && Explained(o, depth - |seen|)
      ensures Distinct(trail) && seen <= trail && |seen| <= Aliases(taken) <= 16
      ensures Honest(world) && depth <= 16 && !IsArpa(name) && old(left) >= 10 ==> o == Resolved
      ensures IsArpa(name) && depth <= 16 ==> o == Refused && left == old(left)
      ensures depth > 16 ==> o == Failed(TooDeep) && left == old(left)
      ensures Silent(world) ==> o != Resolved
      ensures forall n: nat :: Deaf(world, n) && depth == 0 && !IsArpa(name) ==> left == Minus(old(left), n)
      decreases MaxDepth + 1 - depth, 3
    {
      trail := seen;
      if depth > MaxDepth {
        return Failed(TooDeep), trail;
      }
      if IsArpa(name) {
        return Refused, trail;
      }
      var c := Next();
      if c.cached {
        return Resolved, trail;
      }
      if c.warm && InZone(name, c.warmZone) {
        var attempt, steps, passed := seen, taken, checks;
        o, attempt := Walk(name, depth, seen, c.count, c.warmZone);
        if o != Failed(Unreachable) {
          if !o.Failed? { trail := attempt; }
          return;
        }
        taken, checks := steps, passed;
      }
      o, trail := WalkFromRoot(name, depth, seen);
    }

    method WalkFromRoot(name: Name, depth: nat, seen: seq<Name>) returns (o: Outcome, trail: seq<Name>)
      requires |seen| <= depth <= MaxDepth && |seen| <= MaxCnameChain && Distinct(seen)
      requires Valid() && FromRoot(0) && Aliases(taken) == |seen|
      modifies this
      ensures Accounts() && Justified(o) && Explained(o, depth - |seen|)
      ensures Distinct(trail) && seen <= trail && |seen| <= Aliases(taken) <= 16
      ensures Honest(world) && old(left) >= 10 ==> o == Resolved
      ensures Silent(world) ==> o != Resolved
      ensures forall n: nat :: Deaf(world, n) ==> left == Minus(old(left), n)
      decreases MaxDepth + 1 - depth, 2
    {
      var stop, servers := TrustRoot();
      if stop.Some? {
        return stop.value, seen;
      }
      o, trail := Walk(name, depth, seen, servers, []);
    }

    /** What a server's address rests on is no part of what the answer does. */
    method ResolveAside(name: Name, depth: nat) returns (o: Outcome)
      requires depth <= MaxDepth + 1
      requires Valid()
      modifies this
      ensures Accounts() && taken == old(taken) && checks == old(checks)
      ensures Honest(world) && !IsArpa(name) && depth <= 16 && old(left) >= 10 ==> o == Resolved
      ensures Silent(world) ==> o != Resolved
      decreases MaxDepth + 1 - depth, 4
    {
      var steps, passed := taken, checks;
      taken, checks := [], [];
      var trail;
      o, trail := ResolveInner(name, depth, []);
      taken, checks := steps, passed;
    }

    /** `resolve_ns_addresses`: how many addresses the first few glue-less servers resolve to. */
    method ResolveNsAddresses(targets: seq<Name>, depth: nat) returns (addresses: nat, tried: nat)
      requires depth <= MaxDepth + 1
      requires Valid()
      modifies this
      ensures Accounts() && taken == old(taken) && checks == old(checks)
      ensures tried <= 4 && tried <= |targets|
      ensures addresses == 0 ==> tried == 4 || tried == |targets|
      ensures targets != [] && world(old(tick)).cached && world(old(tick)).count > 0 ==>
        addresses == world(old(tick)).count && left == old(left)
      ensures Honest(world) && targets != [] && !IsArpa(targets[0]) && depth <= 16 && old(left) >= 10 ==> addresses > 0
      ensures Silent(world) ==> addresses == 0
      decreases MaxDepth + 1 - depth, 5
    {
      addresses, tried := 0, 0;
      var n := if |targets| < MaxGluelessNs then |targets| else MaxGluelessNs;
      while tried < n
        invariant Accounts() && taken == old(taken) && checks == old(checks) && tried <= n && addresses == 0
        invariant tried == 0 ==> tick == old(tick) && left == old(left)
        invariant tried > 0 ==> !(world(old(tick)).cached && world(old(tick)).count > 0)
        invariant tried > 0 && Honest(world) && depth <= 16 && old(left) >= 10 ==> IsArpa(targets[0])
      {
        var target := targets[tried];
        tried := tried + 1;
        var c := Next();
        if c.cached && c.count > 0 {
          return c.count, tried;
        }
        var o := ResolveAside(target, depth);
        if o == Resolved && c.count > 0 {
          return c.count, tried;
        }
      }
    }

    /** The last step of `walk`: an answer or a negative is as good as the trust in it. */
    method Conclude(step: Step, servers: nat) returns (o: Outcome)
      requires IsFinal(step) && servers > 0 && (Cuts(step) > 4 ==> doubted)
      requires Valid() && FromRoot(1)
      modifies this
      ensures Accounts() && Justified(o) && o in {Resolved, Withheld}
      ensures Aliases(taken) == Aliases(old(taken)) && Referrals(taken) == Referrals(old(taken))
      ensures o == Resolved ==> taken == old(taken) + [step]
      ensures o == Resolved && validating ==> step.cuts <= 4 && |checks| == |old(checks)| + step.cuts + 1
      ensures !validating || (Honest(world) && Cuts(step) <= 4 && old(left) >= 8) ==> o == Resolved
    {
      var ok := Take(step, servers);
      o := if ok then Resolved else Withheld;
    }

    /** The referral step of `walk`: the glue, else the addresses of the name servers; and trust before going on. */
    method Delegate(step: Step, depth: nat) returns (stop: Option<Outcome>, servers: nat)
      requires step.Referral? && depth <= MaxDepth
      requires Valid() && FromRoot(1)
      modifies this
      ensures Accounts() && FromRoot(1) && Aliases(taken) == Aliases(old(taken))
      ensures stop.None? && validating ==> |checks| == |old(checks)| + 2
      ensures stop.None? ==> Referrals(taken) == Referrals(old(taken)) + 1
      ensures stop.None? ==> servers > 0 && taken == old(taken) + [step] && (step.glue > 0 ==> servers == step.glue)
      ensures stop.Some? ==> stop.value in {Withheld, Failed(NoServers)}
      ensures stop == Some(Withheld) ==> validating && (doubted || left == 0)
      ensures step.glue > 0 ==> stop != Some(Failed(NoServers))
      ensures Honest(world) && step.nsTargets != [] && !IsArpa(step.nsTargets[0]) && depth < 16 && old(left) >= 10 ==>
        stop != Some(Failed(NoServers))
      decreases MaxDepth + 1 - depth, 0
    {
      if step.glue > 0 {
        servers := step.glue;
      } else {
        var tried;
        servers, tried := ResolveNsAddresses(step.nsTargets, depth + 1);
      }
      if servers == 0 {
        return Some(Failed(NoServers)), servers;
      }
      var ok := Take(step, servers);
      stop := if ok then None else Some(Withheld);
    }

    /** The alias step of `walk`: no target twice, no more than 16, and each trusted before it is followed. */
    method Follow(step: Step, servers: nat, depth: nat, seen: seq<Name>) returns (o: Outcome, trail: seq<Name>)
      requires step.Cname? && servers > 0 && (Cuts(step) > 4 ==> doubted)
      requires |seen| <= depth <= MaxDepth && |seen| <= MaxCnameChain && Distinct(seen)
      requires Valid() && FromRoot(1) && Aliases(taken) == |seen|
      modifies this
      ensures Accounts() && Justified(o) && Explained(o, depth - |seen|)
      ensures Distinct(trail) && seen <= trail && |seen| <= Aliases(taken) <= 16
      ensures o.Failed? && o.reason.TooManyReferrals? ==> Aliases(taken) > |seen|
      ensures step.target in seen ==> o == Failed(CnameLoop)
      ensures step.target !in seen && |seen| >= 16 ==> o == Failed(CnameTooLong)
      ensures step.target !in seen && |seen| < 16 && Aliases(taken) == |seen| ==> o == Withheld
      decreases MaxDepth + 1 - depth, 0
    {
      trail := seen;
      if step.target in trail {
        return Failed(CnameLoop), trail;
      }
      if |trail| >= MaxCnameChain {
        return Failed(CnameTooLong), trail;
      }
      var ok := Take(step, servers);
      if !ok {
        return Withheld, trail;
      }
      trail := trail + [step.target];
      o, trail := ResolveInner(step.target, depth + 1, trail);
    }

    /** `walk`: from `start`'s servers down, one referral at a time. */
    method Walk(name: Name, depth: nat, seen: seq<Name>, firstServers: nat, start: Name)
      returns (o: Outcome, trail: seq<Name>)
      requires |seen| <= depth <= MaxDepth && |seen| <= MaxCnameChain && Distinct(seen) && InZone(name, start)
      requires Valid() && FromRoot(1) && Aliases(taken) == |seen|
      modifies this
      ensures Accounts() && Justified(o) && Explained(o, depth - |seen|)
      ensures Distinct(trail) && seen <= trail && |seen| <= Aliases(taken) <= 16
      ensures Honest(world) && firstServers > 0 && old(left) >= 9 ==> o == Resolved
      ensures Silent(world) ==> o != Resolved
      ensures o == Failed(TooManyReferrals(name)) && Aliases(taken) == |seen| ==>
        Referrals(taken) == Referrals(old(taken)) + 30
      ensures forall n: nat :: Deaf(world, n) ==> left == Minus(old(left), firstServers)
      decreases MaxDepth + 1 - depth, 1
    {
      trail := seen;
      var servers, current := firstServers, start;
      var visited: set<Name> := {};
      for hop := 0 to MaxReferrals
        invariant Accounts() && FromRoot(1) && Aliases(taken) == |seen| && trail == seen
        invariant hop == 0 ==> servers == firstServers && left == old(left)
        invariant Referrals(taken) == Referrals(old(taken)) + hop
        invariant forall n: nat :: Deaf(world, n) ==> hop == 0
        invariant Silent(world) ==> hop == 0
        invariant Honest(world) && firstServers > 0 && old(left) >= 9 ==> hop == 0
        invariant InZone(name, current) && InZone(current, start)
        invariant |current| >= |start| + hop
        // Every zone visited is at or above the current one, so no referral below it repeats.
        invariant forall z :: z in visited ==> |z| <= |current|
      {
        var asked := QueryServers(servers);
        if asked.Nothing? {
          return Failed(asked.reason), trail;
        }
        match asked.step
        case Answer(_) =>
          o := Conclude(asked.step, servers);
          return;
        case Negative(_) =>
          o := Conclude(asked.step, servers);
          return;
        case Cname(_, _) =>
          o, trail := Follow(asked.step, servers, depth, trail);
          return;
        case Referral(zone, _, _) =>
          if !InBailiwick(current, zone, name) {
            return Failed(OutOfBailiwick), trail;
          }
          if zone in visited {
            return Failed(DelegationLoop), trail;
          }
          visited := visited + {zone};
          var stop;
          stop, servers := Delegate(asked.step, depth);
          if stop.Some? {
            return stop.value, trail;
          }
          current := zone;
      }
      o := Failed(TooManyReferrals(name));
    }
  }

  /**
   * `resolve`: whatever the servers do, the lookup ends, and it has claimed at most 64 queries, 96 when validating. A
   * claim covers one exchange, and exactly one more over TCP for each truncated reply: so there are as many exchanges
   * as queries if and only if none was truncated, and twice as many if and only if all were.
   *
   * Unless it came from a cache, a resolved answer rests on steps down to a final one; when validating each step, each
   * cut it hides and from cold the root's keys passed a check of its own. An answer is withheld only when validating,
   * and only over something that did not verify, did not come, or hid too many cuts, or with the budget spent.
   */
  method Resolve(name: Name, world: nat -> Choice, validating: bool)
    returns (o: Outcome, queries: nat, exchanges: nat, replies: seq<Reply>, steps: seq<Step>, checks: seq<nat>)
    ensures queries <= (if validating then 96 else 64) && |replies| == queries
    ensures exchanges == queries + Truncated(replies) <= 2 * queries
    ensures exchanges == queries <==> forall r :: r in replies ==> !r.truncated
    ensures exchanges == 2 * queries <==> forall r :: r in replies ==> r.truncated
    ensures forall r :: r in replies ==> exists t :: world(t).reply == r
    ensures forall n: nat :: Deaf(world, n) && !IsArpa(name) ==>
      queries == Limit(validating) - Minus(Limit(validating), n)
    ensures forall i :: 0 <= i < |checks| ==> world(checks[i]).valid
    ensures forall i, j :: 0 <= i < j < |checks| ==> checks[i] != checks[j]
    ensures o == Resolved ==> (exists t :: world(t).cached) || (steps != [] && IsFinal(steps[|steps| - 1]))
    ensures o == Resolved && validating ==> |checks| >= Needed(steps, false)
    ensures o == Resolved && validating && Cold(world) ==> |checks| >= Needed(steps, true) + 1
    ensures validating && (forall t :: !world(t).valid && !world(t).cached) ==> o != Resolved
    ensures o == Withheld ==> validating && (queries == Limit(validating) || exists t :: Doubtful(world(t)))
    ensures name != [] && name[0] == "arpa" ==> o == Refused && queries == 0
    ensures Honest(world) && !(name != [] && name[0] == "arpa") ==> o == Resolved
    ensures o !in {Failed(DelegationLoop), Failed(TooDeep)}
    ensures o == Failed(BudgetSpent) ==> queries == Limit(validating)
    ensures o.Failed? && o.reason.TooManyReferrals? ==> |o.reason.name| >= 30
  {
    var l := new Lookup(world, validating);
    var trail;
    o, trail := l.ResolveInner(name, 0, []);
    TruncatedBounds(l.replies);
    queries, exchanges, replies := l.sent, l.sent + l.retries, l.replies;
    steps, checks := l.taken, l.checks;
    assert checks != [] ==> world(checks[0]).valid;
  }

  /**
   * With `n` root servers that truncate everything and then fall silent, a lookup makes two exchanges with each of
   * them, or with as many as the budget covers: so it exceeds the documented limit exactly when `n` is more than half
   * of it, and doubles it from `n` equal to it. The thirteen built-in hints make 26.
   */
  method TruncationDoubles(name: Name, n: nat, validating: bool) returns (exchanges: nat)
    requires !IsArpa(name)
    ensures var limit := if validating then 96 else 64;
      exchanges == 2 * (if n < limit then n else limit) && (exchanges > limit <==> 2 * n > limit)
  {
    var world := (t: nat) => Choice(Silence(true), false, false, [], n, false);
    assert Deaf(world, n);
    var o, queries, replies, steps, checks;
    o, queries, exchanges, replies, steps, checks := Resolve(name, world, validating);
  }
}
