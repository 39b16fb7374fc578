/** The domain-blocklist checker: cached verdicts, background lookups, and providers rotated out for refusing. */
module Dnsbl {
  import opened Names

  type Zone = string
  type Code = nat
  type Key = (Name, Zone)

  datatype Provider = Provider(zone: Zone, enabled: bool, refusals: set<Code>, cooldown: nat)

  /** What a lookup brings back: address codes with a TTL, no record, or an error. */
  datatype Reply = Codes(codes: seq<Code>, ttl: nat) | Nothing | Failed

  datatype Verdict = Listed | NotListed | Refused | Unknown

  /** A cached verdict; `codes` is the answer it was read from, which only the model remembers. */
  datatype Entry = Entry(listed: bool, expires: nat, codes: seq<Code>)

  /** A lookup under way, with the provider settings captured when it was sent. */
  datatype Fill = Fill(refusals: set<Code>, cooldown: nat)

  datatype State = State(
    enabled: bool, reachable: bool, providers: seq<Provider>,
    cache: map<Key, Entry>, inflight: map<Key, Fill>, rotated: map<Zone, nat>, now: nat)

  datatype Step = Ask(name: Name) | Land(key: Key, reply: Reply) | Flush
                | Configure(on: bool, list: seq<Provider>) | Reach(up: bool) | Wait(seconds: nat)

  const StaleGrace: nat := 600
  const NegativeTtl: nat := 300

  predicate Complains(codes: seq<Code>, refusals: set<Code>) {
    exists c :: c in codes && c in refusals
  }

  /** A refusal anywhere in the answer wins over a listing in it. */
  function Classify(reply: Reply, refusals: set<Code>): Verdict {
    match reply
    case Failed => Unknown
    case Nothing => NotListed
    case Codes(codes, _) => if Complains(codes, refusals) then Refused else if codes == [] then NotListed else Listed
  }

  /** One refusal code among the answers is enough, and a listing is an answer without any. */
  lemma ClassifyIff(reply: Reply, refusals: set<Code>)
    ensures Classify(reply, refusals) == Refused <==>
      reply.Codes? && exists i :: 0 <= i < |reply.codes| && reply.codes[i] in refusals
    ensures Classify(reply, refusals) == Listed <==>
      reply.Codes? && |reply.codes| > 0 && forall i :: 0 <= i < |reply.codes| ==> reply.codes[i] !in refusals
    ensures Classify(reply, refusals) == Unknown <==> reply.Failed?
  {
  }

  // ---- the gate ----

  /** The labels above a name are tested one cut at a time, the root never. */
  method Allowlisted(name: Name, entries: set<Name>) returns (exempt: bool)
    ensures exempt <==> exists z :: z in entries && InZone(name, z) && (z == [] ==> name == [])
  {
    if name in entries {
      return true;
    }
    forall z | z in entries && InZone(name, z) ensures |z| < |name| {
      assert |z| == |name| ==> z == name;
    }
    var k := |name|;
    while k > 1
      invariant 0 <= k <= |name|
      invariant forall z :: z in entries && InZone(name, z) ==> |z| < k || z == []
    {
      k := k - 1;
      if name[..k] in entries {
        assert InZone(name, name[..k]);
        return true;
      }
      forall z | z in entries && InZone(name, z) ensures |z| < k || z == [] {
        assert z == name[..|z|];
      }
    }
    return false;
  }

  // ---- verdicts ----

  predicate Fresh(s: State, k: Key) {
    k in s.cache && s.cache[k].expires > s.now
  }

  /** A listing goes on blocking past its TTL while its refill is out, for ten minutes at most. */
  predicate Counts(s: State, k: Key) {
    k in s.cache && s.cache[k].listed && s.now < s.cache[k].expires + StaleGrace
  }

  predicate RotatedOut(s: State, zone: Zone) {
    zone in s.rotated && s.rotated[zone] > s.now
  }

  predicate Consulted(s: State, name: Name) {
    s.enabled && s.reachable && name != []
  }

  predicate Blocks(s: State, name: Name) {
    Consulted(s, name) && exists p :: p in s.providers && p.enabled && Counts(s, (name, p.zone))
  }

  /** A listing inside its TTL answers at once, before anything is sent. */
  predicate Warm(s: State, name: Name) {
    exists p :: p in s.providers && p.enabled && Fresh(s, (name, p.zone)) && s.cache[(name, p.zone)].listed
  }

  predicate Sends(s: State, name: Name, p: Provider) {
    && p in s.providers && p.enabled && !Warm(s, name) && !Fresh(s, (name, p.zone))
    && !RotatedOut(s, p.zone) && (name, p.zone) !in s.inflight
  }

  // ---- the machine ----

  ghost predicate CachePruned(s: State, cache: map<Key, Entry>) {
    && (forall k :: k in cache ==> k in s.cache && cache[k] == s.cache[k])
    && (forall k :: Fresh(s, k) || Counts(s, k) ==> k in cache)
  }

  ghost predicate RotationPruned(s: State, rotated: map<Zone, nat>) {
    && (forall z :: z in rotated ==> z in s.rotated && rotated[z] == s.rotated[z])
    && (forall z :: RotatedOut(s, z) ==> z in rotated)
  }

  /** Asking drops what no longer counts for anything, and sends the lookups that are due. */
  ghost predicate Asked(s: State, name: Name, t: State) {
    && t == s.(cache := t.cache, inflight := t.inflight, rotated := t.rotated)
    && CachePruned(s, t.cache) && RotationPruned(s, t.rotated)
    && (forall k :: k in s.inflight ==> k in t.inflight && t.inflight[k] == s.inflight[k])
    && (forall p :: Consulted(s, name) && Sends(s, name, p) ==> (name, p.zone) in t.inflight)
    && (forall k :: k in t.inflight && k !in s.inflight ==>
          Consulted(s, name) && k.0 == name && SentTo(s, name, k.1, t.inflight[k]))
  }

  function FillFor(p: Provider): Fill {
    Fill(p.refusals, p.cooldown)
  }

  ghost predicate SentTo(s: State, name: Name, zone: Zone, f: Fill) {
    exists p :: Sends(s, name, p) && p.zone == zone && f == FillFor(p)
  }

  function Landed(s: State, k: Key, reply: Reply): State
    requires k in s.inflight
  {
    var rest := s.(inflight := s.inflight - {k});
    match Classify(reply, s.inflight[k].refusals)
    case Listed => rest.(cache := s.cache[k := Entry(true, s.now + reply.ttl, reply.codes)])
    case NotListed => rest.(cache := s.cache[k := Entry(false, s.now + NegativeTtl, [])])
    case Refused => rest.(rotated := s.rotated[k.1 := s.now + s.inflight[k].cooldown])
    case Unknown => rest
  }

  ghost predicate Next(s: State, step: Step, t: State) {
    match step
    case Ask(name) => Asked(s, name, t)
    case Land(k, reply) => k in s.inflight && t == Landed(s, k, reply)
    case Flush => t == s.(cache := map[], rotated := map[])
    case Configure(on, list) => t == s.(enabled := on, providers := list, cache := map[], rotated := map[])
    case Reach(up) => t == s.(reachable := up)
    case Wait(seconds) => t == s.(now := s.now + seconds)
  }

  ghost predicate Run(h: seq<State>, steps: seq<Step>) {
    |h| == |steps| + 1 && forall i :: 0 <= i < |steps| ==> Next(h[i], steps[i], h[i + 1])
  }

  // ---- how long an answer lasts ----

  /** A listing blocks for its TTL and ten minutes more, whatever the other providers say. */
  lemma ListingLasts(s: State, k: Key, reply: Reply, p: Provider, seconds: nat, t: State)
    requires k in s.inflight && Classify(reply, s.inflight[k].refusals) == Listed
    requires s.enabled && s.reachable && k.0 != [] && p in s.providers && p.enabled && p.zone == k.1
    requires Next(Landed(s, k, reply), Wait(seconds), t)
    ensures Blocks(t, k.0) <==>
      || seconds < reply.ttl + 600
      || exists o :: o in s.providers && o.enabled && o.zone != k.1 && Counts(s.(now := s.now + seconds), (k.0, o.zone))
  {
    var later := s.(now := s.now + seconds);
    assert forall o: Provider :: o.zone != k.1 ==> Counts(t, (k.0, o.zone)) == Counts(later, (k.0, o.zone));
    assert Counts(t, (k.0, p.zone)) <==> seconds < reply.ttl + 600;
  }

  /** A clean answer keeps its provider from being asked again for five minutes, and no longer. */
  lemma CleanAnswerLasts(s: State, k: Key, reply: Reply, p: Provider, seconds: nat, t: State)
    requires k in s.inflight && Classify(reply, s.inflight[k].refusals) == NotListed
    requires p in s.providers && p.enabled && p.zone == k.1
    requires Next(Landed(s, k, reply), Wait(seconds), t)
    ensures Sends(t, k.0, p) <==> seconds >= 300 && !Warm(t, k.0) && !RotatedOut(t, p.zone)
  {
  }

  /** After a flush nothing is blocked and everyone is in rotation; off or unreachable, nothing is blocked either. */
  lemma SwitchesDo(s: State, step: Step, t: State, name: Name, zone: Zone)
    requires Next(s, step, t)
    ensures step.Flush? || step.Configure? ==> !Blocks(t, name) && !RotatedOut(t, zone)
    ensures step.Configure? ==> (Consulted(t, name) <==> step.on && s.reachable && name != [])
    ensures step.Reach? ==> (Consulted(t, name) <==> s.enabled && step.up && name != [])
    ensures step.Reach? && step.up && s.reachable ==> (Blocks(t, name) <==> Blocks(s, name))
  {
  }

  /** Asking sends nothing for any other name, and nothing at all while switched off or unreachable. */
  lemma AskSendsNoMore(s: State, name: Name, t: State, k: Key)
    requires Next(s, Ask(name), t) && k in t.inflight && k !in s.inflight
    ensures k.0 == name != [] && s.enabled && s.reachable
    ensures exists p :: p in s.providers && p.enabled && p.zone == k.1 && (k.1 in s.rotated ==> s.rotated[k.1] <= s.now)
  {
    var p :| Sends(s, name, p) && p.zone == k.1 && t.inflight[k] == FillFor(p);
  }

  /** Asking sends a lookup to every enabled provider in rotation that has nothing to say, unless one says listed. */
  lemma AskLooksUp(s: State, name: Name, t: State, p: Provider)
    requires Next(s, Ask(name), t) && s.enabled && s.reachable && name != []
    requires forall o :: o in s.providers && o.enabled && (name, o.zone) in s.cache ==>
      s.cache[(name, o.zone)].expires <= s.now || !s.cache[(name, o.zone)].listed
    requires p in s.providers && p.enabled && ((name, p.zone) in s.cache ==> s.cache[(name, p.zone)].expires <= s.now)
    requires p.zone in s.rotated ==> s.rotated[p.zone] <= s.now
    ensures (name, p.zone) in t.inflight
  {
    if (name, p.zone) !in s.inflight {
      assert !Warm(s, name);
      assert Sends(s, name, p);
    }
  }

  // ---- a refusal is not a listing ----

  /** A refused or failed lookup leaves the cache and every verdict, now and later, as it was. */
  lemma RefusalIsInert(s: State, k: Key, reply: Reply, name: Name, later: nat)
    requires k in s.inflight && Classify(reply, s.inflight[k].refusals) in {Refused, Unknown}
    ensures Landed(s, k, reply).cache == s.cache
    ensures Blocks(Landed(s, k, reply).(now := later), name) == Blocks(s.(now := later), name)
  {
  }

  /** Every listing in the cache was read from a non-empty answer no current provider of that zone calls a refusal. */
  ghost predicate Sound(s: State) {
    forall k, p :: k in s.cache && s.cache[k].listed && p in s.providers && p.zone == k.1 ==>
      s.cache[k].codes != [] && !Complains(s.cache[k].codes, p.refusals)
  }

  /** An answer sent for under other settings than today's, and read by those. */
  predicate Misread(s: State, step: Step) {
    step.Land? && step.key in s.inflight && Classify(step.reply, s.inflight[step.key].refusals) == Listed &&
    exists p :: p in s.providers && p.zone == step.key.1 && Classify(step.reply, p.refusals) == Refused
  }

  lemma LandKeepsSoundIff(s: State, k: Key, reply: Reply)
    requires Sound(s) && k in s.inflight
    ensures Sound(Landed(s, k, reply)) <==> !Misread(s, Land(k, reply))
  {
  }

  lemma StepKeepsSoundIff(s: State, step: Step, t: State)
    requires Sound(s) && Next(s, step, t)
    ensures Sound(t) <==> !Misread(s, step)
  {
    if step.Land? {
      LandKeepsSoundIff(s, step.key, step.reply);
    }
  }

  predicate Matches(f: Fill, zone: Zone, providers: seq<Provider>) {
    forall p :: p in providers && p.zone == zone ==> f.refusals == p.refusals
  }

  /** The lookups under way were sent with the settings their zone still has. */
  ghost predicate Current(inflight: map<Key, Fill>, providers: seq<Provider>) {
    forall k :: k in inflight ==> Matches(inflight[k], k.1, providers)
  }

  /** One zone, one set of refusal codes. */
  predicate Consistent(providers: seq<Provider>) {
    forall p, q :: p in providers && q in providers && p.zone == q.zone ==> p.refusals == q.refusals
  }

  lemma AskKeepsCurrent(s: State, name: Name, t: State)
    requires Asked(s, name, t) && Consistent(s.providers) && Current(s.inflight, s.providers)
    ensures t.providers == s.providers && Current(t.inflight, t.providers)
  {
    forall k | k in t.inflight && k !in s.inflight ensures Matches(t.inflight[k], k.1, s.providers) {
      assert SentTo(s, name, k.1, t.inflight[k]);
    }
  }

  lemma CurrentAfter(s: State, step: Step, t: State)
    requires Next(s, step, t) && Consistent(s.providers) && Current(s.inflight, s.providers) && !step.Configure?
    ensures t.providers == s.providers && Current(t.inflight, t.providers)
  {
    if step.Ask? {
      AskKeepsCurrent(s, step.name, t);
    } else {
      assert t.inflight == if step.Land? then s.inflight - {step.key} else s.inflight;
    }
  }

  lemma CurrentStep(s: State, step: Step, t: State)
    requires Sound(s) && Next(s, step, t)
    requires Consistent(s.providers) && Current(s.inflight, s.providers)
    requires step.Configure? ==> Consistent(step.list) && Current(s.inflight, step.list)
    ensures Sound(t) && Consistent(t.providers) && Current(t.inflight, t.providers)
  {
    if !step.Configure? {
      StepKeepsSoundIff(s, step, t);
      CurrentAfter(s, step, t);
    }
  }

  /** An enabled provider gave an answer for the name that it would today itself call a listing. */
  predicate ListedBy(s: State, name: Name, p: Provider) {
    var k := (name, p.zone);
    p in s.providers && p.enabled && k in s.cache && Classify(Codes(s.cache[k].codes, 0), p.refusals) == Listed
  }

  /** While the cache is sound a blocked name is a listed one. */
  lemma BlockedIsListed(s: State, name: Name)
    requires Sound(s) && Blocks(s, name)
    ensures exists p :: ListedBy(s, name, p)
  {
    var p :| p in s.providers && p.enabled && Counts(s, (name, p.zone));
    assert ListedBy(s, name, p);
  }

  /**
   * Over every run that never changes a zone's codes under a lookup, no refusal ever blocks a name: whatever is blocked
   * is listed by the provider's own codes.
   */
  lemma {:induction false} RefusalNeverBlocks(h: seq<State>, steps: seq<Step>, n: nat)
    requires Run(h, steps) && n < |h|
    requires h[0].cache == map[] && h[0].inflight == map[] && Consistent(h[0].providers)
    requires forall i :: 0 <= i < |steps| && steps[i].Configure? ==>
      Consistent(steps[i].list) && Current(h[i].inflight, steps[i].list)
    ensures Sound(h[n]) && Consistent(h[n].providers) && Current(h[n].inflight, h[n].providers)
    ensures forall name :: Blocks(h[n], name) ==> exists p :: ListedBy(h[n], name, p)
  {
    if n > 0 {
      RefusalNeverBlocks(h, steps, n - 1);
      assert Next(h[n - 1], steps[n - 1], h[n]);
      CurrentStep(h[n - 1], steps[n - 1], h[n]);
    }
    forall name | Blocks(h[n], name) ensures exists p :: ListedBy(h[n], name, p) {
      BlockedIsListed(h[n], name);
    }
  }

  /** And when the codes do change under a lookup: the late answer is a refusal today, and blocks the name. */
  lemma LateRefusalBlocks(name: Name, zone: Zone, code: Code)
    requires name != []
    ensures exists h: seq<State>, steps ::
      Run(h, steps) && h[0].cache == map[] && h[0].inflight == map[] && |h| == 4 &&
      steps[2] == Land((name, zone), Codes([code], 60)) &&
      h[2].providers == [Provider(zone, true, {code}, 3600)] && Blocks(h[3], name)
  {
    var p, q := Provider(zone, true, {}, 3600), Provider(zone, true, {code}, 3600);
    var key, reply := (name, zone), Codes([code], 60);
    var h0 := State(true, true, [p], map[], map[], map[], 0);
    var h1 := h0.(inflight := map[key := Fill({}, 3600)]);
    var h2 := h1.(providers := [q]);
    var h3 := Landed(h2, key, reply);
    var h, steps := [h0, h1, h2, h3], [Ask(name), Configure(true, [q]), Land(key, reply)];
    assert Sends(h0, name, p);
    assert Asked(h0, name, h1);
    assert Next(h2, steps[2], h3);
    assert q in h3.providers && Counts(h3, key);
    assert Run(h, steps);
  }

  // ---- rotation ----

  /** Until `until`, `zone` is out. */
  predicate Held(s: State, zone: Zone, until: nat) {
    s.now < until ==> zone in s.rotated && s.rotated[zone] >= until
  }

  /** What lets a provider back early: a flush, a reconfiguration, or a later refusal with a shorter cooldown. */
  predicate LetsBack(s: State, step: Step, zone: Zone, until: nat) {
    s.now < until &&
    match step
    case Flush => true
    case Configure(_, _) => true
    case Land(k, reply) => k in s.inflight && k.1 == zone && Classify(reply, s.inflight[k].refusals) == Refused &&
                           s.now + s.inflight[k].cooldown < until
    case _ => false
  }

  lemma StepKeepsHeldIff(s: State, step: Step, t: State, zone: Zone, until: nat)
    requires Held(s, zone, until) && Next(s, step, t)
    ensures Held(t, zone, until) <==> !LetsBack(s, step, zone, until)
  {
  }

  lemma SendsOnlyInRotation(s: State, step: Step, t: State, zone: Zone, until: nat)
    requires Held(s, zone, until) && Next(s, step, t)
    ensures forall k :: k in t.inflight && k !in s.inflight && k.1 == zone ==> s.now >= until
  {
    forall k | k in t.inflight && k !in s.inflight && k.1 == zone ensures s.now >= until {
      assert step.Ask? && SentTo(s, step.name, k.1, t.inflight[k]);
    }
  }

  /** From a refusal on, every lookup sent to that provider is sent after its cooldown. */
  lemma {:induction false} NoLookupWhileOut(h: seq<State>, steps: seq<Step>, zone: Zone, until: nat, n: nat)
    requires Run(h, steps) && Held(h[0], zone, until) && n < |h|
    requires forall i :: 0 <= i < |steps| ==> !LetsBack(h[i], steps[i], zone, until)
    ensures Held(h[n], zone, until)
    ensures n > 0 ==> forall k :: k in h[n].inflight && k !in h[n - 1].inflight && k.1 == zone ==> h[n - 1].now >= until
  {
    if n > 0 {
      NoLookupWhileOut(h, steps, zone, until, n - 1);
      var s, step, t := h[n - 1], steps[n - 1], h[n];
      assert Next(s, step, t);
      StepKeepsHeldIff(s, step, t, zone, until);
      SendsOnlyInRotation(s, step, t, zone, until);
    }
  }

  lemma RefusalHolds(s: State, k: Key, reply: Reply)
    requires k in s.inflight && Classify(reply, s.inflight[k].refusals) == Refused
    ensures Held(Landed(s, k, reply), k.1, s.now + s.inflight[k].cooldown)
  {
  }

  // ---- the checker ----

  datatype CachedVerdict = Hit(listed: bool) | StalePositive | Miss

  class Checker {
    var enabled: bool
    var reachable: bool
    var providers: seq<Provider>
    var cache: map<Key, Entry>
    var inflight: map<Key, Fill>
    var rotated: map<Zone, nat>
    var now: nat

    ghost function View(): State
      reads this
    {
      State(enabled, reachable, providers, cache, inflight, rotated, now)
    }

    method Cached(k: Key) returns (v: CachedVerdict)
      modifies `cache
      ensures cache == if Fresh(old(View()), k) || Counts(old(View()), k) then old(cache) else old(cache) - {k}
      ensures v.Hit? <==> Fresh(old(View()), k)
      ensures v.Hit? ==> v.listed == old(cache)[k].listed
      ensures v.StalePositive? <==> Counts(old(View()), k) && !Fresh(old(View()), k)
    {
      v := Miss;
      if k in cache {
        if cache[k].expires > now {
          v := Hit(cache[k].listed);
        } else if cache[k].listed && now < cache[k].expires + StaleGrace {
          v := StalePositive;
        } else {
          cache := cache - {k};
        }
      }
    }

    method OutOfRotation(zone: Zone) returns (out: bool)
      modifies `rotated
      ensures out <==> RotatedOut(old(View()), zone)
      ensures rotated == if out then old(rotated) else old(rotated) - {zone}
    {
      out := zone in rotated && rotated[zone] > now;
      if !out {
        rotated := rotated - {zone};
      }
    }

    /** First pass, over the cache alone: stops at a warm listing, else collects what is due a lookup. */
    method Consult(name: Name) returns (warm: bool, stale: bool, misses: seq<Provider>)
      modifies `cache
      ensures CachePruned(old(View()), cache)
      ensures warm <==> Warm(old(View()), name)
      ensures !warm ==> (stale <==> exists p :: p in providers && p.enabled && Counts(old(View()), (name, p.zone)))
      ensures !warm ==> forall p :: p in misses <==> p in providers && p.enabled && !Fresh(old(View()), (name, p.zone))
    {
      ghost var s := View();
      warm, stale, misses := false, false, [];
      for i := 0 to |providers|
        invariant CachePruned(s, cache)
        invariant forall p :: p in providers[..i] && p.enabled && Fresh(s, (name, p.zone)) ==>
          !s.cache[(name, p.zone)].listed
        invariant stale <==> exists p :: p in providers[..i] && p.enabled && Counts(s, (name, p.zone))
        invariant forall p :: p in misses <==> p in providers[..i] && p.enabled && !Fresh(s, (name, p.zone))
      {
        var p := providers[i];
        assert providers[..i + 1] == providers[..i] + [p];
        if p.enabled {
          var v := Cached((name, p.zone));
          if v == Hit(true) {
            assert Warm(s, name);
            return true, stale, misses;
          }
          stale := stale || v.StalePositive?;
          misses := if v.Hit? then misses else misses + [p];
        }
      }
      assert providers[..|providers|] == providers;
    }

    /** Second pass: one lookup per key not already under way, rotated-out zones skipped. */
    method Send(name: Name, misses: seq<Provider>)
      modifies `inflight, `rotated
      ensures RotationPruned(old(View()), rotated)
      ensures forall k :: k in old(inflight) ==> k in inflight && inflight[k] == old(inflight)[k]
      ensures forall p :: p in misses && !RotatedOut(old(View()), p.zone) ==> (name, p.zone) in inflight
      ensures forall k :: k in inflight && k !in old(inflight) ==> k.0 == name
      ensures forall k :: k in inflight && k !in old(inflight) ==>
        exists p :: p in misses && p.zone == k.1 && !RotatedOut(old(View()), p.zone) && inflight[k] == FillFor(p)
    {
      ghost var s := View();
      for i := 0 to |misses|
        invariant RotationPruned(s, rotated)
        invariant forall k :: k in s.inflight ==> k in inflight && inflight[k] == s.inflight[k]
        invariant forall p :: p in misses[..i] && !RotatedOut(s, p.zone) ==> (name, p.zone) in inflight
        invariant forall k :: k in inflight && k !in s.inflight ==> k.0 == name
        invariant forall k :: k in inflight && k !in s.inflight ==>
          exists p :: p in misses && p.zone == k.1 && !RotatedOut(s, p.zone) && inflight[k] == FillFor(p)
      {
        var p := misses[i];
        assert misses[..i + 1] == misses[..i] + [p];
        var out := OutOfRotation(p.zone);
        if !out && (name, p.zone) !in inflight {
          inflight := inflight[(name, p.zone) := FillFor(p)];
        }
      }
      assert misses[..|misses|] == misses;
    }

    method IsNameListed(name: Name) returns (listed: bool)
      modifies `cache, `inflight, `rotated
      ensures listed <==> Blocks(old(View()), name)
      ensures Next(old(View()), Ask(name), View())
    {
      if !enabled || !reachable || name == [] {
        return false;
      }
      ghost var s := View();
      var warm, stale, misses := Consult(name);
      if warm {
        return true;
      }
      Send(name, misses);
      forall k | k in inflight && k !in s.inflight ensures SentTo(s, name, k.1, inflight[k]) {
        var p :| p in misses && p.zone == k.1 && !RotatedOut(s, p.zone) && inflight[k] == FillFor(p);
        assert Sends(s, name, p);
      }
      return stale;
    }

    /** The end of a background lookup. */
    method Complete(k: Key, reply: Reply)
      requires k in inflight
      modifies `cache, `inflight, `rotated
      ensures View() == Landed(old(View()), k, reply)
    {
      match Classify(reply, inflight[k].refusals) {
        case Listed => cache := cache[k := Entry(true, now + reply.ttl, reply.codes)];
        case NotListed => cache := cache[k := Entry(false, now + NegativeTtl, [])];
        case Refused => rotated := rotated[k.1 := now + inflight[k].cooldown];
        case Unknown =>
      }
      inflight := inflight - {k};
    }

    /** The whole check: an exempt name is neither blocked nor looked up anywhere. */
    method Gate(name: Name, allow: set<Name>, local: bool) returns (blocked: bool)
      modifies `cache, `inflight, `rotated
      ensures (exists z :: z in allow && InZone(name, z) && (z == [] ==> name == [])) ==>
        !blocked && View() == old(View())
      ensures !(exists z :: z in allow && InZone(name, z) && (z == [] ==> name == [])) ==>
        (blocked <==> local || Blocks(old(View()), name))
      ensures local ==> View() == old(View())
    {
      var exempt := Allowlisted(name, allow);
      if exempt {
        return false;
      }
      if local {
        return true;
      }
      blocked := IsNameListed(name);
    }
  }
}
