/** Forwarders, their circuit breakers, and what reprogramming the list does to them. */
module Breaker {
  import opened Basics

  const FailureThreshold: nat := 3
  const OpenCooldown: nat := 30_000

  // ---- one breaker ----

  /** `openUntil == 0` means closed. */
  datatype Status = Status(failures: nat, openUntil: nat)

  const Clean: Status := Status(0, 0)

  predicate Usable(s: Status, now: nat) {
    s.openUntil == 0 || now >= s.openUntil
  }

  /** What came of one exchange: whether the transport worked, and when. */
  datatype Exchange = Exchange(arrived: bool, at: nat)

  function Record(s: Status, x: Exchange): Status {
    if x.arrived then Clean
    else if s.failures + 1 >= FailureThreshold then Status(s.failures + 1, x.at + OpenCooldown)
    else s.(failures := s.failures + 1)
  }

  function After(s: Status, xs: seq<Exchange>): Status {
    if xs == [] then s else Record(After(s, xs[..|xs| - 1]), xs[|xs| - 1])
  }

  /** How many exchanges at the end of the history failed in a row. */
  function TrailingFailures(xs: seq<Exchange>): nat {
    if xs == [] || xs[|xs| - 1].arrived then 0 else 1 + TrailingFailures(xs[..|xs| - 1])
  }

  /**
   * Over every history from a clean breaker: it refuses a query exactly when the last three exchanges all
   * failed in the transport and the last of them is less than thirty seconds old. One arrived reply, whatever
   * its rcode, closes it outright.
   */
  lemma {:induction false} RefusesExactlyAfterThreeFailures(xs: seq<Exchange>, now: nat)
    ensures After(Clean, xs).failures == TrailingFailures(xs)
    ensures !Usable(After(Clean, xs), now) <==>
      TrailingFailures(xs) >= 3 && now < xs[|xs| - 1].at + 30_000
  {
    if xs != [] {
      RefusesExactlyAfterThreeFailures(xs[..|xs| - 1], now);
    }
  }

  /** Once the cooldown is over one trial decides: success closes the breaker, failure reopens it at once. */
  lemma TrialDecides(s: Status, trial: Exchange, now: nat)
    requires s.failures >= 3 && s.openUntil <= trial.at <= now < trial.at + 30_000
    ensures Usable(s, trial.at)
    ensures Usable(Record(s, trial), now) <==> trial.arrived
  {
  }

  /** Per-forwarder health, shared by every list that carries it. */
  class Health {
    var failures: nat
    var openUntil: nat

    constructor ()
      ensures View() == Clean
    {
      failures, openUntil := 0, 0;
    }

    function View(): Status
      reads this
    {
      Status(failures, openUntil)
    }

    method IsUsable(now: nat) returns (usable: bool)
      ensures usable == Usable(View(), now)
    {
      usable := openUntil == 0 || now >= openUntil;
    }

    method RecordSuccess(now: nat)
      modifies this
      ensures View() == Record(old(View()), Exchange(true, now))
    {
      failures := 0;
      openUntil := 0;
    }

    method RecordFailure(now: nat)
      modifies this
      ensures View() == Record(old(View()), Exchange(false, now))
    {
      failures := failures + 1;
      if failures >= FailureThreshold {
        openUntil := now + OpenCooldown;
      }
    }
  }

  // ---- one tier ----

  datatype Preference = Encrypted | PlaintextPrivate | PlaintextPublic

  /** A forwarder and its breaker, whatever stands for one: the shared object, or its identity. */
  datatype Forwarder<H> = Forwarder(ident: string, preference: Preference, health: H)

  datatype Reply = NoReply | Indefinite | Definitive

  ghost predicate Unshared(fs: seq<Forwarder<Health>>) {
    forall i, j :: 0 <= i < j < |fs| ==> fs[i].health != fs[j].health
  }

  /** Whether forwarder `i` was tried: usable, and not after the one that won. */
  predicate Tried(usable: bool, i: nat, winner: Option<nat>) {
    usable && (winner.None? || i <= winner.value)
  }

  /**
   * `tier_forward`: in order, past the ones whose breaker is open, until a definitive reply. Health moves only
   * for the ones tried, and by whether a reply arrived rather than by what it said.
   */
  method TierForward(fs: seq<Forwarder<Health>>, replies: seq<Reply>, now: nat) returns (winner: Option<nat>)
    requires |replies| == |fs| && Unshared(fs)
    modifies set f | f in fs :: f.health
    ensures winner.Some? ==> winner.value < |fs| && replies[winner.value] == Definitive
    ensures winner.Some? ==> old(Usable(fs[winner.value].health.View(), now))
    ensures forall i :: 0 <= i < |fs| && (winner.None? || i < winner.value) && old(Usable(fs[i].health.View(), now)) ==>
      replies[i] != Definitive
    ensures forall i :: 0 <= i < |fs| ==>
      fs[i].health.View() ==
        if Tried(old(Usable(fs[i].health.View(), now)), i, winner)
        then Record(old(fs[i].health.View()), Exchange(replies[i] != NoReply, now))
        else old(fs[i].health.View())
  {
    for i := 0 to |fs|
      invariant forall j :: i <= j < |fs| ==> fs[j].health.View() == old(fs[j].health.View())
      invariant forall j :: 0 <= j < i && old(Usable(fs[j].health.View(), now)) ==> replies[j] != Definitive
      invariant forall j :: 0 <= j < i ==>
        fs[j].health.View() ==
          if old(Usable(fs[j].health.View(), now))
          then Record(old(fs[j].health.View()), Exchange(replies[j] != NoReply, now))
          else old(fs[j].health.View())
    {
      var usable := fs[i].health.IsUsable(now);
      if usable {
        if replies[i] == NoReply {
          fs[i].health.RecordFailure(now);
        } else {
          fs[i].health.RecordSuccess(now);
          if replies[i] == Definitive {
            return Some(i);
          }
        }
      }
    }
    winner := None;
  }

  // ---- forward mode ----

  /** What one breaker has recorded once the first `n` forwarders were tried in order. */
  function Seen(s: Status, fs: seq<Forwarder<Health>>, replies: seq<Reply>, now: nat, n: nat, h: Health): Status
    requires n <= |fs| == |replies|
  {
    if n == 0 then s
    else if fs[n - 1].health != h then Seen(s, fs, replies, now, n - 1, h)
    else Record(Seen(s, fs, replies, now, n - 1, h), Exchange(replies[n - 1] != NoReply, now))
  }

  /** `forward_query`: no breaker is consulted, yet every exchange is recorded; any reply ends the query. */
  method ForwardQuery(fs: seq<Forwarder<Health>>, replies: seq<Reply>, now: nat) returns (winner: Option<nat>)
    requires |replies| == |fs|
    modifies set f | f in fs :: f.health
    ensures winner.Some? ==> winner.value < |fs| && replies[winner.value] != NoReply
    ensures forall i :: 0 <= i < (if winner.Some? then winner.value else |fs|) ==> replies[i] == NoReply
    ensures forall f :: f in fs ==>
      var tried := if winner.Some? then winner.value + 1 else |fs|;
      f.health.View() == Seen(old(f.health.View()), fs, replies, now, tried, f.health)
  {
    for i := 0 to |fs|
      invariant forall j :: 0 <= j < i ==> replies[j] == NoReply
      invariant forall f :: f in fs ==>
        f.health.View() == Seen(old(f.health.View()), fs, replies, now, i, f.health)
    {
      if replies[i] == NoReply {
        fs[i].health.RecordFailure(now);
      } else {
        fs[i].health.RecordSuccess(now);
        return Some(i);
      }
    }
    winner := None;
  }

  // ---- reprogramming ----

  function FirstWith<H>(fs: seq<Forwarder<H>>, ident: string): Option<Forwarder<H>> {
    if fs == [] then None
    else if fs[0].ident == ident then Some(fs[0])
    else FirstWith(fs[1..], ident)
  }

  /** `carry_health`: each incoming forwarder takes the health of the first existing one with its label. */
  function Carry<H>(existing: seq<Forwarder<H>>, incoming: seq<Forwarder<H>>): (r: seq<Forwarder<H>>)
    ensures |r| == |incoming|
  {
    seq(|incoming|, i requires 0 <= i < |incoming| =>
      match FirstWith(existing, incoming[i].ident)
      case None => incoming[i]
      case Some(previous) => incoming[i].(health := previous.health))
  }

  /** The same list as configured, with whatever health a fresh parse gave it. */
  predicate Repush<H>(existing: seq<Forwarder<H>>, incoming: seq<Forwarder<H>>) {
    && |incoming| == |existing|
    && forall i :: 0 <= i < |existing| ==>
         incoming[i].ident == existing[i].ident && incoming[i].preference == existing[i].preference
  }

  /** Forwarders with one label share one breaker. */
  ghost predicate Coherent<H>(fs: seq<Forwarder<H>>) {
    forall i, j :: 0 <= i < j < |fs| && fs[i].ident == fs[j].ident ==> fs[i].health == fs[j].health
  }

  lemma {:induction false} FirstWithIs<H>(fs: seq<Forwarder<H>>, i: nat) returns (k: nat)
    requires i < |fs|
    ensures k <= i && fs[k].ident == fs[i].ident && FirstWith(fs, fs[i].ident) == Some(fs[k])
    ensures forall j :: 0 <= j < k ==> fs[j].ident != fs[i].ident
  {
    if fs[0].ident == fs[i].ident {
      k := 0;
    } else {
      k := FirstWithIs(fs[1..], i - 1);
      k := k + 1;
    }
  }

  /**
   * Re-pushing an identical list reproduces it, breakers and all, exactly when forwarders of one label
   * already share a breaker; a list without repeated labels always does.
   */
  lemma RepushIsIdentityIffCoherent<H>(existing: seq<Forwarder<H>>, incoming: seq<Forwarder<H>>)
    requires Repush(existing, incoming)
    ensures Carry(existing, incoming) == existing <==> Coherent(existing)
  {
    var carried := Carry(existing, incoming);
    if Coherent(existing) {
      forall i | 0 <= i < |existing| ensures carried[i] == existing[i] {
        var k := FirstWithIs(existing, i);
      }
    }
    if carried == existing {
      forall i, j | 0 <= i < j < |existing| && existing[i].ident == existing[j].ident
        ensures existing[i].health == existing[j].health
      {
        var k := FirstWithIs(existing, i);
        var m := FirstWithIs(existing, j);
        assert carried[i] == existing[i] && carried[j] == existing[j];
      }
    }
  }

  predicate Known<H>(fs: seq<Forwarder<H>>, ident: string) {
    exists i :: 0 <= i < |fs| && fs[i].ident == ident
  }

  /** One tier of `by_preference`: of each identity the first forwarder, where it belongs to the tier. */
  function Tier<H>(fs: seq<Forwarder<H>>, p: Preference): seq<Forwarder<H>> {
    if fs == [] then []
    else
      var front, last := fs[..|fs| - 1], fs[|fs| - 1];
      if last.preference == p && !Known(front, last.ident) then Tier(front, p) + [last] else Tier(front, p)
  }

  /** `by_preference`. */
  method ByPreference<H>(fs: seq<Forwarder<H>>)
    returns (encrypted: seq<Forwarder<H>>, private: seq<Forwarder<H>>, public: seq<Forwarder<H>>)
    ensures encrypted == Tier(fs, Encrypted)
    ensures private == Tier(fs, PlaintextPrivate)
    ensures public == Tier(fs, PlaintextPublic)
  {
    encrypted, private, public := [], [], [];
    var seen: set<string> := {};
    for i := 0 to |fs|
      invariant forall ident :: ident in seen <==> Known(fs[..i], ident)
      invariant encrypted == Tier(fs[..i], Encrypted)
      invariant private == Tier(fs[..i], PlaintextPrivate)
      invariant public == Tier(fs[..i], PlaintextPublic)
    {
      var f := fs[i];
      assert fs[..i + 1][..i] == fs[..i] && fs[..i + 1][i] == f;
      KnownExtends(fs, i);
      if f.ident !in seen {
        seen := seen + {f.ident};
        match f.preference
        case Encrypted => encrypted := encrypted + [f];
        case PlaintextPrivate => private := private + [f];
        case PlaintextPublic => public := public + [f];
      }
    }
    assert fs[..|fs|] == fs;
  }

  lemma KnownExtends<H>(fs: seq<Forwarder<H>>, i: nat)
    requires i < |fs|
    ensures forall ident :: Known(fs[..i + 1], ident) <==> Known(fs[..i], ident) || ident == fs[i].ident
  {
    var shorter, longer := fs[..i], fs[..i + 1];
    assert longer[i] == fs[i];
    forall ident | Known(shorter, ident) ensures Known(longer, ident) {
      var k :| 0 <= k < |shorter| && shorter[k].ident == ident;
      assert longer[k].ident == ident;
    }
    forall ident | Known(longer, ident) ensures Known(shorter, ident) || ident == fs[i].ident {
      var k :| 0 <= k < |longer| && longer[k].ident == ident;
      assert k < i ==> shorter[k].ident == ident;
    }
  }

  /** Lists that agree on identities, and on the first forwarder of each, give the same tiers. */
  lemma {:induction false} TierReadsFirstOnly<H>(fs: seq<Forwarder<H>>, gs: seq<Forwarder<H>>, p: Preference)
    requires Repush(fs, gs)
    requires forall i :: 0 <= i < |fs| && !Known(fs[..i], fs[i].ident) ==> fs[i] == gs[i]
    ensures Tier(fs, p) == Tier(gs, p)
  {
    if fs != [] {
      var n := |fs| - 1;
      assert forall i :: 0 <= i < n ==> fs[..n][..i] == fs[..i];
      TierReadsFirstOnly(fs[..n], gs[..n], p);
      assert Known(fs[..n], fs[n].ident) <==> Known(gs[..n], gs[n].ident);
    }
  }

  /** Carrying health changes only forwarders whose identity appeared before. */
  lemma CarryChangesRepeatsOnly<H>(
    before: seq<Forwarder<H>>, existing: seq<Forwarder<H>>, incoming: seq<Forwarder<H>>, i: nat)
    requires Repush(existing, incoming) && i < |existing|
    ensures Known(before + existing[..i], existing[i].ident) || Carry(existing, incoming)[i] == existing[i]
  {
    var k := FirstWithIs(existing, i);
    if k < i {
      assert (before + existing[..i])[|before| + k].ident == existing[i].ident;
    }
  }

  /**
   * Whatever the three source lists hold, repeated identities included, re-pushing one of them unchanged
   * leaves every tier with the same forwarders and the same breakers at that moment.
   */
  lemma RepushKeepsTiers<H>(
    before: seq<Forwarder<H>>, existing: seq<Forwarder<H>>, after: seq<Forwarder<H>>,
    incoming: seq<Forwarder<H>>, p: Preference)
    requires Repush(existing, incoming)
    ensures Tier(before + Carry(existing, incoming) + after, p) == Tier(before + existing + after, p)
  {
    var fs := before + existing + after;
    var gs := before + Carry(existing, incoming) + after;
    var m := |before|;
    forall i | 0 <= i < |fs| ensures Known(fs[..i], fs[i].ident) || fs[i] == gs[i] {
      if m <= i < m + |existing| {
        CarryChangesRepeatsOnly(before, existing, incoming, i - m);
        assert fs[..i] == before + existing[..i - m];
      }
    }
    TierReadsFirstOnly(fs, gs, p);
  }

  /** The three configured lists and the tiers derived from them. */
  class ForwarderTable {
    var secure: seq<Forwarder<Health>>
    var configured: seq<Forwarder<Health>>
    var fallback: seq<Forwarder<Health>>
    var encrypted: seq<Forwarder<Health>>
    var private: seq<Forwarder<Health>>
    var public: seq<Forwarder<Health>>

    ghost predicate Valid()
      reads this
    {
      var all := secure + configured + fallback;
      && encrypted == Tier(all, Encrypted)
      && private == Tier(all, PlaintextPrivate)
      && public == Tier(all, PlaintextPublic)
    }

    constructor (secure: seq<Forwarder<Health>>, configured: seq<Forwarder<Health>>, fallback: seq<Forwarder<Health>>)
      ensures Valid()
      ensures this.secure == secure && this.configured == configured && this.fallback == fallback
    {
      this.secure, this.configured, this.fallback := secure, configured, fallback;
      encrypted, private, public := [], [], [];
      new;
      encrypted, private, public := ByPreference(secure + configured + fallback);
    }

    /**
     * `set_typed_forwarders`. Reprogramming never touches a breaker, and a re-push of the list in force
     * leaves the tiers as they were.
     */
    method SetForwarders(incoming: seq<Forwarder<Health>>)
      requires Valid()
      modifies this
      ensures Valid()
      ensures secure == old(secure) && fallback == old(fallback)
      ensures configured == Carry(old(configured), incoming)
      ensures Repush(old(configured), incoming) ==>
        encrypted == old(encrypted) && private == old(private) && public == old(public)
    {
      RepushKeepsAllTiers(secure, configured, fallback, incoming);
      configured := Carry(configured, incoming);
      encrypted, private, public := ByPreference(secure + configured + fallback);
    }
  }

  lemma RepushKeepsAllTiers<H>(
    before: seq<Forwarder<H>>, existing: seq<Forwarder<H>>, after: seq<Forwarder<H>>, incoming: seq<Forwarder<H>>)
    ensures Repush(existing, incoming) ==> forall p ::
      Tier(before + Carry(existing, incoming) + after, p) == Tier(before + existing + after, p)
  {
    if Repush(existing, incoming) {
      forall p ensures Tier(before + Carry(existing, incoming) + after, p) == Tier(before + existing + after, p) {
        RepushKeepsTiers(before, existing, after, incoming, p);
      }
    }
  }
}
