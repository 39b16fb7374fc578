/**
 * Forwarders over whole runs: queries of both modes in flight side by side, lists re-pushed in between, time passing.
 * A breaker is known by a number here, so that lists holding one breaker and lists holding two can be told apart.
 */
module BreakerRuns {
  import opened Basics
  import opened Breaker

  type Id = nat
  type Slot = Forwarder<Id>
  type Line = seq<Slot>

  /** A query under way: it keeps the list it started on. `skipping` is the `auto` chain's. */
  datatype Walk = Walk(line: Line, at: nat, skipping: bool, waiting: bool)

  datatype World = World(
    secure: Line, configured: Line, fallback: Line, health: map<Id, Status>, walks: map<nat, Walk>, now: nat)

  datatype Step =
    | StartAuto(q: nat, tier: Preference)
    | StartForward(q: nat)
    | Look(q: nat)
    | Land(q: nat, reply: Reply)
    | Push(incoming: Line)
    | Wait(ms: nat)

  function HealthOf(w: World, id: Id): Status {
    if id in w.health then w.health[id] else Clean
  }

  function TierOf(w: World, p: Preference): Line {
    Tier(w.secure + w.configured + w.fallback, p)
  }

  /** The next forwarder of a query is passed over if its breaker is open, or asked. */
  function Looked(w: World, q: nat): World
    requires q in w.walks
  {
    var k := w.walks[q];
    if k.waiting then w
    else if k.at >= |k.line| then w.(walks := w.walks - {q})
    else if k.skipping && !Usable(HealthOf(w, k.line[k.at].health), w.now) then
      w.(walks := w.walks[q := k.(at := k.at + 1)])
    else w.(walks := w.walks[q := k.(waiting := true)])
  }

  /** Its reply, or the lack of one, is recorded on the breaker it was asked under. */
  function Landed(w: World, q: nat, reply: Reply): World
    requires q in w.walks
  {
    var k := w.walks[q];
    if !k.waiting || k.at >= |k.line| then w
    else
      var id := k.line[k.at].health;
      var w' := w.(health := w.health[id := Record(HealthOf(w, id), Exchange(reply != NoReply, w.now))]);
      if (if k.skipping then reply == Definitive else reply != NoReply) then w'.(walks := w.walks - {q})
      else w'.(walks := w.walks[q := k.(at := k.at + 1, waiting := false)])
  }

  function Do(w: World, s: Step): World {
    match s
    case StartAuto(q, p) => if q in w.walks then w else w.(walks := w.walks[q := Walk(TierOf(w, p), 0, true, false)])
    case StartForward(q) => if q in w.walks then w else w.(walks := w.walks[q := Walk(w.configured, 0, false, false)])
    case Look(q) => if q in w.walks then Looked(w, q) else w
    case Land(q, reply) => if q in w.walks then Landed(w, q, reply) else w
    case Push(incoming) =>
      if Repush(w.configured, incoming) then w.(configured := Carry(w.configured, incoming)) else w
    case Wait(ms) => w.(now := w.now + ms)
  }

  function Run(w: World, steps: seq<Step>): World
    decreases |steps|
  {
    if steps == [] then w else Run(Do(w, steps[0]), steps[1..])
  }

  /** The same run without its re-pushes. */
  function Quieted(steps: seq<Step>): seq<Step> {
    if steps == [] then []
    else if steps[0].Push? then Quieted(steps[1..])
    else [steps[0]] + Quieted(steps[1..])
  }

  /** What an `auto` query would now ask and what it would skip, in order. */
  function Decisions(w: World, p: Preference): seq<(string, bool)> {
    var tier := TierOf(w, p);
    seq(|tier|, i requires 0 <= i < |tier| => (tier[i].ident, Usable(HealthOf(w, tier[i].health), w.now)))
  }

  // ---- what one `auto` query does ----

  predicate Holds(line: Line, id: Id) {
    exists i :: 0 <= i < |line| && line[i].health == id
  }

  ghost predicate OwnBreakers(line: Line) {
    forall i, j :: 0 <= i < j < |line| ==> line[i].health != line[j].health
  }

  predicate Open(w: World, line: Line, i: nat)
    requires i < |line|
  {
    !Usable(HealthOf(w, line[i].health), w.now)
  }

  /** The first forwarder from `at` on that is usable and replies definitively. */
  function FirstDefinitive(w: World, line: Line, at: nat, replies: seq<Reply>): Option<nat>
    requires at <= |line| == |replies|
    decreases |line| - at
  {
    if at == |line| then None
    else if !Open(w, line, at) && replies[at] == Definitive then Some(at)
    else FirstDefinitive(w, line, at + 1, replies)
  }

  function Due(w: World, line: Line, i: nat, reply: Reply, winner: Option<nat>): Status
    requires i < |line|
  {
    var was := HealthOf(w, line[i].health);
    if Tried(!Open(w, line, i), i, winner) then Record(was, Exchange(reply != NoReply, w.now)) else was
  }

  /** What the query leaves: each usable forwarder from `at` to the winner recorded once, everything else as it was. */
  ghost predicate Recorded(w: World, t: World, line: Line, at: nat, replies: seq<Reply>, winner: Option<nat>)
    requires at <= |line| == |replies|
  {
    && (forall i :: at <= i < |line| ==> HealthOf(t, line[i].health) == Due(w, line, i, replies[i], winner))
    && forall id :: !Holds(line[at..], id) ==> HealthOf(t, id) == HealthOf(w, id)
  }

  /** One look at the next forwarder, and its reply if it was asked. */
  function OneTry(w: World, q: nat, line: Line, at: nat, reply: Reply): seq<Step>
    requires at < |line|
  {
    if Open(w, line, at) then [Look(q)] else [Look(q), Land(q, reply)]
  }

  /** The world after it: the query gone if that settled it, else at the next forwarder. */
  lemma TryDoes(w: World, q: nat, line: Line, at: nat, reply: Reply)
    requires at < |line| && q in w.walks && w.walks[q] == Walk(line, at, true, false)
    ensures var t, id := Run(w, OneTry(w, q, line, at, reply)), line[at].health;
      && t == w.(health := t.health, walks := t.walks)
      && t.walks == (if !Open(w, line, at) && reply == Definitive then w.walks - {q}
                     else w.walks[q := Walk(line, at + 1, true, false)])
      && t.health == if Open(w, line, at) then w.health
                     else w.health[id := Record(HealthOf(w, id), Exchange(reply != NoReply, w.now))]
  {
    var looked := Do(w, Look(q));
    assert [Look(q)][1..] == [];
    assert [Look(q), Land(q, reply)][1..] == [Land(q, reply)] && [Land(q, reply)][1..] == [];
    if !Open(w, line, at) {
      assert looked.walks[q] == Walk(line, at, true, true);
      var t := Do(looked, Land(q, reply));
      assert Run(looked, [Land(q, reply)]) == t;
      assert t.walks == if reply == Definitive then w.walks - {q} else w.walks[q := Walk(line, at + 1, true, false)];
    }
  }

  /** A forwarder tried without settling the query, and then the rest. */
  lemma RecordedMore(w: World, m: World, t: World, line: Line, at: nat, replies: seq<Reply>)
    requires at < |line| == |replies| && OwnBreakers(line) && m.now == w.now
    requires Open(w, line, at) || replies[at] != Definitive
    requires var id := line[at].health;
      m.health == if Open(w, line, at) then w.health
                  else w.health[id := Record(HealthOf(w, id), Exchange(replies[at] != NoReply, w.now))]
    requires Recorded(m, t, line, at + 1, replies, FirstDefinitive(m, line, at + 1, replies))
    ensures Recorded(w, t, line, at, replies, FirstDefinitive(w, line, at, replies))
  {
    assert forall i :: at < i < |line| ==> line[i].health != line[at].health;
    SameAhead(w, m, line, at + 1, replies);
    var winner := FirstDefinitive(w, line, at, replies);
    FirstDefinitiveIs(m, line, at + 1, replies);
    assert !Holds(line[at + 1..], line[at].health);
    assert HealthOf(t, line[at].health) == Due(w, line, at, replies[at], winner);
    forall i | at < i < |line| ensures HealthOf(t, line[i].health) == Due(w, line, i, replies[i], winner) {
      assert Due(m, line, i, replies[i], winner) == Due(w, line, i, replies[i], winner);
    }
    forall id | !Holds(line[at..], id) ensures HealthOf(t, id) == HealthOf(w, id) {
      assert line[at..] == [line[at]] + line[at + 1..];
      assert !Holds(line[at + 1..], id);
    }
  }

  lemma {:induction false} AutoWalks(w: World, q: nat, line: Line, at: nat, replies: seq<Reply>)
    returns (steps: seq<Step>)
    requires at <= |line| == |replies| && OwnBreakers(line)
    requires q in w.walks && w.walks[q] == Walk(line, at, true, false)
    ensures var t := Run(w, steps);
      t.walks == w.walks - {q} && Recorded(w, t, line, at, replies, FirstDefinitive(w, line, at, replies))
    decreases |line| - at
  {
    if at == |line| {
      steps := [Look(q)];
      assert steps[1..] == [];
    } else {
      var first := OneTry(w, q, line, at, replies[at]);
      var m := Run(w, first);
      TryDoes(w, q, line, at, replies[at]);
      assert forall i :: at < i < |line| ==> line[i].health != line[at].health;
      if !Open(w, line, at) && replies[at] == Definitive {
        steps := first;
      } else {
        SameAhead(w, m, line, at + 1, replies);
        var rest := AutoWalks(m, q, line, at + 1, replies);
        steps := first + rest;
        RunConcat(w, first, rest);
        RecordedMore(w, m, Run(w, steps), line, at, replies);
      }
    }
  }

  /** Breakers not yet reached say what they said. */
  lemma {:induction false} SameAhead(w: World, m: World, line: Line, at: nat, replies: seq<Reply>)
    requires at <= |line| == |replies| && m.now == w.now
    requires forall i :: at <= i < |line| ==> HealthOf(m, line[i].health) == HealthOf(w, line[i].health)
    ensures FirstDefinitive(m, line, at, replies) == FirstDefinitive(w, line, at, replies)
    ensures forall i :: at <= i < |line| ==> Open(m, line, i) == Open(w, line, i)
    decreases |line| - at
  {
    if at < |line| {
      SameAhead(w, m, line, at + 1, replies);
    }
  }

  lemma {:induction false} FirstDefinitiveIs(w: World, line: Line, at: nat, replies: seq<Reply>)
    requires at <= |line| == |replies|
    ensures var winner := FirstDefinitive(w, line, at, replies);
      && (winner.Some? ==>
            at <= winner.value < |line| && !Open(w, line, winner.value) && replies[winner.value] == Definitive)
      && forall i :: at <= i < |line| && (winner.None? || i < winner.value) ==>
           Open(w, line, i) || replies[i] != Definitive
    decreases |line| - at
  {
    if at < |line| {
      FirstDefinitiveIs(w, line, at + 1, replies);
    }
  }

  /**
   * An `auto` query undisturbed is `tier_forward` on its tier: it passes over open breakers, ends at the first
   * definitive reply, and records exactly the forwarders it asked, by whether a reply came.
   */
  lemma AutoQueryIsTierForward(w: World, q: nat, p: Preference, replies: seq<Reply>)
    returns (steps: seq<Step>, winner: Option<nat>)
    requires q !in w.walks && |replies| == |TierOf(w, p)| && OwnBreakers(TierOf(w, p))
    ensures var t, tier := Run(w, steps), TierOf(w, p);
      && t.walks == w.walks && Recorded(w, t, tier, 0, replies, winner)
      && (winner.Some? ==>
            && winner.value < |tier| && replies[winner.value] == Definitive
            && Usable(HealthOf(w, tier[winner.value].health), w.now))
      && forall i :: 0 <= i < |tier| && (winner.None? || i < winner.value) ==>
           !Usable(HealthOf(w, tier[i].health), w.now) || replies[i] != Definitive
  {
    var tier := TierOf(w, p);
    var started := Do(w, StartAuto(q, p));
    var rest := AutoWalks(started, q, tier, 0, replies);
    steps, winner := [StartAuto(q, p)] + rest, FirstDefinitive(started, tier, 0, replies);
    assert steps[1..] == rest;
    FirstDefinitiveIs(started, tier, 0, replies);
    assert started.walks - {q} == w.walks;
    SameAhead(w, started, tier, 0, replies);
  }

  /** A reply nobody is waiting for changes nothing. */
  lemma UnaskedReplyIsIgnored(w: World, q: nat, reply: Reply)
    requires q in w.walks ==> !w.walks[q].waiting
    ensures Do(w, Land(q, reply)) == w
  {
  }

  /** As time passes an `auto` query would skip a forwarder until its cooldown is over, and no longer. */
  lemma CooldownPasses(w: World, p: Preference, i: nat, ms: nat)
    requires i < |TierOf(w, p)|
    ensures var f, until := TierOf(w, p)[i], HealthOf(w, TierOf(w, p)[i].health).openUntil;
      Decisions(Do(w, Wait(ms)), p)[i] == (f.ident, until == 0 || w.now + ms >= until)
  {
  }

  // ---- when re-pushes are invisible ----

  /** Every forwarder is parsed with a breaker of its own, and only `carry_health` shares one, by label in one list. */
  ghost predicate WellFormed(w: World) {
    && (forall id :: !(Holds(w.secure, id) && Holds(w.configured, id)))
    && (forall id :: !(Holds(w.fallback, id) && Holds(w.configured, id)))
    && (forall x, y :: x in w.configured && y in w.configured && x.health == y.health ==> x.ident == y.ident)
  }

  /** A world as it is first programmed, every forwarder with a breaker of its own. */
  lemma ProgrammedIsWellFormed(w: World)
    requires OwnBreakers(w.secure + w.configured + w.fallback)
    ensures WellFormed(w)
  {
    var all, m, n := w.secure + w.configured + w.fallback, |w.secure|, |w.secure| + |w.configured|;
    assert forall i :: 0 <= i < m ==> all[i] == w.secure[i];
    assert forall i :: 0 <= i < |w.configured| ==> all[m + i] == w.configured[i];
    assert forall i :: 0 <= i < |w.fallback| ==> all[n + i] == w.fallback[i];
  }

  /** Forwarders of one label share a breaker, as far as the `auto` chain can see: a secure one hides the rest. */
  ghost predicate VisiblyCoherent(w: World) {
    forall x, y :: x in w.configured && y in w.configured && x.ident == y.ident && !Known(w.secure, x.ident) ==>
      x.health == y.health
  }

  /** The breakers that matter to a tier: all but those of hidden forwarders. */
  ghost predicate Seen(o: World, id: Id) {
    Holds(o.secure, id) || Holds(o.fallback, id) ||
    exists i :: 0 <= i < |o.configured| && o.configured[i].health == id && !Known(o.secure, o.configured[i].ident)
  }

  /** A slot of the list as it was, or a hidden one with whatever unseen breaker. */
  ghost predicate SlotOf(o: World, i: nat, x: Slot) {
    && i < |o.configured|
    && x.ident == o.configured[i].ident && x.preference == o.configured[i].preference
    && if Known(o.secure, x.ident) then !Seen(o, x.health) else x == o.configured[i]
  }

  ghost predicate LineOf(o: World, line: Line) {
    |line| == |o.configured| && forall i :: 0 <= i < |line| ==> SlotOf(o, i, line[i])
  }

  ghost predicate SameWalk(o: World, a: Walk, b: Walk) {
    && a.at == b.at && a.skipping == b.skipping && a.waiting == b.waiting
    && if a.skipping then a.line == b.line && forall i :: 0 <= i < |a.line| ==> Seen(o, a.line[i].health)
       else LineOf(o, a.line) && LineOf(o, b.line)
  }

  /** The lists as they were, but for hidden breakers; the tiers exactly as they were. */
  ghost predicate ListsOf(o: World, secure: Line, configured: Line, fallback: Line) {
    && secure == o.secure && fallback == o.fallback && LineOf(o, configured)
    && forall p :: Tier(secure + configured + fallback, p) == TierOf(o, p)
  }

  ghost predicate SameHealth(o: World, a: map<Id, Status>, b: map<Id, Status>) {
    forall id :: Seen(o, id) ==> (id in a <==> id in b) && (id in a ==> a[id] == b[id])
  }

  ghost predicate SameWalks(o: World, a: map<nat, Walk>, b: map<nat, Walk>) {
    a.Keys == b.Keys && forall q :: q in a ==> SameWalk(o, a[q], b[q])
  }

  /** Two worlds that began as `o` and differ in hidden breakers only. */
  ghost predicate Alike(o: World, a: World, b: World) {
    && a.now == b.now
    && ListsOf(o, a.secure, a.configured, a.fallback) && ListsOf(o, b.secure, b.configured, b.fallback)
    && SameHealth(o, a.health, b.health) && SameWalks(o, a.walks, b.walks)
  }

  /** A tier holds forwarders of the list, each the first of its label. */
  lemma {:induction false} TierHoldsFirsts(fs: Line, p: Preference, f: Slot) returns (i: nat)
    requires f in Tier(fs, p)
    ensures i < |fs| && fs[i] == f && f.preference == p && !Known(fs[..i], f.ident)
  {
    var n := |fs| - 1;
    if f in Tier(fs[..n], p) {
      i := TierHoldsFirsts(fs[..n], p, f);
      assert fs[..n][..i] == fs[..i];
    } else {
      i := n;
    }
  }

  lemma TierIsSeen(o: World, p: Preference, f: Slot)
    requires f in TierOf(o, p)
    ensures Seen(o, f.health)
  {
    var all := o.secure + o.configured + o.fallback;
    var i := TierHoldsFirsts(all, p, f);
    var m, n := |o.secure|, |o.secure| + |o.configured|;
    if i < m {
      assert o.secure[i] == f;
    } else if i < n {
      assert o.configured[i - m] == f;
      assert forall k :: 0 <= k < m ==> all[..i][k] == o.secure[k];
    } else {
      assert o.fallback[i - n] == f;
    }
  }

  lemma StartsAlike(o: World)
    requires WellFormed(o) && o.walks == map[]
    ensures Alike(o, o, o)
  {
    forall i | 0 <= i < |o.configured| ensures SlotOf(o, i, o.configured[i]) {
      var x := o.configured[i];
      if Known(o.secure, x.ident) {
        assert Holds(o.configured, x.health);
        assert forall j :: 0 <= j < |o.configured| ==> o.configured[j] in o.configured;
      }
    }
  }

  lemma LookAlike(o: World, a: World, b: World, q: nat)
    requires Alike(o, a, b)
    ensures Alike(o, Do(a, Look(q)), Do(b, Look(q)))
  {
    if q in a.walks {
      assert SameWalk(o, a.walks[q], b.walks[q]);
    }
  }

  /** One breaker recorded in each world: the same one, or hidden ones. */
  lemma RecordAlike(o: World, a: map<Id, Status>, b: map<Id, Status>, x: Id, y: Id, s: Status, t: Status)
    requires SameHealth(o, a, b)
    requires if x == y then Seen(o, x) ==> s == t else !Seen(o, x) && !Seen(o, y)
    ensures SameHealth(o, a[x := s], b[y := t])
  {
  }

  lemma LandAlike(o: World, a: World, b: World, q: nat, reply: Reply)
    requires Alike(o, a, b)
    ensures Alike(o, Do(a, Land(q, reply)), Do(b, Land(q, reply)))
  {
    if q in a.walks {
      var k, l := a.walks[q], b.walks[q];
      assert SameWalk(o, k, l);
      if k.waiting && k.at < |k.line| {
        var x, y := k.line[k.at], l.line[k.at];
        if !k.skipping {
          assert SlotOf(o, k.at, x) && SlotOf(o, k.at, y);
        }
        assert x.health == y.health || (!Seen(o, x.health) && !Seen(o, y.health));
        var e := Exchange(reply != NoReply, a.now);
        RecordAlike(o, a.health, b.health, x.health, y.health,
                    Record(HealthOf(a, x.health), e), Record(HealthOf(b, y.health), e));
      }
    }
  }

  lemma StartAlike(o: World, a: World, b: World, s: Step)
    requires Alike(o, a, b) && (s.StartAuto? || s.StartForward? || s.Wait?)
    ensures Alike(o, Do(a, s), Do(b, s))
  {
    if s.StartAuto? {
      var tier := TierOf(o, s.tier);
      forall i | 0 <= i < |tier| ensures Seen(o, tier[i].health) {
        TierIsSeen(o, s.tier, tier[i]);
      }
    }
  }

  /** Under coherence a re-push gives every forwarder the `auto` chain can see its own breaker back. */
  lemma PushAlike(o: World, a: World, b: World, incoming: Line)
    requires Alike(o, a, b) && VisiblyCoherent(o)
    ensures Alike(o, Do(a, Push(incoming)), b)
  {
    if Repush(a.configured, incoming) {
      var carried := Carry(a.configured, incoming);
      forall i | 0 <= i < |carried| ensures SlotOf(o, i, carried[i]) {
        var k := FirstWithIs(a.configured, i);
        assert SlotOf(o, i, a.configured[i]) && SlotOf(o, k, a.configured[k]);
        assert o.configured[i] in o.configured && o.configured[k] in o.configured;
      }
      forall p ensures Tier(a.secure + carried + a.fallback, p) == TierOf(o, p) {
        RepushKeepsTiers(a.secure, a.configured, a.fallback, incoming, p);
        assert Tier(a.secure + a.configured + a.fallback, p) == TierOf(o, p);
      }
    }
  }

  lemma {:induction false} RunAlike(o: World, a: World, b: World, steps: seq<Step>)
    requires Alike(o, a, b) && VisiblyCoherent(o)
    ensures Alike(o, Run(a, steps), Run(b, Quieted(steps)))
    decreases |steps|
  {
    if steps != [] {
      var s, rest := steps[0], steps[1..];
      if s.Push? {
        PushAlike(o, a, b, s.incoming);
        RunAlike(o, Do(a, s), b, rest);
      } else {
        match s {
          case Look(q) => LookAlike(o, a, b, q);
          case Land(q, reply) => LandAlike(o, a, b, q, reply);
          case _ => StartAlike(o, a, b, s);
        }
        assert Quieted(steps)[1..] == Quieted(rest);
        RunAlike(o, Do(a, s), Do(b, s), rest);
      }
    }
  }

  lemma AlikeDecide(o: World, a: World, b: World, p: Preference)
    requires Alike(o, a, b)
    ensures Decisions(a, p) == Decisions(b, p)
  {
    forall f | f in TierOf(o, p) ensures Seen(o, f.health) {
      TierIsSeen(o, p, f);
    }
  }

  // ---- and when they are not ----

  lemma {:induction false} RunConcat(w: World, first: seq<Step>, second: seq<Step>)
    ensures Run(w, first + second) == Run(Run(w, first), second)
    decreases |first|
  {
    if first == [] {
      assert first + second == second;
    } else {
      RunConcat(Do(w, first[0]), first[1..], second);
      assert (first + second)[1..] == first[1..] + second;
    }
  }

  /** A forward query gets no reply from the first `j` forwarders. */
  function Failing(j: nat): seq<Step> {
    if j == 0 then [] else Failing(j - 1) + [Look(0), Land(0, NoReply)]
  }

  /** A forward query that the forwarder at `j` answers and none before it. */
  function Round(j: nat): seq<Step> {
    [StartForward(0)] + Failing(j) + [Look(0), Land(0, Indefinite)]
  }

  function Count(line: Line, id: Id): nat {
    if line == [] then 0 else Count(line[..|line| - 1], id) + if line[|line| - 1].health == id then 1 else 0
  }

  function FailTimes(s: Status, n: nat, now: nat): Status {
    if n == 0 then s else Record(FailTimes(s, n - 1, now), Exchange(false, now))
  }

  lemma {:induction false} FailTimesOpens(s: Status, n: nat, now: nat)
    ensures FailTimes(s, n, now).failures == s.failures + n
    ensures n > 0 && s.failures + n >= 3 ==> FailTimes(s, n, now).openUntil == now + 30_000
  {
    if n > 0 {
      FailTimesOpens(s, n - 1, now);
    }
  }

  /** One look and one landing, from a world with one forward query in it. */
  lemma AskOne(w: World, line: Line, at: nat, reply: Reply)
    requires w.walks == map[0 := Walk(line, at, false, false)] && at < |line|
    ensures var id := line[at].health;
      Run(w, [Look(0), Land(0, reply)]) ==
        w.(health := w.health[id := Record(HealthOf(w, id), Exchange(reply != NoReply, w.now))],
           walks := if reply == NoReply then map[0 := Walk(line, at + 1, false, false)] else map[])
  {
    var a := Do(w, Look(0));
    assert a == w.(walks := map[0 := Walk(line, at, false, true)]);
    var b := Do(a, Land(0, reply));
    assert a.walks - {0} == map[];
    assert [Look(0), Land(0, reply)][1..] == [Land(0, reply)];
    assert Run(a, [Land(0, reply)]) == b;
  }

  lemma {:induction false} FailingRuns(w: World, line: Line, j: nat, id: Id)
    requires w.walks == map[0 := Walk(line, 0, false, false)] && j <= |line|
    ensures var t := Run(w, Failing(j));
      && t == w.(health := t.health, walks := map[0 := Walk(line, j, false, false)])
      && HealthOf(t, id) == FailTimes(HealthOf(w, id), Count(line[..j], id), w.now)
  {
    if j > 0 {
      FailingRuns(w, line, j - 1, id);
      var m := Run(w, Failing(j - 1));
      RunConcat(w, Failing(j - 1), [Look(0), Land(0, NoReply)]);
      AskOne(m, line, j - 1, NoReply);
      assert line[..j][..j - 1] == line[..j - 1];
    }
  }

  lemma RoundRuns(w: World, j: nat, id: Id)
    requires w.walks == map[] && j < |w.configured|
    ensures var t := Run(w, Round(j));
      && t == w.(health := t.health)
      && HealthOf(t, id) ==
           if w.configured[j].health == id then Clean
           else FailTimes(HealthOf(w, id), Count(w.configured[..j], id), w.now)
  {
    var line := w.configured;
    var a := Do(w, StartForward(0));
    assert a.walks == map[0 := Walk(line, 0, false, false)];
    FailingRuns(a, line, j, id);
    var b := Run(a, Failing(j));
    AskOne(b, line, j, Indefinite);
    var ask := [Look(0), Land(0, Indefinite)];
    RunConcat(a, Failing(j), ask);
    assert Round(j) == [StartForward(0)] + (Failing(j) + ask);
    assert Round(j)[1..] == Failing(j) + ask;
  }

  lemma {:induction false} CountsFirst(line: Line, k: nat)
    requires k < |line|
    ensures Count(line, line[k].health) >= 1
  {
    if k < |line| - 1 {
      CountsFirst(line[..|line| - 1], k);
    }
  }

  /** Three such queries: the breaker of an earlier forwarder opens, unless it is also the one that answers. */
  lemma ThreeRounds(w: World, k: nat, j: nat)
    requires w.walks == map[] && k < j < |w.configured|
    ensures var id, t := w.configured[k].health, Run(w, Round(j) + (Round(j) + Round(j)));
      && t == w.(health := t.health)
      && (Usable(HealthOf(t, id), t.now) <==> w.configured[j].health == id)
  {
    var id := w.configured[k].health;
    var a := Run(w, Round(j));
    RoundRuns(w, j, id);
    var b := Run(a, Round(j));
    RoundRuns(a, j, id);
    RoundRuns(b, j, id);
    RunConcat(w, Round(j), Round(j) + Round(j));
    RunConcat(a, Round(j), Round(j));
    if w.configured[j].health != id {
      var n := Count(w.configured[..j], id);
      CountsFirst(w.configured[..j], k);
      FailTimesOpens(HealthOf(w, id), n, w.now);
      FailTimesOpens(HealthOf(a, id), n, w.now);
      FailTimesOpens(HealthOf(b, id), n, w.now);
    }
  }

  lemma {:induction false} FirstsAreInTier(fs: Line, i: nat)
    requires i < |fs| && !Known(fs[..i], fs[i].ident)
    ensures fs[i] in Tier(fs, fs[i].preference)
    decreases |fs|
  {
    var n := |fs| - 1;
    if i < n {
      assert fs[..n][..i] == fs[..i];
      FirstsAreInTier(fs[..n], i);
    }
  }

  ghost predicate Invisible(w: World) {
    forall steps, p :: Decisions(Run(w, steps), p) == Decisions(Run(w, Quieted(steps)), p)
  }

  predicate NoPush(steps: seq<Step>) {
    forall s :: s in steps ==> !s.Push?
  }

  lemma {:induction false} QuietAlready(steps: seq<Step>)
    requires NoPush(steps)
    ensures Quieted(steps) == steps
  {
    if steps != [] {
      QuietAlready(steps[1..]);
    }
  }

  lemma {:induction false} FailingHasNoPush(j: nat)
    ensures NoPush(Failing(j))
  {
    if j > 0 {
      FailingHasNoPush(j - 1);
    }
  }

  /** A forwarder in its tier is decided on by its breaker. */
  lemma DecidedByBreaker(a: World, b: World, p: Preference, x: Slot)
    requires TierOf(a, p) == TierOf(b, p) && x in TierOf(a, p)
    requires Usable(HealthOf(a, x.health), a.now) != Usable(HealthOf(b, x.health), b.now)
    ensures Decisions(a, p) != Decisions(b, p)
  {
    var i :| 0 <= i < |TierOf(a, p)| && TierOf(a, p)[i] == x;
    assert Decisions(a, p)[i] != Decisions(b, p)[i];
  }

  /** The re-push makes the later forwarder share the first one's breaker. */
  lemma PushShares(w: World, k: nat, j: nat)
    requires k < j < |w.configured| && w.configured[k].ident == w.configured[j].ident
    requires !Known(w.configured[..k], w.configured[k].ident)
    ensures var c := Do(w, Push(w.configured)).configured;
      |c| == |w.configured| && c[k].health == c[j].health == w.configured[k].health
  {
    var first := FirstWithIs(w.configured, j);
  }

  lemma VisibleIsInTier(w: World, k: nat)
    requires k < |w.configured|
    requires !Known(w.secure, w.configured[k].ident) && !Known(w.configured[..k], w.configured[k].ident)
    ensures w.configured[k] in TierOf(w, w.configured[k].preference)
  {
    var all, i := w.secure + w.configured + w.fallback, |w.secure| + k;
    assert all[..i] == w.secure + w.configured[..k] && all[i] == w.configured[k];
    assert !Known(all[..i], all[i].ident);
    FirstsAreInTier(all, i);
  }

  /** Two visible forwarders of one label with two breakers: a re-push and three queries tell the difference. */
  lemma IncoherenceShows(w: World, k: nat, j: nat)
    requires w.walks == map[] && k < j < |w.configured|
    requires w.configured[k].ident == w.configured[j].ident && w.configured[k].health != w.configured[j].health
    requires !Known(w.secure, w.configured[k].ident) && !Known(w.configured[..k], w.configured[k].ident)
    ensures var steps, p := [Push(w.configured)] + (Round(j) + (Round(j) + Round(j))), w.configured[k].preference;
      Decisions(Run(w, steps), p) != Decisions(Run(w, Quieted(steps)), p)
  {
    var x, rounds := w.configured[k], Round(j) + (Round(j) + Round(j));
    var steps := [Push(w.configured)] + rounds;
    var pushed := Do(w, Push(w.configured));
    PushShares(w, k, j);
    ThreeRounds(w, k, j);
    ThreeRounds(pushed, k, j);
    assert steps[1..] == rounds;
    FailingHasNoPush(j);
    QuietAlready(rounds);
    RepushKeepsTiers(w.secure, w.configured, w.fallback, w.configured, x.preference);
    VisibleIsInTier(w, k);
    DecidedByBreaker(Run(pushed, rounds), Run(w, rounds), x.preference, x);
  }

  /** The first forwarder of a label, and a later one with another breaker, wherever there are two at all. */
  lemma FirstMismatch(w: World) returns (k: nat, j: nat)
    requires !VisiblyCoherent(w)
    ensures k < j < |w.configured| && w.configured[k].ident == w.configured[j].ident
    ensures w.configured[k].health != w.configured[j].health
    ensures !Known(w.secure, w.configured[k].ident) && !Known(w.configured[..k], w.configured[k].ident)
  {
    var x, y :| x in w.configured && y in w.configured && x.ident == y.ident && !Known(w.secure, x.ident) &&
      x.health != y.health;
    var i :| 0 <= i < |w.configured| && w.configured[i] == x;
    var l :| 0 <= l < |w.configured| && w.configured[l] == y;
    k := FirstWithIs(w.configured, i);
    var k' := FirstWithIs(w.configured, l);
    assert k == k';
    j := if w.configured[k].health != x.health then i else l;
  }

  /**
   * Inserting re-pushes of the list in force anywhere in any run, queries of both modes in flight or not, changes no
   * decision to ask or to skip, if and only if the visible forwarders of one label share one breaker to begin with.
   */
  lemma RepushInvisibleIff(w: World)
    requires WellFormed(w) && w.walks == map[]
    ensures Invisible(w) <==> VisiblyCoherent(w)
  {
    if VisiblyCoherent(w) {
      StartsAlike(w);
      forall steps, p ensures Decisions(Run(w, steps), p) == Decisions(Run(w, Quieted(steps)), p) {
        RunAlike(w, w, w, steps);
        AlikeDecide(w, Run(w, steps), Run(w, Quieted(steps)), p);
      }
    } else {
      var k, j := FirstMismatch(w);
      IncoherenceShows(w, k, j);
    }
  }

  // ---- half-open ----

  /** Exchanges of one breaker as they overlap: each starts, if it is let through, and some time later finishes. */
  datatype Event = Start(at: nat) | Finish(arrived: bool, at: nat)

  function Finishes(es: seq<Event>): seq<Exchange> {
    if es == [] then []
    else
      var front, last := es[..|es| - 1], es[|es| - 1];
      if last.Finish? then Finishes(front) + [Exchange(last.arrived, last.at)] else Finishes(front)
  }

  /** The start at `i` is let through: what counts is what has finished by then. */
  predicate Admitted(es: seq<Event>, i: nat)
    requires i < |es| && es[i].Start?
  {
    Usable(After(Clean, Finishes(es[..i])), es[i].at)
  }

  lemma {:induction false} StartsRecordNothing(es: seq<Event>, i: nat, j: nat)
    requires i <= j <= |es| && forall k :: i <= k < j ==> es[k].Start?
    ensures Finishes(es[..j]) == Finishes(es[..i])
  {
    if i < j {
      StartsRecordNothing(es, i, j - 1);
      assert es[..j][..j - 1] == es[..j - 1];
    }
  }

  /**
   * A breaker that opens at `i` lets through, until something next finishes, every exchange that starts once thirty
   * seconds are over and none before. One trial goes through, then, exactly when one starts in that time.
   */
  lemma HalfOpenAdmits(es: seq<Event>, i: nat, j: nat)
    requires i < j < |es| && es[i].Finish? && forall k :: i < k <= j ==> es[k].Start?
    requires TrailingFailures(Finishes(es[..i + 1])) >= 3
    ensures Admitted(es, j) <==> es[j].at >= es[i].at + 30_000
  {
    StartsRecordNothing(es, i + 1, j);
    RefusesExactlyAfterThreeFailures(Finishes(es[..j]), es[j].at);
    assert es[..i + 1][..i] == es[..i];
  }

  /** In general a start is refused exactly when the last three to finish failed, the last within thirty seconds. */
  lemma AdmittedIff(es: seq<Event>, i: nat)
    requires i < |es| && es[i].Start?
    ensures var xs := Finishes(es[..i]);
      Admitted(es, i) <==> !(TrailingFailures(xs) >= 3 && es[i].at < xs[|xs| - 1].at + 30_000)
  {
    RefusesExactlyAfterThreeFailures(Finishes(es[..i]), es[i].at);
  }

  /** "One trial" fails with any number of exchanges that start before the first of them has finished. */
  lemma ManyTrials(n: nat, t: nat, i: nat)
    requires i < n
    ensures var fail := Finish(false, t);
      var es := [fail, fail, fail] + seq(n, _ => Start(t + 30_000));
      Admitted(es, 3 + i)
  {
    var fail := Finish(false, t);
    var es := [fail, fail, fail] + seq(n, _ => Start(t + 30_000));
    ThreeFail(es, t);
    HalfOpenAdmits(es, 2, 3 + i);
  }

  lemma ThreeFail(es: seq<Event>, t: nat)
    requires |es| >= 3 && es[..3] == [Finish(false, t), Finish(false, t), Finish(false, t)]
    ensures Finishes(es[..3]) == [Exchange(false, t), Exchange(false, t), Exchange(false, t)]
    ensures TrailingFailures(Finishes(es[..3])) == 3
  {
    var x := Exchange(false, t);
    var f := Finish(false, t);
    assert [f, f, f][..2] == [f, f] && [f, f][..1] == [f] && [f][..0] == [];
    assert Finishes([f]) == [x] && Finishes([f, f]) == [x, x];
    assert [x, x, x][..2] == [x, x] && [x, x][..1] == [x] && [x][..0] == [];
    assert TrailingFailures([x]) == 1 && TrailingFailures([x, x]) == 2;
  }

  /** A reply that was on its way when the breaker opened closes it again, cooldown or not. */
  lemma LateReplyCloses(es: seq<Event>, i: nat)
    requires 0 < i < |es| && es[i].Start? && es[i - 1].Finish? && es[i - 1].arrived
    ensures Admitted(es, i)
  {
    assert es[..i][..i - 1] == es[..i - 1];
  }
}
