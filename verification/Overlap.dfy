/**
 * Two threads that sign one zone, as when a pass is started over gRPC while the re-sign loop runs. The in-progress
 * mark is one flag and not a count, and nothing keeps the passes apart.
 */
module Overlap {
  import opened Names
  import opened NsecChain
  import opened Denial
  import opened Resign

  /** The zone with the pass of the thread whose turn it is, and where the other thread's pass stands. */
  datatype Pair = Pair(zone: Zone, parked: Pass)

  datatype Turn = Take(step: Step) | Swap

  ghost predicate Ready(p: Pair, t: Turn) {
    t.Take? ==> Enabled(p.zone, t.step)
  }

  ghost function Go(p: Pair, t: Turn): Pair
    requires Ready(p, t)
  {
    match t
    case Take(a) => Pair(Do(p.zone, a), p.parked)
    case Swap => Pair(p.zone.(pass := p.parked), p.zone.pass)
  }

  ghost predicate ProperTurn(p: Pair, t: Turn) {
    Ready(p, t) && (t.Take? ==> Proper(p.zone, t.step))
  }

  /** A pass begins while the other is under way. */
  predicate Overlaps(p: Pair, t: Turn) {
    t == Take(Begin) && UnderWay(p.parked)
  }

  /** What must never be: the zone is served at rest, every row marked, no failure unreported, and a proof is false. */
  ghost predicate Lies(p: Pair) {
    Settled(p.zone) && !p.parked.Failed? && !TrueProofs(p.zone)
  }

  /** A run of proper turns in which no pass begins while the other is under way. */
  ghost predicate Played(p: Pair, turns: seq<Turn>, q: Pair)
    decreases |turns|
  {
    if turns == [] then q == p
    else ProperTurn(p, turns[0]) && !Overlaps(p, turns[0]) && Played(Go(p, turns[0]), turns[1..], q)
  }

  /** Some such run leads from here to a lie. */
  ghost predicate CanLie(p: Pair) {
    exists turns, q :: Played(p, turns, q) && Lies(q)
  }

  // ---- one pass at a time ----

  /** The zone as one thread would see it: with the pass that is under way, else with a failure yet to be reported. */
  function Focus(p: Pair): Zone {
    if UnderWay(p.zone.pass) then p.zone
    else if UnderWay(p.parked) then p.zone.(pass := p.parked)
    else if p.zone.pass.Failed? || p.parked.Failed? then p.zone.(pass := Failed)
    else p.zone
  }

  ghost predicate SoloInv(p: Pair) {
    && !(UnderWay(p.zone.pass) && UnderWay(p.parked))
    && !p.zone.pass.Refused? && !p.parked.Refused? && Inv(Focus(p))
  }

  /** A write or a mark does not look at the pass. */
  lemma Elsewhere(z: Zone, a: Step, pass: Pass)
    requires (IsWrite(a) || a.Mark? || a.Refresh?) && Enabled(z, a)
    ensures Enabled(z.(pass := pass), a) && Do(z.(pass := pass), a) == Do(z, a).(pass := pass)
  {
    assert Rows(z.(pass := pass)) == Rows(z);
  }

  lemma WriteIsSolo(p: Pair, a: Step)
    requires SoloInv(p) && ProperTurn(p, Take(a)) && (IsWrite(a) || a.Mark? || a.Refresh?)
    ensures SoloInv(Go(p, Take(a)))
  {
    var pass := Focus(p).pass;
    Elsewhere(p.zone, a, pass);
    StepKeepsInv(Focus(p), a);
  }

  lemma PassIsSolo(p: Pair, a: Step)
    requires SoloInv(p) && ProperTurn(p, Take(a)) && !Overlaps(p, Take(a))
    requires !IsWrite(a) && !a.Mark? && !a.Refresh?
    ensures SoloInv(Go(p, Take(a)))
  {
    if UnderWay(p.zone.pass) {
      StepKeepsInv(p.zone, a);
    }
  }

  lemma TurnIsSolo(p: Pair, t: Turn)
    requires SoloInv(p) && ProperTurn(p, t) && !Overlaps(p, t)
    ensures SoloInv(Go(p, t))
  {
    if t.Take? {
      if IsWrite(t.step) || t.step.Mark? || t.step.Refresh? {
        WriteIsSolo(p, t.step);
      } else {
        PassIsSolo(p, t.step);
      }
    }
  }

  lemma SoloNeverLies(p: Pair)
    requires SoloInv(p)
    ensures !Lies(p)
  {
    if Settled(p.zone) && !p.parked.Failed? {
      var z := Focus(p);
      SettledIsTrue(z);
      TrueProofsIff(z);
      TrueProofsIff(p.zone);
      assert forall l :: Told(z, l) <==> Told(p.zone, l);
    }
  }

  lemma {:induction false} SoloRunNeverLies(p: Pair, turns: seq<Turn>, q: Pair)
    requires SoloInv(p) && Played(p, turns, q)
    ensures !Lies(q)
    decreases |turns|
  {
    if turns == [] {
      SoloNeverLies(p);
    } else {
      TurnIsSolo(p, turns[0]);
      SoloRunNeverLies(Go(p, turns[0]), turns[1..], q);
    }
  }

  // ---- from an overlap to a lie, last step first ----

  lemma Earlier(p: Pair, t: Turn)
    requires ProperTurn(p, t) && !Overlaps(p, t) && CanLie(Go(p, t))
    ensures CanLie(p)
  {
    var turns, q :| Played(Go(p, t), turns, q) && Lies(q);
    assert ([t] + turns)[1..] == turns;
    assert Played(p, [t] + turns, q);
  }

  /** Wrong about its owner's address row, whatever happens to the keys. */
  predicate Wrong(content: set<Record>, l: Link) {
    A in l.types <==> Record(l.owner, A) !in content
  }

  lemma WrongIsFalse(content: set<Record>, l: Link)
    requires Wrong(content, l)
    ensures !TrueLink(content, l)
  {
    assert Record(l.owner, A) in content <==> A in ClaimedAt(content, l.owner);
  }

  /** The pass will sign `l`: it has published everything and `l` is stored, or it has yet to publish it. */
  predicate Coming(z: Zone, l: Link) {
    match z.pass
    case Deleting(snapshot, owners, _, _) => 0 < |owners| && l == LinkAt(owners, snapshot, 0)
    case Publishing(snapshot, owners, done) =>
      l.owner in owners && (l in z.links || (done < |owners| && l == LinkAt(owners, snapshot, done)))
    case _ => false
  }

  function Unsigned(z: Zone): set<Name>
    requires z.pass.Publishing?
  {
    set n | n in z.pass.owners && n !in z.signatures
  }

  /** Signs the rest and ends. */
  lemma {:induction false} SignsAndLies(p: Pair, l: Link)
    requires p.zone.pass.Publishing? && p.zone.pass.done == |p.zone.pass.owners|
    requires l in p.zone.links && l.owner in p.zone.pass.owners && Wrong(p.zone.content, l)
    requires Quiet(p.zone) && !p.parked.Failed?
    ensures CanLie(p)
    decreases |Unsigned(p.zone)|
  {
    if Unsigned(p.zone) == {} {
      EndsAndLies(p, l);
    } else {
      var n :| n in Unsigned(p.zone);
      var q := Go(p, Take(Sign(n)));
      assert Unsigned(q.zone) == Unsigned(p.zone) - {n};
      SignsAndLies(q, l);
      Earlier(p, Take(Sign(n)));
    }
  }

  lemma EndsAndLies(p: Pair, l: Link)
    requires p.zone.pass.Publishing? && p.zone.pass.done == |p.zone.pass.owners| && Unsigned(p.zone) == {}
    requires l in p.zone.links && l.owner in p.zone.pass.owners && Wrong(p.zone.content, l)
    requires Quiet(p.zone) && !p.parked.Failed?
    ensures CanLie(p)
  {
    forall n | n in p.zone.pass.owners ensures n in p.zone.signatures {
      assert n !in Unsigned(p.zone);
    }
    var q := Go(p, Take(End));
    WrongIsFalse(q.zone.content, l);
    assert Told(q.zone, l);
    TrueProofsIff(q.zone);
    assert Played(q, [], q);
    Earlier(p, Take(End));
  }

  /** Publishes the rest. */
  lemma {:induction false} PublishesAndLies(p: Pair, l: Link)
    requires p.zone.pass.Publishing? && p.zone.pass.done <= |p.zone.pass.owners|
    requires Coming(p.zone, l) && Wrong(p.zone.content, l) && Quiet(p.zone) && !p.parked.Failed?
    ensures CanLie(p)
    decreases |p.zone.pass.owners| - p.zone.pass.done
  {
    if p.zone.pass.done == |p.zone.pass.owners| {
      SignsAndLies(p, l);
    } else {
      PublishesAndLies(Go(p, Take(Publish)), l);
      Earlier(p, Take(Publish));
    }
  }

  /** Drops the old links, their signatures gone, and publishes. */
  lemma {:induction false} DropsLinksAndLies(p: Pair, l: Link)
    requires p.zone.pass.Deleting? && p.zone.pass.signed == {}
    requires Coming(p.zone, l) && Wrong(p.zone.content, l) && Quiet(p.zone) && !p.parked.Failed?
    ensures CanLie(p)
    decreases |p.zone.pass.todo|
  {
    if p.zone.pass.todo != {} {
      var n :| n in p.zone.pass.todo;
      DropsLinksAndLies(Go(p, Take(DropLinks(n))), l);
      Earlier(p, Take(DropLinks(n)));
    } else {
      PublishesAndLies(Go(p, Take(Publish)), l);
      Earlier(p, Take(Publish));
    }
  }

  lemma {:induction false} DropsAndLies(p: Pair, l: Link)
    requires p.zone.pass.Deleting?
    requires Coming(p.zone, l) && Wrong(p.zone.content, l) && Quiet(p.zone) && !p.parked.Failed?
    ensures CanLie(p)
    decreases |p.zone.pass.signed|
  {
    if p.zone.pass.signed != {} {
      var n :| n in p.zone.pass.signed;
      DropsAndLies(Go(p, Take(DropSignature(n))), l);
      Earlier(p, Take(DropSignature(n)));
    } else {
      DropsLinksAndLies(p, l);
    }
  }

  /** The first pass has read the zone and the second has not begun to clear the mark. */
  ghost predicate Halfway(p: Pair) {
    && p.zone.usable && InPlace(p.zone.apex, p.zone.content) && Shaped(p.zone.apex, p.zone.pass)
    && (p.zone.pass.Deleting? || p.zone.pass.Publishing?) && p.parked.Begun?
  }

  lemma OnceClearedLies(p: Pair, l: Link)
    requires (p.zone.pass.Deleting? || p.zone.pass.Publishing?) && Shaped(p.zone.apex, p.zone.pass)
    requires Quiet(p.zone) && Coming(p.zone, l) && Wrong(p.zone.content, l) && !p.parked.Failed?
    ensures CanLie(p)
  {
    if p.zone.pass.Deleting? {
      DropsAndLies(p, l);
    } else {
      PublishesAndLies(p, l);
    }
  }

  lemma KeyedLies(c: Pair, l: Link)
    requires c.zone.pass.Keyed? && (c.parked.Deleting? || c.parked.Publishing?) && Shaped(c.zone.apex, c.parked)
    requires c.zone.unmarked == 0 && Coming(c.zone.(pass := c.parked), l) && Wrong(c.zone.content, l)
    ensures CanLie(c)
  {
    var d := Go(c, Take(Clear));
    OnceClearedLies(Go(d, Swap), l);
    Earlier(d, Swap);
    Earlier(c, Take(Clear));
  }

  /** The second pass clears the mark that was not meant for it, and the first goes on. */
  lemma ClearsAndLies(p: Pair, l: Link)
    requires Halfway(p) && p.zone.unmarked == 0 && Coming(p.zone, l) && Wrong(p.zone.content, l)
    ensures CanLie(p)
  {
    var a := Go(p, Swap);
    var b := Go(a, Take(Unkey));
    KeyedLies(Go(b, Take(Rekey)), l);
    Earlier(b, Take(Rekey));
    Earlier(a, Take(Unkey));
    Earlier(p, Swap);
  }

  lemma {:induction false} MarksAndLies(p: Pair, l: Link)
    requires Halfway(p) && Coming(p.zone, l) && Wrong(p.zone.content, l)
    ensures CanLie(p)
    decreases p.zone.unmarked
  {
    if p.zone.unmarked == 0 {
      ClearsAndLies(p, l);
    } else {
      MarksAndLies(Go(p, Take(Mark)), l);
      Earlier(p, Take(Mark));
    }
  }

  /** A row changes under the first pass, unless one already has. */
  lemma ChangesAndLies(p: Pair, l: Link)
    requires Halfway(p) && Coming(p.zone, l) && InZone(l.owner, p.zone.apex)
    ensures CanLie(p)
  {
    if Wrong(p.zone.content, l) {
      MarksAndLies(p, l);
    } else {
      ToggleDoes(p.zone, l.owner);
      var a := Toggle(p.zone, l.owner);
      MarksAndLies(Go(p, Take(a)), l);
      Earlier(p, Take(a));
    }
  }

  // ---- every set of names has its listing ----

  lemma {:induction false} Placed(s: seq<Name>, n: Name) returns (r: seq<Name>)
    requires Ascending(s) && n !in s
    ensures Ascending(r) && Elements(r) == Elements(s) + {n}
    decreases |s|
  {
    if s == [] {
      r := [n];
    } else {
      Trichotomy(s[0], n);
      if Before(n, s[0]) {
        r := [n] + s;
        forall j | 0 <= j < |s| ensures Before(n, s[j]) {
          if j > 0 {
            BeforeTransitive(n, s[0], s[j]);
          }
        }
      } else {
        var rest := Placed(s[1..], n);
        r := [s[0]] + rest;
        forall m | m in rest ensures Before(s[0], m) {
          assert m in Elements(rest);
        }
      }
    }
  }

  lemma {:induction false} Listed(names: set<Name>) returns (r: seq<Name>)
    ensures Ascending(r) && Elements(r) == names
  {
    if names == {} {
      r := [];
    } else {
      var n :| n in names;
      var rest := Listed(names - {n});
      assert n !in Elements(rest);
      r := Placed(rest, n);
    }
  }

  // ---- where the first pass may stand ----

  /** Everything is published and nothing of it is left: a true NSEC row written by hand takes its place. */
  lemma RewritesAndLies(p: Pair)
    requires Halfway(p) && p.zone.pass.Publishing? && p.zone.pass.done == |p.zone.pass.owners|
    ensures CanLie(p)
  {
    var z := p.zone;
    var owners := Listed(Owners(z.apex, z.content));
    ApexFirst(z.apex, z.content, owners);
    var l := LinkAt(owners, z.content, 0);
    assert RightLink(z.apex, z.content, l);
    RightIsTrue(z.apex, z.content, l);
    assert z.apex in Elements(z.pass.owners);
    ChangesAndLies(Go(p, Take(HandLink(l))), l);
    Earlier(p, Take(HandLink(l)));
  }

  lemma HalfwayLies(p: Pair)
    requires Halfway(p)
    ensures CanLie(p)
  {
    var z := p.zone;
    var owners, snapshot := z.pass.owners, z.pass.snapshot;
    var at := if z.pass.Publishing? then z.pass.done else 0;
    assert z.apex in Elements(owners);
    if at == |owners| {
      RewritesAndLies(p);
    } else {
      assert owners[at] in Elements(owners);
      ChangesAndLies(p, LinkAt(owners, snapshot, at));
    }
  }

  lemma ReadsAndLies(p: Pair)
    requires p.zone.usable && InPlace(p.zone.apex, p.zone.content) && p.zone.pass.Cleared? && p.parked.Begun?
    ensures CanLie(p)
  {
    var owners := Listed(Owners(p.zone.apex, p.zone.content));
    HalfwayLies(Go(p, Take(Read(owners))));
    Earlier(p, Take(Read(owners)));
  }

  /** The first pass catches up until it has read the zone. */
  lemma CatchesUpAndLies(p: Pair)
    requires p.zone.usable && InPlace(p.zone.apex, p.zone.content) && Shaped(p.zone.apex, p.zone.pass)
    requires UnderWay(p.zone.pass) && p.parked.Begun?
    ensures CanLie(p)
    decreases match p.zone.pass case Begun => 4 case Unkeyed => 3 case Keyed => 2 case _ => 0
  {
    match p.zone.pass
    case Begun => CatchesUpAndLies(Go(p, Take(Unkey))); Earlier(p, Take(Unkey));
    case Unkeyed => CatchesUpAndLies(Go(p, Take(Rekey))); Earlier(p, Take(Rekey));
    case Keyed => CatchesUpAndLies(Go(p, Take(Clear))); Earlier(p, Take(Clear));
    case Cleared => ReadsAndLies(p);
    case _ => HalfwayLies(p);
  }

  // ---- the condition ----

  /**
   * Wherever two threads have got to without overlapping, a turn opens the way to a false proof if and only if it
   * starts a pass while the in-progress mark is up.
   */
  lemma OverlapIff(p: Pair, t: Turn)
    requires SoloInv(p) && ProperTurn(p, t)
    ensures CanLie(Go(p, t)) <==> t == Take(Begin) && p.zone.active
  {
    if Overlaps(p, t) {
      var q := Go(p, t);
      CatchesUpAndLies(Go(q, Swap));
      Earlier(q, Swap);
    } else {
      TurnIsSolo(p, t);
      forall turns, q | Played(Go(p, t), turns, q) ensures !Lies(q) {
        SoloRunNeverLies(Go(p, t), turns, q);
      }
    }
  }

  ghost predicate History(h: seq<Pair>, turns: seq<Turn>) {
    && |h| == |turns| + 1
    && forall i :: 0 <= i < |turns| ==> ProperTurn(h[i], turns[i]) && h[i + 1] == Go(h[i], turns[i])
  }

  /** The turn starts a pass while the in-progress mark is up. */
  predicate BeginsMarked(p: Pair, t: Turn) {
    t == Take(Begin) && p.zone.active
  }

  lemma {:induction false} HistoryIsSolo(h: seq<Pair>, turns: seq<Turn>, n: nat)
    requires History(h, turns) && SoloInv(h[0]) && n < |h|
    requires forall i :: 0 <= i < n ==> !BeginsMarked(h[i], turns[i])
    ensures SoloInv(h[n])
  {
    if n > 0 {
      HistoryIsSolo(h, turns, n - 1);
      assert !BeginsMarked(h[n - 1], turns[n - 1]);
      TurnIsSolo(h[n - 1], turns[n - 1]);
    }
  }

  /** Nothing that has not overlapped can lie. */
  lemma SoloCannotLie(p: Pair)
    requires SoloInv(p)
    ensures !CanLie(p)
  {
    forall turns, q | Played(p, turns, q) ensures !Lies(q) {
      SoloRunNeverLies(p, turns, q);
    }
  }

  lemma {:induction false} FirstOverlap(h: seq<Pair>, turns: seq<Turn>, n: nat) returns (i: nat)
    requires |h| == |turns| + 1 && n < |turns| && BeginsMarked(h[n], turns[n])
    ensures i <= n && BeginsMarked(h[i], turns[i]) && forall j :: 0 <= j < i ==> !BeginsMarked(h[j], turns[j])
  {
    i := 0;
    while !BeginsMarked(h[i], turns[i])
      invariant i <= n && forall j :: 0 <= j < i ==> !BeginsMarked(h[j], turns[j])
      decreases n - i
    {
      i := i + 1;
    }
  }

  /**
   * Over every run of two threads from boot, whatever else happens: some moment has a false proof ahead of it, without
   * a further overlap, if and only if some pass was started while the in-progress mark was up.
   */
  lemma TwoThreadsServeTruthIff(z: Zone, h: seq<Pair>, turns: seq<Turn>)
    requires Init(z) && z.usable && History(h, turns) && h[0] == Pair(z, Idle)
    ensures (exists i :: 0 <= i < |h| && CanLie(h[i])) <==>
      exists i :: 0 <= i < |turns| && BeginsMarked(h[i], turns[i])
  {
    assert SoloInv(h[0]);
    if n :| 0 <= n < |turns| && BeginsMarked(h[n], turns[n]) {
      var i := FirstOverlap(h, turns, n);
      HistoryIsSolo(h, turns, i);
      OverlapIff(h[i], turns[i]);
      assert CanLie(h[i + 1]);
    } else {
      forall i | 0 <= i < |h| ensures !CanLie(h[i]) {
        HistoryIsSolo(h, turns, i);
        SoloCannotLie(h[i]);
      }
    }
  }
}
