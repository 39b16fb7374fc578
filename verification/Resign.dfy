/**
 * Keeping a signed zone signed: record mutations, the re-sign loop and queries interleave step by step.
 * One zone, whose keys stay; one signing pass at a time.
 */
module Resign {
  import opened Basics
  import opened Names
  import opened NsecChain
  import opened NegativeAnswers
  import opened Denial

  /**
   * Where the signing pass stands. It republishes the DNSKEY rows, clears the mark, reads the zone, drops the old
   * chain name by name and signature first, publishes the new one, and signs it. `Failed` is after its guard dropped
   * and before anyone re-marked, `Refused` after it found no key to sign with and before its caller acted on that.
   */
  datatype Pass =
    | Idle
    | Begun
    | Unkeyed
    | Keyed
    | Cleared
    | Deleting(snapshot: set<Record>, owners: seq<Name>, signed: set<Name>, todo: set<Name>)
    | Publishing(snapshot: set<Record>, owners: seq<Name>, done: nat)
    | Failed
    | Refused

  datatype Zone = Zone(
    apex: Name,
    usable: bool,            // whether some active key can sign
    content: set<Record>,    // every row that can establish a name
    links: Stored,           // the NSEC rows
    signatures: set<Name>,   // the names whose NSEC rows carry an RRSIG
    pending: bool,           // resign_pending
    active: bool,            // resign_active
    unmarked: nat,           // mutations that wrote their row and have not yet set the mark
    pass: Pass)

  datatype Step =
    | Insert(r: Record)
    | Delete(n: Name, kind: Option<Kind>)
    | HandLink(l: Link)
    | HandSignature(n: Name)
    | HandUnlink(n: Name)
    | HandUnsign(n: Name)
    | Mark
    | Refresh
    | Begin
    | Unkey
    | Rekey
    | Clear
    | Read(owners: seq<Name>)
    | DropSignature(n: Name)
    | DropLinks(n: Name)
    | Publish
    | Sign(n: Name)
    | End
    | Fail
    | Remark
    | GiveUp
    | Refuse
    | Unmark
    | Leave

  /** `is_zone_content`: what a signing pass itself writes does not dirty the zone, whoever writes it. */
  predicate IsZoneContent(k: Kind) {
    k !in {DNSKEY, NSEC, RRSIG}
  }

  predicate UnderWay(p: Pass) {
    !p.Idle? && !p.Failed? && !p.Refused?
  }

  function Rows(z: Zone): set<Record> {
    z.content + (set l | l in z.links :: Record(l.owner, NSEC)) + (set n | n in z.signatures :: Record(n, RRSIG))
  }

  function RowsAt(z: Zone, n: Name, kind: Option<Kind>): set<Record> {
    set r | r in Rows(z) && r.name == n && (kind.None? || r.kind == kind.value)
  }

  function WithoutOwner(links: Stored, n: Name): (r: Stored)
    ensures forall l :: l in r <==> l in links && l.owner != n
  {
    if links == [] then []
    else if links[0].owner == n then WithoutOwner(links[1..], n)
    else [links[0]] + WithoutOwner(links[1..], n)
  }

  function Key(z: Zone): Record {
    Record(z.apex, DNSKEY)
  }

  ghost predicate Enabled(z: Zone, a: Step) {
    match a
    case Insert(r) => InZone(r.name, z.apex) && EstablishesName(r.kind)
    case Delete(n, kind) => kind.Some? ==> EstablishesName(kind.value)
    case HandLink(l) => InZone(l.owner, z.apex)
    case HandSignature(n) => InZone(n, z.apex)
    case HandUnlink(_) => true
    case HandUnsign(_) => true
    case Mark => z.unmarked > 0
    case Refresh => true
    case Begin => z.pass.Idle?
    case Unkey => z.pass.Begun? && z.usable
    case Rekey => z.pass.Unkeyed?
    case Clear => z.pass.Keyed?
    case Read(owners) => z.pass.Cleared? && Listing(z.apex, z.content, owners)
    case DropSignature(n) => z.pass.Deleting? && n in z.pass.signed
    case DropLinks(n) => z.pass.Deleting? && n in z.pass.todo && n !in z.pass.signed
    case Publish =>
      || (z.pass.Deleting? && z.pass.todo == {} && z.pass.owners != [])
      || (z.pass.Publishing? && z.pass.done < |z.pass.owners|)
    case Sign(n) => z.pass.Publishing? && z.pass.done == |z.pass.owners| && n in z.pass.owners
    case End => z.pass.Publishing? && z.pass.done == |z.pass.owners| && AllSigned(z.pass.owners, z.signatures)
    case Fail => UnderWay(z.pass)
    case Remark => z.pass.Failed?
    case GiveUp => z.pass.Failed?
    case Refuse => z.pass.Begun? && !z.usable
    case Unmark => z.pass.Refused?
    case Leave => z.pass.Refused?
  }

  ghost function Do(z: Zone, a: Step): Zone
    requires Enabled(z, a)
  {
    match a
    case Insert(r) =>
      z.(content := z.content + {r}, unmarked := z.unmarked + if IsZoneContent(r.kind) then 1 else 0)
    case Delete(n, kind) =>
      if RowsAt(z, n, kind) == {} then z
      else
        var marks := kind.None? || IsZoneContent(kind.value);
        var z' := z.(content := z.content - RowsAt(z, n, kind), unmarked := z.unmarked + if marks then 1 else 0);
        if kind.None? then z'.(links := WithoutOwner(z.links, n), signatures := z.signatures - {n}) else z'
    // NSEC and RRSIG rows written and removed through the API: nothing is marked.
    case HandLink(l) => z.(links := z.links + [l])
    case HandSignature(n) => z.(signatures := z.signatures + {n})
    case HandUnlink(n) => z.(links := WithoutOwner(z.links, n))
    case HandUnsign(n) => z.(signatures := z.signatures - {n})
    case Mark => z.(pending := true, unmarked := z.unmarked - 1)
    case Refresh => z.(pending := true)
    case Begin => z.(active := true, pass := Begun)
    case Unkey => z.(content := z.content - {Key(z)}, pass := Unkeyed)
    case Rekey => z.(content := z.content + {Key(z)}, pass := Keyed)
    case Clear => z.(pending := false, pass := Cleared)
    case Read(owners) =>
      var names := set r | r in Rows(z) :: r.name;
      z.(pass := Deleting(z.content, owners, names, names))
    case DropSignature(n) => z.(signatures := z.signatures - {n}, pass := z.pass.(signed := z.pass.signed - {n}))
    case DropLinks(n) => z.(links := WithoutOwner(z.links, n), pass := z.pass.(todo := z.pass.todo - {n}))
    case Publish =>
      var done := if z.pass.Publishing? then z.pass.done else 0;
      z.(links := z.links + [LinkAt(z.pass.owners, z.pass.snapshot, done)],
         pass := Publishing(z.pass.snapshot, z.pass.owners, done + 1))
    case Sign(n) => z.(signatures := z.signatures + {n})
    case End => z.(active := false, pass := Idle)
    case Fail => z.(active := false, pass := Failed)
    case Remark => z.(pending := true, pass := Idle)
    case GiveUp => z.(pass := Idle)
    // `NotSigned`: the re-sign loop then clears the mark, a caller over gRPC leaves it.
    case Refuse => z.(active := false, pass := Refused)
    case Unmark => z.(pending := false, pass := Idle)
    case Leave => z.(pass := Idle)
  }

  ghost predicate Run(z: Zone, steps: seq<Step>, t: Zone)
    decreases |steps|
  {
    if steps == [] then t == z else Enabled(z, steps[0]) && Run(Do(z, steps[0]), steps[1..], t)
  }

  /** Denial proofs go out only while the zone is neither marked nor being re-signed. */
  predicate Served(z: Zone) {
    !z.pending && !z.active
  }

  // ---- what is true ----

  /** The link spans no name that holds a record, and lists exactly its owner's types. */
  ghost predicate TrueLink(content: set<Record>, l: Link) {
    (forall r :: r in content ==> !Covers(l, r.name)) && l.types == TypesAt(content, l.owner)
  }

  /** Every link that any query would be sent is true of the records as they are. */
  ghost predicate TrueProofs(z: Zone) {
    forall q, l :: l in DenialProof(z.links, z.signatures, Rows(z), z.apex, q) ==> TrueLink(z.content, l)
  }

  /** A link that is sent to whoever asks for its owner. */
  predicate Told(z: Zone, l: Link) {
    l in z.links && l.owner in z.signatures
  }

  /** Stored and signed is all it takes: a link's own NSEC row makes its owner exist. */
  lemma ToldIsServed(z: Zone, l: Link)
    requires Told(z, l)
    ensures l in DenialProof(z.links, z.signatures, Rows(z), z.apex, l.owner)
  {
    assert Record(l.owner, NSEC) in Rows(z);
    assert PresenceOf(Rows(z), l.owner) == Real;
    var own := FindOwner(z.links, l.owner);
    assert ChosenLinks(z.links, Rows(z), z.apex, l.owner) == [own.value];
  }

  /** The proofs are true if and only if every link stored and signed is: for any zone, whatever is under way. */
  lemma TrueProofsIff(z: Zone)
    ensures TrueProofs(z) <==> forall l :: Told(z, l) ==> TrueLink(z.content, l)
  {
    if TrueProofs(z) {
      forall l | Told(z, l) ensures TrueLink(z.content, l) {
        ToldIsServed(z, l);
      }
    }
  }

  /** The link is one of the chain of the content. */
  ghost predicate RightLink(apex: Name, content: set<Record>, l: Link) {
    exists owners, i :: Listing(apex, content, owners) && 0 <= i < |owners| && l == LinkAt(owners, content, i)
  }

  predicate InPlace(apex: Name, content: set<Record>) {
    forall r :: r in content ==> InZone(r.name, apex) && EstablishesName(r.kind)
  }

  /** A link of the chain, with or without the others, tells no lie. */
  lemma RightIsTrue(apex: Name, content: set<Record>, l: Link)
    requires InPlace(apex, content) && RightLink(apex, content, l)
    ensures TrueLink(content, l)
  {
    var owners, i :| Listing(apex, content, owners) && 0 <= i < |owners| && l == LinkAt(owners, content, i);
    ApexFirst(apex, content, owners);
    forall r | r in content ensures !Covers(l, r.name) {
      assert r.name in Elements(owners);
      var at := ChainTiles(owners, content, r.name);
    }
  }

  // ---- the invariant ----

  /** Boot marks every signed zone, so whatever was on disk is not served. */
  predicate Init(z: Zone) {
    && InPlace(z.apex, z.content)
    && (forall l :: l in z.links ==> InZone(l.owner, z.apex))
    && z.pending && !z.active && z.unmarked == 0 && z.pass == Idle
  }

  /** No mutation since the last clearing of the mark is unaccounted for. */
  predicate Quiet(z: Zone) {
    !z.pending && z.unmarked == 0
  }

  ghost predicate AllTrue(z: Zone) {
    forall l :: l in z.links ==> TrueLink(z.content, l)
  }

  ghost predicate Shaped(apex: Name, p: Pass) {
    match p
    case Deleting(snapshot, owners, signed, todo) => Listing(apex, snapshot, owners) && signed <= todo
    case Publishing(snapshot, owners, done) => Listing(apex, snapshot, owners) && done <= |owners|
    case _ => true
  }

  /** A pass that has read the zone read what is there, and whatever is false it has yet to drop. */
  ghost predicate PassInv(z: Zone) {
    match z.pass
    case Idle => AllTrue(z)
    case Deleting(snapshot, owners, _, todo) =>
      z.content == snapshot && forall l :: l in z.links ==> TrueLink(z.content, l) || l.owner in todo
    case Publishing(snapshot, owners, done) => z.content == snapshot && AllTrue(z)
    case _ => true
  }

  ghost predicate Inv(z: Zone) {
    && InPlace(z.apex, z.content) && z.usable && !z.pass.Refused?
    && (z.active <==> UnderWay(z.pass)) && Shaped(z.apex, z.pass)
    && (Quiet(z) ==> PassInv(z))
  }

  /** Mutations are of zone content, NSEC rows written by hand are true when written, a failed pass is re-marked. */
  ghost predicate Proper(z: Zone, a: Step) {
    match a
    case Insert(r) => IsZoneContent(r.kind)
    case Delete(_, kind) => kind.Some? ==> IsZoneContent(kind.value)
    case HandLink(l) => TrueLink(z.content, l)
    case GiveUp => false
    case _ => true
  }

  lemma PublishedIsTrue(z: Zone)
    requires Inv(z) && Enabled(z, Publish) && Quiet(z)
    ensures var t := Do(z, Publish); TrueLink(z.content, t.links[|z.links|])
  {
    var t := Do(z, Publish);
    var owners, i := t.pass.owners, t.pass.done - 1;
    assert RightLink(z.apex, z.content, LinkAt(owners, z.content, i));
    RightIsTrue(z.apex, z.content, t.links[|z.links|]);
  }

  /** Steps that write or drop rows without being part of a pass. */
  predicate IsWrite(a: Step) {
    a.Insert? || a.Delete? || a.HandLink? || a.HandSignature? || a.HandUnlink? || a.HandUnsign?
  }

  lemma WriteKeepsInv(z: Zone, a: Step)
    requires Inv(z) && Enabled(z, a) && Proper(z, a) && IsWrite(a)
    ensures Inv(Do(z, a))
  {
  }

  lemma PassKeepsInv(z: Zone, a: Step)
    requires Inv(z) && Enabled(z, a) && Proper(z, a) && !IsWrite(a)
    ensures Inv(Do(z, a))
  {
    match a
    case Publish => if Quiet(z) { PublishedIsTrue(z); }
    case Read(owners) =>
      forall l | l in z.links ensures l.owner in Do(z, a).pass.todo {
        assert Record(l.owner, NSEC) in Rows(z);
      }
    case _ =>
  }

  lemma StepKeepsInv(z: Zone, a: Step)
    requires Inv(z) && Enabled(z, a) && Proper(z, a)
    ensures Inv(Do(z, a))
  {
    if IsWrite(a) {
      WriteKeepsInv(z, a);
    } else {
      PassKeepsInv(z, a);
    }
  }

  ghost predicate ProperRun(z: Zone, steps: seq<Step>)
    decreases |steps|
  {
    steps == [] || (Enabled(z, steps[0]) && Proper(z, steps[0]) && ProperRun(Do(z, steps[0]), steps[1..]))
  }

  lemma {:induction false} RunKeepsInv(z: Zone, steps: seq<Step>, t: Zone)
    requires Inv(z) && Run(z, steps, t) && ProperRun(z, steps)
    ensures Inv(t)
    decreases |steps|
  {
    if steps != [] {
      StepKeepsInv(z, steps[0]);
      RunKeepsInv(Do(z, steps[0]), steps[1..], t);
    }
  }

  /** What is promised of a zone in service: at rest, with every row marked, its proofs are true. */
  ghost predicate Settled(t: Zone) {
    Served(t) && t.unmarked == 0 && !t.pass.Failed?
  }

  lemma SettledIsTrue(z: Zone)
    requires Inv(z) && Settled(z)
    ensures TrueProofs(z)
  {
    TrueProofsIff(z);
  }

  /**
   * From boot, with a key that can sign, through any interleaving of mutations, passes that succeed or fail, refreshes,
   * true NSEC rows and any RRSIG rows written by hand: whenever proofs are served and no thread is between writing its
   * rows and setting its mark, every proof is true of the records as they are at that moment.
   */
  lemma ServedProofsAreTrue(z: Zone, steps: seq<Step>, t: Zone)
    requires Init(z) && z.usable && Run(z, steps, t) && ProperRun(z, steps)
    requires Settled(t)
    ensures TrueProofs(t)
  {
    RunKeepsInv(z, steps, t);
    SettledIsTrue(t);
  }

  // ---- a query that takes its time ----

  ghost predicate History(h: seq<Zone>, steps: seq<Step>) {
    && |h| == |steps| + 1
    && forall i :: 0 <= i < |steps| ==>
      Enabled(h[i], steps[i]) && Proper(h[i], steps[i]) && h[i + 1] == Do(h[i], steps[i])
  }

  /** True of the records at one of the first `n + 1` moments. */
  ghost predicate WasTrue(h: seq<Zone>, n: nat, l: Link)
    requires n < |h|
  {
    exists k :: 0 <= k <= n && TrueLink(h[k].content, l)
  }

  /** What the pass under way is working from was the zone at one of those moments. */
  ghost predicate WasRead(h: seq<Zone>, n: nat, p: Pass)
    requires n < |h|
  {
    p.Deleting? || p.Publishing? ==> exists k :: 0 <= k <= n && h[k].content == p.snapshot
  }

  /** A link published from a snapshot is true of the snapshot. */
  lemma PublishedFromSnapshot(z: Zone)
    requires Inv(z) && Enabled(z, Publish) && InPlace(z.apex, z.pass.snapshot)
    ensures TrueLink(z.pass.snapshot, Do(z, Publish).links[|z.links|])
  {
    var t := Do(z, Publish);
    assert RightLink(z.apex, z.pass.snapshot, LinkAt(t.pass.owners, t.pass.snapshot, t.pass.done - 1));
    RightIsTrue(z.apex, z.pass.snapshot, t.links[|z.links|]);
  }

  lemma {:induction false} HistoryKeepsInv(h: seq<Zone>, steps: seq<Step>, n: nat)
    requires History(h, steps) && Inv(h[0]) && n < |h|
    ensures Inv(h[n]) && h[n].apex == h[0].apex
  {
    if n > 0 {
      HistoryKeepsInv(h, steps, n - 1);
      StepKeepsInv(h[n - 1], steps[n - 1]);
    }
  }

  lemma {:induction false} SnapshotsWereRead(h: seq<Zone>, steps: seq<Step>, n: nat)
    requires History(h, steps) && h[0].pass.Idle? && n < |h|
    ensures WasRead(h, n, h[n].pass)
  {
    if n > 0 {
      SnapshotsWereRead(h, steps, n - 1);
      var z, a, t := h[n - 1], steps[n - 1], h[n];
      assert t == Do(z, a);
      if a.Read? {
        assert h[n - 1].content == t.pass.snapshot;
      }
    }
  }

  lemma NewLinkWasTrue(h: seq<Zone>, steps: seq<Step>, n: nat)
    requires History(h, steps) && Inv(h[0]) && h[0].pass.Idle? && n < |h| && Enabled(h[n], Publish)
    ensures WasTrue(h, n, Do(h[n], Publish).links[|h[n].links|])
  {
    SnapshotsWereRead(h, steps, n);
    HistoryKeepsInv(h, steps, n);
    var k :| 0 <= k <= n && h[k].content == h[n].pass.snapshot;
    HistoryKeepsInv(h, steps, k);
    PublishedFromSnapshot(h[n]);
  }

  /** Where a stored link comes from: it was there before, was published, or was written by hand and then true. */
  lemma LinkComesFrom(z: Zone, a: Step, l: Link)
    requires Enabled(z, a) && Proper(z, a) && l in Do(z, a).links
    ensures l in z.links || (a.Publish? && l == Do(z, a).links[|z.links|]) || TrueLink(z.content, l)
  {
  }

  lemma NewOrOld(h: seq<Zone>, steps: seq<Step>, n: nat, l: Link)
    requires History(h, steps) && Inv(h[0]) && h[0].pass.Idle? && n < |steps| && l in h[n + 1].links
    ensures l in h[n].links || WasTrue(h, n, l)
  {
    LinkComesFrom(h[n], steps[n], l);
    if l !in h[n].links && steps[n].Publish? {
      NewLinkWasTrue(h, steps, n);
    }
  }

  /**
   * A query reads presence, marks, chain, rows and signatures one after the other. Whatever happens from the moment it
   * finds the zone unmarked, every link it can come across was true of the records at some moment since.
   */
  lemma {:induction false} SlowQueryIsTrue(h: seq<Zone>, steps: seq<Step>, n: nat, l: Link)
    requires History(h, steps) && Inv(h[0]) && Settled(h[0]) && n < |h| && l in h[n].links
    ensures WasTrue(h, n, l)
  {
    if n == 0 {
      assert TrueLink(h[0].content, l);
    } else {
      NewOrOld(h, steps, n - 1, l);
      if l in h[n - 1].links {
        SlowQueryIsTrue(h, steps, n - 1, l);
      }
      var k :| 0 <= k <= n - 1 && TrueLink(h[k].content, l);
    }
  }

  // ---- no usable key ----

  /** No row is written by hand that only a signing pass should write. */
  predicate Plain(a: Step) {
    match a
    case Insert(r) => IsZoneContent(r.kind)
    case Delete(_, kind) => kind.Some? ==> IsZoneContent(kind.value)
    case HandLink(_) => false
    case HandSignature(_) => false
    case GiveUp => false
    case _ => true
  }

  ghost predicate PlainRun(z: Zone, steps: seq<Step>, t: Zone) {
    Run(z, steps, t) && forall a :: a in steps ==> Plain(a)
  }

  lemma {:induction false} PlainIsProper(z: Zone, steps: seq<Step>, t: Zone)
    requires PlainRun(z, steps, t)
    ensures ProperRun(z, steps)
    decreases |steps|
  {
    if steps != [] {
      assert Plain(steps[0]);
      PlainIsProper(Do(z, steps[0]), steps[1..], t);
    }
  }

  /** Without a usable key no pass gets past its start, so what is told can only become less. */
  ghost predicate Mute(z: Zone) {
    !z.usable && z.pass in {Idle, Begun, Failed, Refused} && forall l :: !Told(z, l)
  }

  lemma ToldLess(z: Zone, a: Step)
    requires Mute(z) && Enabled(z, a) && Plain(a)
    ensures Mute(Do(z, a))
  {
    forall l | Told(Do(z, a), l) ensures Told(z, l) {
    }
  }

  lemma {:induction false} MuteStaysMute(z: Zone, steps: seq<Step>, t: Zone)
    requires Mute(z) && PlainRun(z, steps, t)
    ensures Mute(t)
    decreases |steps|
  {
    if steps != [] {
      assert Plain(steps[0]);
      ToldLess(z, steps[0]);
      MuteStaysMute(Do(z, steps[0]), steps[1..], t);
    }
  }

  lemma RunCons(z: Zone, a: Step, rest: seq<Step>, t: Zone)
    requires Enabled(z, a) && Run(Do(z, a), rest, t)
    ensures Run(z, [a] + rest, t)
  {
    assert ([a] + rest)[1..] == rest;
  }

  lemma PlainCons(z: Zone, a: Step, rest: seq<Step>, t: Zone)
    requires Enabled(z, a) && Plain(a) && PlainRun(Do(z, a), rest, t)
    ensures PlainRun(z, [a] + rest, t)
  {
    RunCons(z, a, rest, t);
  }

  /** The zone as the loop leaves it when it could not sign: unmarked, and otherwise untouched. */
  lemma RefusedRun(z: Zone) returns (steps: seq<Step>)
    requires z.pass.Idle? && !z.usable && !z.active
    ensures PlainRun(z, steps, z.(pending := false))
  {
    var a := Do(z, Begin);
    var b := Do(a, Refuse);
    var t := Do(b, Unmark);
    assert t == z.(pending := false);
    PlainCons(b, Unmark, [], t);
    PlainCons(a, Refuse, [Unmark], t);
    PlainCons(z, Begin, [Refuse] + [Unmark], t);
    steps := [Begin] + ([Refuse] + [Unmark]);
  }

  lemma ClaimedMore(content: set<Record>, r: Record, n: Name)
    ensures ClaimedAt(content + {r}, n) ==
      ClaimedAt(content, n) + if r.name == n && EstablishesName(r.kind) && r.kind != ANAME then {r.kind} else {}
  {
  }

  lemma ClaimedLess(content: set<Record>, n: Name, k: Kind, m: Name)
    ensures ClaimedAt(content - {Record(n, k)}, m) == ClaimedAt(content, m) - if m == n then {k} else {}
  {
  }

  lemma OneTypeLess(z: Zone, n: Name, k: Kind)
    requires EstablishesName(k) && Record(n, k) in z.content
    ensures Do(z, Delete(n, Some(k))) == z.(content := z.content - {Record(n, k)},
                                            unmarked := z.unmarked + if IsZoneContent(k) then 1 else 0)
  {
    assert Record(n, k) in RowsAt(z, n, Some(k));
  }

  /** The address row at `n` comes or goes: whichever changes the zone. */
  function Toggle(z: Zone, n: Name): Step {
    if Record(n, A) in z.content then Delete(n, Some(A)) else Insert(Record(n, A))
  }

  function Toggled(content: set<Record>, n: Name): set<Record> {
    if Record(n, A) in content then content - {Record(n, A)} else content + {Record(n, A)}
  }

  lemma ToggleDoes(z: Zone, n: Name)
    requires InZone(n, z.apex)
    ensures Enabled(z, Toggle(z, n)) && Plain(Toggle(z, n))
    ensures Do(z, Toggle(z, n)) == z.(content := Toggled(z.content, n), unmarked := z.unmarked + 1)
  {
    if Record(n, A) in z.content {
      OneTypeLess(z, n, A);
    }
  }

  /** One address row more or less at its owner, and a link's types are no longer right. */
  lemma ToggleFalsifies(content: set<Record>, l: Link)
    requires l.types == TypesAt(content, l.owner)
    ensures !TrueLink(Toggled(content, l.owner), l)
  {
    ClaimedMore(content, Record(l.owner, A), l.owner);
    ClaimedLess(content, l.owner, A, l.owner);
    assert Record(l.owner, A) in content <==> A in ClaimedAt(content, l.owner);
  }

  ghost predicate KeepsPromise(z: Zone) {
    forall steps, t :: PlainRun(z, steps, t) && Settled(t) ==> TrueProofs(t)
  }

  lemma RefusedAfterToggle(z: Zone, n: Name) returns (steps: seq<Step>)
    requires Init(z) && !z.usable && InZone(n, z.apex)
    ensures PlainRun(z, steps, z.(content := Toggled(z.content, n), pending := false))
  {
    ToggleDoes(z, n);
    var m := Do(z, Toggle(z, n));
    var marked := Do(m, Mark);
    var t := marked.(pending := false);
    steps := RefusedRun(marked);
    PlainCons(m, Mark, steps, t);
    PlainCons(z, Toggle(z, n), [Mark] + steps, t);
    steps := [Toggle(z, n)] + ([Mark] + steps);
  }

  /** A stored, signed link outlives the content it was made for. */
  lemma StaleLink(z: Zone, t: Zone, l: Link)
    requires Told(z, l) && TrueLink(z.content, l)
    requires t.links == z.links && t.signatures == z.signatures && t.content == Toggled(z.content, l.owner)
    ensures !TrueProofs(t)
  {
    ToggleFalsifies(z.content, l);
    assert Told(t, l);
    TrueProofsIff(t);
  }

  /** A signed link on disk and no key to renew it: the loop unmarks the zone, and sooner or later it tells a lie. */
  lemma KeylessZoneFails(z: Zone, l: Link) returns (steps: seq<Step>, t: Zone)
    requires Init(z) && !z.usable && Told(z, l)
    ensures PlainRun(z, steps, t) && Settled(t) && !TrueProofs(t)
  {
    if TrueLink(z.content, l) {
      steps := RefusedAfterToggle(z, l.owner);
      t := z.(content := Toggled(z.content, l.owner), pending := false);
      StaleLink(z, t, l);
    } else {
      steps := RefusedRun(z);
      t := z.(pending := false);
      assert Told(t, l);
      TrueProofsIff(t);
    }
  }

  /** The exact condition, known when the zone is loaded: a key that can sign, or no signed chain to go stale. */
  lemma ServedProofsAreTrueIff(z: Zone)
    requires Init(z)
    ensures KeepsPromise(z) <==> z.usable || forall l :: !Told(z, l)
  {
    if z.usable || forall l :: !Told(z, l) {
      forall steps, t | PlainRun(z, steps, t) && Settled(t) ensures TrueProofs(t) {
        if z.usable {
          PlainIsProper(z, steps, t);
          ServedProofsAreTrue(z, steps, t);
        } else {
          MuteStaysMute(z, steps, t);
          TrueProofsIff(t);
        }
      }
    } else {
      var l :| Told(z, l);
      var steps, t := KeylessZoneFails(z, l);
    }
  }

  // ---- rows written by hand ----

  /** An NSEC row written by hand into a truthful zone leaves it so exactly when it is true, or nothing signs it. */
  lemma HandLinkIff(z: Zone, l: Link)
    requires TrueProofs(z) && Enabled(z, HandLink(l))
    ensures TrueProofs(Do(z, HandLink(l))) <==> (l.owner in z.signatures ==> TrueLink(z.content, l))
  {
    var t := Do(z, HandLink(l));
    TrueProofsIff(z);
    TrueProofsIff(t);
    assert forall m :: Told(t, m) <==> Told(z, m) || (m == l && l.owner in z.signatures);
  }

  /** An RRSIG row written by hand does exactly when every NSEC row it brings into service is true. */
  lemma HandSignatureIff(z: Zone, n: Name)
    requires TrueProofs(z) && Enabled(z, HandSignature(n))
    ensures TrueProofs(Do(z, HandSignature(n))) <==>
      forall l :: l in z.links && l.owner == n ==> TrueLink(z.content, l)
  {
    var t := Do(z, HandSignature(n));
    TrueProofsIff(z);
    TrueProofsIff(t);
    if TrueProofs(t) {
      forall l | l in z.links && l.owner == n ensures TrueLink(z.content, l) {
        assert Told(t, l);
      }
    }
  }

  /** In every signed zone at rest there is one that breaks it: an apex that claims no types and covers every name. */
  lemma HandLinkBreaks(z: Zone)
    requires Inv(z) && Settled(z) && z.apex in z.signatures
    ensures var t := Do(z, HandLink(Link(z.apex, z.apex, {}))); Settled(t) && !TrueProofs(t)
  {
    SettledIsTrue(z);
    HandLinkIff(z, Link(z.apex, z.apex, {}));
    assert NSEC in TypesAt(z.content, z.apex);
  }

  /** Whatever was written by hand, a mark after it puts the zone back under the promise. */
  lemma MarkHeals(z: Zone, a: Step)
    requires Inv(z) && Enabled(z, a) && IsWrite(a)
    ensures Inv(Do(Do(z, a), Refresh))
  {
  }

  // ---- the windows ----

  /** No step of the run writes an NSEC row. */
  predicate WritesNoLinks(steps: seq<Step>) {
    forall a :: a in steps ==> !a.Publish? && !a.HandLink?
  }

  lemma {:induction false} OnlyOldLinks(z: Zone, steps: seq<Step>, t: Zone)
    requires Run(z, steps, t) && WritesNoLinks(steps)
    ensures forall l :: l in t.links ==> l in z.links
    decreases |steps|
  {
    if steps != [] {
      OnlyOldLinks(Do(z, steps[0]), steps[1..], t);
    }
  }

  /**
   * From a zone whose links are all true, any number of rows written and deleted, marked or not, any part of the chain
   * and its signatures dropped, a pass failed and given up: the proofs are true exactly when, under every link still
   * stored and signed, no row has appeared, and its owner has the types it had.
   */
  lemma WindowIff(z: Zone, steps: seq<Step>, t: Zone)
    requires AllTrue(z) && Run(z, steps, t) && WritesNoLinks(steps)
    ensures TrueProofs(t) <==>
      forall l :: Told(t, l) ==>
        TypesAt(t.content, l.owner) == TypesAt(z.content, l.owner) && forall r :: r in t.content ==> !Covers(l, r.name)
  {
    OnlyOldLinks(z, steps, t);
    TrueProofsIff(t);
  }

  /** The chain of the content, whole and signed: what a pass leaves. */
  ghost predicate Fresh(z: Zone) {
    exists owners :: WholeChain(z, owners)
  }

  ghost predicate WholeChain(z: Zone, owners: seq<Name>) {
    && Listing(z.apex, z.content, owners) && AllSigned(owners, z.signatures)
    && Elements(z.links) == Elements(Linked(owners, z.content))
  }

  lemma FreshIsTrue(z: Zone)
    requires InPlace(z.apex, z.content) && Fresh(z)
    ensures AllTrue(z) && TrueProofs(z)
  {
    var owners :| WholeChain(z, owners);
    forall l | l in z.links ensures TrueLink(z.content, l) {
      assert l in Elements(Linked(owners, z.content));
      var i :| 0 <= i < |owners| && Linked(owners, z.content)[i] == l;
      assert RightLink(z.apex, z.content, l);
      RightIsTrue(z.apex, z.content, l);
    }
    TrueProofsIff(z);
  }

  /** The link that speaks of a name: its own, or the one over it; and no other does. */
  lemma Speaker(z: Zone, n: Name) returns (l: Link)
    requires InPlace(z.apex, z.content) && Fresh(z)
    ensures Told(z, l) && if n in Owners(z.apex, z.content) then l.owner == n else Covers(l, n)
    ensures forall m :: m in z.links && (m.owner == n || Covers(m, n)) ==> m == l
  {
    var owners :| WholeChain(z, owners);
    ApexFirst(z.apex, z.content, owners);
    var at := ChainTiles(owners, z.content, n);
    l := LinkAt(owners, z.content, at);
    assert Linked(owners, z.content)[at] in Elements(z.links);
    assert n in owners <==> n in Elements(owners);
    forall m | m in z.links && (m.owner == n || Covers(m, n)) ensures m == l {
      assert m in Elements(Linked(owners, z.content));
      var i :| 0 <= i < |owners| && Linked(owners, z.content)[i] == m;
      if m.owner == n {
        AscendingIndices(owners, i, at);
      }
    }
  }

  predicate AlreadyChained(z: Zone, r: Record) {
    r.name in Owners(z.apex, z.content) && (r.kind == ANAME || r.kind in TypesAt(z.content, r.name))
  }

  /** What a new row makes of the chain it finds. */
  lemma NewRowIff(z: Zone, r: Record)
    requires InPlace(z.apex, z.content) && Fresh(z) && InZone(r.name, z.apex) && EstablishesName(r.kind)
    ensures (forall l :: Told(z, l) ==> TrueLink(z.content + {r}, l)) <==> AlreadyChained(z, r)
  {
    var l := Speaker(z, r.name);
    FreshIsTrue(z);
    ClaimedMore(z.content, r, r.name);
    if AlreadyChained(z, r) {
      forall m | Told(z, m) ensures TrueLink(z.content + {r}, m) {
        ClaimedMore(z.content, r, m.owner);
        assert !Covers(m, r.name) by {
          OwnersUncovered(z, m, r.name);
        }
      }
    } else {
      assert !TrueLink(z.content + {r}, l) by {
        assert r in z.content + {r};
      }
    }
  }

  lemma OwnersUncovered(z: Zone, m: Link, n: Name)
    requires Fresh(z) && m in z.links && n in Owners(z.apex, z.content)
    ensures !Covers(m, n)
  {
    var owners :| WholeChain(z, owners);
    assert m in Elements(Linked(owners, z.content)) && n in Elements(owners);
    var i :| 0 <= i < |owners| && Linked(owners, z.content)[i] == m;
    var at := ChainTiles(owners, z.content, n);
  }

  /**
   * Between a row's insertion and its mark the zone still serves, and its proofs are true exactly when the
   * row adds neither a name to the chain nor a type to its owner. A DNSKEY row never gets a mark at all.
   */
  lemma ServedWhileUnmarked(z: Zone, r: Record)
    requires InPlace(z.apex, z.content) && Fresh(z) && Served(z) && Enabled(z, Insert(r))
    ensures Served(Do(z, Insert(r)))
    ensures TrueProofs(Do(z, Insert(r))) <==> AlreadyChained(z, r)
    ensures r.kind == DNSKEY ==> Do(z, Insert(r)).unmarked == z.unmarked
  {
    var t := Do(z, Insert(r));
    NewRowIff(z, r);
    TrueProofsIff(t);
    assert forall l :: Told(t, l) <==> Told(z, l);
  }

  /** A type taken from its owner leaves the owner's link claiming it. */
  lemma TypeGone(z: Zone, n: Name, k: Kind)
    requires InPlace(z.apex, z.content) && Fresh(z) && k != ANAME && Record(n, k) in z.content
    ensures exists l :: Told(z, l) && !TrueLink(z.content - {Record(n, k)}, l)
  {
    var l := Speaker(z, n);
    FreshIsTrue(z);
    assert Record(n, k) in z.content && n in HoldingNames(z.apex, z.content);
    ClaimedLess(z.content, n, k, n);
    assert k in ClaimedAt(z.content, n);
    assert l.types != TypesAt(z.content - {Record(n, k)}, n);
  }

  /** A whole name taken away, or a row no link speaks of, leaves the other links as true as they were. */
  lemma OthersUntouched(content: set<Record>, gone: set<Record>, l: Link)
    requires TrueLink(content, l) && forall r :: r in gone ==> r.name != l.owner || r.kind == ANAME
    ensures TrueLink(content - gone, l)
  {
    assert ClaimedAt(content - gone, l.owner) == ClaimedAt(content, l.owner);
  }

  lemma DeletedType(z: Zone, n: Name, k: Kind)
    requires InPlace(z.apex, z.content) && Fresh(z) && EstablishesName(k)
    ensures TrueProofs(Do(z, Delete(n, Some(k)))) <==> k == ANAME || Record(n, k) !in z.content
  {
    var t := Do(z, Delete(n, Some(k)));
    FreshIsTrue(z);
    TrueProofsIff(t);
    assert forall l :: Told(t, l) <==> Told(z, l);
    if Record(n, k) !in z.content {
      assert t.content == z.content;
    } else {
      OneTypeLess(z, n, k);
      if k == ANAME {
        forall l | Told(t, l) ensures TrueLink(t.content, l) {
          OthersUntouched(z.content, {Record(n, k)}, l);
        }
      } else {
        TypeGone(z, n, k);
      }
    }
  }

  lemma DeletedName(z: Zone, n: Name)
    requires AllTrue(z)
    ensures TrueProofs(Do(z, Delete(n, None)))
  {
    var t := Do(z, Delete(n, None));
    TrueProofsIff(t);
    if RowsAt(z, n, None) != {} {
      forall l | Told(t, l) ensures TrueLink(t.content, l) {
        OthersUntouched(z.content, RowsAt(z, n, None), l);
      }
    }
  }

  /**
   * Between a deletion and its mark: taking a name away with its link leaves true proofs behind, taking one type
   * leaves the name's link claiming it. ANAME is claimed by no link, and a type that was not there changes nothing.
   */
  lemma DeletedWhileUnmarked(z: Zone, n: Name, kind: Option<Kind>)
    requires InPlace(z.apex, z.content) && Fresh(z) && Served(z) && Enabled(z, Delete(n, kind))
    ensures Served(Do(z, Delete(n, kind)))
    ensures TrueProofs(Do(z, Delete(n, kind))) <==>
      kind.None? || kind.value == ANAME || Record(n, kind.value) !in z.content
  {
    if kind.None? {
      FreshIsTrue(z);
      DeletedName(z, n);
    } else {
      DeletedType(z, n, kind.value);
    }
  }

  /** A pass that gets no further than clearing the mark, and is given up. */
  lemma FailsOnceCleared(z: Zone, e: Zone) returns (steps: seq<Step>)
    requires e == z.(active := true, pass := Keyed) && z.pass.Idle? && !z.active
    ensures Run(e, steps, z.(pending := false))
  {
    var f := Do(e, Clear);
    var g := Do(f, Fail);
    var t := Do(g, GiveUp);
    assert t == z.(pending := false);
    RunCons(g, GiveUp, [], t);
    RunCons(f, Fail, [GiveUp], t);
    RunCons(e, Clear, [Fail] + [GiveUp], t);
    steps := [Clear] + ([Fail] + [GiveUp]);
  }

  lemma FruitlessPass(z: Zone) returns (steps: seq<Step>)
    requires z.usable && z.pass.Idle? && !z.active && Key(z) in z.content
    ensures Run(z, steps, z.(pending := false))
  {
    var c := Do(z, Begin);
    var d := Do(c, Unkey);
    var e := Do(d, Rekey);
    var t := z.(pending := false);
    assert e.content == z.content;
    steps := FailsOnceCleared(z, e);
    RunCons(d, Rekey, steps, t);
    RunCons(c, Unkey, [Rekey] + steps, t);
    RunCons(z, Begin, [Unkey] + ([Rekey] + steps), t);
    steps := [Begin] + ([Unkey] + ([Rekey] + steps));
  }

  /** Insert, mark, and such a pass. */
  lemma FailedRun(z: Zone, r: Record) returns (steps: seq<Step>)
    requires z.usable && z.pass.Idle? && !z.active && Key(z) in z.content
    requires Enabled(z, Insert(r)) && IsZoneContent(r.kind)
    ensures Run(z, steps, z.(content := z.content + {r}, pending := false))
  {
    var a := Do(z, Insert(r));
    var b := Do(a, Mark);
    var t := b.(pending := false);
    steps := FruitlessPass(b);
    RunCons(a, Mark, steps, t);
    RunCons(z, Insert(r), [Mark] + steps, t);
    steps := [Insert(r)] + ([Mark] + steps);
  }

  /**
   * A pass that fails after clearing the mark leaves the zone served as it is until someone re-marks it. The re-sign
   * loop does; a pass started by hand gives up and goes idle, and the proofs are then true exactly when the row was no
   * news to the chain.
   */
  lemma FailedPassIff(z: Zone, r: Record)
    requires InPlace(z.apex, z.content) && Fresh(z) && z.usable && z.pass.Idle? && !z.active && Key(z) in z.content
    requires Enabled(z, Insert(r)) && IsZoneContent(r.kind)
    ensures var t := z.(content := z.content + {r}, pending := false);
      && (exists steps :: Run(z, steps, t))
      && Served(t) && t.unmarked == z.unmarked && (TrueProofs(t) <==> AlreadyChained(z, r))
  {
    var steps := FailedRun(z, r);
    var t := z.(content := z.content + {r}, pending := false);
    NewRowIff(z, r);
    TrueProofsIff(t);
    assert forall l :: Told(t, l) <==> Told(z, l);
  }

  /** Once a pass publishes, with nothing unaccounted for, what it leaves behind is true wherever it fails. */
  lemma PublishingIsTrue(z: Zone)
    requires Inv(z) && Quiet(z) && z.pass.Publishing?
    ensures TrueProofs(Do(z, Fail)) && TrueProofs(Do(Do(z, Fail), GiveUp))
  {
    TrueProofsIff(Do(z, Fail));
    TrueProofsIff(Do(Do(z, Fail), GiveUp));
  }

  // ---- one pass, undisturbed ----

  /** The stored zone as `sign_zone` updates it. */
  class ZoneStore {
    const apex: Name
    const usable: bool
    var content: set<Record>
    var links: Stored
    var signatures: set<Name>
    var pending: bool
    var active: bool

    /** Loads what is on disk, marked: nothing of the old chain is served before a pass has been over it. */
    constructor (apex: Name, usable: bool, content: set<Record>, links: Stored, signatures: set<Name>)
      requires InPlace(apex, content)
      requires forall l :: l in links ==> InZone(l.owner, apex)
      ensures View() == Zone(apex, usable, content, links, signatures, true, false, 0, Idle)
      ensures Init(View()) && !Served(View())
    {
      this.apex, this.usable := apex, usable;
      this.content, this.links, this.signatures := content, links, signatures;
      pending, active := true, false;
    }

    ghost function View(): Zone
      reads this
    {
      Zone(apex, usable, content, links, signatures, pending, active, 0, Idle)
    }

    /** Clears every old signature and link, so nothing outlives the name it was made for. */
    method DropOldChain()
      modifies this`links, this`signatures
      ensures links == [] && signatures == {}
    {
      var todo := (set l | l in links :: l.owner) + signatures;
      while todo != {}
        invariant forall l :: l in links ==> l.owner in todo
        invariant signatures <= todo
        decreases |todo|
      {
        var n :| n in todo;
        signatures := signatures - {n};
        links := WithoutOwner(links, n);
        todo := todo - {n};
      }
      HasElements(links);
    }

    /** All links first, then their signatures: nothing is signed while part of the chain is missing. */
    method PublishChain(chain: seq<Link>)
      requires links == [] && signatures == {}
      modifies this`links, this`signatures
      ensures links == chain && signatures == set l | l in chain :: l.owner
    {
      for i := 0 to |chain|
        invariant links == chain[..i] && signatures == {}
      {
        links := links + [chain[i]];
      }
      for i := 0 to |chain|
        invariant links == chain && signatures == set l | l in chain[..i] :: l.owner
      {
        signatures := signatures + {chain[i].owner};
      }
      assert chain[..|chain|] == chain;
    }

    /**
     * `sign_zone` with nothing else running: without a usable key it only touches the in-progress mark;
     * with one it leaves the zone unmarked, its records as they were but for the apex DNSKEY, and its links
     * the chain of exactly those records, signed throughout.
     */
    method SignZone(candidates: seq<Record>) returns (signed: bool)
      requires Elements(candidates) == content + {Record(apex, DNSKEY)}
      modifies this
      ensures signed == usable
      ensures !signed ==> View() == old(View()).(active := false)
      ensures signed ==> Served(View()) && content == old(content) + {Record(apex, DNSKEY)} && Fresh(View())
    {
      active := true;
      if !usable {
        active := false;
        return false;
      }
      content := content - {Record(apex, DNSKEY)};
      content := content + {Record(apex, DNSKEY)};
      pending := false;
      var chain := BuildNsecChain(apex, candidates);
      DropOldChain();
      PublishChain(chain);
      active := false;
      assert content == Elements(candidates);
      WholeChainIsFresh(View());
      return true;
    }

    /** One round of the re-sign loop: a zone that could not be signed loses its mark all the same. */
    method ResignOnce(candidates: seq<Record>)
      requires Elements(candidates) == content + {Record(apex, DNSKEY)} && !active
      modifies this
      ensures !usable ==> View() == old(View()).(pending := false)
      ensures usable ==> Served(View()) && Fresh(View())
    {
      var signed := SignZone(candidates);
      if !signed {
        pending := false;
      }
    }
  }

  lemma WholeChainIsFresh(z: Zone)
    requires IsChain(z.apex, z.content, z.links) && z.signatures == set l | l in z.links :: l.owner
    ensures Fresh(z)
  {
    var owners :| Listing(z.apex, z.content, owners) && z.links == Linked(owners, z.content);
    forall o | o in owners ensures o in z.signatures {
      var i :| 0 <= i < |owners| && owners[i] == o;
      assert z.links[i].owner == o;
    }
    assert WholeChain(z, owners);
  }
}
