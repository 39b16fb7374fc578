/**
 * Authenticated denial: the proof the server attaches to a negative answer (`denial_proof`) and the
 * checks the resolver's validator makes of one (`prove_nxdomain`, `prove_nodata`).
 */
module Denial {
  import opened Basics
  import opened Names
  import opened NsecChain
  import opened NegativeAnswers

  /** The stored NSEC rows of a zone, in whatever order the database returns them. */
  type Stored = seq<Link>

  // ---- the server's side ----

  function FindCovering(stored: Stored, n: Name): (r: Option<Link>)
    ensures r.Some? ==> r.value in stored && Covers(r.value, n)
    ensures r.None? ==> forall l :: l in stored ==> !Covers(l, n)
  {
    if stored == [] then None
    else if Covers(stored[0], n) then Some(stored[0])
    else FindCovering(stored[1..], n)
  }

  function FindOwner(stored: Stored, n: Name): (r: Option<Link>)
    ensures r.Some? ==> r.value in stored && r.value.owner == n
    ensures r.None? ==> forall l :: l in stored ==> l.owner != n
  {
    if stored == [] then None
    else if stored[0].owner == n then Some(stored[0])
    else FindOwner(stored[1..], n)
  }

  /** Both links or neither: a partial proof is a rejected proof. A shared link is sent once. */
  function BothLinks(a: Option<Link>, b: Option<Link>): Stored {
    match (a, b)
    case (Some(x), Some(y)) => if x == y then [x] else [x, y]
    case _ => []
  }

  /** The links the proof needs, each the first one found; none when the proof cannot be completed. */
  function ChosenLinks(stored: Stored, rows: set<Record>, apex: Name, q: Name): Stored {
    match PresenceOf(rows, q)
    case Real =>
      var own := if FindOwner(stored, q).Some? then FindOwner(stored, q) else FindCovering(stored, q);
      if own.Some? then [own.value] else []
    case Wildcard(w) => BothLinks(FindOwner(stored, w), FindCovering(stored, q))
    case Absent =>
      var w := WildcardOf(ClosestEncloser(rows, apex, q));
      // A wildcard that exists cannot be proven absent.
      if FindOwner(stored, w).Some? then [] else BothLinks(FindCovering(stored, q), FindCovering(stored, w))
  }

  /** All NSEC rows of an owner; identical rows are one record on the wire. */
  function LinksAt(stored: Stored, n: Name): (r: Stored)
    ensures forall l :: l in r <==> l in stored && l.owner == n
  {
    if stored == [] then []
    else
      var front, last := LinksAt(stored[..|stored| - 1], n), stored[|stored| - 1];
      if last.owner == n && last !in front then front + [last] else front
  }

  /**
   * `denial_proof`: for each owner chosen every NSEC row it has, or nothing at all unless each of them is signed. The
   * empty sequence means the negative goes out without a proof.
   */
  function DenialProof(stored: Stored, signed: set<Name>, rows: set<Record>, apex: Name, q: Name): (r: Stored)
    ensures forall l :: l in r ==> l in stored && l.owner in signed
  {
    var chosen := ChosenLinks(stored, rows, apex, q);
    if exists l :: l in chosen && l.owner !in signed then []
    else if chosen == [] then []
    else
      var first, last := chosen[0], chosen[|chosen| - 1];
      assert first in chosen && last in chosen;
      if first.owner == last.owner then LinksAt(stored, first.owner)
      else LinksAt(stored, first.owner) + LinksAt(stored, last.owner)
  }

  // ---- the validator's side ----

  /** `wildcard_of`: `*` at the name's parent, clamped to the zone apex. */
  function SourceOfSynthesis(q: Name, zone: Name): Name {
    WildcardOf(if q != [] && InZone(Parent(q), zone) then Parent(q) else zone)
  }

  /** `prove_nxdomain` over NSEC records whose signatures verified. */
  predicate ProvesNxDomain(q: Name, zone: Name, proof: Stored) {
    var w := SourceOfSynthesis(q, zone);
    && FindOwner(proof, q).None?
    && FindCovering(proof, q).Some?
    && (FindCovering(proof, w).Some? || FindOwner(proof, w).Some?)
  }

  /** `prove_nodata` over NSEC records; a query type without a record kind is in no bitmap. */
  predicate ProvesNoData(q: Name, kind: Option<Kind>, zone: Name, proof: Stored) {
    match FindOwner(proof, q)
    case Some(own) => !Claims(own, kind) && CNAME !in own.types
    case None =>
      match FindOwner(proof, SourceOfSynthesis(q, zone))
      case Some(wild) => !Claims(wild, kind) && FindCovering(proof, q).Some?
      case None => false
  }

  predicate Claims(l: Link, kind: Option<Kind>) {
    kind.Some? && kind.value in l.types
  }

  /** A proof made of links from `stored`, in any order and number. */
  predicate Drawn(proof: Stored, stored: Stored) {
    forall l :: l in proof ==> l in stored
  }

  // ---- a zone whose chain is current ----

  /**
   * The state a completed signing pass leaves: the stored links are the chain of the rows, in any
   * order, and every row of the zone, the pass's own included, sits at a name it chained.
   */
  ghost predicate Signed(apex: Name, rows: set<Record>, owners: seq<Name>, stored: Stored) {
    && Listing(apex, rows, owners)
    && Elements(stored) == Elements(Linked(owners, rows))
    && (forall r :: r in rows && InZone(r.name, apex) ==> r.name in owners)
    && (forall o :: o in owners ==> Record(o, NSEC) in rows)
  }

  predicate AllSigned(owners: seq<Name>, signed: set<Name>) {
    forall o :: o in owners ==> o in signed
  }

  lemma StoredLink(apex: Name, rows: set<Record>, owners: seq<Name>, stored: Stored, l: Link) returns (i: nat)
    requires Signed(apex, rows, owners, stored) && l in stored
    ensures i < |owners| && l == LinkAt(owners, rows, i)
  {
    assert l in Elements(Linked(owners, rows));
    i :| 0 <= i < |owners| && Linked(owners, rows)[i] == l;
  }

  lemma LinkIsStored(apex: Name, rows: set<Record>, owners: seq<Name>, stored: Stored, i: nat)
    requires Signed(apex, rows, owners, stored) && i < |owners|
    ensures LinkAt(owners, rows, i) in stored
  {
    assert Linked(owners, rows)[i] in Elements(stored);
  }

  lemma OneLinkPerOwner(apex: Name, rows: set<Record>, owners: seq<Name>, stored: Stored, a: Link, b: Link)
    requires Signed(apex, rows, owners, stored) && a in stored && b in stored && a.owner == b.owner
    ensures a == b
  {
    var i := StoredLink(apex, rows, owners, stored, a);
    var j := StoredLink(apex, rows, owners, stored, b);
    AscendingIndices(owners, i, j);
  }

  /** Every name has its own link, or one link covering it; the lookups find that link and no other. */
  lemma StoredTiles(apex: Name, rows: set<Record>, owners: seq<Name>, stored: Stored, n: Name) returns (l: Link)
    requires Signed(apex, rows, owners, stored)
    ensures l in stored
    ensures n in owners ==>
      FindOwner(stored, n) == Some(l) && FindCovering(stored, n) == None && l.types == TypesAt(rows, n)
    ensures n !in owners ==> FindCovering(stored, n) == Some(l) && FindOwner(stored, n) == None
  {
    ApexFirst(apex, rows, owners);
    var at := ChainTiles(owners, rows, n);
    LinkIsStored(apex, rows, owners, stored, at);
    l := LinkAt(owners, rows, at);
    if FindCovering(stored, n).Some? {
      var i := StoredLink(apex, rows, owners, stored, FindCovering(stored, n).value);
    }
    if FindOwner(stored, n).Some? {
      var i := StoredLink(apex, rows, owners, stored, FindOwner(stored, n).value);
      if n in owners { AscendingIndices(owners, i, at); }
    }
  }

  /** In a signed zone a name is occupied exactly when some owner sits at it or beneath it. */
  lemma OccupiedByOwners(apex: Name, rows: set<Record>, owners: seq<Name>, stored: Stored, n: Name)
    requires Signed(apex, rows, owners, stored) && InZone(n, apex)
    ensures Occupied(rows, n) <==> exists o :: o in owners && InZone(o, n)
  {
  }

  /** Rows sit at owners only, so a name in the zone holds a row exactly when it is one. */
  lemma HoldersAreOwners(apex: Name, rows: set<Record>, owners: seq<Name>, stored: Stored, n: Name)
    requires Signed(apex, rows, owners, stored) && InZone(n, apex)
    ensures HoldsAny(rows, n) <==> n in owners
  {
  }

  lemma UnoccupiedIsBelowApex(apex: Name, rows: set<Record>, owners: seq<Name>, stored: Stored, n: Name)
    requires Signed(apex, rows, owners, stored) && InZone(n, apex) && !Occupied(rows, n)
    ensures n !in owners && n != apex && InZone(Parent(n), apex) && Occupied(rows, apex)
  {
  }

  /** No stored link spans a record, and each lists exactly its owner's types. */
  lemma StoredLinkIsTrue(apex: Name, rows: set<Record>, owners: seq<Name>, stored: Stored, l: Link, r: Record)
    requires Signed(apex, rows, owners, stored) && l in stored
    ensures r in rows && InZone(r.name, apex) ==> !Covers(l, r.name)
    ensures l.types == TypesAt(rows, l.owner)
  {
    var i := StoredLink(apex, rows, owners, stored, l);
    ApexFirst(apex, rows, owners);
    var at := ChainTiles(owners, rows, r.name);
  }

  lemma {:induction false} OneRowPerOwner(links: Stored, l: Link)
    requires l in links && forall m :: m in links && m.owner == l.owner ==> m == l
    ensures LinksAt(links, l.owner) == [l]
  {
    var front, last := links[..|links| - 1], links[|links| - 1];
    assert links == front + [last];
    if l in front {
      OneRowPerOwner(front, l);
    } else {
      assert forall m :: m in front ==> m in links;
      HasElements(LinksAt(front, l.owner));
    }
  }

  lemma ChosenShape(stored: Stored, rows: set<Record>, apex: Name, q: Name)
    ensures var chosen := ChosenLinks(stored, rows, apex, q);
      |chosen| <= 2 && (|chosen| == 2 ==> chosen[0] != chosen[1]) && forall l :: l in chosen ==> l in stored
  {
  }

  lemma SignedLink(
    apex: Name, rows: set<Record>, owners: seq<Name>, stored: Stored, signed: set<Name>, l: Link)
    requires Signed(apex, rows, owners, stored) && AllSigned(owners, signed) && l in stored
    ensures l.owner in signed && LinksAt(stored, l.owner) == [l]
  {
    var i := StoredLink(apex, rows, owners, stored, l);
    forall m | m in stored && m.owner == l.owner ensures m == l {
      OneLinkPerOwner(apex, rows, owners, stored, m, l);
    }
    OneRowPerOwner(stored, l);
  }

  /** In a zone signed throughout nothing is withheld for want of a signature, and one link is one row. */
  lemma SentIsChosen(
    apex: Name, rows: set<Record>, owners: seq<Name>, stored: Stored, signed: set<Name>, q: Name)
    requires Signed(apex, rows, owners, stored) && AllSigned(owners, signed)
    ensures DenialProof(stored, signed, rows, apex, q) == ChosenLinks(stored, rows, apex, q)
  {
    var chosen := ChosenLinks(stored, rows, apex, q);
    ChosenShape(stored, rows, apex, q);
    forall l | l in chosen ensures l.owner in signed && LinksAt(stored, l.owner) == [l] {
      SignedLink(apex, rows, owners, stored, signed, l);
    }
    if chosen != [] {
      assert chosen[0] in chosen && chosen[|chosen| - 1] in chosen;
      assert |chosen| == 2 ==> LinksAt(stored, chosen[0].owner) != LinksAt(stored, chosen[1].owner);
    }
  }

  /** No link of a proof spans a record: what the proof asserts absent is absent. */
  lemma ProofIsTrue(
    apex: Name, rows: set<Record>, owners: seq<Name>, stored: Stored, signed: set<Name>, q: Name, l: Link, r: Record)
    requires Signed(apex, rows, owners, stored)
    requires l in DenialProof(stored, signed, rows, apex, q)
    requires r in rows && InZone(r.name, apex)
    ensures !Covers(l, r.name)
    ensures l.types == TypesAt(rows, l.owner)
  {
    StoredLinkIsTrue(apex, rows, owners, stored, l, r);
  }

  /** The wildcard a validator looks for is the closest encloser's, or lies in an empty subtree with the name. */
  lemma SynthesisIsCovered(
    apex: Name, rows: set<Record>, owners: seq<Name>, stored: Stored, q: Name, overName: Link, overWildcard: Link)
    requires Signed(apex, rows, owners, stored)
    requires InZone(q, apex) && PresenceOf(rows, q) == Absent
    requires overName in stored && Covers(overName, q)
    requires Covers(overWildcard, WildcardOf(ClosestEncloser(rows, apex, q)))
    ensures Covers(overName, SourceOfSynthesis(q, apex)) || Covers(overWildcard, SourceOfSynthesis(q, apex))
  {
    UnoccupiedIsBelowApex(apex, rows, owners, stored, q);
    ClosestEncloserIsClosest(rows, apex, q, |q| - 1);
    if Parent(q) != ClosestEncloser(rows, apex, q) {
      assert q[..|q| - 1] == Parent(q);
      OccupiedByOwners(apex, rows, owners, stored, Parent(q));
      var i := StoredLink(apex, rows, owners, stored, overName);
      CoversEmptySubtree(owners, rows, i, Parent(q), q, WildcardOf(Parent(q)));
    }
  }

  /**
   * NXDOMAIN. The two links, one covering the name and one covering `*.<closest encloser>`, are always
   * there unless that wildcard exists, and a validator given them accepts the denial.
   */
  lemma NxDomainProof(apex: Name, rows: set<Record>, owners: seq<Name>, stored: Stored, signed: set<Name>, q: Name)
    requires Signed(apex, rows, owners, stored) && AllSigned(owners, signed)
    requires InZone(q, apex) && PresenceOf(rows, q) == Absent
    ensures var proof := DenialProof(stored, signed, rows, apex, q);
      var w := WildcardOf(ClosestEncloser(rows, apex, q));
      && (proof == [] <==> w in owners)
      && (proof != [] ==>
           && (exists l :: l in proof && Covers(l, q))
           && (exists l :: l in proof && Covers(l, w))
           && ProvesNxDomain(q, apex, proof))
  {
    SentIsChosen(apex, rows, owners, stored, signed, q);
    UnoccupiedIsBelowApex(apex, rows, owners, stored, q);
    var w := WildcardOf(ClosestEncloser(rows, apex, q));
    var overName := StoredTiles(apex, rows, owners, stored, q);
    var overWildcard := StoredTiles(apex, rows, owners, stored, w);
    if w !in owners {
      var proof := DenialProof(stored, signed, rows, apex, q);
      assert overName in proof && overWildcard in proof;
      assert forall l :: l in proof ==> l in stored;
      SynthesisIsCovered(apex, rows, owners, stored, q, overName, overWildcard);
    }
  }

  /** When the wildcard at the closest encloser exists, an absent name is at least two labels below it. */
  lemma WithheldOnlyBelowAWildcard(
    apex: Name, rows: set<Record>, owners: seq<Name>, stored: Stored, signed: set<Name>, q: Name)
    requires Signed(apex, rows, owners, stored) && AllSigned(owners, signed)
    requires InZone(q, apex) && PresenceOf(rows, q) == Absent && |q| >= 2
    requires DenialProof(stored, signed, rows, apex, q) == []
    ensures ClosestEncloser(rows, apex, q) < Parent(q)
  {
    NxDomainProof(apex, rows, owners, stored, signed, q);
    UnoccupiedIsBelowApex(apex, rows, owners, stored, q);
    ClosestEncloserIsClosest(rows, apex, q, 0);
    HoldersAreOwners(apex, rows, owners, stored, WildcardOf(ClosestEncloser(rows, apex, q)));
  }

  lemma WildcardLinksAccepted(q: Name, zone: Name, kind: Option<Kind>, own: Link, over: Link)
    requires own.owner == SourceOfSynthesis(q, zone) && Covers(over, q)
    requires own.owner != q && over.owner != q && (over.owner == own.owner ==> over == own)
    ensures ProvesNoData(q, kind, zone, BothLinks(Some(own), Some(over))) <==> !Claims(own, kind)
  {
  }

  /**
   * Wildcard NODATA: the wildcard's own link and the link over the name are served, and accepted exactly
   * when the wildcard does not carry the type.
   */
  lemma WildcardNoDataProof(
    apex: Name, rows: set<Record>, owners: seq<Name>, stored: Stored, signed: set<Name>, q: Name, kind: Option<Kind>)
    returns (own: Link, over: Link)
    requires Signed(apex, rows, owners, stored) && AllSigned(owners, signed)
    requires InZone(q, apex) && PresenceOf(rows, q).Wildcard?
    ensures DenialProof(stored, signed, rows, apex, q) == BothLinks(Some(own), Some(over))
    ensures own.owner == WildcardOf(Parent(q)) && own.types == TypesAt(rows, own.owner) && Covers(over, q)
    ensures ProvesNoData(q, kind, apex, DenialProof(stored, signed, rows, apex, q)) <==> !Claims(own, kind)
  {
    SentIsChosen(apex, rows, owners, stored, signed, q);
    UnoccupiedIsBelowApex(apex, rows, owners, stored, q);
    var w := WildcardOf(Parent(q));
    HoldersAreOwners(apex, rows, owners, stored, w);
    own := StoredTiles(apex, rows, owners, stored, w);
    over := StoredTiles(apex, rows, owners, stored, q);
    if over.owner == own.owner { OneLinkPerOwner(apex, rows, owners, stored, over, own); }
    WildcardLinksAccepted(q, apex, kind, own, over);
  }

  /**
   * NODATA at a name that exists. The proof is one link, and the validator accepts it exactly when the
   * name holds records of its own with neither the type nor a CNAME among them, or when the covering link
   * happens to be the wildcard beside the name. The proof for an ordinary empty non-terminal is refused.
   */
  lemma NoDataProof(
    apex: Name, rows: set<Record>, owners: seq<Name>, stored: Stored, signed: set<Name>, q: Name, kind: Option<Kind>)
    returns (l: Link)
    requires Signed(apex, rows, owners, stored) && AllSigned(owners, signed)
    requires InZone(q, apex) && PresenceOf(rows, q) == Real
    ensures DenialProof(stored, signed, rows, apex, q) == [l]
    ensures q in owners ==> l.owner == q && l.types == TypesAt(rows, q)
    ensures q !in owners ==> Covers(l, q)
    ensures ProvesNoData(q, kind, apex, [l]) <==>
      if q in owners then !Claims(l, kind) && CNAME !in l.types
      else l.owner == SourceOfSynthesis(q, apex) && !Claims(l, kind)
  {
    SentIsChosen(apex, rows, owners, stored, signed, q);
    l := StoredTiles(apex, rows, owners, stored, q);
    if q !in owners {
      assert l.owner != q;
    }
    assert FindOwner([l], l.owner) == Some(l);
  }

  /** What the zone says of a type at an owner: denied unless a row has it, or the chain itself puts it there. */
  predicate RowDenies(rows: set<Record>, n: Name, kind: Option<Kind>) {
    kind.None? || kind.value == ANAME || (kind.value !in {NSEC, RRSIG} && Record(n, kind.value) !in rows)
  }

  lemma ClaimsByRow(rows: set<Record>, l: Link, kind: Option<Kind>)
    requires l.types == TypesAt(rows, l.owner)
    ensures Claims(l, kind) <==> !RowDenies(rows, l.owner, kind)
  {
    if kind.Some? && EstablishesName(kind.value) && kind.value != ANAME {
      assert Record(l.owner, kind.value) in rows <==> kind.value in ClaimedAt(rows, l.owner);
    }
  }

  /**
   * Read off the rows: the NODATA proof of a name with records is accepted exactly when it has no CNAME row and no row
   * of the type, and that of a wildcard match exactly when the wildcard has no row of the type.
   */
  lemma HonestNoDataIff(
    apex: Name, rows: set<Record>, owners: seq<Name>, stored: Stored, signed: set<Name>, q: Name, kind: Option<Kind>)
    requires Signed(apex, rows, owners, stored) && AllSigned(owners, signed) && InZone(q, apex)
    ensures q in owners ==>
      (ProvesNoData(q, kind, apex, DenialProof(stored, signed, rows, apex, q)) <==>
         RowDenies(rows, q, kind) && Record(q, CNAME) !in rows)
    ensures PresenceOf(rows, q).Wildcard? ==>
      (ProvesNoData(q, kind, apex, DenialProof(stored, signed, rows, apex, q)) <==>
         RowDenies(rows, WildcardOf(Parent(q)), kind))
  {
    if q in owners {
      HoldersAreOwners(apex, rows, owners, stored, q);
      var l := NoDataProof(apex, rows, owners, stored, signed, q, kind);
      ClaimsByRow(rows, l, kind);
      ClaimsByRow(rows, l, Some(CNAME));
    } else if PresenceOf(rows, q).Wildcard? {
      var own, over := WildcardNoDataProof(apex, rows, owners, stored, signed, q, kind);
      ClaimsByRow(rows, own, kind);
    }
  }

  /** The link the chain has for a name: its own, or the one over it. */
  ghost predicate LinkFor(owners: seq<Name>, stored: Stored, n: Name, l: Link) {
    l in stored && if n in owners then l.owner == n else Covers(l, n)
  }

  /** A drawn proof answers for a name exactly when it has the chain's link for it. */
  lemma DrawnFinds(apex: Name, rows: set<Record>, owners: seq<Name>, stored: Stored, proof: Stored, n: Name)
    returns (l: Link)
    requires Signed(apex, rows, owners, stored) && Drawn(proof, stored)
    ensures LinkFor(owners, stored, n, l)
    ensures FindOwner(proof, n) == if n in owners && l in proof then Some(l) else None
    ensures FindCovering(proof, n) == if n !in owners && l in proof then Some(l) else None
  {
    l := StoredTiles(apex, rows, owners, stored, n);
    if FindOwner(proof, n).Some? {
      OneLinkPerOwner(apex, rows, owners, stored, l, FindOwner(proof, n).value);
    }
    OnlyOneCovers(apex, rows, owners, stored, n);
  }

  lemma OnlyOneCovers(apex: Name, rows: set<Record>, owners: seq<Name>, stored: Stored, n: Name)
    requires Signed(apex, rows, owners, stored)
    ensures forall l :: l in stored && Covers(l, n) ==> n !in owners && FindCovering(stored, n) == Some(l)
  {
    ApexFirst(apex, rows, owners);
    var at := ChainTiles(owners, rows, n);
    forall l | l in stored && Covers(l, n) ensures n !in owners && FindCovering(stored, n) == Some(l) {
      var i := StoredLink(apex, rows, owners, stored, l);
      var j := StoredLink(apex, rows, owners, stored, FindCovering(stored, n).value);
    }
  }

  /**
   * Whatever links a client is sent, the validator accepts NXDOMAIN for a name exactly when the name is no owner
   * and the chain's links for the name and for the wildcard beside it are among them.
   */
  lemma ValidatorAcceptsNonOwners(
    apex: Name, rows: set<Record>, owners: seq<Name>, stored: Stored, proof: Stored, q: Name)
    returns (over: Link, beside: Link)
    requires Signed(apex, rows, owners, stored) && Drawn(proof, stored)
    ensures LinkFor(owners, stored, q, over) && LinkFor(owners, stored, SourceOfSynthesis(q, apex), beside)
    ensures ProvesNxDomain(q, apex, proof) <==> q !in owners && over in proof && beside in proof
  {
    over := DrawnFinds(apex, rows, owners, stored, proof, q);
    beside := DrawnFinds(apex, rows, owners, stored, proof, SourceOfSynthesis(q, apex));
  }

  /**
   * So an accepted denial, from whatever links, is a true one exactly when the name is not an empty non-terminal
   * and no wildcard sits beside it: those names exist without being owners.
   */
  lemma AcceptedDenialIsTrue(
    apex: Name, rows: set<Record>, owners: seq<Name>, stored: Stored, proof: Stored, q: Name)
    requires Signed(apex, rows, owners, stored) && Drawn(proof, stored) && InZone(q, apex) && |q| >= 2
    requires ProvesNxDomain(q, apex, proof)
    ensures PresenceOf(rows, q) == Absent <==>
      !(exists o :: o in owners && q < o) && WildcardOf(Parent(q)) !in owners
  {
    var over, beside := ValidatorAcceptsNonOwners(apex, rows, owners, stored, proof, q);
    OccupiedByOwners(apex, rows, owners, stored, q);
    assert apex in Elements(owners) && q != apex;
    assert apex < q && InZone(Parent(q), apex);
    HoldersAreOwners(apex, rows, owners, stored, WildcardOf(Parent(q)));
    forall o | o in owners ensures InZone(o, q) <==> q < o {
      assert |o| == |q| && InZone(o, q) ==> o == q;
    }
  }

  /** A link's list has every type its owner holds, but for ANAME. */
  lemma TypesTell(apex: Name, rows: set<Record>, owners: seq<Name>, stored: Stored, l: Link, k: Kind)
    requires Signed(apex, rows, owners, stored) && l in stored
    ensures Record(l.owner, k) in rows && k != ANAME ==> k in l.types
    ensures k == NSEC ==> k in l.types
  {
    var i := StoredLink(apex, rows, owners, stored, l);
    if Record(l.owner, k) in rows && EstablishesName(k) && k != ANAME {
      assert k in ClaimedAt(rows, l.owner);
    }
  }

  /** NODATA is accepted from the name's own link, or from the link of the wildcard beside it. */
  lemma NoDataComesFrom(
    apex: Name, rows: set<Record>, owners: seq<Name>, stored: Stored, proof: Stored, q: Name, k: Kind)
    requires Signed(apex, rows, owners, stored) && Drawn(proof, stored) && ProvesNoData(q, Some(k), apex, proof)
    ensures if q in owners then Record(q, k) in rows ==> k == ANAME
            else SourceOfSynthesis(q, apex) in owners && (Record(SourceOfSynthesis(q, apex), k) in rows ==> k == ANAME)
  {
    var own := DrawnFinds(apex, rows, owners, stored, proof, q);
    var wild := DrawnFinds(apex, rows, owners, stored, proof, SourceOfSynthesis(q, apex));
    TypesTell(apex, rows, owners, stored, own, k);
    TypesTell(apex, rows, owners, stored, wild, k);
  }

  /**
   * An accepted NODATA, from whatever links, is true: the name exists, and a row of the type answers for it in two
   * cases only. ANAME stands in no link's type list; and the lookup falls back to the wildcard beside a name even
   * when the name has rows of its own, which its own link does not say.
   */
  lemma AcceptedNoDataIsTrue(
    apex: Name, rows: set<Record>, owners: seq<Name>, stored: Stored, proof: Stored, q: Name, k: Kind)
    requires Signed(apex, rows, owners, stored) && Drawn(proof, stored) && InZone(q, apex) && |q| >= 2
    requires ProvesNoData(q, Some(k), apex, proof)
    ensures PresenceOf(rows, q) != Absent
    ensures var wild := WildcardOf(Parent(q));
      Lookup(rows, q, k) <==>
        || (k == ANAME && Record(q, ANAME) in rows)
        || ((k == ANAME || q in owners) && Record(wild, k) in rows)
  {
    NoDataComesFrom(apex, rows, owners, stored, proof, q, k);
    HoldersAreOwners(apex, rows, owners, stored, q);
    if q !in owners {
      assert apex in Elements(owners) && q != apex;
      assert apex < q && InZone(Parent(q), apex);
      HoldersAreOwners(apex, rows, owners, stored, WildcardOf(Parent(q)));
    }
  }

  // ---- an empty non-terminal, concretely ----

  const Apex: Name := ["e"]
  const Empty: Name := ["e", "b"]
  const Leaf: Name := ["e", "b", "x"]

  /** `x.b.e.` holds an address and `b.e.` holds nothing. */
  const EmptyRows: set<Record> :=
    {Record(Apex, NSEC), Record(Leaf, A), Record(Leaf, NSEC)}

  lemma EmptyRowsSigned()
    ensures Signed(Apex, EmptyRows, [Apex, Leaf], Linked([Apex, Leaf], EmptyRows))
  {
  }

  /** The server proves NODATA for `b.e.` with the link over it, and the validator refuses that proof. */
  lemma EmptyNonTerminalIsRefused()
    ensures var stored, signed := Linked([Apex, Leaf], EmptyRows), {Apex, Leaf};
      && Signed(Apex, EmptyRows, [Apex, Leaf], stored) && AllSigned([Apex, Leaf], signed)
      && PresenceOf(EmptyRows, Empty) == Real
      && DenialProof(stored, signed, EmptyRows, Apex, Empty) != []
      && !ProvesNoData(Empty, Some(A), Apex, DenialProof(stored, signed, EmptyRows, Apex, Empty))
  {
    var stored := Linked([Apex, Leaf], EmptyRows);
    EmptyRowsSigned();
    assert InZone(Leaf, Empty) && Record(Leaf, A) in EmptyRows;
    var l := NoDataProof(Apex, EmptyRows, [Apex, Leaf], stored, {Apex, Leaf}, Empty, Some(A));
    var i := StoredLink(Apex, EmptyRows, [Apex, Leaf], stored, l);
    assert SourceOfSynthesis(Empty, Apex) == ["e", "*"];
  }
}
