/** Which negative a name is owed, and why it never depends on the type asked for. */
module NegativeAnswers {
  import opened Basics
  import opened Names
  import opened NsecChain

  /** What the zone knows about a queried name. */
  datatype Presence = Real | Wildcard(owner: Name) | Absent

  datatype Answer = Positive | NoData | NxDomain

  /** `name_occupied`: a row at the name, of any type, or a row beneath it. */
  predicate Occupied(rows: set<Record>, n: Name) {
    exists r :: r in rows && InZone(r.name, n)
  }

  predicate HoldsAny(rows: set<Record>, n: Name) {
    exists r :: r in rows && r.name == n
  }

  /** `make_wildcard_name`: the first label becomes `*`; a single label or the root has none. */
  function WildcardName(n: Name): Option<Name> {
    if |n| < 2 then None else Some(WildcardOf(Parent(n)))
  }

  function PresenceOf(rows: set<Record>, n: Name): Presence {
    if Occupied(rows, n) then Real
    else if WildcardName(n).Some? && HoldsAny(rows, WildcardName(n).value) then Wildcard(WildcardName(n).value)
    else Absent
  }

  // ---- positive answers ----

  /** `Database::lookup`: the exact name, then the wildcard at its parent. */
  predicate Lookup(rows: set<Record>, n: Name, k: Kind) {
    || Record(n, k) in rows
    || (WildcardName(n).Some? && Record(WildcardName(n).value, k) in rows)
  }

  /**
   * The local stage of `resolve_query`: exact, wildcard, ANAME for an address query, then CNAME at the
   * name. A query type with no record kind gets only the CNAME, and gets it through the wildcard too.
   */
  predicate LocalHit(rows: set<Record>, aname: map<Name, Name>, q: Name, kind: Option<Kind>) {
    match kind
    case None => Lookup(rows, q, CNAME)
    case Some(k) =>
      || Lookup(rows, q, k)
      || (k in {A, AAAA} && Record(q, ANAME) in rows && q in aname && Lookup(rows, aname[q], k))
      || Record(q, CNAME) in rows
  }

  /** `check_dname_global`: a DNAME at a proper ancestor, looked up with its own wildcard fallback. */
  predicate DnameAbove(rows: set<Record>, q: Name) {
    exists i :: 0 < i < |q| && Lookup(rows, q[..i], DNAME)
  }

  /** The answer for a name inside a zone this server is authoritative for. */
  function Resolve(rows: set<Record>, aname: map<Name, Name>, q: Name, kind: Option<Kind>): Answer {
    if LocalHit(rows, aname, q, kind) || DnameAbove(rows, q) then Positive
    else if PresenceOf(rows, q) == Absent then NxDomain
    else NoData
  }

  // ---- what the decision guarantees ----

  /** The type, at the name or at the wildcard beside it. */
  predicate TypeThere(rows: set<Record>, n: Name, k: Kind) {
    Record(n, k) in rows || (|n| >= 2 && Record(n[..|n| - 1] + ["*"], k) in rows)
  }

  /**
   * A positive answer, row by row: the type or a CNAME at the name, the type at the wildcard beside it, for an address
   * the target of an ANAME at the name, or a DNAME at or beside a proper ancestor. A type without a record kind is
   * answered by a CNAME alone, at the name or by wildcard.
   */
  lemma PositiveIff(rows: set<Record>, aname: map<Name, Name>, q: Name, kind: Option<Kind>)
    ensures Resolve(rows, aname, q, kind) == Positive <==>
      || Record(q, CNAME) in rows
      || (kind.Some? && Record(q, kind.value) in rows)
      || (kind.Some? && |q| >= 2 && Record(q[..|q| - 1] + ["*"], kind.value) in rows)
      || (kind.None? && |q| >= 2 && Record(q[..|q| - 1] + ["*"], CNAME) in rows)
      || (kind in {Some(A), Some(AAAA)} && Record(q, ANAME) in rows && q in aname &&
          TypeThere(rows, aname[q], kind.value))
      || (exists i :: 0 < i < |q| && TypeThere(rows, q[..i], DNAME))
  {
    assert forall n, k :: TypeThere(rows, n, k) <==> Lookup(rows, n, k);
  }

  /** A name answered for one type, directly or by wildcard, is never denied for another. */
  lemma PositiveNeverDenied(rows: set<Record>, aname: map<Name, Name>, q: Name, k: Option<Kind>, other: Option<Kind>)
    requires Resolve(rows, aname, q, k) == Positive
    ensures Resolve(rows, aname, q, other) != NxDomain
  {
  }

  /** Denial of a name is denial of everything beneath it, for every type (section 2 of RFC 8020). */
  lemma DenialIsDownwardClosed(
    rows: set<Record>, aname: map<Name, Name>, q: Name, k: Option<Kind>, below: Name, other: Option<Kind>)
    requires Resolve(rows, aname, q, k) == NxDomain
    requires InZone(below, q)
    ensures Resolve(rows, aname, below, other) == NxDomain
  {
    forall r | r in rows ensures !InZone(r.name, q) {}
    assert !Occupied(rows, below);
    if below != q {
      assert WildcardName(below).Some? ==> InZone(WildcardName(below).value, q);
    }
    forall i | 0 < i < |below| ensures !Lookup(rows, below[..i], DNAME) {
      if i < |q| {
        assert below[..i] == q[..i];
      } else {
        assert InZone(below[..i], q);
        if i == |q| {
          assert below[..i] == q;
        } else {
          assert WildcardName(below[..i]).Some? ==> InZone(WildcardName(below[..i]).value, q);
        }
      }
    }
  }

  /** NXDOMAIN exactly when nothing sits at the name, beneath it, or one wildcard label above it. */
  lemma DeniedExactlyWhenNothingThere(rows: set<Record>, aname: map<Name, Name>, q: Name, k: Option<Kind>)
    ensures Resolve(rows, aname, q, k) == NxDomain <==>
      && !DnameAbove(rows, q)
      && (forall r :: r in rows ==> !InZone(r.name, q) && (|q| >= 2 ==> r.name != WildcardOf(Parent(q))))
  {
  }

  // ---- closest encloser ----

  /** The longest occupied proper ancestor inside the zone, or the apex. */
  function ClosestEncloser(rows: set<Record>, apex: Name, q: Name): Name
    decreases |q|
  {
    if |q| < 2 || !InZone(Parent(q), apex) then apex
    else if Occupied(rows, Parent(q)) then Parent(q)
    else ClosestEncloser(rows, apex, Parent(q))
  }

  /** `closest_encloser`: walk up one label at a time, stopping at the zone's edge. */
  method FindClosestEncloser(rows: set<Record>, apex: Name, q: Name) returns (encloser: Name)
    ensures encloser == ClosestEncloser(rows, apex, q)
  {
    var rest := q;
    while |rest| >= 2
      invariant ClosestEncloser(rows, apex, rest) == ClosestEncloser(rows, apex, q)
      decreases |rest|
    {
      var candidate := Parent(rest);
      if !InZone(candidate, apex) {
        break;
      }
      if Occupied(rows, candidate) {
        return candidate;
      }
      rest := candidate;
    }
    encloser := apex;
  }

  /** What makes it the closest encloser: it encloses the name, and nothing longer that does is occupied. */
  lemma {:induction false} ClosestEncloserIsClosest(rows: set<Record>, apex: Name, q: Name, i: nat)
    requires InZone(q, apex) && q != apex && Occupied(rows, apex)
    ensures var e := ClosestEncloser(rows, apex, q);
      InZone(e, apex) && e < q && Occupied(rows, e) && (|e| < i < |q| ==> !Occupied(rows, q[..i]))
    decreases |q|
  {
    if |q| >= 2 && !Occupied(rows, Parent(q)) && Parent(q) != apex {
      assert InZone(Parent(q), apex);
      ClosestEncloserIsClosest(rows, apex, Parent(q), i);
      if i < |q| - 1 { assert q[..i] == Parent(q)[..i]; }
    }
  }
}
