/** The NSEC chain a signing pass builds over a zone. */
module NsecChain {
  import opened Names

  datatype Kind =
    | A | AAAA | CNAME | MX | TXT | NS | SOA | SRV | PTR | URI | SSHFP | DNAME | ANAME | ZONEMD
    | TLSA | DNSKEY | DS | RRSIG | NSEC | NSEC3 | NSEC3PARAM | CERT | SVCB | HTTPS

  /** A stored record, as far as denial is concerned: where it sits and what type it has. */
  datatype Record = Record(name: Name, kind: Kind)

  /** One NSEC: nothing between `owner` and `next`, and exactly these types at `owner`. */
  datatype Link = Link(owner: Name, next: Name, types: set<Kind>)

  function Elements<T>(s: seq<T>): set<T> {
    set x | x in s
  }

  lemma HasElements<T>(s: seq<T>)
    ensures s != [] ==> exists x :: x in s
  {
    if s != [] {
      assert s[0] in s;
    }
  }

  lemma ElementsAppend<T>(s: seq<T>, x: T)
    ensures Elements(s + [x]) == Elements(s) + {x}
  {
  }

  /** RRSIG and NSEC rows are products of signing and never a reason for a name to exist. */
  predicate EstablishesName(k: Kind) {
    k != RRSIG && k != NSEC
  }

  function HoldingNames(apex: Name, records: set<Record>): set<Name> {
    set r | r in records && InZone(r.name, apex) && EstablishesName(r.kind) :: r.name
  }

  /** The names holding authoritative data, and the apex whether or not it holds any. */
  function Owners(apex: Name, records: set<Record>): set<Name> {
    {apex} + HoldingNames(apex, records)
  }

  /** ANAME has no wire presence, so its name is chained and the type is never claimed. */
  function ClaimedAt(records: set<Record>, owner: Name): set<Kind> {
    set r | r in records && r.name == owner && EstablishesName(r.kind) && r.kind != ANAME :: r.kind
  }

  /** The bitmap of an owner: signing puts an NSEC and an RRSIG at every name it chains. */
  function TypesAt(records: set<Record>, owner: Name): set<Kind> {
    ClaimedAt(records, owner) + {NSEC, RRSIG}
  }

  ghost predicate Ascending(s: seq<Name>) {
    forall i, j :: 0 <= i < j < |s| ==> Before(s[i], s[j])
  }

  /** `nsec_covers`: strictly inside (owner, next), where a link that does not ascend wraps. */
  predicate Covers(l: Link, n: Name) {
    if Before(l.owner, l.next) then Before(l.owner, n) && Before(n, l.next)
    else Before(l.owner, n) || Before(n, l.next)
  }

  function LinkAt(owners: seq<Name>, records: set<Record>, i: nat): Link
    requires i < |owners|
  {
    Link(owners[i], if i + 1 < |owners| then owners[i + 1] else owners[0], TypesAt(records, owners[i]))
  }

  /** Each owner points at the one after it, the last at the first. */
  function Linked(owners: seq<Name>, records: set<Record>): seq<Link> {
    seq(|owners|, i requires 0 <= i < |owners| => LinkAt(owners, records, i))
  }

  /** `owners` lists the zone's owners in canonical order. */
  ghost predicate Listing(apex: Name, records: set<Record>, owners: seq<Name>) {
    Ascending(owners) && Elements(owners) == Owners(apex, records)
  }

  /** The chain of a zone: its owners in canonical order, linked into a ring. */
  ghost predicate IsChain(apex: Name, records: set<Record>, chain: seq<Link>) {
    exists owners :: Listing(apex, records, owners) && chain == Linked(owners, records)
  }

  // ---- building it ----

  /** One step of the sort: `n` goes before the first name that sorts after it. */
  method InsertName(s: seq<Name>, n: Name) returns (r: seq<Name>)
    requires Ascending(s) && n !in s
    ensures Ascending(r)
    ensures Elements(r) == Elements(s) + {n}
  {
    var k := 0;
    while k < |s| && Before(s[k], n)
      invariant 0 <= k <= |s|
      invariant forall i :: 0 <= i < k ==> Before(s[i], n)
    {
      k := k + 1;
    }
    forall j | k <= j < |s| ensures Before(n, s[j]) {
      Trichotomy(s[k], n);
      if k < j { BeforeTransitive(n, s[k], s[j]); }
    }
    r := s[..k] + [n] + s[k..];
    assert s == s[..k] + s[k..];
  }

  ghost function Collected(apex: Name, records: set<Record>): map<Name, set<Kind>> {
    map n | n in HoldingNames(apex, records) :: ClaimedAt(records, n)
  }

  /** What one more row adds to the types collected so far. */
  function Collect(apex: Name, byName: map<Name, set<Kind>>, r: Record): map<Name, set<Kind>> {
    if !InZone(r.name, apex) || !EstablishesName(r.kind) then byName
    else
      var known := if r.name in byName then byName[r.name] else {};
      byName[r.name := if r.kind == ANAME then known else known + {r.kind}]
  }

  lemma CollectExtends(apex: Name, before: set<Record>, r: Record)
    ensures Collect(apex, Collected(apex, before), r) == Collected(apex, before + {r})
  {
    var was, now := Collected(apex, before), Collected(apex, before + {r});
    var got := Collect(apex, was, r);
    assert got.Keys == now.Keys;
    forall n | n in now ensures got[n] == now[n] {
      if n !in was {
        assert ClaimedAt(before, n) == {};
      }
    }
  }

  /** The first loop of `build_nsec_chain`: the types present at each in-zone name. */
  method CollectTypes(apex: Name, records: seq<Record>) returns (byName: map<Name, set<Kind>>)
    ensures byName == Collected(apex, Elements(records))
  {
    byName := map[];
    for i := 0 to |records|
      invariant byName == Collected(apex, Elements(records[..i]))
    {
      CollectExtends(apex, Elements(records[..i]), records[i]);
      assert Elements(records[..i + 1]) == Elements(records[..i]) + {records[i]};
      byName := Collect(apex, byName, records[i]);
    }
    assert records[..|records|] == records;
  }

  method SortNames(names: set<Name>) returns (ordered: seq<Name>)
    ensures Ascending(ordered) && Elements(ordered) == names
  {
    ordered := [];
    var left := names;
    while left != {}
      invariant Ascending(ordered)
      invariant Elements(ordered) + left == names && Elements(ordered) !! left
      decreases |left|
    {
      var n :| n in left;
      assert n !in Elements(ordered);
      ordered := InsertName(ordered, n);
      left := left - {n};
    }
  }

  /** `build_nsec_chain`. */
  method BuildNsecChain(apex: Name, records: seq<Record>) returns (chain: seq<Link>)
    ensures IsChain(apex, Elements(records), chain)
  {
    var names := CollectTypes(apex, records);
    // The apex exists whether or not anything is stored at it.
    if apex !in names {
      names := names[apex := {}];
    }
    ghost var all := Elements(records);
    var ordered := SortNames(names.Keys);
    assert Listing(apex, all, ordered);
    chain := [];
    for i := 0 to |ordered|
      invariant |chain| == i
      invariant forall j :: 0 <= j < i ==> chain[j] == LinkAt(ordered, all, j)
    {
      var owner := ordered[i];
      assert owner in Elements(ordered);
      var next := if i + 1 < |ordered| then ordered[i + 1] else ordered[0];
      chain := chain + [Link(owner, next, names[owner] + {NSEC, RRSIG})];
    }
    assert chain == Linked(ordered, all);
  }

  // ---- the ring ----

  lemma AscendingIndices(s: seq<Name>, i: nat, j: nat)
    requires Ascending(s) && i < |s| && j < |s|
    ensures Before(s[i], s[j]) <==> i < j
    ensures s[i] == s[j] ==> i == j
  {
    Trichotomy(s[i], s[j]);
  }

  /** Two ascending listings of one set are the same listing. */
  lemma {:induction false} ListingUnique(s: seq<Name>, t: seq<Name>)
    requires Ascending(s) && Ascending(t) && Elements(s) == Elements(t)
    ensures s == t
  {
    assert s != [] ==> s[0] in Elements(t);
    assert t != [] ==> t[0] in Elements(s);
    if s != [] {
      var i :| 0 <= i < |t| && t[i] == s[0];
      var j :| 0 <= j < |s| && s[j] == t[0];
      AscendingIndices(t, 0, i);
      AscendingIndices(s, 0, j);
      Trichotomy(s[0], t[0]);
      forall x ensures x in Elements(s[1..]) <==> x in Elements(s) && x != s[0] {
        if x in s[1..] {
          var m :| 0 <= m < |s[1..]| && s[1..][m] == x;
          AscendingIndices(s, 0, m + 1);
        }
      }
      forall x ensures x in Elements(t[1..]) <==> x in Elements(t) && x != t[0] {
        if x in t[1..] {
          var m :| 0 <= m < |t[1..]| && t[1..][m] == x;
          AscendingIndices(t, 0, m + 1);
        }
      }
      ListingUnique(s[1..], t[1..]);
      assert s == [s[0]] + s[1..] && t == [t[0]] + t[1..];
    }
  }

  /** Signing an unchanged zone twice gives the same chain. */
  lemma ChainUnique(apex: Name, records: set<Record>, c: seq<Link>, d: seq<Link>)
    requires IsChain(apex, records, c) && IsChain(apex, records, d)
    ensures c == d
  {
    var s :| Listing(apex, records, s) && c == Linked(s, records);
    var t :| Listing(apex, records, t) && d == Linked(t, records);
    ListingUnique(s, t);
  }

  /** The apex opens the chain, and the last link closes the ring onto it. */
  lemma ApexFirst(apex: Name, records: set<Record>, owners: seq<Name>)
    requires Listing(apex, records, owners)
    ensures |owners| > 0 && owners[0] == apex
  {
    assert apex in Elements(owners);
    assert owners[0] in Elements(owners);
    var i :| 0 <= i < |owners| && owners[i] == apex;
    if owners[0] != apex {
      AncestorFirst(apex, owners[0]);
      AscendingIndices(owners, 0, i);
      Trichotomy(apex, owners[0]);
    }
  }

  /** How many owners sort before `n`. */
  lemma Position(owners: seq<Name>, n: Name) returns (k: nat)
    requires Ascending(owners)
    ensures k <= |owners|
    ensures forall i :: 0 <= i < |owners| ==> (Before(owners[i], n) <==> i < k)
    ensures n !in owners ==> forall i :: 0 <= i < |owners| ==> (Before(n, owners[i]) <==> k <= i)
    ensures n in owners ==> k < |owners| && owners[k] == n
  {
    k := 0;
    while k < |owners| && Before(owners[k], n)
      invariant k <= |owners|
      invariant forall i :: 0 <= i < k ==> Before(owners[i], n)
    {
      k := k + 1;
    }
    forall i | 0 <= i < |owners| ensures Before(owners[i], n) <==> i < k {
      if k <= i && Before(owners[i], n) {
        if k < i { BeforeTransitive(owners[k], owners[i], n); }
      }
    }
    forall i | 0 <= i < |owners| ensures n == owners[i] || (Before(n, owners[i]) <==> k <= i) {
      Trichotomy(n, owners[i]);
    }
    if n in owners {
      var m :| 0 <= m < |owners| && owners[m] == n;
      forall i | 0 <= i < |owners| ensures Before(owners[i], n) <==> i < m {
        AscendingIndices(owners, i, m);
      }
      assert m == k;
    }
  }

  /** The link whose range holds `n`: the one before its position, around the ring. */
  function CoveringIndex(k: nat, count: nat): nat
    requires 0 < count && k <= count
  {
    if 0 < k then k - 1 else count - 1
  }

  lemma CoversByPosition(owners: seq<Name>, records: set<Record>, n: Name, k: nat, i: nat)
    requires Ascending(owners) && i < |owners| && k <= |owners|
    requires forall x :: 0 <= x < |owners| ==> (Before(owners[x], n) <==> x < k)
    requires n !in owners ==> forall x :: 0 <= x < |owners| ==> (Before(n, owners[x]) <==> k <= x)
    requires n in owners ==> k < |owners| && owners[k] == n
    ensures Covers(LinkAt(owners, records, i), n) <==> n !in owners && i == CoveringIndex(k, |owners|)
  {
    var next := if i + 1 < |owners| then i + 1 else 0;
    AscendingIndices(owners, i, next);
    if n in owners {
      AscendingIndices(owners, k, next);
    }
  }

  /**
   * The chain tiles the name space: a name is an owner, or exactly one link covers it. Nothing is
   * covered twice, nothing is missed, and no link covers a name that exists.
   */
  lemma ChainTiles(owners: seq<Name>, records: set<Record>, n: Name) returns (at: nat)
    requires Ascending(owners) && owners != []
    ensures at < |owners|
    ensures n in owners ==> owners[at] == n
    ensures forall i :: 0 <= i < |owners| ==>
      (Covers(LinkAt(owners, records, i), n) <==> n !in owners && i == at)
  {
    var k := Position(owners, n);
    forall i | 0 <= i < |owners|
      ensures Covers(LinkAt(owners, records, i), n) <==> n !in owners && i == CoveringIndex(k, |owners|)
    {
      CoversByPosition(owners, records, n, k, i);
    }
    at := if n in owners then k else CoveringIndex(k, |owners|);
  }

  /** If a link covers one name of a subtree that holds no owner, it covers the whole subtree. */
  lemma CoversEmptySubtree(owners: seq<Name>, records: set<Record>, i: nat, top: Name, a: Name, b: Name)
    requires Ascending(owners) && i < |owners|
    requires forall o :: o in owners ==> !InZone(o, top)
    requires InZone(a, top) && InZone(b, top)
    requires Covers(LinkAt(owners, records, i), a)
    ensures Covers(LinkAt(owners, records, i), b)
  {
    var l := LinkAt(owners, records, i);
    assert l.owner in owners && l.next in owners;
    SameSide(top, a, b, l.owner);
    SameSide(top, a, b, l.next);
  }

  /** A name outside a subtree sorts on one side of all of it. */
  lemma SameSide(top: Name, a: Name, b: Name, o: Name)
    requires InZone(a, top) && InZone(b, top) && !InZone(o, top)
    ensures Before(o, a) <==> Before(o, b)
    ensures Before(a, o) <==> Before(b, o)
  {
    Trichotomy(a, o);
    Trichotomy(b, o);
    if Before(a, o) && Before(o, b) { SubtreeIsInterval(top, a, o, b); }
    if Before(b, o) && Before(o, a) { SubtreeIsInterval(top, b, o, a); }
  }
}
