/** What a scope's peers are told, said of the scope's own rows and not of the keys they are found by. */
module ScopedAnswers {
  import opened Basics
  import opened Names
  import opened NameText
  import opened Scopes

  // ---- names as the lookups cut them up ----

  /** The labels joined by dots, without the last one. */
  function Bare(n: Name): string
    requires n != []
  {
    if |n| == 1 then n[0] else n[|n| - 1] + "." + Bare(Parent(n))
  }

  lemma {:induction false} BareIs(n: Name)
    requires n != [] && WellFormed(n)
    ensures Dotted(n) == Bare(n) + "."
    ensures Bare(n) != "" && Bare(n)[|Bare(n)| - 1] != '.'
    ensures '.' in Bare(n) <==> |n| >= 2
    ensures |n| >= 2 ==> AfterFirstDot(Bare(n)) == Bare(Parent(n))
  {
    var x := n[|n| - 1];
    if |n| == 1 {
      assert Dotted(Parent(n)) == "";
      assert x + "." + "" == x + ".";
      assert x[|x| - 1] in x;
    } else {
      BareIs(Parent(n));
      assert x + "." + (Bare(Parent(n)) + ".") == x + "." + Bare(Parent(n)) + ".";
      CutAtDot(x, Bare(Parent(n)));
      assert Bare(n)[|x|] == '.';
    }
  }

  lemma {:induction false} CutAtDot(x: string, rest: string)
    requires '.' !in x
    ensures AfterFirstDot(x + "." + rest) == rest
  {
    var s := x + "." + rest;
    if x == "" {
      assert s[1..] == rest;
    } else {
      assert s[0] == x[0] && x[0] in x;
      assert s[1..] == x[1..] + "." + rest;
      CutAtDot(x[1..], rest);
    }
  }

  lemma TrimmedIs(n: Name)
    requires n != [] && WellFormed(n)
    ensures TrimDots(Render(n)) == Bare(n)
  {
    BareIs(n);
    var s := Render(n);
    assert s[..|s| - 1] == Bare(n);
    assert TrimDots(Bare(n)) == Bare(n);
  }

  /** The wildcard a name falls back to: `*` in place of its own label, if there is a label above. */
  lemma WildcardNameIs(n: Name)
    requires WellFormed(n)
    ensures WildcardName(Render(n)) == if |n| >= 2 then Some(Render(WildcardOf(Parent(n)))) else None
  {
    if n == [] {
      assert TrimDots(".") == "";
    } else {
      TrimmedIs(n);
      BareIs(n);
      if |n| >= 2 {
        BareIs(Parent(n));
        assert Parent(WildcardOf(Parent(n))) == Parent(n);
        assert "*" + "." + Dotted(Parent(n)) == "*." + Bare(Parent(n)) + ".";
      }
    }
  }

  lemma {:induction false} LastTwoIs(n: Name)
    requires n != [] && WellFormed(n)
    ensures LastTwo(Bare(n)) == Bare(if |n| <= 2 then n else n[..2])
  {
    BareIs(n);
    if |n| > 2 {
      BareIs(Parent(n));
      LastTwoIs(Parent(n));
      assert |n| > 3 ==> Parent(n)[..2] == n[..2];
      assert |n| == 3 ==> Parent(n) == n[..2];
    } else if |n| == 2 {
      BareIs(Parent(n));
    }
  }

  /** The zone a stored name implies: its last two labels, or the only one. */
  lemma ZoneOfIs(n: Name)
    requires WellFormed(n)
    ensures ZoneOf(Render(n)) == if n == [] then None else Some(Render(if |n| <= 2 then n else n[..2]))
  {
    if n == [] {
      assert TrimDots(".") == "";
    } else {
      TrimmedIs(n);
      BareIs(n);
      LastTwoIs(n);
      BareIs(if |n| <= 2 then n else n[..2]);
    }
  }

  // ---- the rows behind a lookup ----

  /** The rows of one name and type, in order. */
  function At(own: Table, name: string, kind: Mnemonic): Table {
    if own == [] then []
    else if own[0].name == name && own[0].kind == kind then [own[0]] + At(own[1..], name, kind)
    else At(own[1..], name, kind)
  }

  /** Those of the name, else those of the wildcard beside it. */
  function Best(own: Table, name: string, kind: Mnemonic): Table {
    if At(own, name, kind) != [] then At(own, name, kind)
    else match WildcardName(name)
      case None => []
      case Some(w) => At(own, w, kind)
  }

  lemma SameKey(s: string, a: string, k: Mnemonic, b: string, l: Mnemonic)
    requires Key(s, a, k) == Key(s, b, l)
    ensures a == b && k == l
  {
    LastColonAt(s + ":" + a, k);
    LastColonAt(s + ":" + b, l);
    var x, y := s + ":" + a, s + ":" + b;
    assert x == y;
    assert a == x[|s| + 1..] && b == y[|s| + 1..];
    assert k == Key(s, a, k)[|x| + 1..] && l == Key(s, b, l)[|y| + 1..];
  }

  lemma {:induction false} UnderIsAt(own: Table, s: string, name: string, kind: Mnemonic)
    requires forall r :: r in own ==> r.scope == s
    ensures Under(own, Key(s, name, kind)) == At(own, name, kind)
  {
    if own != [] {
      UnderIsAt(own[1..], s, name, kind);
      assert own[0] in own;
      if KeyOf(own[0]) == Key(s, name, kind) {
        SameKey(s, own[0].name, own[0].kind, name, kind);
      }
    }
  }

  lemma {:induction false} OwnAre(table: Table, s: string, r: Row)
    ensures r in RowsOf(table, s) <==> r in table && r.scope == s
  {
    if table != [] {
      OwnAre(table[1..], s, r);
      assert table == [table[0]] + table[1..];
    }
  }

  lemma LookupIs(table: Table, s: string, name: string, kind: Mnemonic)
    requires OthersIsolated(table, s)
    ensures LookupExact(CacheOf(table), s, name, kind) == At(RowsOf(table, s), name, kind)
    ensures Lookup(CacheOf(table), s, name, kind) == Best(RowsOf(table, s), name, kind)
  {
    ExactIs(table, s, name, kind);
    var w := WildcardName(name);
    if w.Some? {
      ExactIs(table, s, w.value, kind);
    }
  }

  lemma ExactIs(table: Table, s: string, name: string, kind: Mnemonic)
    requires OthersIsolated(table, s)
    ensures LookupExact(CacheOf(table), s, name, kind) == At(RowsOf(table, s), name, kind)
  {
    var key := Key(s, name, kind);
    assert key[..|s| + 1] == s + ":";
    OwnRowsOnly(table, s, key);
    CachedWhenHeld(table, key);
    forall r | r in RowsOf(table, s) ensures r.scope == s {
      OwnAre(table, s, r);
    }
    UnderIsAt(RowsOf(table, s), s, name, kind);
  }

  // ---- existence ----

  /** The row's name is this one, or continues it past a colon. */
  predicate Reads(stored: string, name: string) {
    stored == name || name + ":" <= stored
  }

  ghost predicate Held(own: Table, name: string) {
    exists r :: r in own && Reads(r.name, name)
  }

  lemma ReadsIs(s: string, name: string, r: Row)
    requires r.scope == s
    ensures s + ":" + name + ":" <= KeyOf(r) <==> Reads(r.name, name)
  {
    var head, key := s + ":" + name + ":", KeyOf(r);
    var rest := r.name + ":" + r.kind;
    assert key == s + ":" + rest;
    assert forall k :: |r.name| < k < |rest| ==> rest[k] in r.kind;
    if head <= key {
      assert key[|s| + 1..] == rest && head[|s| + 1..] == name + ":";
      assert rest[..|name| + 1] == name + ":";
      assert rest[|name|] == ':';
      if |name| == |r.name| {
        assert r.name == rest[..|name|] == name;
      } else if |name| < |r.name| {
        assert r.name[..|name| + 1] == rest[..|name| + 1];
      }
    }
    if r.name == name {
      assert key[..|head|] == head;
    } else if name + ":" <= r.name {
      assert rest[..|name| + 1] == name + ":";
      assert key[..|head|] == head;
    }
  }

  /** Which row of the scope a key of the scope belongs to. */
  lemma KeyHasRow(table: Table, s: string, key: string) returns (r: Row)
    requires OthersIsolated(table, s) && OfScope(key, s) && key in CacheOf(table)
    ensures r in RowsOf(table, s) && r.scope == s && KeyOf(r) == key
  {
    r :| r in table && KeyOf(r) == key;
    KeysApart(s, r);
    OwnAre(table, s, r);
  }

  lemma RowHasKey(table: Table, s: string, r: Row)
    requires r in RowsOf(table, s)
    ensures r.scope == s && OfScope(KeyOf(r), s) && KeyOf(r) in CacheOf(table) && CacheOf(table)[KeyOf(r)] != []
  {
    OwnAre(table, s, r);
    CachedWhenHeld(table, KeyOf(r));
    assert KeyOf(r)[..|s| + 1] == s + ":";
    assert KeyOf(r) in (set x | x in table :: KeyOf(x));
  }

  lemma HeldIs(table: Table, s: string, name: string)
    requires OthersIsolated(table, s)
    ensures HoldsAny(CacheOf(table), s, name) <==> Held(RowsOf(table, s), name)
  {
    var cache, own := CacheOf(table), RowsOf(table, s);
    if key :| key in cache && s + ":" + name + ":" <= key && cache[key] != [] {
      assert key[..|s| + 1] == s + ":";
      var r := KeyHasRow(table, s, key);
      ReadsIs(s, name, r);
    }
    if r :| r in own && Reads(r.name, name) {
      RowHasKey(table, s, r);
      ReadsIs(s, name, r);
    }
  }

  /** A row at the name or beneath it, or at the wildcard beside it. */
  ghost predicate Present(own: Table, name: string) {
    || (exists r :: r in own && (Reads(r.name, name) || EndsWith(r.name, "." + name)))
    || (WildcardName(name).Some? && Held(own, WildcardName(name).value))
  }

  lemma OccupiesIs(s: string, name: string, r: Row)
    requires r.scope == s
    ensures KeyOccupies(KeyOf(r), s, name) <==> Reads(r.name, name) || EndsWith(r.name, "." + name)
  {
    ReadsIs(s, name, r);
    assert KeyOf(r)[|s| + 1..] == r.name + ":" + r.kind;
    LastColonAt(r.name, r.kind);
    assert KeyOf(r)[..|s| + 1] == s + ":";
  }

  lemma PresentIs(table: Table, s: string, name: string)
    requires OthersIsolated(table, s)
    ensures Occupied(CacheOf(table), s, name) || Established(CacheOf(table), s, name) <==>
      Present(RowsOf(table, s), name)
  {
    var cache, own := CacheOf(table), RowsOf(table, s);
    if key :| key in cache && KeyOccupies(key, s, name) {
      KeyInScope(key, s, name);
      var r := KeyHasRow(table, s, key);
      OccupiesIs(s, name, r);
    }
    if r :| r in own && (Reads(r.name, name) || EndsWith(r.name, "." + name)) {
      RowHasKey(table, s, r);
      OccupiesIs(s, name, r);
    }
    if WildcardName(name).Some? {
      HeldIs(table, s, WildcardName(name).value);
    }
  }

  lemma KeyInScope(key: string, s: string, name: string)
    requires KeyOccupies(key, s, name)
    ensures OfScope(key, s)
  {
    if s + ":" + name + ":" <= key {
      assert key[..|s| + 1] == s + ":";
    }
  }

  /** Some row of the scope implies a zone the name is in, and that zone, or the wildcard beside it, has a row. */
  ghost predicate InOwnZone(own: Table, name: string) {
    exists r :: r in own && ZoneOf(r.name).Some? && TextInZone(name, ZoneOf(r.name).value) &&
      ZoneHeldBy(own, ZoneOf(r.name).value)
  }

  ghost predicate ZoneHeldBy(own: Table, zone: string) {
    Held(own, zone) || (WildcardName(zone).Some? && Held(own, WildcardName(zone).value))
  }

  lemma ZoneHeldIs(table: Table, s: string, zone: string)
    requires OthersIsolated(table, s)
    ensures ZoneHeld(CacheOf(table), s, zone) <==> ZoneHeldBy(RowsOf(table, s), zone)
  {
    HeldIs(table, s, zone);
    if WildcardName(zone).Some? {
      HeldIs(table, s, WildcardName(zone).value);
    }
  }

  lemma ManagedIs(table: Table, s: string, name: string)
    requires OthersIsolated(table, s)
    ensures Managed(CacheOf(table), ManagedZones(table, s), s, name) <==> InOwnZone(RowsOf(table, s), name)
  {
    forall z ensures ZoneHeld(CacheOf(table), s, z) <==> ZoneHeldBy(RowsOf(table, s), z) {
      ZoneHeldIs(table, s, z);
    }
    var own, zones := RowsOf(table, s), ManagedZones(table, s);
    assert forall r :: r in own && ZoneOf(r.name).Some? ==> ZoneOf(r.name).value in zones;
  }

  // ---- the answer ----

  /** The rows of the type, at the name or its wildcard. */
  function Direct(own: Table, name: string, kind: Option<Mnemonic>): Table {
    if kind.None? then [] else Best(own, name, kind.value)
  }

  /** For an address, the rows of the type at the target of the first ANAME. */
  function Through(own: Table, name: string, kind: Option<Mnemonic>): Table {
    if kind !in {Some("A"), Some("AAAA")} || Best(own, name, "ANAME") == [] then []
    else Best(own, Best(own, name, "ANAME")[0].value, kind.value)
  }

  /** The DNAME rows of each ancestor of a name, the root first, by as many labels as it has. */
  function Dnames(own: Table, n: Name): seq<Table> {
    seq(|n|, i requires 0 <= i < |n| => Best(own, Render(n[..i]), "DNAME"))
  }

  /** The nearest ancestor that has any is that of `i` labels; the root is not asked. */
  predicate Nearest(dnames: seq<Table>, i: int) {
    0 < i < |dnames| && dnames[i] != [] && forall j :: i < j < |dnames| ==> dnames[j] == []
  }

  /** These are the nearest one's rows, or there is none. */
  ghost predicate IsNearest(dnames: seq<Table>, found: Table) {
    (found == [] <==> forall i :: !Nearest(dnames, i)) && forall i :: Nearest(dnames, i) ==> found == dnames[i]
  }

  /** The last entry up to `k` that is not empty. */
  function LastUpTo(dnames: seq<Table>, k: nat): Table
    requires k == 0 || k < |dnames|
  {
    if k == 0 then [] else if dnames[k] != [] then dnames[k] else LastUpTo(dnames, k - 1)
  }

  lemma {:induction false} LastIsNearest(dnames: seq<Table>, k: nat, i: int)
    requires 0 < i <= k < |dnames| && dnames[i] != [] && forall j :: i < j <= k ==> dnames[j] == []
    ensures LastUpTo(dnames, k) == dnames[i]
  {
    if i < k {
      LastIsNearest(dnames, k - 1, i);
    }
  }

  lemma {:induction false} LastIsSome(dnames: seq<Table>, k: nat) returns (i: int)
    requires 0 < k < |dnames| && LastUpTo(dnames, k) != []
    ensures 0 < i <= k && dnames[i] != [] && forall j :: i < j <= k ==> dnames[j] == []
  {
    if dnames[k] != [] {
      i := k;
    } else {
      i := LastIsSome(dnames, k - 1);
    }
  }

  lemma NearestIs(dnames: seq<Table>, found: Table)
    requires found == if dnames == [] then [] else LastUpTo(dnames, |dnames| - 1)
    ensures IsNearest(dnames, found)
  {
    if dnames != [] {
      LastNearest(dnames);
    }
  }

  lemma LastNearest(dnames: seq<Table>)
    requires dnames != []
    ensures IsNearest(dnames, LastUpTo(dnames, |dnames| - 1))
  {
    var k := |dnames| - 1;
    forall i | Nearest(dnames, i) ensures LastUpTo(dnames, k) == dnames[i] {
      LastIsNearest(dnames, k, i);
    }
    if LastUpTo(dnames, k) != [] {
      var i := LastIsSome(dnames, k);
      assert Nearest(dnames, i);
    }
  }

  lemma DnameStep(cache: Cache, s: string, m: Name)
    requires m != [] && WellFormed(m)
    ensures |m| == 1 ==> DnameAbove(cache, s, Bare(m)) == []
    ensures |m| >= 2 ==>
      var found := Lookup(cache, s, Render(Parent(m)), "DNAME");
      DnameAbove(cache, s, Bare(m)) == if found != [] then found else DnameAbove(cache, s, Bare(Parent(m)))
  {
    BareIs(m);
    if |m| >= 2 {
      BareIs(Parent(m));
    }
  }

  /** At `i` the walk up finds what is there, else what it finds from the next one on. */
  predicate Chained(found: seq<Table>, dnames: seq<Table>, i: int)
    requires 0 < i < |found| == |dnames|
  {
    found[i] == if dnames[i] != [] then dnames[i] else found[i - 1]
  }

  predicate ChainedThroughout(found: seq<Table>, dnames: seq<Table>) {
    |found| == |dnames| && forall i :: 0 < i < |found| ==> Chained(found, dnames, i)
  }

  lemma {:induction false} ChainIsLast(found: seq<Table>, dnames: seq<Table>, k: nat)
    requires k < |found| == |dnames| && found[0] == []
    requires ChainedThroughout(found, dnames)
    ensures found[k] == LastUpTo(dnames, k)
  {
    if k > 0 {
      assert Chained(found, dnames, k);
      ChainIsLast(found, dnames, k - 1);
    }
  }

  lemma OneUp(table: Table, s: string, n: Name, k: nat)
    requires OthersIsolated(table, s) && WellFormed(n) && 0 < k < |n|
    ensures var cache, found := CacheOf(table), Best(RowsOf(table, s), Render(n[..k]), "DNAME");
      DnameAbove(cache, s, Bare(n[..k + 1])) == if found != [] then found else DnameAbove(cache, s, Bare(n[..k]))
  {
    DnameStep(CacheOf(table), s, n[..k + 1]);
    assert Parent(n[..k + 1]) == n[..k];
    LookupIs(table, s, Render(n[..k]), "DNAME");
  }

  /** Nothing of the scope's answers the question. */
  ghost predicate Silent(own: Table, n: Name, kind: Option<Mnemonic>) {
    && Direct(own, Render(n), kind) == [] && Through(own, Render(n), kind) == []
    && Best(own, Render(n), "CNAME") == [] && forall i :: !Nearest(Dnames(own, n), i)
  }

  lemma ThroughIs(table: Table, s: string, name: string, kind: Mnemonic)
    requires OthersIsolated(table, s)
    ensures ThroughAname(CacheOf(table), s, name, kind) == Through(RowsOf(table, s), name, Some(kind))
  {
    LookupIs(table, s, name, "ANAME");
    var own := RowsOf(table, s);
    if Best(own, name, "ANAME") != [] {
      LookupIs(table, s, Best(own, name, "ANAME")[0].value, kind);
    }
  }

  /**
   * What a peer is given, of the scope's own rows: those of the type, then those behind an ANAME, then a CNAME, then
   * the nearest DNAME above, each at the name or the wildcard beside it.
   */
  lemma AnsweredFromOwnRows(
    table: Table, s: string, n: Name, kind: Option<Mnemonic>, tldOwner: Option<string>)
    requires OthersIsolated(table, s) && WellFormed(n)
    ensures var own, name := RowsOf(table, s), Render(n);
      var answer := Ask(table, s, name, kind, tldOwner);
      && (Direct(own, name, kind) != [] ==> answer == Records(Direct(own, name, kind)))
      && (Direct(own, name, kind) == [] && Through(own, name, kind) != [] ==>
            answer == Records(Through(own, name, kind)))
      && (Direct(own, name, kind) == [] && Through(own, name, kind) == [] && Best(own, name, "CNAME") != [] ==>
            answer == Records(Best(own, name, "CNAME")))
      && (Direct(own, name, kind) == [] && Through(own, name, kind) == [] && Best(own, name, "CNAME") == [] ==>
            forall i :: Nearest(Dnames(own, n), i) ==> answer == Records(Dnames(own, n)[i]))
      && (answer.Records? <==> !Silent(own, n, kind))
  {
    StagesAre(table, s, n, kind);
  }

  /** The four places an answer can come from. */
  lemma StagesAre(table: Table, s: string, n: Name, kind: Option<Mnemonic>)
    requires OthersIsolated(table, s) && WellFormed(n)
    ensures var own, name, cache := RowsOf(table, s), Render(n), CacheOf(table);
      && (kind.Some? ==> Lookup(cache, s, name, kind.value) == Direct(own, name, kind))
      && (kind.Some? ==> ThroughAname(cache, s, name, kind.value) == Through(own, name, kind))
      && Lookup(cache, s, name, "CNAME") == Best(own, name, "CNAME")
      && (DnameAbove(cache, s, TrimDots(name)) == [] <==> forall i :: !Nearest(Dnames(own, n), i))
      && forall i :: Nearest(Dnames(own, n), i) ==> DnameAbove(cache, s, TrimDots(name)) == Dnames(own, n)[i]
  {
    var name := Render(n);
    LookupIs(table, s, name, "CNAME");
    if kind.Some? {
      LookupIs(table, s, name, kind.value);
      ThroughIs(table, s, name, kind.value);
    }
    DnameStage(table, s, n);
  }

  /** What the walk up finds from each ancestor on. */
  ghost function FoundFrom(cache: Cache, s: string, n: Name): seq<Table> {
    seq(|n|, k requires 0 <= k < |n| => DnameAbove(cache, s, Bare(n[..k + 1])))
  }

  lemma ChainedAt(table: Table, s: string, n: Name, k: nat)
    requires OthersIsolated(table, s) && WellFormed(n) && 0 < k < |n|
    ensures Chained(FoundFrom(CacheOf(table), s, n), Dnames(RowsOf(table, s), n), k)
  {
    OneUp(table, s, n, k);
  }

  lemma FoundEnds(cache: Cache, s: string, n: Name)
    requires WellFormed(n) && n != []
    ensures FoundFrom(cache, s, n)[0] == []
    ensures FoundFrom(cache, s, n)[|n| - 1] == DnameAbove(cache, s, TrimDots(Render(n)))
  {
    DnameStep(cache, s, n[..1]);
    assert n[..|n| - 1 + 1] == n;
    TrimmedIs(n);
  }

  lemma AllChained(table: Table, s: string, n: Name)
    requires OthersIsolated(table, s) && WellFormed(n)
    ensures ChainedThroughout(FoundFrom(CacheOf(table), s, n), Dnames(RowsOf(table, s), n))
  {
    forall k | 0 < k < |n| ensures Chained(FoundFrom(CacheOf(table), s, n), Dnames(RowsOf(table, s), n), k) {
      ChainedAt(table, s, n, k);
    }
  }

  /** From the single label up to the whole name, which finds `whole`. */
  predicate WalksUp(found: seq<Table>, dnames: seq<Table>, whole: Table) {
    found != [] && found[0] == [] && found[|found| - 1] == whole && ChainedThroughout(found, dnames)
  }

  lemma WalkFindsLast(found: seq<Table>, dnames: seq<Table>, whole: Table)
    requires WalksUp(found, dnames, whole)
    ensures dnames != [] && whole == LastUpTo(dnames, |dnames| - 1)
  {
    ChainIsLast(found, dnames, |dnames| - 1);
  }

  lemma NameWalksUp(table: Table, s: string, n: Name)
    requires OthersIsolated(table, s) && WellFormed(n) && n != []
    ensures WalksUp(FoundFrom(CacheOf(table), s, n), Dnames(RowsOf(table, s), n),
                    DnameAbove(CacheOf(table), s, TrimDots(Render(n))))
  {
    AllChained(table, s, n);
    FoundEnds(CacheOf(table), s, n);
  }

  lemma DnameWhole(table: Table, s: string, n: Name)
    requires OthersIsolated(table, s) && WellFormed(n) && n != []
    ensures var dnames := Dnames(RowsOf(table, s), n);
      dnames != [] && DnameAbove(CacheOf(table), s, TrimDots(Render(n))) == LastUpTo(dnames, |dnames| - 1)
  {
    NameWalksUp(table, s, n);
    WalkFindsLast(FoundFrom(CacheOf(table), s, n), Dnames(RowsOf(table, s), n),
                  DnameAbove(CacheOf(table), s, TrimDots(Render(n))));
  }

  lemma RootHasNone(cache: Cache, s: string)
    ensures DnameAbove(cache, s, TrimDots(".")) == []
  {
    assert TrimDots(".") == "";
  }

  lemma DnameStage(table: Table, s: string, n: Name)
    requires OthersIsolated(table, s) && WellFormed(n)
    ensures IsNearest(Dnames(RowsOf(table, s), n), DnameAbove(CacheOf(table), s, TrimDots(Render(n))))
  {
    if n == [] {
      RootHasNone(CacheOf(table), s);
    } else {
      DnameWhole(table, s, n);
    }
    NearestIs(Dnames(RowsOf(table, s), n), DnameAbove(CacheOf(table), s, TrimDots(Render(n))));
  }

  /**
   * And what it is told when there is nothing to give: another scope's TLD does not exist; under the scope's own TLD,
   * or in a zone its rows imply, a name with rows at it, beneath it or at the wildcard beside it has no data and any
   * other does not exist; the rest is not the scope's to say.
   */
  lemma DeniedFromOwnRows(
    table: Table, s: string, n: Name, kind: Option<Mnemonic>, tldOwner: Option<string>)
    requires OthersIsolated(table, s) && WellFormed(n) && Silent(RowsOf(table, s), n, kind)
    ensures var own, name := RowsOf(table, s), Render(n);
      var answer := Ask(table, s, name, kind, tldOwner);
      var mine := tldOwner == Some(s) || (tldOwner.None? && InOwnZone(own, name));
      && (answer == NxDomain <==> (tldOwner.Some? && tldOwner.value != s) || (mine && !Present(own, name)))
      && (answer == NoData <==> mine && Present(own, name))
      && (answer == Elsewhere <==> tldOwner.None? && !InOwnZone(own, name))
  {
    StagesAre(table, s, n, kind);
    PresentIs(table, s, Render(n));
    ManagedIs(table, s, Render(n));
  }
}
