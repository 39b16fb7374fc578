/**
 * Split-horizon scopes. Scoped records live in one in-memory cache keyed by the text
 * `<scope>:<name>:<type>`; which scope sees what is decided by prefix and suffix tests on that text.
 */
module Scopes {
  import opened Basics
  import NameText

  /** What a record type is called; no colon in it. */
  type Mnemonic = s: string | ':' !in s witness "A"

  /** A row of `scoped_dns_records`; `name` is normalized text. */
  datatype Row = Row(scope: string, name: string, kind: Mnemonic, value: string)

  type Table = seq<Row>
  type Cache = map<string, seq<Row>>

  datatype Answer = Records(found: seq<Row>) | NoData | NxDomain | Elsewhere

  function Key(scope: string, name: string, kind: string): string {
    scope + ":" + name + ":" + kind
  }

  function KeyOf(r: Row): string {
    Key(r.scope, r.name, r.kind)
  }

  function Under(table: Table, key: string): Table {
    if table == [] then []
    else if KeyOf(table[0]) == key then [table[0]] + Under(table[1..], key)
    else Under(table[1..], key)
  }

  /** What boot loads and every insertion maintains: each row under its key, in table order. */
  function CacheOf(table: Table): Cache {
    map k | k in (set r | r in table :: KeyOf(r)) :: Under(table, k)
  }

  // ---- the reads ----

  /** `lookup_scoped_exact` for one type. */
  function LookupExact(cache: Cache, scope: string, name: string, kind: string): seq<Row> {
    if Key(scope, name, kind) in cache then cache[Key(scope, name, kind)] else []
  }

  /** `lookup_scoped_exact` for any type, of which only emptiness is ever asked. */
  predicate HoldsAny(cache: Cache, scope: string, name: string) {
    exists key :: key in cache && scope + ":" + name + ":" <= key && cache[key] != []
  }

  function TrimDots(s: string): string {
    if s != "" && s[|s| - 1] == '.' then TrimDots(s[..|s| - 1]) else s
  }

  function AfterFirstDot(s: string): (r: string)
    ensures s != "" ==> |r| < |s|
  {
    if s == "" then "" else if s[0] == '.' then s[1..] else AfterFirstDot(s[1..])
  }

  /** `*` in place of the first label; a single label has no wildcard. */
  function WildcardName(name: string): Option<string> {
    var t := TrimDots(name);
    if '.' in t then Some("*." + AfterFirstDot(t) + ".") else None
  }

  /** `lookup_scoped`: the exact name, then the wildcard. */
  function Lookup(cache: Cache, scope: string, name: string, kind: string): seq<Row> {
    var exact := LookupExact(cache, scope, name, kind);
    if exact != [] then exact
    else match WildcardName(name)
      case None => []
      case Some(w) => LookupExact(cache, scope, w, kind)
  }

  function BeforeLastColon(s: string): Option<string> {
    if s == "" then None
    else if s[|s| - 1] == ':' then Some(s[..|s| - 1])
    else BeforeLastColon(s[..|s| - 1])
  }

  /** One key's vote in `scoped_name_occupied`: a record at the name, or beneath it. */
  predicate KeyOccupies(key: string, scope: string, name: string) {
    || scope + ":" + name + ":" <= key
    || (scope + ":" <= key &&
        var owner := BeforeLastColon(key[|scope| + 1..]);
        owner.Some? && EndsWith(owner.value, "." + name))
  }

  predicate Occupied(cache: Cache, scope: string, name: string) {
    exists key :: key in cache && KeyOccupies(key, scope, name)
  }

  /** A wildcard at the name's parent establishes the name. */
  predicate Established(cache: Cache, scope: string, name: string) {
    match WildcardName(name)
    case None => false
    case Some(w) => HoldsAny(cache, scope, w)
  }

  /** `check_dname_scoped`: the first DNAME found walking up from `below`, without its trailing dots. */
  function DnameAbove(cache: Cache, scope: string, below: string): seq<Row>
    decreases |below|
  {
    if '.' !in below then []
    else
      var parent := AfterFirstDot(below);
      var found := Lookup(cache, scope, parent + ".", "DNAME");
      if found != [] then found else DnameAbove(cache, scope, parent)
  }

  /** The address records an ANAME stands for. */
  function ThroughAname(cache: Cache, scope: string, name: string, kind: string): seq<Row> {
    var aname := Lookup(cache, scope, name, "ANAME");
    if kind in {"A", "AAAA"} && aname != [] then Lookup(cache, scope, aname[0].value, kind) else []
  }

  /** The last two labels, or the only one. */
  function LastTwo(t: string): string
    decreases |t|
  {
    if '.' in t && '.' in AfterFirstDot(t) then LastTwo(AfterFirstDot(t)) else t
  }

  function ZoneOf(name: string): Option<string> {
    var t := TrimDots(name);
    if t == "" then None else Some(LastTwo(t) + ".")
  }

  /** The rows of one scope, in order. */
  function RowsOf(table: Table, s: string): Table {
    if table == [] then []
    else if table[0].scope == s then [table[0]] + RowsOf(table[1..], s)
    else RowsOf(table[1..], s)
  }

  /** `get_scoped_managed_zones`: the zones the scope's own rows imply. */
  function ManagedZones(table: Table, s: string): set<string> {
    set r | r in RowsOf(table, s) && ZoneOf(r.name).Some? :: ZoneOf(r.name).value
  }

  /** The name falls in a zone the scope manages and holds something at. */
  predicate Managed(cache: Cache, zones: set<string>, scope: string, name: string) {
    exists z :: z in zones && NameText.TextInZone(name, z) && ZoneHeld(cache, scope, z)
  }

  /**
   * The scoped stage of `resolve_query`. A query type without a record kind is `None`; `tldOwner` is the
   * scope owning the TLD the name falls under.
   */
  function Resolve(
    cache: Cache, zones: set<string>, scope: string, name: string, kind: Option<Mnemonic>, tldOwner: Option<string>)
    : Answer
  {
    var direct := if kind.Some? then Lookup(cache, scope, name, kind.value) else [];
    var through := if kind.Some? then ThroughAname(cache, scope, name, kind.value) else [];
    var alias := Lookup(cache, scope, name, "CNAME");
    var dname := DnameAbove(cache, scope, TrimDots(name));
    if direct != [] then Records(direct)
    else if through != [] then Records(through)
    else if alias != [] then Records(alias)
    else if dname != [] then Records(dname)
    else if tldOwner.Some? && tldOwner.value != scope then NxDomain
    else if tldOwner.Some? || Managed(cache, zones, scope, name) then
      if Occupied(cache, scope, name) || Established(cache, scope, name) then NoData else NxDomain
    else Elsewhere
  }

  /** What a database holding `table` answers a peer of the scope. */
  function Ask(table: Table, s: string, name: string, kind: Option<Mnemonic>, tldOwner: Option<string>): Answer {
    Resolve(CacheOf(table), ManagedZones(table, s), s, name, kind, tldOwner)
  }

  predicate ZoneHeld(cache: Cache, scope: string, zone: string) {
    HoldsAny(cache, scope, zone) || Established(cache, scope, zone)
  }

  // ---- isolation ----

  predicate OfScope(key: string, s: string) {
    s + ":" <= key
  }

  /** Neither scope name continues the other past a colon. */
  predicate Isolated(s: string, t: string) {
    !OfScope(t, s) && !OfScope(s, t)
  }

  lemma KeysApart(s: string, r: Row)
    ensures OfScope(KeyOf(r), s) ==> s == r.scope || !Isolated(s, r.scope)
  {
    var t, k := r.scope, KeyOf(r);
    if OfScope(k, s) {
      assert k[..|t| + 1] == t + ":" && k[..|s| + 1] == s + ":";
      if |s| < |t| {
        assert t[..|s| + 1] == k[..|s| + 1];
      } else if |t| < |s| {
        assert s[..|t| + 1] == k[..|t| + 1];
      } else {
        assert s == k[..|s|] == t;
      }
    }
  }

  ghost predicate AgreeFor(s: string, c: Cache, d: Cache) {
    forall k :: OfScope(k, s) ==> (k in c <==> k in d) && (k in c ==> c[k] == d[k])
  }

  ghost predicate OthersIsolated(table: Table, s: string) {
    forall r :: r in table && r.scope != s ==> Isolated(s, r.scope)
  }

  /** What a key of the scope holds is what the scope's own rows put there. */
  lemma {:induction false} OwnRowsOnly(table: Table, s: string, key: string)
    requires OthersIsolated(table, s) && OfScope(key, s)
    ensures Under(table, key) == Under(RowsOf(table, s), key)
  {
    if table != [] {
      OwnRowsOnly(table[1..], s, key);
      var r, rest := table[0], RowsOf(table[1..], s);
      assert r in table;
      KeysApart(s, r);
      assert ([r] + rest)[1..] == rest;
    }
  }

  lemma {:induction false} CachedWhenHeld(table: Table, key: string)
    ensures key in CacheOf(table) <==> Under(table, key) != []
  {
    if table != [] {
      CachedWhenHeld(table[1..], key);
      assert table == [table[0]] + table[1..];
    }
  }

  lemma TablesAgree(s: string, a: Table, b: Table)
    requires RowsOf(a, s) == RowsOf(b, s) && OthersIsolated(a, s) && OthersIsolated(b, s)
    ensures AgreeFor(s, CacheOf(a), CacheOf(b))
  {
    var c, d := CacheOf(a), CacheOf(b);
    forall k | OfScope(k, s) ensures (k in c <==> k in d) && (k in c ==> c[k] == d[k]) {
      OwnRowsOnly(a, s, k);
      OwnRowsOnly(b, s, k);
      CachedWhenHeld(a, k);
      CachedWhenHeld(b, k);
    }
  }

  lemma LookupAgrees(s: string, c: Cache, d: Cache, name: string, kind: string)
    requires AgreeFor(s, c, d)
    ensures Lookup(c, s, name, kind) == Lookup(d, s, name, kind)
  {
  }

  lemma ExistenceAgrees(s: string, c: Cache, d: Cache, name: string)
    requires AgreeFor(s, c, d)
    ensures HoldsAny(c, s, name) == HoldsAny(d, s, name)
    ensures Occupied(c, s, name) == Occupied(d, s, name)
  {
  }

  lemma {:induction false} DnameAgrees(s: string, c: Cache, d: Cache, below: string)
    requires AgreeFor(s, c, d)
    ensures DnameAbove(c, s, below) == DnameAbove(d, s, below)
    decreases |below|
  {
    if '.' in below {
      LookupAgrees(s, c, d, AfterFirstDot(below) + ".", "DNAME");
      DnameAgrees(s, c, d, AfterFirstDot(below));
    }
  }

  lemma EstablishedAgrees(s: string, c: Cache, d: Cache, name: string)
    requires AgreeFor(s, c, d)
    ensures Established(c, s, name) == Established(d, s, name)
  {
  }

  lemma AnameAgrees(s: string, c: Cache, d: Cache, name: string, kind: string)
    requires AgreeFor(s, c, d)
    ensures ThroughAname(c, s, name, kind) == ThroughAname(d, s, name, kind)
  {
  }

  lemma ManagedAgrees(s: string, c: Cache, d: Cache, zones: set<string>, name: string)
    requires AgreeFor(s, c, d)
    ensures Managed(c, zones, s, name) == Managed(d, zones, s, name)
  {
    forall z ensures ZoneHeld(c, s, z) == ZoneHeld(d, s, z) {
      ExistenceAgrees(s, c, d, z);
      EstablishedAgrees(s, c, d, z);
    }
  }

  lemma ResolveAgrees(
    s: string, c: Cache, d: Cache, zones: set<string>, name: string, kind: Option<Mnemonic>, tldOwner: Option<string>)
    requires AgreeFor(s, c, d)
    ensures Resolve(c, zones, s, name, kind, tldOwner) == Resolve(d, zones, s, name, kind, tldOwner)
  {
    LookupAgrees(s, c, d, name, "CNAME");
    if kind.Some? {
      LookupAgrees(s, c, d, name, kind.value);
      AnameAgrees(s, c, d, name, kind.value);
    }
    DnameAgrees(s, c, d, TrimDots(name));
    ExistenceAgrees(s, c, d, name);
    EstablishedAgrees(s, c, d, name);
    ManagedAgrees(s, c, d, zones, name);
  }

  /**
   * Non-interference: two databases that hold the same rows for a scope, and otherwise only scopes isolated
   * from it, give every query of the scope the same answer.
   */
  lemma ScopesDoNotInterfere(
    s: string, a: Table, b: Table, name: string, kind: Option<Mnemonic>, tldOwner: Option<string>)
    requires RowsOf(a, s) == RowsOf(b, s) && OthersIsolated(a, s) && OthersIsolated(b, s)
    ensures Ask(a, s, name, kind, tldOwner) == Ask(b, s, name, kind, tldOwner)
  {
    TablesAgree(s, a, b);
    ResolveAgrees(s, CacheOf(a), CacheOf(b), ManagedZones(a, s), name, kind, tldOwner);
  }

  // ---- when scopes do interfere ----

  lemma {:induction false} LastColonAt(head: string, tail: string)
    requires ':' !in tail
    ensures BeforeLastColon(head + ":" + tail) == Some(head)
    decreases |tail|
  {
    var whole := head + ":" + tail;
    if tail == "" {
      assert whole[..|whole| - 1] == head;
    } else {
      assert whole[..|whole| - 1] == head + ":" + tail[..|tail| - 1];
      LastColonAt(head, tail[..|tail| - 1]);
    }
  }

  lemma {:induction false} NoDname(s: string, below: string)
    ensures DnameAbove(map[], s, below) == []
    decreases |below|
  {
    if '.' in below {
      NoDname(s, AfterFirstDot(below));
    }
  }

  /** With no rows at all, a name under the scope's own TLD is denied. */
  lemma EmptyScopeDenies(s: string, name: string, kind: Option<Mnemonic>)
    ensures Ask([], s, name, kind, Some(s)) == NxDomain
  {
    assert CacheOf([]) == map[];
    NoDname(s, TrimDots(name));
  }

  lemma LeakIsNoRecord(s: string, y: string, key: string, kind: string)
    requires key == s + ":" + y + "a.b.:A"
    requires kind in {"A", "CNAME", "ANAME"}
    ensures Key(s, "b.", kind) != key
  {
    var own := Key(s, "b.", kind);
    assert own[|own| - 1] == kind[|kind| - 1];
    assert key[|key| - 1] == 'A';
    if kind == "A" { assert |own| == |s| + 5; }
  }

  lemma LeakOccupies(s: string, y: string, key: string)
    requires key == s + ":" + y + "a.b.:A"
    ensures KeyOccupies(key, s, "b.")
  {
    assert key[|s| + 1..] == (y + "a.b.") + ":" + "A";
    LastColonAt(y + "a.b.", "A");
    var owner := y + "a.b.";
    assert owner[|owner| - 3..] == ".b.";
  }

  lemma SingleLabel()
    ensures TrimDots("b.") == "b" && WildcardName("b.") == None
  {
  }

  /** A foreign key that reads as `<s>:...a.b.:A` turns the scope's NXDOMAIN for `b.` into NODATA. */
  lemma KeyLeaks(s: string, y: string, r: Row)
    requires KeyOf(r) == s + ":" + y + "a.b.:A"
    ensures Ask([r], s, "b.", Some("A"), Some(s)) == NoData
  {
    var cache := CacheOf([r]);
    assert cache.Keys == {KeyOf(r)};
    SingleLabel();
    LeakIsNoRecord(s, y, KeyOf(r), "A");
    LeakIsNoRecord(s, y, KeyOf(r), "CNAME");
    LeakIsNoRecord(s, y, KeyOf(r), "ANAME");
    LeakOccupies(s, y, KeyOf(r));
  }

  /** Scope names that are not isolated: some record of the one changes an answer of the other. */
  lemma Leaks(s: string, t: string) returns (r: Row, name: string, kind: Mnemonic)
    requires !Isolated(s, t)
    ensures r.scope == t && Ask([r], s, name, Some(kind), Some(s)) != Ask([], s, name, Some(kind), Some(s))
    ensures forall c :: c in name ==> !('A' <= c <= 'Z')
  {
    name, kind := "b.", "A";
    if OfScope(t, s) {
      r := Row(t, "a.b.", "A", "");
      assert t == s + ":" + t[|s| + 1..];
      assert KeyOf(r) == s + ":" + (t[|s| + 1..] + ":") + "a.b.:A";
      KeyLeaks(s, t[|s| + 1..] + ":", r);
    } else {
      r := Row(t, s[|t| + 1..] + ":a.b.", "A", "");
      assert s == t + ":" + s[|t| + 1..];
      assert KeyOf(r) == s + ":" + "" + "a.b.:A";
      KeyLeaks(s, "", r);
    }
    EmptyScopeDenies(s, "b.", Some("A"));
  }

  // ---- removal ----

  predicate Matches(r: Row, scope: string, name: string, kind: Option<string>, value: string) {
    && r.scope == scope && r.name == name
    && (kind.Some? ==> r.kind == kind.value) && (value != "" ==> r.value == value)
  }

  /** The rows `remove_scoped_records` leaves in the table. */
  function Surviving(table: Table, scope: string, name: string, kind: Option<string>, value: string): Table {
    if table == [] then []
    else if Matches(table[0], scope, name, kind, value) then Surviving(table[1..], scope, name, kind, value)
    else [table[0]] + Surviving(table[1..], scope, name, kind, value)
  }

  /** It drops from the cache every key that starts with `<scope>:<name>`, whatever matched. */
  function Evicted(cache: Cache, scope: string, name: string): Cache {
    map k | k in cache && !(scope + ":" + name <= k) :: cache[k]
  }

  lemma {:induction false} SurvivingUnder(
    table: Table, scope: string, name: string, kind: Option<string>, value: string, key: string)
    requires !(scope + ":" + name <= key)
    ensures Under(Surviving(table, scope, name, kind, value), key) == Under(table, key)
  {
    if table != [] {
      SurvivingUnder(table[1..], scope, name, kind, value, key);
      var r, rest := table[0], Surviving(table[1..], scope, name, kind, value);
      if Matches(r, scope, name, kind, value) {
        assert KeyOf(r)[..|scope| + 1 + |name|] == scope + ":" + name;
      } else {
        assert ([r] + rest)[1..] == rest;
      }
    }
  }

  /**
   * After a removal the cache still equals the table exactly when no surviving row's key starts with
   * `<scope>:<name>`. A row of another type or value at the name survives and vanishes from service.
   */
  lemma CacheAfterRemoval(table: Table, scope: string, name: string, kind: Option<string>, value: string)
    ensures
      var left := Surviving(table, scope, name, kind, value);
      Evicted(CacheOf(table), scope, name) == CacheOf(left) <==>
      forall r :: r in left ==> !(scope + ":" + name <= KeyOf(r))
  {
    var left := Surviving(table, scope, name, kind, value);
    var got, want := Evicted(CacheOf(table), scope, name), CacheOf(left);
    forall k | !(scope + ":" + name <= k) ensures (k in got <==> k in want) && (k in got ==> got[k] == want[k]) {
      SurvivingUnder(table, scope, name, kind, value, k);
      CachedWhenHeld(table, k);
      CachedWhenHeld(left, k);
    }
    if got == want {
      forall r | r in left ensures !(scope + ":" + name <= KeyOf(r)) {
        assert KeyOf(r) in want;
      }
    } else {
      var k :| (k in got) != (k in want) || (k in got && got[k] != want[k]);
      assert k in want && scope + ":" + name <= k;
    }
  }
}
