/**
 * Peers of many scopes ask one server, which keeps what it answered them from scoped records in the answer cache it
 * shares with everyone, under `@<scope>/<name>` with upper case folded.
 */
module ScopedCache {
  import opened Basics
  import opened Scopes

  datatype Query = Query(scope: string, name: string, kind: Option<Mnemonic>, tldOwner: Option<string>)

  /** A type mnemonic holds no colon, so a key's text says its name and its type. */
  type Slot = (string, string)

  datatype Server = Server(table: Table, answers: map<Slot, seq<Row>>)

  datatype Event =
    | Asked(q: Query)
    | Expire(slot: Slot)
    | Change(table: Table)      // a handler writes scoped rows and flushes
    | DropScope(scope: string)  // `delete_network_scope` removes them and does not flush

  function Lower(c: char): char {
    if 'A' <= c <= 'Z' then (c as int + 32) as char else c
  }

  function Fold(s: string): string {
    seq(|s|, i requires 0 <= i < |s| => Lower(s[i]))
  }

  /** The 26 letters, each to its own; any other character as it is. */
  lemma LowerIs(c: char)
    ensures forall i :: 0 <= i < 26 && c == "ABCDEFGHIJKLMNOPQRSTUVWXYZ"[i] ==>
      Lower(c) == "abcdefghijklmnopqrstuvwxyz"[i]
    ensures c !in "ABCDEFGHIJKLMNOPQRSTUVWXYZ" ==> Lower(c) == c
  {
    var upper, lower := "ABCDEFGHIJKLMNOPQRSTUVWXYZ", "abcdefghijklmnopqrstuvwxyz";
    assert forall i :: 0 <= i < 26 ==> upper[i] as int == 65 + i && lower[i] as int == 97 + i;
    if 'A' <= c <= 'Z' {
      assert upper[c as int - 65] == c;
    }
  }

  function SlotOf(scope: string, name: string, kind: string): Slot {
    (Fold("@" + scope + "/" + name), kind)
  }

  function FromTable(v: Server, q: Query): Answer {
    Ask(v.table, q.scope, Fold(q.name), q.kind, q.tldOwner)
  }

  /** What the scoped stage answers: from the cache if it holds anything, else from the tables. */
  function Reply(v: Server, q: Query): Answer {
    if q.kind.Some? && SlotOf(q.scope, q.name, q.kind.value) in v.answers then
      Records(v.answers[SlotOf(q.scope, q.name, q.kind.value)])
    else FromTable(v, q)
  }

  function Without(table: Table, t: string): Table {
    if table == [] then []
    else if table[0].scope == t then Without(table[1..], t)
    else [table[0]] + Without(table[1..], t)
  }

  /** Records found directly are kept; nothing else of the scoped stage is. */
  function Keep(v: Server, q: Query): Server {
    if q.kind.None? || SlotOf(q.scope, q.name, q.kind.value) in v.answers then v
    else
      var direct := Lookup(CacheOf(v.table), q.scope, Fold(q.name), q.kind.value);
      if direct == [] then v else v.(answers := v.answers[SlotOf(q.scope, q.name, q.kind.value) := direct])
  }

  function After(v: Server, e: Event): Server {
    match e
    case Asked(q) => Keep(v, q)
    case Expire(slot) => v.(answers := v.answers - {slot})
    case Change(table) => Server(table, map[])
    case DropScope(t) => v.(table := Without(v.table, t))
  }

  function Later(v: Server, events: seq<Event>): Server
    decreases |events|
  {
    if events == [] then v else Later(After(v, events[0]), events[1..])
  }

  function Booted(table: Table): Server {
    Server(table, map[])
  }

  // ---- slots ----

  lemma FoldAppends(a: string, b: string)
    ensures Fold(a + b) == Fold(a) + Fold(b)
  {
  }

  lemma SlotText(scope: string, name: string)
    ensures Fold("@" + scope + "/" + name) == "@" + (Fold(scope) + "/") + Fold(name)
  {
    FoldAppends("@" + scope + "/", name);
    FoldAppends("@" + scope, "/");
    FoldAppends("@", scope);
    assert Fold("@") == "@" && Fold("/") == "/";
  }

  /** Case folded, neither scope name is the other or continues it past a slash. */
  predicate Apart(s: string, t: string) {
    !(Fold(s) + "/" <= Fold(t) + "/") && !(Fold(t) + "/" <= Fold(s) + "/")
  }

  lemma CommonStart(a: string, x: string, b: string, y: string)
    requires a + x == b + y
    ensures a <= b || b <= a
  {
    assert a == (a + x)[..|a|] && b == (b + y)[..|b|];
  }

  lemma ApartSlots(s: string, n: string, t: string, m: string)
    requires Apart(s, t)
    ensures Fold("@" + s + "/" + n) != Fold("@" + t + "/" + m)
  {
    var a, b := Fold(s) + "/", Fold(t) + "/";
    SlotText(s, n);
    SlotText(t, m);
    assert ("@" + a + Fold(n))[1..] == a + Fold(n) && ("@" + b + Fold(m))[1..] == b + Fold(m);
    if a + Fold(n) == b + Fold(m) {
      CommonStart(a, Fold(n), b, Fold(m));
    }
  }

  lemma SameScopeSlots(s: string, n: string, m: string)
    requires Fold("@" + s + "/" + n) == Fold("@" + s + "/" + m)
    ensures Fold(n) == Fold(m)
  {
    SlotText(s, n);
    SlotText(s, m);
    var head := "@" + (Fold(s) + "/");
    assert Fold(n) == (head + Fold(n))[|head|..];
    assert Fold(m) == (head + Fold(m))[|head|..];
  }

  lemma FoldSame(s: string)
    requires forall c :: c in s ==> !('A' <= c <= 'Z')
    ensures Fold(s) == s
  {
    forall i | 0 <= i < |s| ensures Fold(s)[i] == s[i] {
      assert s[i] in s;
    }
  }

  lemma FoldTwice(s: string)
    ensures Fold(Fold(s)) == Fold(s)
  {
  }

  lemma Continues(a: string, b: string) returns (n: string)
    requires a <= b && Fold(b) == b
    ensures a + n == b + "b." && Fold(n) == n
  {
    var rest := b[|a|..];
    n := rest + "b.";
    assert Fold(rest) == rest by {
      FoldAppends(a, rest);
      assert b == a + rest;
      assert Fold(rest) == Fold(b)[|a|..];
    }
    FoldAppends(rest, "b.");
    assert Fold("b.") == "b.";
  }

  lemma FoldedHead(s: string)
    ensures Fold(Fold(s) + "/") == Fold(s) + "/"
  {
    FoldTwice(s);
    FoldAppends(Fold(s), "/");
    assert Fold("/") == "/";
  }

  lemma SameSlot(s: string, n: string, t: string, m: string)
    requires Fold(n) == n && Fold(m) == m && Fold(s) + "/" + n == Fold(t) + "/" + m
    ensures Fold("@" + s + "/" + n) == Fold("@" + t + "/" + m)
  {
    SlotText(s, n);
    SlotText(t, m);
    var a, b := Fold(s) + "/", Fold(t) + "/";
    assert "@" + a + n == "@" + (a + n) && "@" + b + m == "@" + (b + m);
  }

  /** Scope names that are not apart: two names whose slots coincide. */
  lemma SharedSlot(s: string, t: string) returns (n: string, m: string)
    requires !Apart(s, t)
    ensures Fold("@" + s + "/" + n) == Fold("@" + t + "/" + m) && Fold(n) == n && Fold(m) == m
  {
    var a, b := Fold(s) + "/", Fold(t) + "/";
    FoldedHead(s);
    FoldedHead(t);
    assert Fold("b.") == "b.";
    if a <= b {
      m := "b.";
      n := Continues(a, b);
    } else {
      n := "b.";
      m := Continues(b, a);
    }
    SameSlot(s, n, t, m);
  }

  // ---- what one scope's peers see ----

  /** The run as it would have been had only the peers and the rows of `s` existed. */
  function Purge(events: seq<Event>, s: string): seq<Event>
    decreases |events|
  {
    if events == [] then []
    else
      var rest := Purge(events[1..], s);
      match events[0]
      case Asked(q) => if q.scope == s then [events[0]] + rest else rest
      case Expire(_) => [events[0]] + rest
      case Change(table) => [Change(RowsOf(table, s))] + rest
      case DropScope(t) => if t == s then [events[0]] + rest else rest
  }

  /** Whoever asks is apart from `s`, and whoever holds rows is isolated from it. */
  ghost predicate Keeps(e: Event, s: string) {
    match e
    case Asked(q) => q.scope == s || Apart(s, q.scope)
    case Change(table) => OthersIsolated(table, s)
    case _ => true
  }

  ghost predicate AnswersAgree(s: string, a: map<Slot, seq<Row>>, b: map<Slot, seq<Row>>) {
    forall n, kind :: var k := SlotOf(s, n, kind); (k in a <==> k in b) && (k in a ==> a[k] == b[k])
  }

  ghost predicate Twins(s: string, v: Server, w: Server) {
    RowsOf(v.table, s) == w.table && OthersIsolated(v.table, s) && AnswersAgree(s, v.answers, w.answers)
  }

  lemma {:induction false} OwnRows(table: Table, s: string)
    ensures RowsOf(RowsOf(table, s), s) == RowsOf(table, s)
    ensures forall r :: r in RowsOf(table, s) ==> r.scope == s
  {
    if table != [] {
      OwnRows(table[1..], s);
      var rest := RowsOf(table[1..], s);
      assert ([table[0]] + rest)[1..] == rest;
    }
  }

  lemma {:induction false} RowsWithout(table: Table, s: string, t: string)
    ensures RowsOf(Without(table, t), s) == if s == t then [] else RowsOf(table, s)
    ensures forall r :: r in Without(table, t) ==> r in table
  {
    if table != [] {
      RowsWithout(table[1..], s, t);
      var rest := Without(table[1..], t);
      assert ([table[0]] + rest)[1..] == rest;
    }
  }

  lemma {:induction false} AllWithout(table: Table, s: string)
    requires forall r :: r in table ==> r.scope == s
    ensures Without(table, s) == []
  {
    if table != [] {
      assert table[0] in table;
      AllWithout(table[1..], s);
    }
  }

  lemma TwinsFind(s: string, v: Server, w: Server, name: string, kind: string)
    requires Twins(s, v, w)
    ensures Lookup(CacheOf(v.table), s, name, kind) == Lookup(CacheOf(w.table), s, name, kind)
  {
    OwnRows(v.table, s);
    TablesAgree(s, v.table, w.table);
    LookupAgrees(s, CacheOf(v.table), CacheOf(w.table), name, kind);
  }

  lemma OwnQueryKeepsTwins(s: string, v: Server, w: Server, q: Query)
    requires Twins(s, v, w) && q.scope == s
    ensures Twins(s, Keep(v, q), Keep(w, q))
  {
    if q.kind.Some? {
      TwinsFind(s, v, w, Fold(q.name), q.kind.value);
    }
  }

  lemma OtherQueryKeepsTwins(s: string, v: Server, w: Server, q: Query)
    requires Twins(s, v, w) && Apart(s, q.scope)
    ensures Twins(s, Keep(v, q), w)
  {
    forall n, kind | q.kind.Some? ensures SlotOf(s, n, kind) != SlotOf(q.scope, q.name, q.kind.value) {
      ApartSlots(s, n, q.scope, q.name);
    }
  }

  lemma DropKeepsTwins(s: string, v: Server, w: Server, t: string)
    requires Twins(s, v, w)
    ensures Twins(s, After(v, DropScope(t)), if t == s then After(w, DropScope(t)) else w)
  {
    RowsWithout(v.table, s, t);
    OwnRows(v.table, s);
    if t == s {
      AllWithout(w.table, s);
    }
  }

  lemma {:induction false} RunsKeepTwins(s: string, v: Server, w: Server, events: seq<Event>)
    requires Twins(s, v, w) && forall e :: e in events ==> Keeps(e, s)
    ensures Twins(s, Later(v, events), Later(w, Purge(events, s)))
    decreases |events|
  {
    if events != [] {
      var e, rest := events[0], Purge(events[1..], s);
      assert Keeps(e, s);
      var v', w' := After(v, e), w;
      match e {
        case Asked(q) =>
          if q.scope == s {
            OwnQueryKeepsTwins(s, v, w, q);
            w' := Keep(w, q);
          } else {
            OtherQueryKeepsTwins(s, v, w, q);
          }
        case Expire(slot) => w' := After(w, e);
        case Change(table) => w' := Booted(RowsOf(table, s));
        case DropScope(t) =>
          DropKeepsTwins(s, v, w, t);
          if t == s {
            w' := After(w, e);
          }
      }
      RunsKeepTwins(s, v', w', events[1..]);
      assert forall f: Event :: ([f] + rest)[1..] == rest;
    }
  }

  lemma TwinsReply(s: string, v: Server, w: Server, q: Query)
    requires Twins(s, v, w) && q.scope == s
    ensures Reply(v, q) == Reply(w, q)
  {
    OwnRows(v.table, s);
    ScopesDoNotInterfere(s, v.table, w.table, Fold(q.name), q.kind, q.tldOwner);
  }

  /** The scope's peer is answered as if the others were not there. */
  ghost predicate Unaffected(table: Table, events: seq<Event>, q: Query) {
    var s := q.scope;
    Reply(Later(Booted(table), events), q) == Reply(Later(Booted(RowsOf(table, s)), Purge(events, s)), q)
  }

  /**
   * Non-interference over every run of peers asking, entries expiring, rows changing and scopes being deleted: a peer
   * is answered as if no other scope had rows and no peer of another had asked, as long as the others are isolated from
   * its scope in the record cache and apart from it in the answer cache.
   */
  lemma ScopedRunsDoNotInterfere(table: Table, events: seq<Event>, q: Query)
    requires OthersIsolated(table, q.scope) && forall e :: e in events ==> Keeps(e, q.scope)
    ensures Unaffected(table, events, q)
  {
    var s := q.scope;
    var v, w := Booted(table), Booted(RowsOf(table, s));
    RunsKeepTwins(s, v, w, events);
    TwinsReply(s, Later(v, events), Later(w, Purge(events, s)), q);
  }

  // ---- the exact condition on two names ----

  predicate RowsWithin(table: Table, s: string, t: string) {
    forall r :: r in table ==> r.scope == s || r.scope == t
  }

  predicate EventWithin(e: Event, s: string, t: string) {
    match e
    case Asked(q) => q.scope == s || q.scope == t
    case Change(table) => RowsWithin(table, s, t)
    case _ => true
  }

  /** A run of the two scopes alone, and a question of a peer of `s` after it. */
  predicate Between(table: Table, events: seq<Event>, q: Query, s: string, t: string) {
    RowsWithin(table, s, t) && (forall e :: e in events ==> EventWithin(e, s, t)) && q.scope == s
  }

  /** Over every such run, the peers of `s` never notice `t`. */
  ghost predicate Blind(s: string, t: string) {
    forall table, events, q :: Between(table, events, q, s, t) ==> Unaffected(table, events, q)
  }

  lemma ApartIsBlind(s: string, t: string)
    requires Isolated(s, t) && Apart(s, t)
    ensures Blind(s, t)
  {
    forall table, events, q | Between(table, events, q, s, t) ensures Unaffected(table, events, q) {
      forall e | e in events ensures Keeps(e, s) {
        assert EventWithin(e, s, t);
      }
      ScopedRunsDoNotInterfere(table, events, q);
    }
  }

  lemma PurgedAway(q: Query, s: string)
    requires q.scope != s
    ensures Purge([Asked(q)], s) == []
  {
    assert [Asked(q)][1..] == [];
  }

  /** The peer of `t` asks for its own record; the peer of `s` asks for a name of the same slot and is handed it. */
  lemma SharedSlotLeaks(s: string, t: string)
    requires s != t && !Apart(s, t)
    ensures !Blind(s, t)
  {
    var n, m := SharedSlot(s, t);
    var r := Row(t, m, "A", "");
    var events := [Asked(Query(t, m, Some("A"), None))];
    var q := Query(s, n, Some("A"), Some(s));
    FindsOwn(r);
    assert events[1..] == [];
    assert Later(Booted([r]), events) == Keep(Booted([r]), events[0].q);
    assert Reply(Later(Booted([r]), events), q) == Records([r]);
    PurgedAway(events[0].q, s);
    assert RowsOf([r], s) == [];
    EmptyScopeDenies(s, Fold(n), Some("A"));
    assert Between([r], events, q, s, t) && !Unaffected([r], events, q);
  }

  lemma FindsOwn(r: Row)
    ensures Lookup(CacheOf([r]), r.scope, r.name, r.kind) == [r]
  {
    assert Under([r], KeyOf(r)) == [r];
    assert KeyOf(r) in CacheOf([r]);
  }

  lemma SeenUnasked(r: Row, q: Query, s: string, t: string)
    requires r.scope == t != s == q.scope && Fold(q.name) == q.name
    requires Ask([r], s, q.name, q.kind, q.tldOwner) != Ask([], s, q.name, q.kind, q.tldOwner)
    ensures !Blind(s, t)
  {
    assert RowsOf([r], s) == [];
    assert Reply(Booted([r]), q) == Ask([r], s, q.name, q.kind, q.tldOwner);
    assert Reply(Booted([]), q) == Ask([], s, q.name, q.kind, q.tldOwner);
    assert Between([r], [], q, s, t) && !Unaffected([r], [], q);
  }

  /** Two scopes whose record keys run into each other: the row alone shows. */
  lemma SharedKeyLeaks(s: string, t: string)
    requires s != t && !Isolated(s, t)
    ensures !Blind(s, t)
  {
    var r, name, kind := Leaks(s, t);
    FoldSame(name);
    SeenUnasked(r, Query(s, name, Some(kind), Some(s)), s, t);
  }

  /**
   * The exact condition, read off two scope names before either is created: peers of one never notice the other, over
   * any run, if and only if neither name continues the other past a colon, and, case folded, they differ and neither
   * continues the other past a slash.
   */
  lemma BlindIff(s: string, t: string)
    requires s != t
    ensures Blind(s, t) <==> Isolated(s, t) && Apart(s, t)
  {
    if !Isolated(s, t) {
      SharedKeyLeaks(s, t);
    } else if !Apart(s, t) {
      SharedSlotLeaks(s, t);
    } else {
      ApartIsBlind(s, t);
    }
  }

  /** `Lab` and `lab` are two scopes, isolated, and one answer cache entry. */
  lemma CaseIsNotApart()
    ensures Isolated("Lab", "lab") && !Apart("Lab", "lab") && !Blind("Lab", "lab")
  {
    assert Fold("Lab") == Fold("lab");
    BlindIff("Lab", "lab");
  }

  // ---- the cache adds nothing of its own ----

  ghost predicate PairwiseApart(scopes: set<string>) {
    forall s, t :: s in scopes && t in scopes && s != t ==> Apart(s, t)
  }

  /** Whatever the cache would tell a peer is what the tables would. */
  ghost predicate Current(v: Server, scopes: set<string>) {
    forall s, n, kind :: s in scopes && SlotOf(s, n, kind) in v.answers ==>
      v.answers[SlotOf(s, n, kind)] == Lookup(CacheOf(v.table), s, Fold(n), kind) != []
  }

  /** Peers of these scopes ask, entries expire, handlers change rows and flush. */
  predicate Flushing(e: Event, scopes: set<string>) {
    match e
    case Asked(q) => q.scope in scopes
    case DropScope(_) => false
    case _ => true
  }

  lemma EventKeepsCurrent(v: Server, e: Event, scopes: set<string>)
    requires PairwiseApart(scopes) && Current(v, scopes) && Flushing(e, scopes)
    ensures Current(After(v, e), scopes)
  {
    if e.Asked? && e.q.kind.Some? {
      var q := e.q;
      forall s, n | s in scopes && SlotOf(s, n, q.kind.value) == SlotOf(q.scope, q.name, q.kind.value)
        ensures s == q.scope && Fold(n) == Fold(q.name)
      {
        if s != q.scope {
          ApartSlots(s, n, q.scope, q.name);
        } else {
          SameScopeSlots(s, n, q.name);
        }
      }
    }
  }

  lemma {:induction false} RunsKeepCurrent(v: Server, events: seq<Event>, scopes: set<string>)
    requires PairwiseApart(scopes) && Current(v, scopes) && forall e :: e in events ==> Flushing(e, scopes)
    ensures Current(Later(v, events), scopes)
    decreases |events|
  {
    if events != [] {
      assert Flushing(events[0], scopes);
      EventKeepsCurrent(v, events[0], scopes);
      RunsKeepCurrent(After(v, events[0]), events[1..], scopes);
    }
  }

  /** Over every run in which changes flush, scopes pairwise apart: the cached reply is the reply of the tables. */
  lemma ScopedCacheIsTransparent(table: Table, events: seq<Event>, scopes: set<string>, q: Query)
    requires PairwiseApart(scopes) && q.scope in scopes && forall e :: e in events ==> Flushing(e, scopes)
    ensures var v := Later(Booted(table), events); Reply(v, q) == FromTable(v, q)
  {
    RunsKeepCurrent(Booted(table), events, scopes);
  }

  /** Asking changes no answer of one's own: what is cached is not read again until it expires. */
  lemma AskingAgainIsTheSame(v: Server, q: Query)
    ensures Reply(After(v, Asked(q)), q) == Reply(v, q)
  {
  }

  /** Once an answer has expired its scope is told what the tables say. */
  lemma ExpiredIsReadAgain(v: Server, q: Query)
    requires q.kind.Some?
    ensures Reply(After(v, Expire(SlotOf(q.scope, q.name, q.kind.value))), q) == FromTable(v, q)
  {
  }

  /** Deleting a scope leaves its cached answers behind. */
  lemma DeletedScopeIsServed(r: Row)
    requires Fold(r.name) == r.name
    ensures var q := Query(r.scope, r.name, Some(r.kind), Some(r.scope));
      var v := Later(Booted([r]), [Asked(q), DropScope(r.scope)]);
      v.table == [] && Reply(v, q) == Records([r]) && FromTable(v, q) == NxDomain
  {
    var q := Query(r.scope, r.name, Some(r.kind), Some(r.scope));
    FindsOwn(r);
    var events := [Asked(q), DropScope(r.scope)];
    var kept := Keep(Booted([r]), q);
    assert events[1..] == [DropScope(r.scope)] && events[1..][1..] == [];
    assert Without([r], r.scope) == Without([], r.scope) == [];
    assert Later(kept, events[1..]) == kept.(table := []);
    EmptyScopeDenies(r.scope, r.name, Some(r.kind));
  }
}
