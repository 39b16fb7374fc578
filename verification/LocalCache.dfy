/** The in-memory answer cache in front of the local records: what it may change about an answer. */
module LocalCache {
  import opened Basics
  import opened Names

  type Kind = nat
  type Key = (Name, Kind)
  type Rows = map<Key, seq<string>>

  /** Upstream answers share the map with local ones; only `local` entries answer the local stage. */
  datatype Entry = Entry(records: seq<string>, local: bool)

  /** A query that missed the cache and has read the database, but has not inserted yet. */
  datatype Pending = Pending(key: Key, records: seq<string>)

  datatype Server = Server(rows: Rows, memory: map<Key, Entry>, negatives: set<Key>, pending: map<nat, Pending>)

  datatype Answer = Records(records: seq<string>) | Negative | Upstream

  datatype Step =
    | Read(id: nat, key: Key)
    | Finish(id: nat)
    | Mutate(rows: Rows)
    | Flush
    | Expire(key: Key)
    | CacheUpstream(key: Key, records: seq<string>)
    | CacheNegative(key: Key)

  function Exact(rows: Rows, key: Key): seq<string> {
    if key in rows then rows[key] else []
  }

  /** The database's answer: the name's own rows, else the wildcard's beside it; a single label has none beside it. */
  function Local(rows: Rows, key: Key): seq<string> {
    if Exact(rows, key) != [] then Exact(rows, key)
    else if |key.0| >= 2 then Exact(rows, (WildcardOf(Parent(key.0)), key.1))
    else []
  }

  /** The name's own rows win over the wildcard's, which answer only for a name that has none and has a parent. */
  lemma ExactBeforeWildcard(rows: Rows, n: Name, k: Kind)
    ensures (n, k) in rows && rows[(n, k)] != [] ==> Local(rows, (n, k)) == rows[(n, k)]
    ensures |n| >= 2 && !((n, k) in rows && rows[(n, k)] != []) ==>
      var w := (n[..|n| - 1] + ["*"], k);
      Local(rows, (n, k)) == if w in rows then rows[w] else []
    ensures |n| < 2 && !((n, k) in rows && rows[(n, k)] != []) ==> Local(rows, (n, k)) == []
  {
  }

  predicate CachedLocally(s: Server, key: Key) {
    key in s.memory && s.memory[key].local && s.memory[key].records != []
  }

  /** What a query asked now gets from the local stage. */
  function Served(s: Server, key: Key): seq<string> {
    if CachedLocally(s, key) then s.memory[key].records else Local(s.rows, key)
  }

  /** The stages in order: local records, then a cached negative, then upstream. */
  function Respond(s: Server, key: Key): Answer {
    if Served(s, key) != [] then Records(Served(s, key)) else if key in s.negatives then Negative else Upstream
  }

  predicate Enabled(s: Server, step: Step) {
    match step
    case Read(id, key) => id !in s.pending && !CachedLocally(s, key)
    case Finish(id) => id in s.pending
    case _ => true
  }

  function Do(s: Server, step: Step): Server
    requires Enabled(s, step)
  {
    match step
    case Read(id, key) => s.(pending := s.pending[id := Pending(key, Local(s.rows, key))])
    case Finish(id) =>
      var p, done := s.pending[id], s.(pending := s.pending - {id});
      if p.records == [] then done
      else done.(memory := s.memory[p.key := Entry(p.records, true)],
                 negatives := set k | k in s.negatives && k.0 != p.key.0)
    case Mutate(rows) => s.(rows := rows)
    case Flush => s.(memory := map[], negatives := {})
    case Expire(key) => s.(memory := s.memory - {key}, negatives := s.negatives - {key})
    case CacheUpstream(key, records) =>
      if records == [] then s else s.(memory := s.memory[key := Entry(records, false)])
    case CacheNegative(key) => s.(negatives := s.negatives + {key})
  }

  /** The cache changes no local answer. */
  ghost predicate Transparent(s: Server) {
    forall key :: Served(s, key) == Local(s.rows, key)
  }

  /** Whatever was cached before, after a flush the cache changes nothing. */
  lemma FlushRestores(s: Server, key: Key)
    ensures Served(Do(s, Flush), key) == Local(s.rows, key)
  {
  }

  /** A negative is only looked at once the local stage has nothing: it never shadows a local record. */
  lemma NegativeNeverShadows(s: Server, key: Key)
    requires Transparent(s) && Local(s.rows, key) != []
    ensures Respond(s, key) == Records(Local(s.rows, key))
  {
  }

  /** It is what a name without local records is told once it is cached, and until it is dropped. */
  lemma NegativeIsTold(s: Server, key: Key)
    requires Served(s, key) == []
    ensures Respond(Do(s, CacheNegative(key)), key) == Negative
    ensures Respond(Do(Do(s, CacheNegative(key)), Expire(key)), key) == Upstream
    ensures Respond(Do(Do(s, CacheNegative(key)), Flush), key) ==
      if Local(s.rows, key) != [] then Records(Local(s.rows, key)) else Upstream
    ensures Respond(s, key) == Negative <==> key in s.negatives
    ensures Respond(s, key) == Upstream <==> key !in s.negatives
  {
  }

  // ---- any interleaving ----

  /** Every step taken could be. */
  predicate Legal(rows: Rows, steps: seq<Step>)
    decreases |steps|, 0
  {
    steps == [] ||
    var front, last := steps[..|steps| - 1], steps[|steps| - 1];
    Legal(rows, front) && Enabled(After(rows, front), last)
  }

  /** The server that started on `rows` with nothing cached. */
  function After(rows: Rows, steps: seq<Step>): Server
    requires Legal(rows, steps)
    decreases |steps|, 1
  {
    if steps == [] then Server(rows, map[], {}, map[])
    else Do(After(rows, steps[..|steps| - 1]), steps[|steps| - 1])
  }

  /** The rows in force: those of the last change. */
  function RowsAfter(rows: Rows, steps: seq<Step>): Rows {
    if steps == [] then rows
    else if steps[|steps| - 1].Mutate? then steps[|steps| - 1].rows
    else RowsAfter(rows, steps[..|steps| - 1])
  }

  /** Where query `id`, not yet finished, read the database. */
  function ReadOf(steps: seq<Step>, id: nat): (r: Option<nat>)
    ensures r.Some? ==> r.value < |steps| && steps[r.value].Read?
  {
    if steps == [] then None
    else
      var front, last := steps[..|steps| - 1], steps[|steps| - 1];
      if last.Read? && last.id == id then Some(|front|)
      else if last == Finish(id) then None
      else ReadOf(front, id)
  }

  /** What the query that read at `r` found for its key. */
  function Found(rows: Rows, steps: seq<Step>, r: nat): seq<string>
    requires r < |steps| && steps[r].Read?
  {
    Local(RowsAfter(rows, steps[..r]), steps[r].key)
  }

  /** The read behind the key's cached answer: of the last query to insert one since the entry was last dropped. */
  function Source(rows: Rows, steps: seq<Step>, key: Key): (r: Option<nat>)
    ensures r.Some? ==> r.value < |steps| && steps[r.value].Read? && steps[r.value].key == key
  {
    if steps == [] then None
    else
      var front, last := steps[..|steps| - 1], steps[|steps| - 1];
      match last
      case Flush => None
      case Expire(k) => if k == key then None else Source(rows, front, key)
      case CacheUpstream(k, records) => if k == key && records != [] then None else Source(rows, front, key)
      case Finish(id) =>
        var r := ReadOf(front, id);
        if r.Some? && steps[r.value].key == key && Found(rows, front, r.value) != [] then r
        else Source(rows, front, key)
      case _ => Source(rows, front, key)
  }

  lemma {:induction false} RowsExplained(rows: Rows, steps: seq<Step>)
    requires Legal(rows, steps)
    ensures After(rows, steps).rows == RowsAfter(rows, steps)
  {
    if steps != [] {
      RowsExplained(rows, steps[..|steps| - 1]);
    }
  }

  /** A pending query holds what it found where it read. */
  predicate ReadMatches(rows: Rows, steps: seq<Step>, s: Server, id: nat) {
    var r := ReadOf(steps, id);
    if r.None? then id !in s.pending
    else id in s.pending && s.pending[id] == Pending(steps[r.value].key, Found(rows, steps, r.value))
  }

  /** Behind a cached answer is the read it came from. */
  predicate EntryMatches(rows: Rows, steps: seq<Step>, s: Server, key: Key) {
    var r := Source(rows, steps, key);
    if r.None? then !CachedLocally(s, key)
    else CachedLocally(s, key) && s.memory[key].records == Found(rows, steps, r.value)
  }

  lemma FoundIsPrefix(rows: Rows, steps: seq<Step>, r: nat)
    requires r < |steps| - 1 && steps[r].Read?
    ensures Found(rows, steps, r) == Found(rows, steps[..|steps| - 1], r)
  {
    assert steps[..|steps| - 1][..r] == steps[..r];
  }

  lemma {:induction false} ReadExplained(rows: Rows, steps: seq<Step>, id: nat)
    requires Legal(rows, steps)
    ensures ReadMatches(rows, steps, After(rows, steps), id)
  {
    if steps != [] {
      var front, last := steps[..|steps| - 1], steps[|steps| - 1];
      ReadExplained(rows, front, id);
      if last.Read? && last.id == id {
        RowsExplained(rows, front);
      } else if ReadOf(front, id).Some? {
        FoundIsPrefix(rows, steps, ReadOf(front, id).value);
      }
    }
  }

  lemma {:induction false} EntryExplained(rows: Rows, steps: seq<Step>, key: Key)
    requires Legal(rows, steps)
    ensures EntryMatches(rows, steps, After(rows, steps), key)
  {
    if steps != [] {
      var front, last := steps[..|steps| - 1], steps[|steps| - 1];
      EntryExplained(rows, front, key);
      if last.Finish? {
        ReadExplained(rows, front, last.id);
      }
      EntryStep(rows, steps, After(rows, front), key);
    }
  }

  lemma EntryStep(rows: Rows, steps: seq<Step>, s: Server, key: Key)
    requires steps != [] && Enabled(s, steps[|steps| - 1])
    requires EntryMatches(rows, steps[..|steps| - 1], s, key)
    requires var last := steps[|steps| - 1]; last.Finish? ==> ReadMatches(rows, steps[..|steps| - 1], s, last.id)
    ensures EntryMatches(rows, steps, Do(s, steps[|steps| - 1]), key)
  {
    var front, last := steps[..|steps| - 1], steps[|steps| - 1];
    var r := Source(rows, steps, key);
    if r.Some? {
      FoundIsPrefix(rows, steps, r.value);
    }
  }

  /** The rows still say what the read behind the key's cached answer found, if there is one. */
  predicate StillSo(rows: Rows, steps: seq<Step>, key: Key) {
    var r := Source(rows, steps, key);
    r.Some? ==> Found(rows, steps, r.value) == Local(RowsAfter(rows, steps), key)
  }

  lemma ServedIff(rows: Rows, steps: seq<Step>, key: Key)
    requires Legal(rows, steps)
    ensures Served(After(rows, steps), key) == Local(After(rows, steps).rows, key) <==> StillSo(rows, steps, key)
  {
    RowsExplained(rows, steps);
    EntryExplained(rows, steps, key);
  }

  /**
   * The exact condition, over every interleaving of any number of queries with changes, flushes and upstream
   * insertions: the cache changes no local answer if and only if no cached answer was read, before or after
   * whatever flushes, from rows that have since come to say something else.
   */
  lemma TransparentIff(rows: Rows, steps: seq<Step>)
    requires Legal(rows, steps)
    ensures Transparent(After(rows, steps)) <==> forall key :: StillSo(rows, steps, key)
  {
    forall key {
      ServedIff(rows, steps, key);
    }
    if Transparent(After(rows, steps)) {
      forall key ensures StillSo(rows, steps, key) {
        assert Served(After(rows, steps), key) == Local(After(rows, steps).rows, key);
      }
    }
  }

  /** No change since the read behind any cached answer. */
  predicate Undisturbed(rows: Rows, steps: seq<Step>, key: Key) {
    var r := Source(rows, steps, key);
    r.Some? ==> forall i :: r.value <= i < |steps| ==> !steps[i].Mutate?
  }

  lemma {:induction false} RowsUnchanged(rows: Rows, steps: seq<Step>, r: nat)
    requires r <= |steps| && forall i :: r <= i < |steps| ==> !steps[i].Mutate?
    ensures RowsAfter(rows, steps) == RowsAfter(rows, steps[..r])
  {
    if r < |steps| {
      RowsUnchanged(rows, steps[..|steps| - 1], r);
      assert steps[..|steps| - 1][..r] == steps[..r];
    } else {
      assert steps[..r] == steps;
    }
  }

  /** So it is enough that every answer still cached was read after the last change. */
  lemma UndisturbedIsTransparent(rows: Rows, steps: seq<Step>)
    requires Legal(rows, steps) && forall key :: Undisturbed(rows, steps, key)
    ensures Transparent(After(rows, steps))
  {
    forall key ensures StillSo(rows, steps, key) {
      assert Undisturbed(rows, steps, key);
      if Source(rows, steps, key).Some? {
        RowsUnchanged(rows, steps, Source(rows, steps, key).value);
      }
    }
    TransparentIff(rows, steps);
  }

  /** A query that straddles a change puts the old answer back after the flush, and it stays there. */
  lemma LateInsertIsStale(before: Rows, after: Rows, key: Key)
    requires Local(before, key) != [] && Local(after, key) != Local(before, key)
    ensures
      var s := Do(Do(Do(Do(Server(before, map[], {}, map[]), Read(0, key)), Mutate(after)), Flush), Finish(0));
      s.pending == map[] && s.rows == after && Respond(s, key) == Records(Local(before, key)) && !Transparent(s)
  {
  }

  // ---- one request at a time ----

  /**
   * Whole operations: a query reads and inserts. Most handlers that change records flush afterwards; the ones that
   * publish TLSA and ACME challenge records do not.
   */
  datatype Op = Query(key: Key) | Change(rows: Rows) | QuietChange(rows: Rows) | Other(step: Step)

  predicate Background(step: Step) {
    step.Expire? || step.CacheUpstream? || step.CacheNegative? || step.Flush?
  }

  function Perform(s: Server, op: Op): Server {
    match op
    case Query(key) => if 0 in s.pending || CachedLocally(s, key) then s else Do(Do(s, Read(0, key)), Finish(0))
    case Change(rows) => Do(Do(s, Mutate(rows)), Flush)
    case QuietChange(rows) => Do(s, Mutate(rows))
    case Other(step) => if Background(step) then Do(s, step) else s
  }

  function Run(s: Server, ops: seq<Op>): Server
    decreases |ops|
  {
    if ops == [] then s else Run(Perform(s, ops[0]), ops[1..])
  }

  lemma PerformIsTransparent(s: Server, op: Op)
    requires Transparent(s) && !op.QuietChange?
    ensures Transparent(Perform(s, op))
  {
    forall key ensures Served(Perform(s, op), key) == Local(Perform(s, op).rows, key) {
      assert Served(s, key) == Local(s.rows, key);
    }
  }

  /** Over every run of whole operations that flush, every answer is the one a server without the cache would give. */
  lemma {:induction false} FlushingRunsAreTransparent(s: Server, ops: seq<Op>)
    requires Transparent(s) && forall op :: op in ops ==> !op.QuietChange?
    ensures Transparent(Run(s, ops))
    decreases |ops|
  {
    if ops != [] {
      PerformIsTransparent(s, ops[0]);
      FlushingRunsAreTransparent(Perform(s, ops[0]), ops[1..]);
    }
  }

  /** A change without a flush is harmless exactly when no cached answer is among those it changes. */
  lemma QuietChangeIff(s: Server, rows: Rows)
    requires Transparent(s)
    ensures Transparent(Perform(s, QuietChange(rows))) <==>
      forall key :: CachedLocally(s, key) ==> Local(rows, key) == Local(s.rows, key)
  {
    var t := Perform(s, QuietChange(rows));
    forall key ensures Served(t, key) == Local(rows, key) <==>
      (CachedLocally(s, key) ==> Local(rows, key) == Local(s.rows, key))
    {
      assert Served(s, key) == Local(s.rows, key);
    }
  }

  /** Ask, publish without a flush, ask again: the second answer is the first, with nothing running beside. */
  lemma QuietChangeIsStale(before: Rows, after: Rows, key: Key)
    requires Local(before, key) != [] && Local(after, key) != Local(before, key)
    ensures var s := Run(Server(before, map[], {}, map[]), [Query(key), QuietChange(after), Query(key)]);
      s.rows == after && s.pending == map[] && Respond(s, key) == Records(Local(before, key)) && !Transparent(s)
  {
    var a := Server(before, map[], {}, map[]);
    var b := Perform(a, Query(key));
    var c := Perform(b, QuietChange(after));
    var ops := [Query(key), QuietChange(after), Query(key)];
    assert ops[1..] == [QuietChange(after), Query(key)] && ops[1..][1..] == [Query(key)];
    assert CachedLocally(c, key) && Perform(c, Query(key)) == c;
    assert Run(c, [Query(key)]) == c;
  }

  // ---- the cache ----

  class DnsCache {
    var memory: map<Key, Entry>
    var negatives: set<Key>

    constructor ()
      ensures memory == map[] && negatives == {}
    {
      memory, negatives := map[], {};
    }

    ghost function Over(rows: Rows): Server
      reads this
    {
      Server(rows, memory, negatives, map[])
    }

    /** The local stage of one query, nothing running beside it. */
    method AnswerLocally(rows: Rows, key: Key) returns (records: seq<string>)
      requires Transparent(Over(rows))
      modifies this
      ensures records == Local(rows, key)
      ensures Over(rows) == Perform(old(Over(rows)), Query(key)) && Transparent(Over(rows))
    {
      PerformIsTransparent(Over(rows), Query(key));
      assert Served(Over(rows), key) == Local(rows, key);
      if key in memory && memory[key].local && memory[key].records != [] {
        return memory[key].records;
      }
      records := Local(rows, key);
      if records != [] {
        negatives := set k | k in negatives && k.0 != key.0;
        memory := memory[key := Entry(records, true)];
      }
      assert map[0 := Pending(key, records)] - {0} == map[];
    }

    method FlushAll(ghost rows: Rows)
      modifies this
      ensures memory == map[] && negatives == {} && Transparent(Over(rows))
    {
      memory, negatives := map[], {};
    }
  }
}
