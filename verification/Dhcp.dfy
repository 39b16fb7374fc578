/** DHCP leases, and the scope joins and DNS rows that are meant to follow them. */
module Dhcp {
  import opened Basics

  type Mac = string
  type Ip = nat
  type Scope = string
  type Host = string

  const Unspecified: Ip := 0
  const LastAddress: Ip := 0xFFFF_FFFF

  datatype Pool = Pool(scope: Scope, first: Ip, last: Ip)
  datatype State = Active | Expired | Released
  datatype Lease = Lease(ip: Ip, scope: Scope, host: Option<Host>, start: nat, duration: nat, state: State)

  /** One A row (host to ip) or one PTR row (ip to host) in a scope. */
  datatype Entry = Entry(scope: Scope, host: Host, ip: Ip)

  /** An address joined to a scope, for as long as its lease was granted for. */
  datatype Join = Join(scope: Scope, until: nat)

  datatype Server = Server(leases: map<Mac, Lease>, joins: map<Ip, Join>, addresses: set<Entry>, pointers: set<Entry>)

  datatype Step =
    | Request(mac: Mac, ip: Ip, host: Option<Host>, now: nat, duration: nat)
    | Release(mac: Mac)
    | Decline(mac: Mac)
    | Delete(mac: Mac)
    | Sweep(now: nat, reclaim: nat)

  // ---- allocation ----

  /** The addresses a scan of the pool visits; a range written backwards runs to the end of the address space. */
  predicate Scanned(p: Pool, ip: Ip) {
    p.first <= ip <= if p.first <= p.last then p.last else LastAddress
  }

  predicate Taken(leases: map<Mac, Lease>, scope: Scope, ip: Ip) {
    exists m :: m in leases && leases[m].scope == scope && leases[m].ip == ip
  }

  /** Nothing left in any pool of the scope. */
  ghost predicate Exhausted(pools: seq<Pool>, leases: map<Mac, Lease>, scope: Scope) {
    forall i, ip :: 0 <= i < |pools| && pools[i].scope == scope && Scanned(pools[i], ip) ==> Taken(leases, scope, ip)
  }

  method ScanPool(p: Pool, leases: map<Mac, Lease>) returns (r: Option<Ip>)
    requires p.first <= LastAddress && p.last <= LastAddress
    ensures r.Some? ==> Scanned(p, r.value) && !Taken(leases, p.scope, r.value)
    ensures r.Some? ==> forall m :: m in leases && leases[m].scope == p.scope ==> leases[m].ip != r.value
    ensures r.Some? ==> forall ip :: p.first <= ip < r.value ==> Taken(leases, p.scope, ip)
    ensures forall ip :: Taken(leases, p.scope, ip) ==>
      exists m :: m in leases && leases[m].scope == p.scope && leases[m].ip == ip
    ensures r.None? ==> forall ip :: Scanned(p, ip) ==> Taken(leases, p.scope, ip)
  {
    var current := p.first;
    while true
      invariant Scanned(p, current)
      invariant forall ip :: p.first <= ip < current ==> Taken(leases, p.scope, ip)
      decreases LastAddress - current
    {
      if !Taken(leases, p.scope, current) {
        return Some(current);
      }
      if current == p.last || current == LastAddress {
        return None;
      }
      current := current + 1;
    }
  }

  method AllocateIp(pools: seq<Pool>, leases: map<Mac, Lease>, scope: Scope) returns (r: Option<Ip>)
    requires forall p :: p in pools ==> p.first <= LastAddress && p.last <= LastAddress
    ensures r.None? <==> Exhausted(pools, leases, scope)
    ensures r.Some? ==> !Taken(leases, scope, r.value)
    ensures r.Some? ==> exists p :: p in pools && p.scope == scope && Scanned(p, r.value)
  {
    for i := 0 to |pools|
      invariant Exhausted(pools[..i], leases, scope)
    {
      if pools[i].scope == scope {
        var found := ScanPool(pools[i], leases);
        if found.Some? {
          assert pools[i] in pools;
          return found;
        }
      }
    }
    assert pools[..|pools|] == pools;
    return None;
  }

  /** `handle_discover`: the held address, else the first free one in the order of the pools. Reserves nothing. */
  method Discover(pools: seq<Pool>, leases: map<Mac, Lease>, mac: Mac) returns (r: Option<Ip>)
    requires forall p :: p in pools ==> p.first <= LastAddress && p.last <= LastAddress
    ensures mac in leases ==> (r == Some(leases[mac].ip) <==> exists p :: p in pools && p.scope == leases[mac].scope)
    ensures mac in leases && r.Some? ==> r.value == leases[mac].ip
    ensures mac !in leases ==> (r.None? <==> forall p :: p in pools ==> Exhausted(pools, leases, p.scope))
    ensures mac !in leases && r.Some? ==>
      exists p :: p in pools && Scanned(p, r.value) && !Taken(leases, p.scope, r.value)
  {
    if mac in leases {
      return if exists p :: p in pools && p.scope == leases[mac].scope then Some(leases[mac].ip) else None;
    }
    for i := 0 to |pools|
      invariant forall p :: p in pools[..i] ==> Exhausted(pools, leases, p.scope)
    {
      var found := AllocateIp(pools, leases, pools[i].scope);
      if found.Some? {
        assert pools[i] in pools;
        return found;
      }
    }
    assert pools[..|pools|] == pools;
    return None;
  }

  // ---- the state machine ----

  predicate Live(l: Lease) {
    l.state == Active
  }

  function JoinOf(l: Lease): Join {
    Join(l.scope, l.start + l.duration)
  }

  function FirstPool(pools: seq<Pool>, ip: Ip): Option<Scope> {
    if pools == [] then None
    else if pools[0].first <= ip <= pools[0].last then Some(pools[0].scope)
    else FirstPool(pools[1..], ip)
  }

  /** The scope a REQUEST is granted in: the client's old one whatever the address, else the first pool that has it. */
  function Granted(pools: seq<Pool>, s: Server, mac: Mac, ip: Ip): Option<Scope> {
    if ip == Unspecified then None
    else if mac in s.leases then Some(s.leases[mac].scope)
    else FirstPool(pools, ip)
  }

  predicate InPool(p: Pool, ip: Ip) {
    p.first <= ip && ip <= p.last
  }

  lemma {:induction false} FirstPoolIs(pools: seq<Pool>, ip: Ip)
    ensures FirstPool(pools, ip).None? <==> forall p :: p in pools ==> !InPool(p, ip)
    ensures FirstPool(pools, ip).Some? ==>
      exists i :: 0 <= i < |pools| && InPool(pools[i], ip) && pools[i].scope == FirstPool(pools, ip).value &&
        forall j :: 0 <= j < i ==> !InPool(pools[j], ip)
  {
    if pools != [] && !InPool(pools[0], ip) {
      var rest := pools[1..];
      FirstPoolIs(rest, ip);
      assert pools == [pools[0]] + rest;
      if FirstPool(pools, ip).Some? {
        var i :| 0 <= i < |rest| && InPool(rest[i], ip) && rest[i].scope == FirstPool(rest, ip).value &&
          forall j :: 0 <= j < i ==> !InPool(rest[j], ip);
        assert pools[i + 1] == rest[i];
        forall j | 0 <= j < i + 1 ensures !InPool(pools[j], ip) {
          assert j > 0 ==> pools[j] == rest[j - 1];
        }
      }
    }
  }

  /**
   * A request is granted exactly when it names an address and the client has a lease or some pool has the address: in
   * the scope of that lease, else of the first such pool.
   */
  lemma GrantedIff(pools: seq<Pool>, s: Server, mac: Mac, ip: Ip)
    ensures Granted(pools, s, mac, ip).Some? <==>
      ip != 0 && (mac in s.leases || exists p :: p in pools && InPool(p, ip))
    ensures ip != 0 && mac in s.leases ==> Granted(pools, s, mac, ip) == Some(s.leases[mac].scope)
    ensures ip != 0 && mac !in s.leases && Granted(pools, s, mac, ip).Some? ==>
      exists i :: 0 <= i < |pools| && InPool(pools[i], ip) && pools[i].scope == Granted(pools, s, mac, ip).value &&
        forall j :: 0 <= j < i ==> !InPool(pools[j], ip)
  {
    FirstPoolIs(pools, ip);
  }

  function EntryOf(l: Lease): Entry
    requires l.host.Some?
  {
    Entry(l.scope, l.host.value, l.ip)
  }

  /** Two unique columns and `INSERT OR REPLACE`: whoever held the MAC or the address is gone. */
  function Insert(leases: map<Mac, Lease>, mac: Mac, l: Lease): map<Mac, Lease> {
    (map m | m in leases && leases[m].ip != l.ip :: leases[m])[mac := l]
  }

  function Requested(s: Server, mac: Mac, l: Lease): Server {
    var rows := if l.host.Some? then {EntryOf(l)} else {};
    Server(Insert(s.leases, mac, l), s.joins[l.ip := JoinOf(l)], s.addresses + rows, s.pointers + rows)
  }

  /** A rows go by name, PTR rows by address, whoever they were written for. */
  function Unregistered(s: Server, l: Lease): Server {
    if l.host.None? then s.(joins := s.joins - {l.ip})
    else Server(s.leases, s.joins - {l.ip},
                set e | e in s.addresses && !(e.scope == l.scope && e.host == l.host.value),
                set e | e in s.pointers && !(e.scope == l.scope && e.ip == l.ip))
  }

  function Marked(s: Server, mac: Mac): Server
    requires mac in s.leases
  {
    s.(leases := s.leases[mac := s.leases[mac].(state := Released)])
  }

  function Aged(l: Lease, now: nat): Lease {
    if l.state == Active && l.start + l.duration < now then l.(state := Expired) else l
  }

  predicate Reclaimed(l: Lease, now: nat, reclaim: nat) {
    !Aged(l, now).state.Active? && l.start + l.duration + reclaim < now
  }

  predicate Swept(s: Server, mac: Mac, now: nat, reclaim: nat) {
    mac in s.leases && Reclaimed(s.leases[mac], now, reclaim)
  }

  /** A swept lease takes down every A row of its name in its scope. */
  predicate TakesName(s: Server, now: nat, reclaim: nat, e: Entry) {
    exists m :: m in s.leases && Swept(s, m, now, reclaim) &&
      s.leases[m].scope == e.scope && s.leases[m].host == Some(e.host)
  }

  predicate TakesPointer(s: Server, now: nat, reclaim: nat, e: Entry) {
    exists m :: m in s.leases && Swept(s, m, now, reclaim) &&
      s.leases[m].scope == e.scope && s.leases[m].host.Some? && s.leases[m].ip == e.ip
  }

  predicate TakesJoin(s: Server, now: nat, reclaim: nat, ip: Ip) {
    exists m :: m in s.leases && Swept(s, m, now, reclaim) && s.leases[m].ip == ip
  }

  function AfterSweep(s: Server, now: nat, reclaim: nat): Server {
    Server(map m | m in s.leases && !Swept(s, m, now, reclaim) :: Aged(s.leases[m], now),
           map ip | ip in s.joins && !TakesJoin(s, now, reclaim, ip) :: s.joins[ip],
           set e | e in s.addresses && !TakesName(s, now, reclaim, e),
           set e | e in s.pointers && !TakesPointer(s, now, reclaim, e))
  }

  function Do(pools: seq<Pool>, s: Server, step: Step): Server {
    match step
    case Request(mac, ip, host, now, duration) =>
      var scope := Granted(pools, s, mac, ip);
      if scope.None? then s else Requested(s, mac, Lease(ip, scope.value, host, now, duration, Active))
    case Release(mac) => if mac in s.leases then Unregistered(Marked(s, mac), s.leases[mac]) else s
    case Decline(mac) => if mac in s.leases then Marked(s, mac) else s
    case Delete(mac) => s.(leases := s.leases - {mac})
    case Sweep(now, reclaim) => AfterSweep(s, now, reclaim)
  }

  function Run(pools: seq<Pool>, s: Server, steps: seq<Step>): Server
    decreases |steps|
  {
    if steps == [] then s else Run(pools, Do(pools, s, steps[0]), steps[1..])
  }

  const Boot: Server := Server(map[], map[], {}, {})

  // ---- no address has two holders ----

  ghost predicate OneHolder(s: Server) {
    forall a, b :: a in s.leases && b in s.leases && s.leases[a].ip == s.leases[b].ip ==> a == b
  }

  lemma {:induction false} RunKeepsOneHolder(pools: seq<Pool>, s: Server, steps: seq<Step>)
    requires OneHolder(s)
    ensures OneHolder(Run(pools, s, steps))
    decreases |steps|
  {
    if steps != [] {
      assert OneHolder(Do(pools, s, steps[0]));
      RunKeepsOneHolder(pools, Do(pools, s, steps[0]), steps[1..]);
    }
  }

  // ---- sticky bindings ----

  /** Whatever its state, a lease is reclaimed exactly once its term and the reclaim timeout are both over. */
  lemma ReclaimedExactlyWhenDue(l: Lease, now: nat, reclaim: nat)
    ensures Reclaimed(l, now, reclaim) <==> l.start + l.duration + reclaim < now
  {
  }

  predicate Bound(s: Server, mac: Mac, ip: Ip) {
    mac in s.leases && s.leases[mac].ip == ip
  }

  /** What unbinds a client: its own request for another address, another's for this one, a delete, or the reclaim. */
  predicate Displaces(pools: seq<Pool>, s: Server, step: Step, mac: Mac, ip: Ip) {
    match step
    case Request(m, i, _, _, _) => Granted(pools, s, m, i).Some? && (m == mac) != (i == ip)
    case Delete(m) => m == mac
    case Sweep(now, reclaim) => Swept(s, mac, now, reclaim)
    case _ => false
  }

  /** A client keeps its address through a step exactly when the step is none of the four. */
  lemma BindingSurvivesIff(pools: seq<Pool>, s: Server, step: Step, mac: Mac, ip: Ip)
    requires OneHolder(s) && Bound(s, mac, ip)
    ensures Bound(Do(pools, s, step), mac, ip) <==> !Displaces(pools, s, step, mac, ip)
  {
  }

  ghost predicate Undisturbed(pools: seq<Pool>, s: Server, steps: seq<Step>, mac: Mac, ip: Ip)
    decreases |steps|
  {
    steps == [] ||
    (!Displaces(pools, s, steps[0], mac, ip) && Undisturbed(pools, Do(pools, s, steps[0]), steps[1..], mac, ip))
  }

  /** Over whole runs: released, declined or expired, the client is still bound to the address it was given. */
  lemma {:induction false} BindingIsSticky(pools: seq<Pool>, s: Server, steps: seq<Step>, mac: Mac, ip: Ip)
    requires OneHolder(s) && Bound(s, mac, ip) && Undisturbed(pools, s, steps, mac, ip)
    ensures Bound(Run(pools, s, steps), mac, ip)
    decreases |steps|
  {
    if steps != [] {
      var next := Do(pools, s, steps[0]);
      BindingSurvivesIff(pools, s, steps[0], mac, ip);
      assert OneHolder(next);
      BindingIsSticky(pools, next, steps[1..], mac, ip);
    }
  }

  // ---- joins and rows follow the leases ----

  predicate Owns(s: Server, mac: Mac, e: Entry) {
    mac in s.leases && Live(s.leases[mac]) && s.leases[mac].host.Some? && EntryOf(s.leases[mac]) == e
  }

  predicate Holds(s: Server, mac: Mac, ip: Ip) {
    Bound(s, mac, ip) && Live(s.leases[mac])
  }

  ghost predicate RowsExact(s: Server, rows: set<Entry>) {
    && (forall m :: m in s.leases && Live(s.leases[m]) && s.leases[m].host.Some? ==> EntryOf(s.leases[m]) in rows)
    && (forall e :: e in rows ==> exists m :: Owns(s, m, e))
  }

  ghost predicate JoinsExact(s: Server) {
    && (forall m :: m in s.leases && Live(s.leases[m]) ==>
          s.leases[m].ip in s.joins && s.joins[s.leases[m].ip] == JoinOf(s.leases[m]))
    && (forall ip :: ip in s.joins ==> exists m :: Holds(s, m, ip))
  }

  /** A join for every active lease, an A and a PTR for every active lease with a host name, and nothing else. */
  ghost predicate Registered(s: Server) {
    OneHolder(s) && JoinsExact(s) && RowsExact(s, s.addresses) && RowsExact(s, s.pointers)
  }

  /** Another active lease has this one's name in this scope. */
  predicate NameShared(s: Server, mac: Mac)
    requires mac in s.leases
  {
    exists m :: m in s.leases && m != mac && Live(s.leases[m]) && s.leases[m].host.Some? &&
      s.leases[m].scope == s.leases[mac].scope && s.leases[m].host == s.leases[mac].host
  }

  /** What an active lease left behind by a REQUEST would need: the same row, at the same address. */
  predicate CarriedOver(was: Lease, l: Lease) {
    Live(was) ==> was.ip == l.ip && (was.host.Some? ==> was.scope == l.scope && was.host == l.host)
  }

  /** Each step's own test for leaving the tables exact, readable before the step is taken. */
  predicate Clean(pools: seq<Pool>, s: Server, step: Step) {
    match step
    case Request(mac, ip, host, now, duration) =>
      var scope := Granted(pools, s, mac, ip);
      scope.Some? ==>
        forall m :: m in s.leases && (m == mac || s.leases[m].ip == ip) ==>
          CarriedOver(s.leases[m], Lease(ip, scope.value, host, now, duration, Active))
    case Release(mac) => mac in s.leases && s.leases[mac].host.Some? ==> !NameShared(s, mac)
    case Decline(mac) => mac in s.leases ==> !Live(s.leases[mac])
    case Delete(mac) => mac in s.leases ==> !Live(s.leases[mac])
    case Sweep(now, reclaim) => SweepClean(s, now, reclaim)
  }

  /** The sweep makes it expire without reclaiming it: its rows and its join stay behind. */
  predicate Lapses(s: Server, mac: Mac, now: nat, reclaim: nat) {
    mac in s.leases && Live(s.leases[mac]) && !Live(Aged(s.leases[mac], now)) && !Swept(s, mac, now, reclaim)
  }

  /** Nothing expires without being reclaimed, and no survivor's name in its scope is taken down with a swept lease. */
  predicate SweepClean(s: Server, now: nat, reclaim: nat) {
    && (forall m :: m in s.leases ==> !Lapses(s, m, now, reclaim))
    && forall m :: m in s.leases && Live(s.leases[m]) && s.leases[m].host.Some? && !Swept(s, m, now, reclaim) ==>
         !TakesName(s, now, reclaim, EntryOf(s.leases[m]))
  }

  lemma RowsAfterRequest(s: Server, mac: Mac, l: Lease, rows: set<Entry>)
    requires OneHolder(s) && RowsExact(s, rows) && Live(l)
    requires forall m :: m in s.leases && (m == mac || s.leases[m].ip == l.ip) ==> CarriedOver(s.leases[m], l)
    ensures RowsExact(Requested(s, mac, l), rows + if l.host.Some? then {EntryOf(l)} else {})
  {
    var n := Requested(s, mac, l);
    forall e | e in rows ensures exists m :: Owns(n, m, e) {
      var m :| Owns(s, m, e);
      assert Owns(n, m, e) || Owns(n, mac, e);
    }
    assert l.host.Some? ==> Owns(n, mac, EntryOf(l));
  }

  lemma JoinsAfterRequest(s: Server, mac: Mac, l: Lease)
    requires OneHolder(s) && JoinsExact(s) && Live(l)
    requires mac in s.leases ==> CarriedOver(s.leases[mac], l)
    ensures JoinsExact(Requested(s, mac, l))
  {
    var n := Requested(s, mac, l);
    assert Holds(n, mac, l.ip);
    forall ip | ip in s.joins && ip != l.ip ensures exists m :: Holds(n, m, ip) {
      var m :| Holds(s, m, ip);
      assert Holds(n, m, ip);
    }
  }

  /** A live lease the request drops without carrying over leaves a join or a row nobody owns. */
  lemma RequestLeavesBehind(s: Server, mac: Mac, l: Lease, m: Mac)
    requires Registered(s) && m in s.leases && (m == mac || s.leases[m].ip == l.ip)
    requires !CarriedOver(s.leases[m], l)
    ensures !Registered(Requested(s, mac, l))
  {
    var n, was := Requested(s, mac, l), s.leases[m];
    if was.ip != l.ip {
      assert was.ip in n.joins;
      assert forall x :: !Holds(n, x, was.ip);
    } else {
      assert EntryOf(was) in n.addresses;
      assert forall x :: !Owns(n, x, EntryOf(was));
    }
  }

  lemma RequestRegistersIff(pools: seq<Pool>, s: Server, step: Step)
    requires Registered(s) && step.Request?
    ensures Registered(Do(pools, s, step)) <==> Clean(pools, s, step)
  {
    var scope := Granted(pools, s, step.mac, step.ip);
    if scope.Some? {
      var l := Lease(step.ip, scope.value, step.host, step.now, step.duration, Active);
      if m :| m in s.leases && (m == step.mac || s.leases[m].ip == step.ip) && !CarriedOver(s.leases[m], l) {
        RequestLeavesBehind(s, step.mac, l, m);
      } else {
        RowsAfterRequest(s, step.mac, l, s.addresses);
        RowsAfterRequest(s, step.mac, l, s.pointers);
        JoinsAfterRequest(s, step.mac, l);
      }
    }
  }

  lemma JoinsAfterRelease(s: Server, mac: Mac)
    requires OneHolder(s) && JoinsExact(s) && mac in s.leases
    ensures JoinsExact(Unregistered(Marked(s, mac), s.leases[mac]))
  {
    var n := Unregistered(Marked(s, mac), s.leases[mac]);
    forall ip | ip in n.joins ensures exists m :: Holds(n, m, ip) {
      var m :| Holds(s, m, ip);
      assert Holds(n, m, ip);
    }
  }

  lemma RowsAfterRelease(s: Server, mac: Mac)
    requires Registered(s) && mac in s.leases
    ensures var n := Unregistered(Marked(s, mac), s.leases[mac]);
      RowsExact(n, n.pointers) && ((s.leases[mac].host.Some? && NameShared(s, mac)) || RowsExact(n, n.addresses))
  {
    var n := Unregistered(Marked(s, mac), s.leases[mac]);
    forall e | e in n.addresses ensures exists m :: Owns(n, m, e) {
      var m :| Owns(s, m, e);
      assert Owns(n, m, e);
    }
    forall e | e in n.pointers ensures exists m :: Owns(n, m, e) {
      var m :| Owns(s, m, e);
      assert Owns(n, m, e);
    }
  }

  lemma ReleaseRegistersIff(pools: seq<Pool>, s: Server, mac: Mac)
    requires Registered(s)
    ensures Registered(Do(pools, s, Release(mac))) <==> Clean(pools, s, Release(mac))
  {
    if mac in s.leases {
      var n := Unregistered(Marked(s, mac), s.leases[mac]);
      JoinsAfterRelease(s, mac);
      RowsAfterRelease(s, mac);
      if s.leases[mac].host.Some? && NameShared(s, mac) {
        var m :| m in s.leases && m != mac && Live(s.leases[m]) && s.leases[m].host.Some? &&
          s.leases[m].scope == s.leases[mac].scope && s.leases[m].host == s.leases[mac].host;
        assert m in n.leases && EntryOf(n.leases[m]) !in n.addresses;
      }
    }
  }

  /** The leases change at `mac` only, which is active neither before nor after. */
  ghost predicate DeadChange(s: Server, n: Server, mac: Mac) {
    && n == s.(leases := n.leases)
    && (forall m :: m in n.leases ==> m in s.leases && n.leases[m].ip == s.leases[m].ip)
    && (forall m :: m in s.leases && m != mac ==> m in n.leases && n.leases[m] == s.leases[m])
    && (mac in s.leases ==> !Live(s.leases[mac])) && (mac in n.leases ==> !Live(n.leases[mac]))
  }

  lemma DeadRowsStay(s: Server, n: Server, mac: Mac, rows: set<Entry>)
    requires DeadChange(s, n, mac) && RowsExact(s, rows)
    ensures RowsExact(n, rows)
  {
    forall e | e in rows ensures exists m :: Owns(n, m, e) {
      var m :| Owns(s, m, e);
      assert Owns(n, m, e);
    }
  }

  /** A lease that is not active owns nothing, so forgetting it or changing its state changes no owner. */
  lemma DeadLeaseOwnsNothing(s: Server, n: Server, mac: Mac)
    requires Registered(s) && DeadChange(s, n, mac)
    ensures Registered(n)
  {
    forall ip | ip in s.joins ensures exists m :: Holds(n, m, ip) {
      var m :| Holds(s, m, ip);
      assert Holds(n, m, ip);
    }
    DeadRowsStay(s, n, mac, s.addresses);
    DeadRowsStay(s, n, mac, s.pointers);
  }

  lemma DropLeavesJoin(pools: seq<Pool>, s: Server, step: Step)
    requires OneHolder(s) && JoinsExact(s) && (step.Decline? || step.Delete?)
    requires step.mac in s.leases && Live(s.leases[step.mac])
    ensures !JoinsExact(Do(pools, s, step))
  {
    var n, ip := Do(pools, s, step), s.leases[step.mac].ip;
    assert ip in n.joins;
    assert forall m :: !Holds(n, m, ip);
  }

  lemma DropRegistersIff(pools: seq<Pool>, s: Server, step: Step)
    requires Registered(s) && (step.Decline? || step.Delete?)
    ensures Registered(Do(pools, s, step)) <==> Clean(pools, s, step)
  {
    if step.mac in s.leases && Live(s.leases[step.mac]) {
      DropLeavesJoin(pools, s, step);
    } else {
      DeadLeaseOwnsNothing(s, Do(pools, s, step), step.mac);
    }
  }

  /** A swept lease shares its address with no survivor, so it takes down only its own join and PTR. */
  lemma SweepSparesOthers(s: Server, now: nat, reclaim: nat, m: Mac)
    requires OneHolder(s) && m in s.leases && !Swept(s, m, now, reclaim)
    ensures !TakesJoin(s, now, reclaim, s.leases[m].ip)
    ensures s.leases[m].host.Some? ==> !TakesPointer(s, now, reclaim, EntryOf(s.leases[m]))
  {
  }

  /** What lapses leaves a join without an active lease. */
  lemma LapseLeavesJoin(s: Server, now: nat, reclaim: nat, m: Mac)
    requires OneHolder(s) && JoinsExact(s) && Lapses(s, m, now, reclaim)
    ensures !JoinsExact(AfterSweep(s, now, reclaim))
  {
    var n, ip := AfterSweep(s, now, reclaim), s.leases[m].ip;
    SweepSparesOthers(s, now, reclaim, m);
    assert ip in n.joins;
    assert forall x :: !Holds(n, x, ip);
  }

  ghost predicate NoneLapses(s: Server, now: nat, reclaim: nat) {
    forall m :: m in s.leases ==> !Lapses(s, m, now, reclaim)
  }

  lemma SweepKeepsJoins(s: Server, now: nat, reclaim: nat)
    requires OneHolder(s) && JoinsExact(s) && NoneLapses(s, now, reclaim)
    ensures JoinsExact(AfterSweep(s, now, reclaim))
  {
    var n := AfterSweep(s, now, reclaim);
    forall m | m in n.leases && Live(n.leases[m])
      ensures n.leases[m].ip in n.joins && n.joins[n.leases[m].ip] == JoinOf(n.leases[m])
    {
      SweepSparesOthers(s, now, reclaim, m);
    }
    forall ip | ip in n.joins ensures exists m :: Holds(n, m, ip) {
      var m :| Holds(s, m, ip);
      assert !Lapses(s, m, now, reclaim);
      assert Holds(n, m, ip);
    }
  }

  /** A row whose owner neither lapses nor is swept keeps its owner. */
  lemma OwnerSurvives(s: Server, now: nat, reclaim: nat, m: Mac, e: Entry)
    requires Owns(s, m, e) && NoneLapses(s, now, reclaim) && !Swept(s, m, now, reclaim)
    ensures Owns(AfterSweep(s, now, reclaim), m, e)
  {
    assert !Lapses(s, m, now, reclaim);
  }

  lemma SweepKeepsPointers(s: Server, now: nat, reclaim: nat)
    requires OneHolder(s) && RowsExact(s, s.pointers) && NoneLapses(s, now, reclaim)
    ensures RowsExact(AfterSweep(s, now, reclaim), AfterSweep(s, now, reclaim).pointers)
  {
    var n := AfterSweep(s, now, reclaim);
    forall m | m in n.leases && Live(n.leases[m]) && n.leases[m].host.Some?
      ensures EntryOf(n.leases[m]) in n.pointers
    {
      SweepSparesOthers(s, now, reclaim, m);
    }
    forall e | e in n.pointers ensures exists m :: Owns(n, m, e) {
      var m :| Owns(s, m, e);
      OwnerSurvives(s, now, reclaim, m, e);
    }
  }

  /** The A rows stay exact unless a swept lease and an active survivor have the same name in the same scope. */
  lemma SweepAddressesIff(s: Server, now: nat, reclaim: nat)
    requires RowsExact(s, s.addresses) && NoneLapses(s, now, reclaim)
    ensures var n := AfterSweep(s, now, reclaim); RowsExact(n, n.addresses) <==> SweepClean(s, now, reclaim)
  {
    var n := AfterSweep(s, now, reclaim);
    forall e | e in n.addresses ensures exists m :: Owns(n, m, e) {
      var m :| Owns(s, m, e);
      OwnerSurvives(s, now, reclaim, m, e);
    }
    if !SweepClean(s, now, reclaim) {
      var m :| m in s.leases && Live(s.leases[m]) && s.leases[m].host.Some? && !Swept(s, m, now, reclaim) &&
        TakesName(s, now, reclaim, EntryOf(s.leases[m]));
      assert !Lapses(s, m, now, reclaim);
      assert m in n.leases && EntryOf(n.leases[m]) !in n.addresses;
    }
  }

  lemma SweepKeepsOneHolder(s: Server, now: nat, reclaim: nat)
    requires OneHolder(s)
    ensures OneHolder(AfterSweep(s, now, reclaim))
  {
  }

  /** Who is left after a sweep, and in which state: an active lease expires exactly when its term is over. */
  lemma SweepAges(s: Server, now: nat, reclaim: nat, m: Mac)
    requires m in s.leases
    ensures var l, t := s.leases[m], AfterSweep(s, now, reclaim);
      && (m in t.leases <==> now <= l.start + l.duration + reclaim)
      && (m in t.leases ==>
            t.leases[m] == l.(state := if l.state == Active && l.start + l.duration < now then Expired else l.state))
  {
    ReclaimedExactlyWhenDue(s.leases[m], now, reclaim);
  }

  lemma SweepRegistersIff(s: Server, now: nat, reclaim: nat)
    requires Registered(s)
    ensures Registered(AfterSweep(s, now, reclaim)) <==> SweepClean(s, now, reclaim)
  {
    if m :| m in s.leases && Lapses(s, m, now, reclaim) {
      LapseLeavesJoin(s, now, reclaim, m);
    } else {
      SweepKeepsJoins(s, now, reclaim);
      SweepKeepsPointers(s, now, reclaim);
      SweepAddressesIff(s, now, reclaim);
      SweepKeepsOneHolder(s, now, reclaim);
    }
  }

  /** From exact tables a step leaves exact tables if and only if it passes its test. */
  lemma StepRegistersIff(pools: seq<Pool>, s: Server, step: Step)
    requires Registered(s)
    ensures Registered(Do(pools, s, step)) <==> Clean(pools, s, step)
  {
    match step
    case Request(_, _, _, _, _) => RequestRegistersIff(pools, s, step);
    case Release(mac) => ReleaseRegistersIff(pools, s, mac);
    case Sweep(now, reclaim) => SweepRegistersIff(s, now, reclaim);
    case _ => DropRegistersIff(pools, s, step);
  }

  ghost predicate CleanRun(pools: seq<Pool>, s: Server, steps: seq<Step>)
    decreases |steps|
  {
    steps == [] || (Clean(pools, s, steps[0]) && CleanRun(pools, Do(pools, s, steps[0]), steps[1..]))
  }

  /** Over whole runs: every prefix leaves the tables exact if and only if every step passed its test. */
  lemma {:induction false} RunRegistersIff(pools: seq<Pool>, s: Server, steps: seq<Step>)
    requires Registered(s)
    ensures CleanRun(pools, s, steps) <==>
      forall k :: 0 <= k <= |steps| ==> Registered(Run(pools, s, steps[..k]))
    decreases |steps|
  {
    if steps != [] {
      var next, rest := Do(pools, s, steps[0]), steps[1..];
      StepRegistersIff(pools, s, steps[0]);
      forall k | 0 < k <= |steps| ensures Run(pools, s, steps[..k]) == Run(pools, next, rest[..k - 1]) {
        assert steps[..k][1..] == rest[..k - 1];
      }
      assert Run(pools, next, rest[..0]) == next;
      if Registered(next) {
        RunRegistersIff(pools, next, rest);
        forall k | 0 <= k <= |rest| ensures Run(pools, next, rest[..k]) == Run(pools, s, steps[..k + 1]) {
          assert steps[..k + 1][1..] == rest[..k];
        }
      } else {
        assert !Registered(Run(pools, s, steps[..1]));
      }
    }
  }

  // ---- what every run leaves in the tables ----

  /** Whatever has lapsed, an active lease has its own join, and with a host name its own PTR row. */
  ghost predicate ActiveKept(s: Server) {
    && OneHolder(s)
    && forall m :: m in s.leases && Live(s.leases[m]) ==>
         var l := s.leases[m];
         l.ip in s.joins && s.joins[l.ip] == JoinOf(l) && (l.host.Some? ==> EntryOf(l) in s.pointers)
  }

  lemma SweepKeepsActive(s: Server, now: nat, reclaim: nat)
    requires ActiveKept(s)
    ensures ActiveKept(AfterSweep(s, now, reclaim))
  {
    var n := AfterSweep(s, now, reclaim);
    SweepKeepsOneHolder(s, now, reclaim);
    forall m | m in n.leases && Live(n.leases[m])
      ensures var l := n.leases[m];
        l.ip in n.joins && n.joins[l.ip] == JoinOf(l) && (l.host.Some? ==> EntryOf(l) in n.pointers)
    {
      SweepSparesOthers(s, now, reclaim, m);
    }
  }

  lemma StepKeepsActive(pools: seq<Pool>, s: Server, step: Step)
    requires ActiveKept(s)
    ensures ActiveKept(Do(pools, s, step))
  {
    if step.Sweep? {
      SweepKeepsActive(s, step.now, step.reclaim);
    }
  }

  /** In every run: clients that take addresses over, rename, decline, lapse or are deleted take nothing from others. */
  lemma {:induction false} RunKeepsActive(pools: seq<Pool>, s: Server, steps: seq<Step>)
    requires ActiveKept(s)
    ensures ActiveKept(Run(pools, s, steps))
    decreases |steps|
  {
    if steps != [] {
      StepKeepsActive(pools, s, steps[0]);
      RunKeepsActive(pools, Do(pools, s, steps[0]), steps[1..]);
    }
  }

  ghost predicate History(pools: seq<Pool>, h: seq<Server>, steps: seq<Step>) {
    |h| == |steps| + 1 && h[0] == Boot && forall i :: 0 <= i < |steps| ==> h[i + 1] == Do(pools, h[i], steps[i])
  }

  /** The step grants a lease that registers `e`. */
  predicate Writes(pools: seq<Pool>, s: Server, step: Step, e: Entry) {
    && step.Request? && step.host == Some(e.host) && step.ip == e.ip
    && Granted(pools, s, step.mac, step.ip) == Some(e.scope)
  }

  /** A lease of the row's name and scope is released or swept. */
  predicate ClearsAddress(s: Server, step: Step, e: Entry) {
    match step
    case Release(mac) => mac in s.leases && s.leases[mac].scope == e.scope && s.leases[mac].host == Some(e.host)
    case Sweep(now, reclaim) => TakesName(s, now, reclaim, e)
    case _ => false
  }

  /** A named lease of the row's address and scope is released or swept. */
  predicate ClearsPointer(s: Server, step: Step, e: Entry) {
    match step
    case Release(mac) =>
      mac in s.leases && s.leases[mac].scope == e.scope && s.leases[mac].host.Some? && s.leases[mac].ip == e.ip
    case Sweep(now, reclaim) => TakesPointer(s, now, reclaim, e)
    case _ => false
  }

  /** Some granted request of the first `n` steps wrote `e`, and nothing since cleared it. */
  ghost predicate AddressStands(pools: seq<Pool>, h: seq<Server>, steps: seq<Step>, n: nat, e: Entry)
    requires n <= |steps| < |h|
  {
    exists i :: 0 <= i < n && Writes(pools, h[i], steps[i], e) &&
      forall j :: i < j < n ==> !ClearsAddress(h[j], steps[j], e)
  }

  ghost predicate PointerStands(pools: seq<Pool>, h: seq<Server>, steps: seq<Step>, n: nat, e: Entry)
    requires n <= |steps| < |h|
  {
    exists i :: 0 <= i < n && Writes(pools, h[i], steps[i], e) &&
      forall j :: i < j < n ==> !ClearsPointer(h[j], steps[j], e)
  }

  lemma StepOnRows(pools: seq<Pool>, s: Server, step: Step, e: Entry)
    ensures e in Do(pools, s, step).addresses <==>
      Writes(pools, s, step, e) || (e in s.addresses && !ClearsAddress(s, step, e))
    ensures e in Do(pools, s, step).pointers <==>
      Writes(pools, s, step, e) || (e in s.pointers && !ClearsPointer(s, step, e))
  {
  }

  /** The A rows of every run, exactly: what was granted and whose name has not been cleared in its scope since. */
  lemma {:induction false} AddressesAreWhatStands(
    pools: seq<Pool>, h: seq<Server>, steps: seq<Step>, n: nat, e: Entry)
    requires History(pools, h, steps) && n <= |steps|
    ensures e in h[n].addresses <==> AddressStands(pools, h, steps, n, e)
  {
    if n > 0 {
      AddressesAreWhatStands(pools, h, steps, n - 1, e);
      StepOnRows(pools, h[n - 1], steps[n - 1], e);
      assert h[n - 1 + 1] == Do(pools, h[n - 1], steps[n - 1]);
    }
  }

  /** And the PTR rows: what was granted and whose address has not been cleared in its scope since. */
  lemma {:induction false} PointersAreWhatStands(
    pools: seq<Pool>, h: seq<Server>, steps: seq<Step>, n: nat, e: Entry)
    requires History(pools, h, steps) && n <= |steps|
    ensures e in h[n].pointers <==> PointerStands(pools, h, steps, n, e)
  {
    if n > 0 {
      PointersAreWhatStands(pools, h, steps, n - 1, e);
      StepOnRows(pools, h[n - 1], steps[n - 1], e);
      assert h[n - 1 + 1] == Do(pools, h[n - 1], steps[n - 1]);
    }
  }

  /** The step grants a lease of the address with this join. */
  predicate Joins(pools: seq<Pool>, s: Server, step: Step, ip: Ip, join: Join) {
    step.Request? && step.ip == ip && Granted(pools, s, step.mac, ip) == Some(join.scope) &&
    join.until == step.now + step.duration
  }

  /** The address is granted anew, or its lease is released or swept. */
  predicate EndsJoin(pools: seq<Pool>, s: Server, step: Step, ip: Ip) {
    match step
    case Request(mac, i, _, _, _) => i == ip && Granted(pools, s, mac, ip).Some?
    case Release(mac) => mac in s.leases && s.leases[mac].ip == ip
    case Sweep(now, reclaim) => TakesJoin(s, now, reclaim, ip)
    case _ => false
  }

  ghost predicate JoinStands(pools: seq<Pool>, h: seq<Server>, steps: seq<Step>, n: nat, ip: Ip, join: Join)
    requires n <= |steps| < |h|
  {
    exists i :: 0 <= i < n && Joins(pools, h[i], steps[i], ip, join) &&
      forall j :: i < j < n ==> !EndsJoin(pools, h[j], steps[j], ip)
  }

  predicate Joined(s: Server, ip: Ip, join: Join) {
    ip in s.joins && s.joins[ip] == join
  }

  lemma StepOnJoins(pools: seq<Pool>, s: Server, step: Step, ip: Ip, join: Join)
    ensures Joined(Do(pools, s, step), ip, join) <==>
      Joins(pools, s, step, ip, join) || (Joined(s, ip, join) && !EndsJoin(pools, s, step, ip))
  {
  }

  /** And the joins: the last grant of the address, unless its lease has been released or swept since. */
  lemma {:induction false} JoinsAreWhatStands(
    pools: seq<Pool>, h: seq<Server>, steps: seq<Step>, n: nat, ip: Ip, join: Join)
    requires History(pools, h, steps) && n <= |steps|
    ensures Joined(h[n], ip, join) <==> JoinStands(pools, h, steps, n, ip, join)
  {
    if n > 0 {
      JoinsAreWhatStands(pools, h, steps, n - 1, ip, join);
      StepOnJoins(pools, h[n - 1], steps[n - 1], ip, join);
      assert h[n - 1 + 1] == Do(pools, h[n - 1], steps[n - 1]);
    }
  }

  // ---- what a client sees ----

  /** `get_scope_for_ip`: a join past its time is no join. */
  function EffectiveScope(s: Server, ip: Ip, now: nat): Option<Scope> {
    if ip in s.joins && now < s.joins[ip].until then Some(s.joins[ip].scope) else None
  }

  /** While the tables are exact, an address is in a scope exactly while an active lease for it there is running. */
  lemma InScopeWhileLeased(s: Server, ip: Ip, scope: Scope, now: nat)
    requires Registered(s)
    ensures EffectiveScope(s, ip, now) == Some(scope) <==>
      exists m :: Holds(s, m, ip) && s.leases[m].scope == scope && now < s.leases[m].start + s.leases[m].duration
  {
    if ip in s.joins {
      var m :| Holds(s, m, ip);
      assert s.joins[ip] == JoinOf(s.leases[m]);
    }
  }

  /** "Removed when the lease expires" fails between expiry and reclaim: the rows stay, though the join has run out. */
  lemma ExpiredKeepsRows()
    ensures
      var first, second := Request("a", 10, Some("x"), 0, 60), Sweep(100, 1000);
      var s := Run([Pool("lan", 10, 20)], Boot, [first, second]);
      && "a" in s.leases && s.leases["a"].state == Expired
      && Entry("lan", "x", 10) in s.addresses && Entry("lan", "x", 10) in s.pointers && 10 in s.joins
      && EffectiveScope(s, 10, 100) == None && !Registered(s)
  {
    var pools := [Pool("lan", 10, 20)];
    var first, second := Request("a", 10, Some("x"), 0, 60), Sweep(100, 1000);
    var middle := Do(pools, Boot, first);
    var s := Do(pools, middle, second);
    assert [first, second][1..] == [second];
    assert Run(pools, middle, [second]) == s;
    assert middle.leases == map["a" := Lease(10, "lan", Some("x"), 0, 60, Active)];
    assert !Swept(middle, "a", 100, 1000);
    assert forall m :: !Owns(s, m, Entry("lan", "x", 10));
  }

  /**
   * "The same MAC always gets the same IP back" and "both records are removed" both fail here: a second client
   * asks for the first one's address, gets it, and the first one's name goes on pointing at it.
   */
  lemma AddressIsTakenOver()
    ensures
      var first, second := Request("a", 10, Some("x"), 0, 60), Request("b", 10, None, 1, 60);
      var s := Run([Pool("lan", 10, 20)], Boot, [first, second]);
      Bound(s, "b", 10) && "a" !in s.leases && Entry("lan", "x", 10) in s.addresses && !Registered(s)
  {
    var pools := [Pool("lan", 10, 20)];
    var first, second := Request("a", 10, Some("x"), 0, 60), Request("b", 10, None, 1, 60);
    var middle := Do(pools, Boot, first);
    var s := Do(pools, middle, second);
    assert [first, second][1..] == [second];
    assert Run(pools, middle, [second]) == s;
    assert forall m :: !Owns(s, m, Entry("lan", "x", 10));
  }

  // ---- the service ----

  predicate JoinHit(gone: map<Mac, Lease>, done: set<Mac>, ip: Ip)
    requires done <= gone.Keys
  {
    exists m :: m in done && gone[m].ip == ip
  }

  predicate NameHit(gone: map<Mac, Lease>, done: set<Mac>, e: Entry)
    requires done <= gone.Keys
  {
    exists m :: m in done && gone[m].scope == e.scope && gone[m].host == Some(e.host)
  }

  predicate PointerHit(gone: map<Mac, Lease>, done: set<Mac>, e: Entry)
    requires done <= gone.Keys
  {
    exists m :: m in done && gone[m].scope == e.scope && gone[m].host.Some? && gone[m].ip == e.ip
  }

  /** The tables once the leases in `done` have been cleaned up, whatever the order. */
  function Cleaned(s: Server, gone: map<Mac, Lease>, done: set<Mac>): Server
    requires done <= gone.Keys
  {
    Server(s.leases,
           map ip | ip in s.joins && !JoinHit(gone, done, ip) :: s.joins[ip],
           set e | e in s.addresses && !NameHit(gone, done, e),
           set e | e in s.pointers && !PointerHit(gone, done, e))
  }

  lemma CleanedNone(s: Server, gone: map<Mac, Lease>)
    ensures Cleaned(s, gone, {}) == s
  {
  }

  lemma HitsGrow(gone: map<Mac, Lease>, done: set<Mac>, m: Mac)
    requires done <= gone.Keys && m in gone
    ensures forall ip :: JoinHit(gone, done + {m}, ip) <==> JoinHit(gone, done, ip) || gone[m].ip == ip
    ensures forall e :: NameHit(gone, done + {m}, e) <==>
      NameHit(gone, done, e) || (gone[m].scope == e.scope && gone[m].host == Some(e.host))
    ensures forall e :: PointerHit(gone, done + {m}, e) <==>
      PointerHit(gone, done, e) || (gone[m].scope == e.scope && gone[m].host.Some? && gone[m].ip == e.ip)
  {
  }

  lemma CleanedOneMore(s: Server, gone: map<Mac, Lease>, done: set<Mac>, m: Mac)
    requires done <= gone.Keys && m in gone
    ensures Unregistered(Cleaned(s, gone, done), gone[m]) == Cleaned(s, gone, done + {m})
  {
  }

  function Gone(s: Server, now: nat, reclaim: nat): map<Mac, Lease> {
    map m | m in s.leases && Reclaimed(s.leases[m], now, reclaim) :: s.leases[m]
  }

  lemma SweepIsCleanups(s: Server, now: nat, reclaim: nat)
    ensures var gone := Gone(s, now, reclaim);
      AfterSweep(s, now, reclaim) == Cleaned(s.(leases := AfterSweep(s, now, reclaim).leases), gone, gone.Keys)
  {
    var gone := Gone(s, now, reclaim);
    assert forall m :: m in gone <==> Swept(s, m, now, reclaim);
    assert forall ip :: JoinHit(gone, gone.Keys, ip) <==> TakesJoin(s, now, reclaim, ip);
    assert forall e :: NameHit(gone, gone.Keys, e) <==> TakesName(s, now, reclaim, e);
    assert forall e :: PointerHit(gone, gone.Keys, e) <==> TakesPointer(s, now, reclaim, e);
  }

  /** The tables as the service holds them; every handler does one step of the machine. */
  class Service {
    const pools: seq<Pool>
    var leases: map<Mac, Lease>
    var joins: map<Ip, Join>
    var addresses: set<Entry>
    var pointers: set<Entry>

    constructor (pools: seq<Pool>)
      ensures this.pools == pools && View() == Boot
    {
      this.pools := pools;
      leases, joins, addresses, pointers := map[], map[], {}, {};
    }

    function View(): Server
      reads this
    {
      Server(leases, joins, addresses, pointers)
    }

    method Register(l: Lease)
      requires l.host.Some?
      modifies `addresses, `pointers
      ensures addresses == old(addresses) + {EntryOf(l)} && pointers == old(pointers) + {EntryOf(l)}
    {
      addresses := addresses + {EntryOf(l)};
      pointers := pointers + {EntryOf(l)};
    }

    method Cleanup(l: Lease)
      modifies `joins, `addresses, `pointers
      ensures View() == Unregistered(old(View()), l)
    {
      if l.host.Some? {
        addresses := set e | e in addresses && !(e.scope == l.scope && e.host == l.host.value);
        pointers := set e | e in pointers && !(e.scope == l.scope && e.ip == l.ip);
      }
      joins := joins - {l.ip};
    }

    /** Answers with an ACK exactly when the request is granted. */
    method HandleRequest(mac: Mac, ip: Ip, host: Option<Host>, now: nat, duration: nat) returns (ack: bool)
      modifies this
      ensures ack <==> Granted(pools, old(View()), mac, ip).Some?
      ensures View() == Do(pools, old(View()), Request(mac, ip, host, now, duration))
    {
      var scope := Granted(pools, View(), mac, ip);
      if scope.None? {
        return false;
      }
      var l := Lease(ip, scope.value, host, now, duration, Active);
      leases := Insert(leases, mac, l);
      joins := joins[ip := JoinOf(l)];
      if host.Some? {
        Register(l);
      }
      return true;
    }

    method HandleRelease(mac: Mac)
      modifies this
      ensures View() == Do(pools, old(View()), Release(mac))
    {
      if mac in leases {
        leases := leases[mac := leases[mac].(state := Released)];
        Cleanup(leases[mac]);
      }
    }

    method HandleDecline(mac: Mac)
      modifies `leases
      ensures View() == Do(pools, old(View()), Decline(mac))
    {
      if mac in leases {
        leases := leases[mac := leases[mac].(state := Released)];
      }
    }

    /** `sweep_expired_leases`: the lease table alone; returns what it deleted. */
    method SweepLeases(now: nat, reclaim: nat) returns (gone: map<Mac, Lease>)
      modifies `leases
      ensures gone == Gone(old(View()), now, reclaim)
      ensures leases == AfterSweep(old(View()), now, reclaim).leases
    {
      gone := Gone(View(), now, reclaim);
      leases := map m | m in leases && !Reclaimed(leases[m], now, reclaim) :: Aged(leases[m], now);
    }

    method CleanupAll(gone: map<Mac, Lease>)
      modifies `joins, `addresses, `pointers
      ensures View() == Cleaned(old(View()), gone, gone.Keys)
    {
      CleanedNone(View(), gone);
      var done := {};
      while gone.Keys - done != {}
        invariant done <= gone.Keys && View() == Cleaned(old(View()), gone, done)
        decreases gone.Keys - done
      {
        var m :| m in gone.Keys - done;
        CleanedOneMore(old(View()), gone, done, m);
        Cleanup(gone[m]);
        done := done + {m};
      }
      assert forall m :: m in gone.Keys ==> m in done || m in gone.Keys - done;
    }

    /** The table first, then one clean-up per reclaimed lease, in no particular order. */
    method RunSweep(now: nat, reclaim: nat)
      modifies this
      ensures View() == Do(pools, old(View()), Sweep(now, reclaim))
    {
      SweepIsCleanups(View(), now, reclaim);
      var gone := SweepLeases(now, reclaim);
      CleanupAll(gone);
    }
  }
}
