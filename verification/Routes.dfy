/**
 The macOS route guard over a routing table with longest-prefix lookup (section 5.2.4.3 of
 RFC 1812). Whether each `route` command goes through is the environment's choice.
 */
module Routes {
  import opened Wrappers

  const ADDRESSES: nat := 0x1_0000_0000
  const HALF: nat := 0x8000_0000

  type Addr = a: nat | a < ADDRESSES

  datatype Prefix = Prefix(network: Addr, len: nat)

  type Table = map<Prefix, Addr>

  // ----- Lookup

  // Addresses in one block of a prefix of this length.
  function BlockSize(len: nat): (size: nat)
    requires len <= 32
    ensures size > 0
    decreases 32 - len
  {
    if len == 32 then 1 else 2 * BlockSize(len + 1)
  }

  // The start of the block of this length that holds the address: one half is chosen per bit.
  function Net(addr: Addr, len: nat): (start: Addr)
    requires len <= 32
    ensures start <= addr < start + BlockSize(len)
  {
    if len == 0 then WholeSpace(); 0
    else
      var start, half := Net(addr, len - 1), BlockSize(len);
      if addr < start + half then start else start + half
  }

  lemma WholeSpace()
    ensures BlockSize(1) == HALF && BlockSize(0) == ADDRESSES
  {
    assert BlockSize(28) == 16;
    assert BlockSize(24) == 16 * BlockSize(28);
    assert BlockSize(20) == 16 * BlockSize(24);
    assert BlockSize(16) == 16 * BlockSize(20);
    assert BlockSize(12) == 16 * BlockSize(16);
    assert BlockSize(8) == 16 * BlockSize(12);
    assert BlockSize(4) == 16 * BlockSize(8);
    assert BlockSize(1) == 8 * BlockSize(4);
  }

  // The length of the longest prefix of at most this length that routes the address.
  function LongestFrom(t: Table, addr: Addr, len: nat): (m: Option<nat>)
    requires len <= 32
    ensures m.Some? ==> m.value <= len && Prefix(Net(addr, m.value), m.value) in t
  {
    if Prefix(Net(addr, len), len) in t then Some(len)
    else if len == 0 then None
    else LongestFrom(t, addr, len - 1)
  }

  function Longest(t: Table, addr: Addr): (m: Option<nat>)
    ensures m.Some? ==> m.value <= 32 && Prefix(Net(addr, m.value), m.value) in t
  {
    LongestFrom(t, addr, 32)
  }

  function Lookup(t: Table, addr: Addr): Option<Addr> {
    match Longest(t, addr)
    case None => None
    case Some(m) => Some(t[Prefix(Net(addr, m), m)])
  }

  // A prefix without host bits whose block holds the address.
  predicate Covers(p: Prefix, addr: Addr) {
    p.len <= 32 && Net(p.network, p.len) == p.network && p.network <= addr < p.network + BlockSize(p.len)
  }

  lemma {:induction false} SameBlock(a: Addr, b: Addr, len: nat)
    requires len <= 32 && Net(a, len) <= b < Net(a, len) + BlockSize(len)
    ensures Net(b, len) == Net(a, len)
  {
    if len > 0 {
      SameBlock(a, b, len - 1);
    }
  }

  lemma {:induction false} LongestFromIsMaximal(t: Table, addr: Addr, len: nat, k: nat)
    requires k <= len <= 32 && Prefix(Net(addr, k), k) in t
    ensures LongestFrom(t, addr, len).Some? && k <= LongestFrom(t, addr, len).value
  {
    if Prefix(Net(addr, len), len) !in t {
      LongestFromIsMaximal(t, addr, len - 1, k);
    }
  }

  /** The lookup follows an entry that covers the address, and no covering entry is longer. */
  lemma LookupIsLongestPrefix(t: Table, addr: Addr, p: Prefix)
    requires p in t && Covers(p, addr)
    ensures var m := Longest(t, addr);
            && m.Some? && p.len <= m.value && Covers(Prefix(Net(addr, m.value), m.value), addr)
            && Prefix(Net(addr, m.value), m.value) in t
            && Lookup(t, addr) == Some(t[Prefix(Net(addr, m.value), m.value)])
  {
    SameBlock(p.network, addr, p.len);
    LongestFromIsMaximal(t, addr, 32, p.len);
    SameBlock(addr, Net(addr, Longest(t, addr).value), Longest(t, addr).value);
  }

  // ----- Commands

  const LOW := Prefix(0, 1)
  const HIGH := Prefix(HALF, 1)
  const DEFAULT := Prefix(0, 0)

  function Host(server: Addr): Prefix {
    Prefix(server, 32)
  }

  function Ours(server: Addr): set<Prefix> {
    {LOW, HIGH, Host(server)}
  }

  // `route add`: an existing route is kept and counts as added.
  function Added(t: Table, p: Prefix, gateway: Addr, ok: bool): Table {
    if ok && p !in t then t[p := gateway] else t
  }

  // `route delete`: a missing route counts as deleted.
  function Deleted(t: Table, p: Prefix, ok: bool): Table {
    if ok then t - {p} else t
  }

  /** Which of the three delete commands of a cleanup go through. */
  datatype Deletes = Deletes(low: bool, high: bool, host: bool)

  const ALL_DELETED := Deletes(true, true, true)

  // The tables after each command of a cleanup.
  function CleanupSteps(t: Table, server: Addr, d: Deletes): seq<Table> {
    var t1 := Deleted(t, LOW, d.low);
    var t2 := Deleted(t1, HIGH, d.high);
    [t1, t2, Deleted(t2, Host(server), d.host)]
  }

  function Cleaned(t: Table, server: Addr, d: Deletes): Table {
    CleanupSteps(t, server, d)[2]
  }

  /** Which commands of an install go through; the rollback only runs when an add does not. */
  datatype Commands = Commands(before: Deletes, host: bool, low: bool, high: bool, rollback: Deletes)

  predicate AddsOk(c: Commands) {
    c.host && c.low && c.high
  }

  // The tables after each add up to the first that fails.
  function AddSteps(t: Table, server: Addr, gateway: Addr, vpn: Addr, c: Commands): seq<Table> {
    var t1 := Added(t, Host(server), gateway, c.host);
    var t2 := Added(t1, LOW, vpn, c.low);
    var t3 := Added(t2, HIGH, vpn, c.high);
    if !c.host then [t1] else if !c.low then [t1, t2] else [t1, t2, t3]
  }

  function LastTable(steps: seq<Table>): Table
    requires steps != []
  {
    steps[|steps| - 1]
  }

  // The tables after each command of an install, rolled back if an add fails.
  function InstallSteps(t: Table, server: Addr, gateway: Addr, vpn: Addr, c: Commands): seq<Table> {
    var before := CleanupSteps(t, server, c.before);
    var adds := AddSteps(before[2], server, gateway, vpn, c);
    before + adds + if AddsOk(c) then [] else CleanupSteps(LastTable(adds), server, c.rollback)
  }

  function Installed(t: Table, server: Addr, gateway: Addr, vpn: Addr, c: Commands): Table {
    LastTable(InstallSteps(t, server, gateway, vpn, c))
  }

  // The deletes that run last: the guard's own cleanup, or the rollback of an install that failed.
  function FinalDeletes(c: Commands, d: Deletes): Deletes {
    if AddsOk(c) then d else c.rollback
  }

  // The table after an install and, if it succeeded, the guard's cleanup.
  function Undone(t: Table, server: Addr, gateway: Addr, vpn: Addr, c: Commands, d: Deletes): Table {
    var t' := Installed(t, server, gateway, vpn, c);
    if AddsOk(c) then Cleaned(t', server, d) else t'
  }

  // ----- The guard as an object

  /** The system's routing table, with everything it has been. */
  class RoutingTable {
    var routes: Table
    ghost var history: seq<Table>

    constructor (routes: Table)
      ensures this.routes == routes && history == []
    {
      this.routes, history := routes, [];
    }

    method RunRoute(p: Prefix, gateway: Addr, ok: bool) returns (done: bool)
      modifies this
      ensures done == ok && routes == Added(old(routes), p, gateway, ok) && history == old(history) + [routes]
    {
      if ok && p !in routes {
        routes := routes[p := gateway];
      }
      history := history + [routes];
      done := ok;
    }

    method DeleteRoute(p: Prefix, ok: bool) returns (done: bool)
      modifies this
      ensures done == ok && routes == Deleted(old(routes), p, ok) && history == old(history) + [routes]
    {
      if ok {
        routes := routes - {p};
      }
      history := history + [routes];
      done := ok;
    }
  }

  method CleanupRoutes(os: RoutingTable, server: Addr, d: Deletes) returns (ok: bool)
    modifies os
    ensures ok <==> d == ALL_DELETED
    ensures os.history == old(os.history) + CleanupSteps(old(os.routes), server, d)
    ensures os.routes == Cleaned(old(os.routes), server, d)
  {
    ok := true;
    var done := os.DeleteRoute(LOW, d.low);
    ok := ok && done;
    done := os.DeleteRoute(HIGH, d.high);
    ok := ok && done;
    done := os.DeleteRoute(Host(server), d.host);
    ok := ok && done;
  }

  datatype ServerAddr = V4(ip: Addr) | V6

  datatype RouteError = NeedsIpv4 | NoDefaultGateway | AddFailed | ListingFailed | StaleRoutesRemain

  // `listed` says whether the table could be listed at all.
  method CleanupStale(os: RoutingTable, server: ServerAddr, listed: bool, d: Deletes)
  returns (r: Result<(), RouteError>)
    modifies os
    ensures server.V6? ==> r == Err(NeedsIpv4) && unchanged(os)
    ensures server.V4? && !listed ==> r == Err(ListingFailed) && unchanged(os)
    ensures server.V4? && listed ==>
              var stale := !(Ours(server.ip) !! old(os.routes).Keys);
              && r == (if !stale || d == ALL_DELETED then Ok(()) else Err(StaleRoutesRemain))
              && os.routes == (if stale then Cleaned(old(os.routes), server.ip, d) else old(os.routes))
  {
    if server.V6? {
      return Err(NeedsIpv4);
    }
    if !listed {
      return Err(ListingFailed);
    }
    if LOW !in os.routes && HIGH !in os.routes && Host(server.ip) !in os.routes {
      return Ok(());
    }
    var ok := CleanupRoutes(os, server.ip, d);
    r := if ok then Ok(()) else Err(StaleRoutesRemain);
  }

  // The three adds, up to the first that fails.
  method AddRoutes(os: RoutingTable, server: Addr, gateway: Addr, vpn: Addr, c: Commands) returns (done: bool)
    modifies os
    ensures done == AddsOk(c)
    ensures os.history == old(os.history) + AddSteps(old(os.routes), server, gateway, vpn, c)
    ensures os.routes == LastTable(AddSteps(old(os.routes), server, gateway, vpn, c))
  {
    done := os.RunRoute(Host(server), gateway, c.host);
    if done {
      done := os.RunRoute(LOW, vpn, c.low);
    }
    if done {
      done := os.RunRoute(HIGH, vpn, c.high);
    }
  }

  class RouteGuard {
    const serverIp: Addr
    const gateway: Addr
    var installed: bool

    constructor (serverIp: Addr, gateway: Addr)
      ensures this.serverIp == serverIp && this.gateway == gateway && installed
    {
      this.serverIp, this.gateway, installed := serverIp, gateway, true;
    }

    static method Install(os: RoutingTable, server: ServerAddr, vpn: Addr, c: Commands)
    returns (r: Result<RouteGuard, RouteError>)
      modifies os
      ensures server.V6? ==> r == Err(NeedsIpv4) && os.routes == old(os.routes)
      ensures server.V4? && DEFAULT !in old(os.routes) ==> r == Err(NoDefaultGateway) && os.routes == old(os.routes)
      ensures server.V4? && DEFAULT in old(os.routes) ==>
                var gateway := old(os.routes)[DEFAULT];
                var steps := InstallSteps(old(os.routes), server.ip, gateway, vpn, c);
                && os.history == old(os.history) + steps && os.routes == LastTable(steps)
                && (r.Ok? <==> AddsOk(c)) && (r.Err? ==> r.error == AddFailed)
                && (r.Ok? ==> fresh(r.value) && r.value.installed)
                && (r.Ok? ==> r.value.serverIp == server.ip && r.value.gateway == gateway)
    {
      if server.V6? {
        return Err(NeedsIpv4);
      }
      if DEFAULT !in os.routes {
        return Err(NoDefaultGateway);
      }
      var serverIp, gateway := server.ip, os.routes[DEFAULT];
      var _ := CleanupRoutes(os, serverIp, c.before);
      var done := AddRoutes(os, serverIp, gateway, vpn, c);
      if !done {
        var _ := CleanupRoutes(os, serverIp, c.rollback);
        return Err(AddFailed);
      }
      var guard := new RouteGuard(serverIp, gateway);
      r := Ok(guard);
    }

    method Cleanup(os: RoutingTable, d: Deletes)
      modifies this`installed, os
      ensures !installed
      ensures old(installed) ==> os.history == old(os.history) + CleanupSteps(old(os.routes), serverIp, d)
      ensures os.routes == if old(installed) then Cleaned(old(os.routes), serverIp, d) else old(os.routes)
      ensures !old(installed) ==> unchanged(os)
    {
      if !installed {
        return;
      }
      var _ := CleanupRoutes(os, serverIp, d);
      installed := false;
    }

    method Drop(os: RoutingTable, d: Deletes)
      modifies this`installed, os
      ensures !installed
      ensures os.routes == if old(installed) then Cleaned(old(os.routes), serverIp, d) else old(os.routes)
      ensures !old(installed) ==> unchanged(os)
    {
      Cleanup(os, d);
    }
  }

  // ----- Install and cleanup undo each other

  lemma CleanedRemovesOurs(t: Table, server: Addr)
    ensures Cleaned(t, server, ALL_DELETED) == t - Ours(server)
  {
    assert ((t - {LOW}) - {HIGH}) - {Host(server)} == t - Ours(server);
  }

  lemma AddsOnlyOurs(t: Table, server: Addr, gateway: Addr, vpn: Addr, c: Commands)
    ensures LastTable(AddSteps(t, server, gateway, vpn, c)) - Ours(server) == t - Ours(server)
  {
  }

  lemma UndoneByFinalDeletes(t: Table, server: Addr, gateway: Addr, vpn: Addr, c: Commands, d: Deletes)
    ensures Undone(t, server, gateway, vpn, c, d)
            == Cleaned(LastTable(AddSteps(Cleaned(t, server, c.before), server, gateway, vpn, c)), server,
                       FinalDeletes(c, d))
  {
  }

  lemma CleanedKeepsForeign(t: Table, server: Addr, d: Deletes)
    ensures Cleaned(t, server, d) - Ours(server) == t - Ours(server)
  {
  }

  /**
   Whatever the first cleanup achieved: with final deletes that go through, an install followed by its cleanup,
   and an install that fails at any of its adds, leave exactly the foreign routes: the start table if and only
   if it held none of ours. After an install that succeeded it takes all three deletes to leave no route behind.
   */
  lemma InstallIsUndone(t: Table, server: Addr, gateway: Addr, vpn: Addr, c: Commands, d: Deletes)
    ensures var end := Undone(t, server, gateway, vpn, c, d);
            && (FinalDeletes(c, d) == ALL_DELETED ==> end == t - Ours(server) && (end == t <==> Ours(server) !! t.Keys))
            && (AddsOk(c) ==> (end == t - Ours(server) <==> d == ALL_DELETED))
  {
    var before := Cleaned(t, server, c.before);
    var adds := LastTable(AddSteps(before, server, gateway, vpn, c));
    UndoneByFinalDeletes(t, server, gateway, vpn, c, d);
    CleanedKeepsForeign(t, server, c.before);
    AddsOnlyOurs(before, server, gateway, vpn, c);
    CleanedRemovesOurs(adds, server);
    assert forall p :: p in Ours(server) ==> p !in t - Ours(server);
    if Ours(server) !! t.Keys {
      assert t - Ours(server) == t;
    }
    if AddsOk(c) && d != ALL_DELETED {
      RouteLeftBehind(adds, server, d);
    }
  }

  lemma RouteLeftBehind(t: Table, server: Addr, d: Deletes)
    requires Ours(server) <= t.Keys && d != ALL_DELETED
    ensures Cleaned(t, server, d) != t - Ours(server)
  {
    var p := if !d.low then LOW else if !d.high then HIGH else Host(server);
    assert p in Cleaned(t, server, d) && p !in t - Ours(server);
  }

  /** In particular, a table without the three routes then routes every address as before. */
  lemma LookupsAreRestored(t: Table, server: Addr, gateway: Addr, vpn: Addr, c: Commands, d: Deletes, addr: Addr)
    requires FinalDeletes(c, d) == ALL_DELETED && Ours(server) !! t.Keys
    ensures Lookup(Undone(t, server, gateway, vpn, c, d), addr) == Lookup(t, addr)
  {
    InstallIsUndone(t, server, gateway, vpn, c, d);
  }

  // ----- Where packets go while installed

  function DeletedBefore(c: Commands, p: Prefix): bool {
    if p == LOW then c.before.low else if p == HIGH then c.before.high else c.before.host
  }

  // Where one of the three routes points after the adds: a stale route that was not deleted is kept.
  function Target(t: Table, c: Commands, p: Prefix, gateway: Addr): Addr {
    if p in t && !DeletedBefore(c, p) then t[p] else gateway
  }

  // The route was absent, or was deleted, or already pointed there.
  predicate Settled(t: Table, c: Commands, p: Prefix, gateway: Addr) {
    p !in t || DeletedBefore(c, p) || t[p] == gateway
  }

  // A table with the three routes laid over it.
  function Overlay(t: Table, server: Addr, host: Addr, low: Addr, high: Addr): Table {
    t[Host(server) := host][LOW := low][HIGH := high]
  }

  lemma InstalledTable(t: Table, server: Addr, gateway: Addr, vpn: Addr, c: Commands)
    requires AddsOk(c)
    ensures Installed(t, server, gateway, vpn, c)
            == Overlay(t - Ours(server), server, Target(t, c, Host(server), gateway), Target(t, c, LOW, vpn),
                       Target(t, c, HIGH, vpn))
  {
    var t' := Installed(t, server, gateway, vpn, c);
    CleanedKeepsForeign(t, server, c.before);
    AddsOnlyOurs(Cleaned(t, server, c.before), server, gateway, vpn, c);
    assert t' - Ours(server) == t - Ours(server);
    assert forall p :: p in t' && p !in Ours(server) ==> p in t' - Ours(server);
  }

  /** An install that reports success has set the three routes iff each was free, deleted or right already. */
  lemma SuccessIffSettled(t: Table, server: Addr, gateway: Addr, vpn: Addr, c: Commands)
    requires AddsOk(c)
    ensures var t' := Installed(t, server, gateway, vpn, c);
            && Ours(server) <= t'.Keys
            && (t'[Host(server)] == gateway && t'[LOW] == vpn && t'[HIGH] == vpn
                <==> Settled(t, c, Host(server), gateway) && Settled(t, c, LOW, vpn) && Settled(t, c, HIGH, vpn))
  {
    InstalledTable(t, server, gateway, vpn, c);
  }

  lemma HalfNet(addr: Addr)
    ensures Net(addr, 1) == if addr < HALF then 0 else HALF
    ensures Net(addr, 0) == 0 && Net(addr, 32) == addr
  {
    WholeSpace();
  }

  // Entries of length two and more decide alike in both tables, except for the server.
  lemma {:induction false} LongRoutesAgree(t: Table, server: Addr, host: Addr, low: Addr, high: Addr, addr: Addr,
                                           len: nat)
    requires Ours(server) !! t.Keys && 1 <= len <= 32 && addr != server
    ensures var m, m' := LongestFrom(t, addr, len), LongestFrom(Overlay(t, server, host, low, high), addr, len);
            if m.Some? && m.value > 1 then m' == m else m' == Some(1)
  {
    HalfNet(addr);
    if len > 1 {
      LongRoutesAgree(t, server, host, low, high, addr, len - 1);
    } else {
      assert LongestFrom(t, addr, 1) == LongestFrom(t, addr, 0);
    }
  }

  lemma {:induction false} NoHalfRoute(t: Table, server: Addr, addr: Addr, len: nat)
    requires Ours(server) !! t.Keys && len <= 32
    ensures LongestFrom(t, addr, len) != Some(1)
  {
    HalfNet(addr);
    if len > 0 {
      NoHalfRoute(t, server, addr, len - 1);
    }
  }

  function Half(addr: Addr): Prefix {
    if addr < HALF then LOW else HIGH
  }

  // No foreign route, or only the default route, covers the address.
  predicate OnDefault(t: Table, server: Addr, addr: Addr) {
    var m := Longest(t - Ours(server), addr);
    m == None || m == Some(0)
  }

  // Where packets for an address should go while installed.
  function Promised(t: Table, server: Addr, gateway: Addr, vpn: Addr, addr: Addr): Option<Addr> {
    if addr == server then Some(gateway)
    else if OnDefault(t, server, addr) then Some(vpn)
    else Lookup(t - Ours(server), addr)
  }

  lemma OverlayLookup(t: Table, server: Addr, host: Addr, low: Addr, high: Addr, addr: Addr)
    requires Ours(server) !! t.Keys
    ensures Lookup(Overlay(t, server, host, low, high), addr)
            == if addr == server then Some(host)
               else if OnDefault(t, server, addr) then Some(if addr < HALF then low else high)
               else Lookup(t, addr)
  {
    assert t - Ours(server) == t;
    HalfNet(addr);
    if addr != server {
      LongRoutesAgree(t, server, host, low, high, addr, 32);
      NoHalfRoute(t, server, addr, 32);
    }
  }

  /**
   After an install that reports success, on any table and whatever the first cleanup achieved: an address is
   routed as promised (the server through the old gateway, an address on the default route or on none to the
   VPN, any other by its own foreign route) if and only if the one of the three routes that decides it was
   free, deleted or right already.
   */
  lemma InstalledRoutesEveryAddress(t: Table, server: Addr, gateway: Addr, vpn: Addr, c: Commands, addr: Addr)
    requires AddsOk(c)
    ensures Lookup(Installed(t, server, gateway, vpn, c), addr) == Promised(t, server, gateway, vpn, addr)
            <==> if addr == server then Settled(t, c, Host(server), gateway)
                 else OnDefault(t, server, addr) ==> Settled(t, c, Half(addr), vpn)
  {
    var foreign := t - Ours(server);
    InstalledTable(t, server, gateway, vpn, c);
    assert foreign - Ours(server) == foreign;
    OverlayLookup(foreign, server, Target(t, c, Host(server), gateway), Target(t, c, LOW, vpn), Target(t, c, HIGH, vpn),
                  addr);
  }

  /** A stale host route that could not be deleted counts as added: the install succeeds, and the server is lost. */
  lemma StaleHostRouteSurvives(server: Addr, gateway: Addr, vpn: Addr, stale: Addr)
    requires stale != gateway
    ensures var t := map[DEFAULT := gateway, Host(server) := stale];
            var c := Commands(Deletes(true, true, false), true, true, true, ALL_DELETED);
            && AddsOk(c) && Lookup(Installed(t, server, gateway, vpn, c), server) == Some(stale)
            && Promised(t, server, gateway, vpn, server) == Some(gateway)
  {
    var t := map[DEFAULT := gateway, Host(server) := stale];
    var c := Commands(Deletes(true, true, false), true, true, true, ALL_DELETED);
    InstalledTable(t, server, gateway, vpn, c);
    OverlayLookup(t - Ours(server), server, stale, vpn, vpn, server);
  }

  // ----- The order of the commands

  // A split default route is present only while the server's own route is.
  predicate ServerReachable(t: Table, server: Addr) {
    LOW in t || HIGH in t ==> Host(server) in t
  }

  predicate AlwaysReachable(steps: seq<Table>, server: Addr) {
    forall i :: 0 <= i < |steps| ==> ServerReachable(steps[i], server)
  }

  // The cleanup does not drop the host route over a split route it fails to delete.
  predicate KeepsHost(t: Table, d: Deletes) {
    !(d.host && ((LOW in t && !d.low) || (HIGH in t && !d.high)))
  }

  // Nothing to repair, or nothing but 0.0.0.0/1, which the first delete removes.
  predicate RepairedAtOnce(t: Table, server: Addr, d: Deletes) {
    HIGH in t || (LOW in t && !d.low) ==> Host(server) in t
  }

  /**
   On any table, safe or not, a cleanup is safe after every command exactly when its first delete repairs what
   there is to repair and it keeps the host route where it must.
   */
  lemma CleanupOrder(t: Table, server: Addr, d: Deletes)
    ensures AlwaysReachable(CleanupSteps(t, server, d), server) <==> RepairedAtOnce(t, server, d) && KeepsHost(t, d)
    ensures ServerReachable(t, server) ==> RepairedAtOnce(t, server, d)
  {
    var steps := CleanupSteps(t, server, d);
    if AlwaysReachable(steps, server) {
      assert ServerReachable(steps[0], server) && ServerReachable(steps[1], server);
      assert ServerReachable(steps[2], server);
    } else {
      var i :| 0 <= i < 3 && !ServerReachable(steps[i], server);
      assert i == 0 || i == 1 || i == 2;
    }
  }

  // Commands leave every route but the three alone.
  predicate ForeignKept(foreign: Table, server: Addr, steps: seq<Table>) {
    forall i :: 0 <= i < |steps| ==> steps[i] - Ours(server) == foreign
  }

  lemma CleanupKeepsForeign(t: Table, server: Addr, d: Deletes)
    ensures ForeignKept(t - Ours(server), server, CleanupSteps(t, server, d))
  {
  }

  lemma AddsKeepForeign(t: Table, server: Addr, gateway: Addr, vpn: Addr, c: Commands)
    ensures ForeignKept(t - Ours(server), server, AddSteps(t, server, gateway, vpn, c))
  {
  }

  /** At every step of an install, its rollback and a cleanup, all other routes are what they were. */
  lemma ForeignRoutesUntouched(t: Table, server: Addr, gateway: Addr, vpn: Addr, c: Commands, d: Deletes)
    ensures ForeignKept(t - Ours(server), server, InstallSteps(t, server, gateway, vpn, c))
    ensures ForeignKept(t - Ours(server), server, CleanupSteps(Installed(t, server, gateway, vpn, c), server, d))
  {
    var before := CleanupSteps(t, server, c.before);
    var adds := AddSteps(before[2], server, gateway, vpn, c);
    CleanupKeepsForeign(t, server, c.before);
    AddsKeepForeign(before[2], server, gateway, vpn, c);
    CleanupKeepsForeign(LastTable(adds), server, c.rollback);
    assert ForeignKept(t - Ours(server), server, before + adds);
    CleanupKeepsForeign(Installed(t, server, gateway, vpn, c), server, d);
  }

  lemma AddsKeepReachable(t: Table, server: Addr, gateway: Addr, vpn: Addr, c: Commands)
    requires ServerReachable(t, server)
    ensures AlwaysReachable(AddSteps(t, server, gateway, vpn, c), server)
  {
  }

  lemma ReachableInTurn(a: seq<Table>, b: seq<Table>, server: Addr)
    ensures AlwaysReachable(a + b, server) <==> AlwaysReachable(a, server) && AlwaysReachable(b, server)
  {
    assert forall i :: 0 <= i < |a| ==> a[i] == (a + b)[i];
    assert forall i :: 0 <= i < |b| ==> b[i] == (a + b)[|a| + i];
  }

  /**
   On any table, an install is safe after every command, its rollback included, if and only if the first cleanup
   is and, when an add fails, the rollback keeps the host route over what the adds left.
   */
  lemma InstallOrder(t: Table, server: Addr, gateway: Addr, vpn: Addr, c: Commands)
    ensures var added := LastTable(AddSteps(Cleaned(t, server, c.before), server, gateway, vpn, c));
            AlwaysReachable(InstallSteps(t, server, gateway, vpn, c), server)
            <==> RepairedAtOnce(t, server, c.before) && KeepsHost(t, c.before)
                 && (AddsOk(c) || KeepsHost(added, c.rollback))
  {
    var before := CleanupSteps(t, server, c.before);
    var adds := AddSteps(before[2], server, gateway, vpn, c);
    var rollback := if AddsOk(c) then [] else CleanupSteps(LastTable(adds), server, c.rollback);
    ReachableInTurn(before + adds, rollback, server);
    ReachableInTurn(before, adds, server);
    CleanupOrder(t, server, c.before);
    if AlwaysReachable(before, server) {
      assert ServerReachable(before[2], server);
      AddsKeepReachable(before[2], server, gateway, vpn, c);
      assert ServerReachable(adds[|adds| - 1], server);
      CleanupOrder(LastTable(adds), server, c.rollback);
    }
  }

  /** From a table without the three routes only one thing can go wrong: the last add, then a delete of the rollback. */
  lemma CleanInstallOrder(t: Table, server: Addr, gateway: Addr, vpn: Addr, c: Commands)
    requires Ours(server) !! t.Keys
    ensures AlwaysReachable(InstallSteps(t, server, gateway, vpn, c), server)
            <==> !(c.host && c.low && !c.high && c.rollback.host && !c.rollback.low)
  {
    InstallOrder(t, server, gateway, vpn, c);
    assert Cleaned(t, server, c.before) == t;
  }

  /** The guard's cleanup is safe exactly if it deletes both halves or keeps the host route. */
  lemma GuardCleanupOrder(t: Table, server: Addr, gateway: Addr, vpn: Addr, c: Commands, d: Deletes)
    requires AddsOk(c)
    ensures AlwaysReachable(CleanupSteps(Installed(t, server, gateway, vpn, c), server, d), server)
            <==> (d.low && d.high) || !d.host
  {
    InstalledTable(t, server, gateway, vpn, c);
    CleanupOrder(Installed(t, server, gateway, vpn, c), server, d);
  }
}
