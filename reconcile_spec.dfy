/** What one call of `configure` does, as a function of the interface's
    last-applied state, the lease and the results the system gives: the
    return code, the new state and, in order, every system call, command
    and file it produces. The class `Reconcile.Interface` is proved to do
    exactly this. */
module ReconcileSpec {
  import opened Types
  import Exec
  import Resolv
  import Ntp
  import Nis
  import Hostname
  import Info

  /** The address, route and MTU primitives `configure` calls. */
  datatype OsCall =
    | AddAddress(address: Addr, netmask: Addr, broadcast: Addr)
    | DelAddress(address: Addr, netmask: Addr)
    | AddRoute(route: Route, metric: int)
    | DelRoute(route: Route, metric: int)
    | SetMtu(mtu: u16)

  /** What a primitive returned: 0, or -1 with `errno` EEXIST, or -1 with
      any other error. */
  datatype OsResult = Ok | Exists | Failed

  /** One observable step of `configure`. */
  datatype Action =
    | Os(call: OsCall)
    | Exec(argv: seq<string>)
    | WriteResolv(resolv: Resolv.ResolvResult)
    | WriteNtp(ntpLines: Option<seq<string>>, openNtpLines: Option<seq<string>>)
    | WriteNis(nis: Nis.NisResult)
    | SetHostname(name: string)
    | WriteInfo(infoLines: Option<seq<string>>)

  /** The fields of the interface that `configure` updates. */
  datatype Snapshot = Snapshot(address: Addr, netmask: Addr, mtu: u16, routes: seq<Route>)

  /** The fields of the interface that `configure` only reads; `mtu` is the
      interface's own MTU from before any lease. */
  datatype Iface = Iface(name: string, infofile: Option<string>, hwaddr: seq<u8>, mtu: u16)

  /** Everything `configure` learns from the system: the primitives'
      results, which files exist or open, the reverse lookup of the leased
      address and the current hostname. */
  datatype Env = Env(
    os: OsCall -> OsResult,
    scriptExists: bool,
    resolvconfPresent: bool,
    resolvOpens: bool,
    ntpExisting: Ntp.FileState,
    ntpWritable: bool,
    openNtpExisting: Ntp.FileState,
    openNtpWritable: bool,
    nisOpens: bool,
    reverseName: Option<string>,
    currentHostname: string,
    infoOpens: bool)

  datatype Outcome = Outcome(rc: int, state: Snapshot, actions: seq<Action>)

  // ---------------------------------------------------------------------
  // Removing the routes of the previous lease

  /** A previous route the removal loop considers: not a default-looking
      route (destination 0), unless gateways are managed. */
  predicate Gated(r: Route, opts: Options)
  {
    r.destination != 0 || opts.dogateway
  }

  /** A previous route that is deleted: gated and not also in the new
      lease (a lease without an address keeps nothing). */
  predicate Stale(r: Route, opts: Options, lease: Lease)
  {
    Gated(r, opts) && !(lease.address != 0 && r in lease.routes)
  }

  /** The previous routes that are deleted, in their order. */
  function StaleRoutes(prev: seq<Route>, opts: Options, lease: Lease): (d: seq<Route>)
    ensures |d| <= |prev|
    ensures forall r :: r in d <==> r in prev && Gated(r, opts) && !(lease.address != 0 && r in lease.routes)
  {
    if prev == [] then []
    else
      var r := prev[|prev| - 1];
      StaleRoutes(prev[..|prev| - 1], opts, lease) + (if Stale(r, opts, lease) then [r] else [])
  }

  /** A route deletion per route, in order. */
  function DelRouteActions(routes: seq<Route>, metric: int): (a: seq<Action>)
    ensures |a| == |routes|
    ensures forall k :: 0 <= k < |a| ==> a[k] == Os(DelRoute(routes[k], metric))
  {
    seq(|routes|, k requires 0 <= k < |routes| => Os(DelRoute(routes[k], metric)))
  }

  lemma DelRouteActionsAppend(routes: seq<Route>, r: Route, metric: int)
    ensures DelRouteActions(routes + [r], metric) == DelRouteActions(routes, metric) + [Os(DelRoute(r, metric))]
  {
  }

  // ---------------------------------------------------------------------
  // Losing the lease

  /** The interface's own MTU is restored when it is known and not what
      was last set; it is then recorded whatever `set_mtu` returned. */
  function LossMtu(iface: Iface, prevMtu: u16): (m: u16)
    ensures m == prevMtu || m == iface.mtu
    ensures iface.mtu != 0 ==> m == iface.mtu
    ensures iface.mtu == 0 ==> m == prevMtu
  {
    if iface.mtu != 0 && prevMtu != iface.mtu then iface.mtu else prevMtu
  }

  function LossMtuActions(iface: Iface, prevMtu: u16): (a: seq<Action>)
    ensures a != [] <==> iface.mtu != 0 && prevMtu != iface.mtu
    ensures a != [] ==> a == [Os(SetMtu(iface.mtu))]
  {
    if iface.mtu != 0 && prevMtu != iface.mtu then [Os(SetMtu(iface.mtu))] else []
  }

  /** The command `exec_script` starts for `arg`, if any. */
  function ScriptActions(build: Build, opts: Options, iface: Iface, env: Env, arg: string): (a: seq<Action>)
    ensures |a| <= 1 && NoOsCalls(a)
    ensures a != [] <==> Exec.ScriptArgv(build, opts.script, iface.infofile, arg, env.scriptExists).Some?
  {
    match Exec.ScriptArgv(build, opts.script, iface.infofile, arg, env.scriptExists)
    case Some(argv) => [Exec(argv)]
    case None => []
  }

  /** Unconfiguring a previously configured address: delete it, remove
      the resolver information and run the hook with `down`. */
  function DownActions(build: Build, opts: Options, iface: Iface, s: Snapshot, env: Env): seq<Action>
  {
    [Os(DelAddress(s.address, s.netmask))]
    + (match Resolv.RestoreResolvArgv(build, env.resolvconfPresent, iface.name)
       case Some(argv) => [Exec(argv)]
       case None => [])
    + ScriptActions(build, opts, iface, env, "down")
  }

  /** `configure` with a lease whose address is 0, after the route
      removal. */
  function LeaseLoss(build: Build, opts: Options, iface: Iface, s: Snapshot, env: Env): Outcome
  {
    var configured := s.address != 0;
    Outcome(
      0,
      Snapshot(if configured then 0 else s.address, if configured then 0 else s.netmask,
               LossMtu(iface, s.mtu), []),
      LossMtuActions(iface, s.mtu) + (if configured then DownActions(build, opts, iface, s, env) else []))
  }

  // ---------------------------------------------------------------------
  // Applying a lease

  /** The MTU `configure` aims at: the lease's, or the interface's own when
      the lease has none. */
  function MtuTarget(iface: Iface, lease: Lease): (m: u16)
    ensures lease.mtu != 0 ==> m == lease.mtu
    ensures lease.mtu == 0 ==> m == iface.mtu
  {
    if lease.mtu != 0 then lease.mtu else iface.mtu
  }

  function MtuActions(opts: Options, iface: Iface, lease: Lease, prevMtu: u16): (a: seq<Action>)
    ensures a != [] <==> opts.domtu && MtuTarget(iface, lease) != prevMtu
    ensures a != [] ==> a == [Os(SetMtu(MtuTarget(iface, lease)))]
  {
    if opts.domtu && MtuTarget(iface, lease) != prevMtu then [Os(SetMtu(MtuTarget(iface, lease)))] else []
  }

  /** The recorded MTU after the MTU step: the target when it was set
      successfully, else unchanged. */
  function MtuAfter(opts: Options, iface: Iface, lease: Lease, prevMtu: u16, os: OsCall -> OsResult): (m: u16)
    ensures m == prevMtu || m == MtuTarget(iface, lease)
    ensures m != prevMtu ==> opts.domtu && os(SetMtu(m)) == Ok
    ensures opts.domtu && os(SetMtu(MtuTarget(iface, lease))) == Ok ==> m == MtuTarget(iface, lease)
  {
    var target := MtuTarget(iface, lease);
    if opts.domtu && target != prevMtu && os(SetMtu(target)) == Ok then target else prevMtu
  }

  function AddCall(lease: Lease): OsCall
  {
    AddAddress(lease.address, lease.netmask, lease.broadcast)
  }

  /** The previous address is deleted once the new one is in place, when it
      was set and is a different address. */
  function OldAddressActions(s: Snapshot, lease: Lease): (a: seq<Action>)
    ensures a != [] <==> s.address != 0 && s.address != lease.address
    ensures a != [] ==> a == [Os(DelAddress(s.address, s.netmask))]
  {
    if s.address != lease.address && s.address != 0 then [Os(DelAddress(s.address, s.netmask))] else []
  }

  /** On Linux the kernel's subnet route of a new address is replaced by
      one with the configured metric: added with the metric, then the
      metric-0 one deleted. */
  function SubnetActions(build: Build, opts: Options, s: Snapshot, lease: Lease): (a: seq<Action>)
    ensures a != [] <==> build.linux && s.address != lease.address && opts.metric > 0
                         && lease.netmask != INADDR_BROADCAST
    ensures a != [] ==> a == [Os(AddRoute(SubnetRoute(lease), opts.metric)), Os(DelRoute(SubnetRoute(lease), 0))]
  {
    if build.linux && s.address != lease.address && opts.metric > 0 && lease.netmask != INADDR_BROADCAST
    then [Os(AddRoute(SubnetRoute(lease), opts.metric)), Os(DelRoute(SubnetRoute(lease), 0))]
    else []
  }

  /** The route to the lease's subnet: network address, netmask, no
      gateway. */
  function SubnetRoute(lease: Lease): (r: Route)
    ensures r.netmask == lease.netmask && r.gateway == 0
    ensures r.destination == And(lease.address, lease.netmask)
    ensures r.destination <= lease.address && r.destination <= lease.netmask
  {
    Route(And(lease.address, lease.netmask), lease.netmask, 0)
  }

  /** A lease route that is installed: anything but a default route,
      unless gateways are managed. */
  predicate Installable(r: Route, opts: Options)
  {
    !(IsDefault(r) && !opts.dogateway)
  }

  /** The route additions for the lease's routes, in order. */
  function RouteAdds(routes: seq<Route>, opts: Options): (a: seq<Action>)
    ensures |a| <= |routes|
    ensures forall k :: 0 <= k < |a| ==>
              a[k].Os? && a[k].call.AddRoute? && a[k].call.route in routes && a[k].call.metric == opts.metric
  {
    if routes == [] then []
    else
      var r := routes[|routes| - 1];
      RouteAdds(routes[..|routes| - 1], opts) + (if Installable(r, opts) then [Os(AddRoute(r, opts.metric))] else [])
  }

  lemma RouteAddsStep(routes: seq<Route>, i: nat, opts: Options)
    requires i < |routes|
    ensures Installable(routes[i], opts) ==>
              RouteAdds(routes[..i + 1], opts) == RouteAdds(routes[..i], opts) + [Os(AddRoute(routes[i], opts.metric))]
    ensures !Installable(routes[i], opts) ==> RouteAdds(routes[..i + 1], opts) == RouteAdds(routes[..i], opts)
  {
    assert routes[..i + 1][..i] == routes[..i];
  }

  /** A route addition is issued exactly for the installable lease routes,
      with the configured metric. */
  lemma {:induction false} RouteAddsMember(routes: seq<Route>, opts: Options, r: Route, m: int)
    ensures Os(AddRoute(r, m)) in RouteAdds(routes, opts) <==> r in routes && Installable(r, opts) && m == opts.metric
    decreases |routes|
  {
    if routes != [] {
      var n := |routes| - 1;
      RouteAddsMember(routes[..n], opts, r, m);
      assert routes == routes[..n] + [routes[n]];
    }
  }

  /** A route kept as owned after its addition: the addition succeeded, or
      it failed (for any reason) for a route that was already owned. */
  predicate Remembered(r: Route, opts: Options, os: OsCall -> OsResult, prev: seq<Route>)
  {
    os(AddRoute(r, opts.metric)) == Ok || r in prev
  }

  /** The routes `configure` owns after installing the lease's routes, in
      the lease's order. */
  function OwnedRoutes(routes: seq<Route>, opts: Options, os: OsCall -> OsResult, prev: seq<Route>): (o: seq<Route>)
    ensures |o| <= |routes|
    ensures forall r :: r in o <==> r in routes && Installable(r, opts) && Remembered(r, opts, os, prev)
  {
    if routes == [] then []
    else
      var r := routes[|routes| - 1];
      OwnedRoutes(routes[..|routes| - 1], opts, os, prev)
      + (if Installable(r, opts) && Remembered(r, opts, os, prev) then [r] else [])
  }

  lemma OwnedRoutesStep(routes: seq<Route>, i: nat, opts: Options, os: OsCall -> OsResult, prev: seq<Route>)
    requires i < |routes|
    ensures Installable(routes[i], opts) && Remembered(routes[i], opts, os, prev) ==>
              OwnedRoutes(routes[..i + 1], opts, os, prev) == OwnedRoutes(routes[..i], opts, os, prev) + [routes[i]]
    ensures !(Installable(routes[i], opts) && Remembered(routes[i], opts, os, prev)) ==>
              OwnedRoutes(routes[..i + 1], opts, os, prev) == OwnedRoutes(routes[..i], opts, os, prev)
  {
    assert routes[..i + 1][..i] == routes[..i];
  }

  /** `a` occurs in `b` in the same order, possibly with gaps; matched
      from the end. */
  predicate SubseqOf(a: seq<Route>, b: seq<Route>)
    decreases |b|
  {
    if a == [] then true
    else if b == [] then false
    else if a[|a| - 1] == b[|b| - 1] then SubseqOf(a[..|a| - 1], b[..|b| - 1])
    else SubseqOf(a, b[..|b| - 1])
  }

  lemma {:induction false} SubseqDropLast(a: seq<Route>, b: seq<Route>)
    requires a != [] && SubseqOf(a, b)
    ensures SubseqOf(a[..|a| - 1], b)
    decreases |b|, 0
  {
    var b' := b[..|b| - 1];
    assert b == b' + [b[|b| - 1]];
    if a[|a| - 1] == b[|b| - 1] {
      SubseqExtend(a[..|a| - 1], b', b[|b| - 1]);
    } else {
      SubseqDropLast(a, b');
      SubseqExtend(a[..|a| - 1], b', b[|b| - 1]);
    }
  }

  lemma {:induction false} SubseqExtend(a: seq<Route>, b: seq<Route>, x: Route)
    requires SubseqOf(a, b)
    ensures SubseqOf(a, b + [x])
    decreases |b|, 1
  {
    assert (b + [x])[..|b|] == b;
    if a != [] && a[|a| - 1] == x {
      SubseqDropLast(a, b);
    }
  }

  /** The owned routes keep the lease's order. */
  lemma {:induction false} OwnedRoutesInOrder(routes: seq<Route>, opts: Options, os: OsCall -> OsResult, prev: seq<Route>)
    ensures SubseqOf(OwnedRoutes(routes, opts, os, prev), routes)
  {
    if routes != [] {
      var n := |routes| - 1;
      var r := routes[n];
      var o' := OwnedRoutes(routes[..n], opts, os, prev);
      OwnedRoutesInOrder(routes[..n], opts, os, prev);
      assert routes == routes[..n] + [r] && routes[..n + 1] == routes;
      OwnedRoutesStep(routes, n, opts, os, prev);
      if Installable(r, opts) && Remembered(r, opts, os, prev) {
        assert (o' + [r])[..|o'|] == o';
      } else {
        SubseqExtend(o', routes[..n], r);
      }
    }
  }

  /** The owned routes depend on the previous list only through the
      membership of the installable lease routes whose addition did not
      succeed. */
  lemma {:induction false} OwnedRoutesAgree(routes: seq<Route>, opts: Options, os: OsCall -> OsResult, p1: seq<Route>, p2: seq<Route>)
    requires forall k :: 0 <= k < |routes| && Installable(routes[k], opts) && os(AddRoute(routes[k], opts.metric)) != Ok ==>
               (routes[k] in p1 <==> routes[k] in p2)
    ensures OwnedRoutes(routes, opts, os, p1) == OwnedRoutes(routes, opts, os, p2)
  {
    if routes != [] {
      OwnedRoutesAgree(routes[..|routes| - 1], opts, os, p1, p2);
    }
  }

  /** The owned routes after a successful address: the lease's installed
      routes when it has any, else the previous ones unchanged. */
  function RoutesAfter(lease: Lease, opts: Options, os: OsCall -> OsResult, prev: seq<Route>): seq<Route>
  {
    if lease.routes != [] then OwnedRoutes(lease.routes, opts, os, prev) else prev
  }

  // ---------------------------------------------------------------------
  // Services configured from the lease

  predicate NoOsCalls(a: seq<Action>)
  {
    forall k :: 0 <= k < |a| ==> !a[k].Os?
  }

  lemma NoOsCallsAppend(a: seq<Action>, b: seq<Action>)
    requires NoOsCalls(a) && NoOsCalls(b)
    ensures NoOsCalls(a + b)
  {
    assert forall k :: 0 <= k < |a + b| ==> (a + b)[k] == if k < |a| then a[k] else b[k - |a|];
  }

  lemma AppendAssoc(a: seq<Action>, b: seq<Action>, c: seq<Action>)
    ensures a + b + c == a + (b + c)
  {
  }

  function ExecAll(argvs: seq<seq<string>>): (a: seq<Action>)
    ensures |a| == |argvs| && NoOsCalls(a)
    ensures forall k :: 0 <= k < |a| ==> a[k] == Exec(argvs[k])
  {
    seq(|argvs|, k requires 0 <= k < |argvs| => Exec(argvs[k]))
  }

  function ResolvActions(build: Build, opts: Options, iface: Iface, lease: Lease, env: Env): (a: seq<Action>)
    ensures NoOsCalls(a)
    ensures a != [] <==> opts.dodns && lease.dnsServers != []
  {
    if opts.dodns && lease.dnsServers != [] then
      [WriteResolv(Resolv.MakeResolv(build, env.resolvconfPresent, env.resolvOpens, iface.name, lease))]
    else []
  }

  /** The NTP step: both files, then the restarts `make_ntp` decides. */
  function NtpActions(build: Build, opts: Options, iface: Iface, lease: Lease, env: Env): (a: seq<Action>)
    ensures NoOsCalls(a)
    ensures a != [] <==> build.enableNtp && opts.dontp && lease.ntpServers != []
  {
    if build.enableNtp && opts.dontp && lease.ntpServers != [] then
      var servers := lease.ntpServers;
      var ntp := Ntp.NtpWrite(build, build.ntpFile, iface.name, servers, env.ntpExisting, env.ntpWritable);
      var open := Ntp.NtpWrite(build, build.openNtpFile, iface.name, servers, env.openNtpExisting, env.openNtpWritable);
      var restarts := Ntp.NtpRestarts(build, ntp.Some?, open.Some?);
      [WriteNtp(ntp, open)] + ExecAll(Ntp.RestartArgvs(build, restarts))
    else []
  }

  function NisActions(build: Build, opts: Options, iface: Iface, lease: Lease, env: Env): (a: seq<Action>)
    ensures NoOsCalls(a)
    ensures a != [] <==> build.enableNis && opts.donis && (lease.nisServers != [] || lease.nisDomain.Some?)
  {
    if build.enableNis && opts.donis && (lease.nisServers != [] || lease.nisDomain.Some?) then
      var r := Nis.MakeNis(build, env.nisOpens, iface.name, lease);
      [WriteNis(r)] + (if r.restart.Some? then [Exec(r.restart.value)] else [])
    else []
  }

  /** The name derived from the reverse lookup fits `newhostname`. */
  predicate HostnameFits(build: Build, opts: Options, lease: Lease, env: Env)
  {
    build.hostnameMax > 0
    && |Hostname.Derived(opts.dohostname, lease.hostname, env.reverseName, build.signedChar)| < build.hostnameMax
  }

  function HostnameActions(build: Build, opts: Options, lease: Lease, env: Env): (a: seq<Action>)
    requires HostnameFits(build, opts, lease, env)
    ensures NoOsCalls(a) && |a| <= 1
  {
    match Hostname.NewHostname(opts.dohostname, lease.hostname, env.reverseName, env.currentHostname,
                               build.signedChar, build.hostnameMax)
    case Some(name) => [SetHostname(name)]
    case None => []
  }

  function InfoActions(build: Build, opts: Options, iface: Iface, lease: Lease, env: Env): (a: seq<Action>)
    ensures NoOsCalls(a)
    ensures a != [] <==> build.enableInfo
  {
    if build.enableInfo then [WriteInfo(Info.WriteInfo(env.infoOpens, iface.name, iface.hwaddr, lease, opts))] else []
  }

  /** Everything after the routes: resolver, NTP, NIS, hostname and the
      info file, in that order. */
  function Services(build: Build, opts: Options, iface: Iface, lease: Lease, env: Env): (a: seq<Action>)
    requires HostnameFits(build, opts, lease, env)
    ensures NoOsCalls(a)
  {
    var r := ResolvActions(build, opts, iface, lease, env);
    var t := NtpActions(build, opts, iface, lease, env);
    var n := NisActions(build, opts, iface, lease, env);
    var h := HostnameActions(build, opts, lease, env);
    var i := InfoActions(build, opts, iface, lease, env);
    NoOsCallsAppend(r, t);
    NoOsCallsAppend(r + t, n);
    NoOsCallsAppend(r + t + n, h);
    NoOsCallsAppend(r + t + n + h, i);
    r + t + n + h + i
  }

  /** The hook's argument: `new` when the address or the netmask changed,
      else `up`. */
  function Hook(s: Snapshot, lease: Lease): (kind: string)
    ensures kind == "new" || kind == "up"
    ensures kind == "new" <==> s.address != lease.address || s.netmask != lease.netmask
  {
    if s.address != lease.address || s.netmask != lease.netmask then "new" else "up"
  }

  // ---------------------------------------------------------------------
  // The whole of `configure`

  /** The address steps after a successful `add_address`. */
  function AddressActions(build: Build, opts: Options, s: Snapshot, lease: Lease): seq<Action>
  {
    OldAddressActions(s, lease) + SubnetActions(build, opts, s, lease)
  }

  /** The steps after a successful `add_address`. */
  function AfterAddress(build: Build, opts: Options, iface: Iface, s: Snapshot, lease: Lease, env: Env): seq<Action>
    requires HostnameFits(build, opts, lease, env)
  {
    AddressActions(build, opts, s, lease) + RouteAdds(lease.routes, opts)
    + Services(build, opts, iface, lease, env) + ScriptActions(build, opts, iface, env, Hook(s, lease))
  }

  /** `configure` with a lease that has an address, after the route
      removal: the MTU, the address (the only step that can fail), the
      routes, the services and the hook. */
  function Apply(build: Build, opts: Options, iface: Iface, s: Snapshot, lease: Lease, env: Env): Outcome
    requires HostnameFits(build, opts, lease, env)
  {
    var mtu := MtuAfter(opts, iface, lease, s.mtu, env.os);
    var pre := MtuActions(opts, iface, lease, s.mtu) + [Os(AddCall(lease))];
    if env.os(AddCall(lease)) == Failed then
      Outcome(-1, s.(mtu := mtu), pre)
    else
      Outcome(0, Snapshot(lease.address, lease.netmask, mtu, RoutesAfter(lease, opts, env.os, s.routes)),
              pre + AfterAddress(build, opts, iface, s, lease, env))
  }

  /** The removal of stale routes, then the lease loss or the lease's
      application. */
  function ConfigureSpec(build: Build, opts: Options, iface: Iface, s: Snapshot, lease: Lease, env: Env): Outcome
    requires lease.address != 0 ==> HostnameFits(build, opts, lease, env)
  {
    var o := if lease.address == 0 then LeaseLoss(build, opts, iface, s, env) else Apply(build, opts, iface, s, lease, env);
    Outcome(o.rc, o.state, DelRouteActions(StaleRoutes(s.routes, opts, lease), opts.metric) + o.actions)
  }
}
