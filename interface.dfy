/** `configure`: the interface's last-applied state, updated in place. */
module Reconcile {
  import opened Types
  import opened ReconcileSpec
  import Exec
  import Resolv
  import Ntp
  import Nis
  import Hostname
  import Info
  import Text

  /** Whether `route` is among `routes`, comparing destination, netmask
      and gateway, as the inner loops of `configure` do. */
  method HasRoute(routes: seq<Route>, route: Route) returns (have: bool)
    ensures have <==> route in routes
  {
    var k := 0;
    while k < |routes|
      invariant 0 <= k <= |routes|
      invariant route !in routes[..k]
    {
      if routes[k].destination == route.destination && routes[k].netmask == route.netmask
         && routes[k].gateway == route.gateway {
        return true;
      }
      assert routes[..k + 1] == routes[..k] + [routes[k]];
      k := k + 1;
    }
    assert routes[..k] == routes;
    return false;
  }

  /** The part of `interface_t` that `configure` reads and updates. */
  class Interface {
    const name: string
    const infofile: Option<string>
    const hwaddr: seq<u8>
    /** The interface's own MTU, from before any lease. */
    const mtu: u16
    var previousAddress: Addr
    var previousNetmask: Addr
    var previousMtu: u16
    var previousRoutes: seq<Route>
    /** Every primitive, command, file and hostname `configure` produced. */
    ghost var trace: seq<Action>

    function Fixed(): Iface
    {
      Iface(name, infofile, hwaddr, mtu)
    }

    function Snap(): Snapshot
      reads this
    {
      Snapshot(previousAddress, previousNetmask, previousMtu, previousRoutes)
    }

    /** An interface nothing has been configured on yet. */
    constructor (name: string, infofile: Option<string>, hwaddr: seq<u8>, mtu: u16)
      ensures Fixed() == Iface(name, infofile, hwaddr, mtu)
      ensures Snap() == Snapshot(0, 0, mtu, []) && trace == []
    {
      this.name := name;
      this.infofile := infofile;
      this.hwaddr := hwaddr;
      this.mtu := mtu;
      previousAddress, previousNetmask, previousMtu, previousRoutes := 0, 0, mtu, [];
      trace := [];
    }

    /** One call of a primitive; its result is the system's. */
    method Call(c: OsCall, env: Env) returns (res: OsResult)
      modifies this`trace
      ensures res == env.os(c) && trace == old(trace) + [Os(c)]
    {
      res := env.os(c);
      trace := trace + [Os(c)];
    }

    /** `configure(options, iface, dhcp)`. */
    method Configure(build: Build, opts: Options, lease: Lease, env: Env) returns (rc: int)
      requires lease.address != 0 ==> HostnameFits(build, opts, lease, env)
      modifies this
      ensures var o := ConfigureSpec(build, opts, Fixed(), old(Snap()), lease, env);
              rc == o.rc && Snap() == o.state && trace == old(trace) + o.actions
    {
      ghost var t0 := trace;
      ghost var d := DelRouteActions(StaleRoutes(previousRoutes, opts, lease), opts.metric);
      RemoveStaleRoutes(opts, lease, env);
      ghost var o;
      if lease.address == 0 {
        o := LeaseLoss(build, opts, Fixed(), old(Snap()), env);
        LoseLease(build, opts, env);
        rc := 0;
      } else {
        o := Apply(build, opts, Fixed(), old(Snap()), lease, env);
        rc := ApplyLease(build, opts, lease, env);
      }
      AppendAssoc(t0, d, o.actions);
    }

    /** The part of `configure` for a lease with an address. */
    method ApplyLease(build: Build, opts: Options, lease: Lease, env: Env) returns (rc: int)
      requires HostnameFits(build, opts, lease, env)
      modifies this
      ensures var o := Apply(build, opts, Fixed(), old(Snap()), lease, env);
              rc == o.rc && Snap() == o.state && trace == old(trace) + o.actions
    {
      ghost var t0 := trace;
      ghost var m := MtuActions(opts, Fixed(), lease, previousMtu);
      SetMtuStep(opts, lease, env);
      var added := Call(AddCall(lease), env);
      AppendAssoc(t0, m, [Os(AddCall(lease))]);
      if added == Failed {
        return -1;
      }
      FinishLease(build, opts, lease, env, old(Snap()));
      AppendAssoc(t0, m + [Os(AddCall(lease))], AfterAddress(build, opts, Fixed(), old(Snap()), lease, env));
      return 0;
    }

    /** The MTU step: aim at the lease's MTU, or the interface's own; call
        `set_mtu` only when that differs from what was last set, and record
        it only when the call succeeds. */
    method SetMtuStep(opts: Options, lease: Lease, env: Env)
      modifies this`previousMtu, this`trace
      ensures previousMtu == MtuAfter(opts, Fixed(), lease, old(previousMtu), env.os)
      ensures trace == old(trace) + MtuActions(opts, Fixed(), lease, old(previousMtu))
    {
      if opts.domtu {
        var target := if lease.mtu != 0 then lease.mtu else mtu;
        if target != previousMtu {
          var res := Call(SetMtu(target), env);
          if res == Ok {
            previousMtu := target;
          }
        }
      }
    }

    /** Everything after a successful `add_address`; `s` is the state
        `configure` started from. */
    method FinishLease(build: Build, opts: Options, lease: Lease, env: Env, ghost s: Snapshot)
      requires HostnameFits(build, opts, lease, env)
      requires previousAddress == s.address && previousNetmask == s.netmask && previousRoutes == s.routes
      modifies this
      ensures Snap() == Snapshot(lease.address, lease.netmask, old(previousMtu), RoutesAfter(lease, opts, env.os, s.routes))
      ensures trace == old(trace) + AfterAddress(build, opts, Fixed(), s, lease, env)
    {
      ghost var t0 := trace;
      ghost var a := AddressActions(build, opts, s, lease);
      ReplaceAddress(build, opts, lease, env);
      assert trace == t0 + a;
      ghost var r := RouteAdds(lease.routes, opts);
      if lease.routes != [] {
        RememberRoutes(opts, lease, env);
      } else {
        assert r == [];
      }
      assert trace == t0 + a + r;
      assert previousRoutes == RoutesAfter(lease, opts, env.os, s.routes);
      AppendAssoc(t0, a, r);
      ghost var v := Services(build, opts, Fixed(), lease, env);
      ConfigureServices(build, opts, lease, env);
      AppendAssoc(t0, a + r, v);
      assert trace == t0 + (a + r + v);
      ghost var h := ScriptActions(build, opts, Fixed(), env, Hook(s, lease));
      RunHook(build, opts, lease, env);
      AppendAssoc(t0, a + r + v, h);
      assert trace == t0 + (a + r + v + h);
    }

    /** The hook, `new` for a changed address or netmask, which is then
        recorded, else `up`. */
    method RunHook(build: Build, opts: Options, lease: Lease, env: Env)
      modifies this`previousAddress, this`previousNetmask, this`trace
      ensures previousAddress == lease.address && previousNetmask == lease.netmask
      ensures trace == old(trace) + ScriptActions(build, opts, Fixed(), env, Hook(old(Snap()), lease))
    {
      if previousAddress != lease.address || previousNetmask != lease.netmask {
        previousAddress, previousNetmask := lease.address, lease.netmask;
        RunScript(build, opts, env, "new");
      } else {
        RunScript(build, opts, env, "up");
      }
    }

    /** The removal of the previous lease's routes. */
    method RemoveStaleRoutes(opts: Options, lease: Lease, env: Env)
      modifies this`trace
      ensures trace == old(trace) + DelRouteActions(StaleRoutes(previousRoutes, opts, lease), opts.metric)
    {
      var i := 0;
      while i < |previousRoutes|
        invariant 0 <= i <= |previousRoutes|
        invariant trace == old(trace) + DelRouteActions(StaleRoutes(previousRoutes[..i], opts, lease), opts.metric)
      {
        var route := previousRoutes[i];
        assert previousRoutes[..i + 1][..i] == previousRoutes[..i];
        DelRouteActionsAppend(StaleRoutes(previousRoutes[..i], opts, lease), route, opts.metric);
        if route.destination != 0 || opts.dogateway {
          var have := false;
          if lease.address != 0 {
            have := HasRoute(lease.routes, route);
          }
          if !have {
            var res := Call(DelRoute(route, opts.metric), env);
          }
        }
        i := i + 1;
      }
      assert previousRoutes[..i] == previousRoutes;
    }

    /** The lease has no address: forget the owned routes, restore the
      interface's own MTU and unconfigure the previous address. */
    method LoseLease(build: Build, opts: Options, env: Env)
      modifies this
      ensures var o := LeaseLoss(build, opts, Fixed(), old(Snap()), env);
              Snap() == o.state && trace == old(trace) + o.actions
    {
      ghost var t0 := trace;
      ghost var m := LossMtuActions(Fixed(), previousMtu);
      previousRoutes := [];
      if mtu != 0 && previousMtu != mtu {
        var res := Call(SetMtu(mtu), env);
        previousMtu := mtu;
      }
      assert trace == t0 + m;
      if previousAddress != 0 {
        ghost var down := DownActions(build, opts, Fixed(), Snap(), env);
        Unconfigure(build, opts, env);
        AppendAssoc(t0, m, down);
      }
    }

    /** Unconfigure the previous address: delete it, forget it, remove the
        resolver information and run the hook with `down`. */
    method Unconfigure(build: Build, opts: Options, env: Env)
      modifies this`previousAddress, this`previousNetmask, this`trace
      ensures previousAddress == 0 && previousNetmask == 0
      ensures trace == old(trace) + DownActions(build, opts, Fixed(), old(Snap()), env)
    {
      var res := Call(DelAddress(previousAddress, previousNetmask), env);
      previousAddress, previousNetmask := 0, 0;
      RestoreResolv(build, env);
      RunScript(build, opts, env, "down");
    }

    /** `restore_resolv`. */
    method RestoreResolv(build: Build, env: Env)
      modifies this`trace
      ensures trace == old(trace) + match Resolv.RestoreResolvArgv(build, env.resolvconfPresent, name)
                                    case Some(argv) => [Exec(argv)]
                                    case None => []
    {
      var argv := Resolv.RestoreResolvArgv(build, env.resolvconfPresent, name);
      if argv.Some? {
        trace := trace + [Exec(argv.value)];
      }
    }

    /** `exec_script(options->script, iface->infofile, arg)`. */
    method RunScript(build: Build, opts: Options, env: Env, arg: string)
      modifies this`trace
      ensures trace == old(trace) + ScriptActions(build, opts, Fixed(), env, arg)
    {
      var argv := Exec.ScriptArgv(build, opts.script, infofile, arg, env.scriptExists);
      if argv.Some? {
        trace := trace + [Exec(argv.value)];
      }
    }

    /** After the new address is in place: delete the previous one and, on
        Linux, move the subnet route to the configured metric. */
    method ReplaceAddress(build: Build, opts: Options, lease: Lease, env: Env)
      modifies this`trace
      ensures trace == old(trace) + AddressActions(build, opts, Snap(), lease)
    {
      if previousAddress != lease.address && previousAddress != 0 {
        var res := Call(DelAddress(previousAddress, previousNetmask), env);
      }
      if build.linux && previousAddress != lease.address && opts.metric > 0 && lease.netmask != INADDR_BROADCAST {
        var subnet := Route(And(lease.address, lease.netmask), lease.netmask, 0);
        var res := Call(AddRoute(subnet, opts.metric), env);
        res := Call(DelRoute(subnet, 0), env);
      }
    }

    /** The installation of the lease's routes and the new list of owned
        routes. */
    method RememberRoutes(opts: Options, lease: Lease, env: Env)
      modifies this`previousRoutes, this`trace
      ensures previousRoutes == OwnedRoutes(lease.routes, opts, env.os, old(previousRoutes))
      ensures trace == old(trace) + RouteAdds(lease.routes, opts)
    {
      var newRoutes := [];
      var i := 0;
      while i < |lease.routes|
        invariant 0 <= i <= |lease.routes|
        invariant newRoutes == OwnedRoutes(lease.routes[..i], opts, env.os, previousRoutes)
        invariant trace == old(trace) + RouteAdds(lease.routes[..i], opts)
        modifies this`trace
      {
        var route := lease.routes[i];
        RouteAddsStep(lease.routes, i, opts);
        OwnedRoutesStep(lease.routes, i, opts, env.os, previousRoutes);
        ghost var added := RouteAdds(lease.routes[..i], opts);
        var remember := InstallRoute(opts, route, env);
        if Installable(route, opts) {
          AppendAssoc(old(trace), added, [Os(AddRoute(route, opts.metric))]);
        }
        if remember {
          newRoutes := newRoutes + [route];
        }
        i := i + 1;
      }
      assert lease.routes[..i] == lease.routes;
      previousRoutes := newRoutes;
    }

    /** One route of the lease: added unless it is a default route and
        gateways are not managed, and remembered when the addition
        succeeded or the route was owned already. */
    method InstallRoute(opts: Options, route: Route, env: Env) returns (remember: bool)
      modifies this`trace
      ensures remember <==> Installable(route, opts) && Remembered(route, opts, env.os, previousRoutes)
      ensures Installable(route, opts) ==> trace == old(trace) + [Os(AddRoute(route, opts.metric))]
      ensures !Installable(route, opts) ==> trace == old(trace)
    {
      remember := false;
      if !(route.destination == 0 && route.netmask == 0 && !opts.dogateway) {
        var res := Call(AddRoute(route, opts.metric), env);
        remember := res == Ok;
        if !remember {
          remember := HasRoute(previousRoutes, route);
        }
      }
    }

    /** The resolver, NTP, NIS, hostname and info-file steps. */
    method ConfigureServices(build: Build, opts: Options, lease: Lease, env: Env)
      requires HostnameFits(build, opts, lease, env)
      modifies this`trace
      ensures trace == old(trace) + Services(build, opts, Fixed(), lease, env)
    {
      ghost var t0 := trace;
      ghost var r := ResolvActions(build, opts, Fixed(), lease, env);
      if opts.dodns && lease.dnsServers != [] {
        trace := trace + [WriteResolv(Resolv.MakeResolv(build, env.resolvconfPresent, env.resolvOpens, name, lease))];
      }
      assert trace == t0 + r;
      ghost var t := NtpActions(build, opts, Fixed(), lease, env);
      NtpStep(build, opts, lease, env);
      AppendAssoc(t0, r, t);
      ghost var n := NisActions(build, opts, Fixed(), lease, env);
      NisStep(build, opts, lease, env);
      AppendAssoc(t0, r + t, n);
      assert trace == t0 + (r + t + n);
      ghost var h := HostnameActions(build, opts, lease, env);
      ChooseHostname(build, opts, lease, env);
      AppendAssoc(t0, r + t + n, h);
      ghost var i := InfoActions(build, opts, Fixed(), lease, env);
      if build.enableInfo {
        trace := trace + [WriteInfo(Info.WriteInfo(env.infoOpens, name, hwaddr, lease, opts))];
      }
      AppendAssoc(t0, r + t + n + h, i);
      assert trace == t0 + (r + t + n + h + i);
      assert Services(build, opts, Fixed(), lease, env) == r + t + n + h + i;
    }

    /** `make_ntp`, when NTP is built in, asked for and the lease has NTP
        servers. */
    method NtpStep(build: Build, opts: Options, lease: Lease, env: Env)
      modifies this`trace
      ensures trace == old(trace) + NtpActions(build, opts, Fixed(), lease, env)
    {
      if build.enableNtp && opts.dontp && lease.ntpServers != [] {
        var restarts, ntpWritten, openWritten :=
          Ntp.MakeNtp(build, name, lease.ntpServers, env.ntpExisting, env.ntpWritable,
                      env.openNtpExisting, env.openNtpWritable);
        trace := trace + [WriteNtp(ntpWritten, openWritten)] + ExecAll(Ntp.RestartArgvs(build, restarts));
      }
    }

    /** `make_nis`, when NIS is built in, asked for and the lease has a NIS
        domain or servers. */
    method NisStep(build: Build, opts: Options, lease: Lease, env: Env)
      modifies this`trace
      ensures trace == old(trace) + NisActions(build, opts, Fixed(), lease, env)
    {
      if build.enableNis && opts.donis && (lease.nisServers != [] || lease.nisDomain.Some?) {
        var r := Nis.MakeNis(build, env.nisOpens, name, lease);
        trace := trace + [WriteNis(r)];
        if r.restart.Some? {
          trace := trace + [Exec(r.restart.value)];
        }
      }
    }

    /** The hostname step: the reverse-lookup name when asked for and the
        lease has none, replaced by the lease's name, set when allowed and
        not empty. */
    method ChooseHostname(build: Build, opts: Options, lease: Lease, env: Env)
      requires HostnameFits(build, opts, lease, env)
      modifies this`trace
      ensures trace == old(trace) + HostnameActions(build, opts, lease, env)
    {
      var newhostname := "";
      if opts.dohostname && lease.hostname.None? && env.reverseName.Some? {
        var n := Hostname.NameLength(env.reverseName.value, build.signedChar);
        newhostname := env.reverseName.value[..n];
      }
      var current := env.currentHostname;
      if opts.dohostname || current == "" || current == "(none)" || current == "localhost" {
        if lease.hostname.Some? {
          newhostname := Text.Truncate(lease.hostname.value, build.hostnameMax);
        }
        if newhostname != "" {
          trace := trace + [SetHostname(newhostname)];
        }
      }
    }
  }
}
