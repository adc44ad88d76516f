/** Properties of `configure` as a whole, stated on `ConfigureSpec`, which
    `Reconcile.Interface.Configure` is proved to carry out: which routes and
    addresses are deleted, what losing the lease does, how the MTU
    converges, where `add_address` stands and what its failure leaves, the
    owned routes, the hook's argument, and what a second pass with the same
    lease does. */
module ReconcileProps {
  import opened Types
  import opened ReconcileSpec
  import Resolv

  /** `a` ends with `b`. */
  predicate EndsWith(a: seq<Action>, b: seq<Action>)
  {
    |b| <= |a| && a[|a| - |b|..] == b
  }

  predicate IsDelAddress(x: Action)
  {
    x.Os? && x.call.DelAddress?
  }

  predicate IsDelRoute(x: Action)
  {
    x.Os? && x.call.DelRoute?
  }

  predicate IsSetMtu(x: Action)
  {
    x.Os? && x.call.SetMtu?
  }

  lemma EndsWithAppend(a: seq<Action>, b: seq<Action>)
    ensures EndsWith(a + b, b)
  {
    assert (a + b)[|a + b| - |b|..] == b;
  }

  /** In `head + [y] + tail`, where neither `head` nor `y` deletes an
      address, every address deletion comes after `y`. */
  lemma DeletionsAfter(head: seq<Action>, y: Action, tail: seq<Action>)
    requires forall x :: x in head ==> !IsDelAddress(x)
    requires !IsDelAddress(y)
    ensures var a := head + [y] + tail;
            forall k :: 0 <= k < |a| && IsDelAddress(a[k]) ==> y in a[..k]
  {
    var a := head + [y] + tail;
    forall k | 0 <= k < |a| && IsDelAddress(a[k])
      ensures y in a[..k]
    {
      if k > |head| {
        assert a[..k][|head|] == y;
      }
    }
  }

  /** The actions of `configure` with an address, as the steps before
      `add_address`, `add_address`, and the steps after it. */
  lemma ApplyShape(build: Build, opts: Options, iface: Iface, s: Snapshot, lease: Lease, env: Env)
    requires lease.address != 0 && HostnameFits(build, opts, lease, env)
    ensures ConfigureSpec(build, opts, iface, s, lease, env).actions ==
              DelRouteActions(StaleRoutes(s.routes, opts, lease), opts.metric) + MtuActions(opts, iface, lease, s.mtu)
              + [Os(AddCall(lease))]
              + (if env.os(AddCall(lease)) == Failed then [] else AfterAddress(build, opts, iface, s, lease, env))
  {
    var d := DelRouteActions(StaleRoutes(s.routes, opts, lease), opts.metric);
    var m := MtuActions(opts, iface, lease, s.mtu);
    var after := if env.os(AddCall(lease)) == Failed then [] else AfterAddress(build, opts, iface, s, lease, env);
    assert Apply(build, opts, iface, s, lease, env).actions == m + [Os(AddCall(lease))] + after;
    AppendAssoc(d, m + [Os(AddCall(lease))], after);
    AppendAssoc(d, m, [Os(AddCall(lease))]);
  }

  /** Membership in the four parts of `ApplyShape`. */
  lemma InFour(d: seq<Action>, m: seq<Action>, y: Action, after: seq<Action>, x: Action)
    ensures x in d + m + [y] + after <==> x in d || x in m || x == y || x in after
  {
  }

  lemma NoOsMembers(a: seq<Action>)
    requires NoOsCalls(a)
    ensures forall x :: x in a ==> !x.Os?
  {
  }

  lemma DelRouteMember(routes: seq<Route>, metric: int, r: Route)
    ensures Os(DelRoute(r, metric)) in DelRouteActions(routes, metric) <==> r in routes
  {
    var a := DelRouteActions(routes, metric);
    if r in routes {
      var k :| 0 <= k < |routes| && routes[k] == r;
      assert a[k] == Os(DelRoute(r, metric));
    }
  }

  // ---------------------------------------------------------------------
  // The system calls of each branch

  /** The calls of the lease-loss branch: the interface's own MTU, and the
      previous address when there was one. */
  lemma LossCalls(build: Build, opts: Options, iface: Iface, s: Snapshot, env: Env)
    ensures forall x :: x in LeaseLoss(build, opts, iface, s, env).actions && x.Os? ==>
              (x.call == SetMtu(iface.mtu) && iface.mtu != 0 && s.mtu != iface.mtu)
              || (x.call == DelAddress(s.address, s.netmask) && s.address != 0)
  {
    if s.address != 0 {
      var down := DownActions(build, opts, iface, s, env);
      var rest := down[1..];
      assert down == [Os(DelAddress(s.address, s.netmask))] + rest;
      assert forall x :: x in rest ==> !x.Os?;
    }
  }

  /** The address steps: the previous address's deletion, and the subnet
      route's re-addition with the configured metric. */
  lemma AddressCalls(build: Build, opts: Options, s: Snapshot, lease: Lease)
    ensures forall x :: x in AddressActions(build, opts, s, lease) ==>
              (x == Os(DelAddress(s.address, s.netmask)) && s.address != 0 && s.address != lease.address)
              || (x == Os(AddRoute(SubnetRoute(lease), opts.metric)) && opts.metric > 0 && s.address != lease.address)
              || (x == Os(DelRoute(SubnetRoute(lease), 0)) && opts.metric > 0 && s.address != lease.address)
    ensures Os(DelAddress(s.address, s.netmask)) in AddressActions(build, opts, s, lease) <==>
              s.address != 0 && s.address != lease.address
  {
  }

  /** The steps after a successful `add_address`, by kind: the address
      steps, route additions, and actions that are no system call. */
  lemma AfterParts(build: Build, opts: Options, iface: Iface, s: Snapshot, lease: Lease, env: Env)
    requires HostnameFits(build, opts, lease, env)
    ensures var after := AfterAddress(build, opts, iface, s, lease, env);
            forall x :: x in after ==>
              x in AddressActions(build, opts, s, lease) || (x.Os? && x.call.AddRoute?) || !x.Os?
  {
    var adds := RouteAdds(lease.routes, opts);
    assert forall x :: x in adds ==> x.Os? && x.call.AddRoute?;
    NoOsMembers(Services(build, opts, iface, lease, env));
    NoOsMembers(ScriptActions(build, opts, iface, env, Hook(s, lease)));
  }

  /** After a successful `add_address` the only address deletion is the
      previous address's, when it was set and differs. */
  lemma AfterDelAddress(build: Build, opts: Options, iface: Iface, s: Snapshot, lease: Lease, env: Env, a: Addr, n: Addr)
    requires HostnameFits(build, opts, lease, env)
    ensures Os(DelAddress(a, n)) in AfterAddress(build, opts, iface, s, lease, env) <==>
              a == s.address && n == s.netmask && s.address != 0 && s.address != lease.address
  {
    AfterParts(build, opts, iface, s, lease, env);
    AddressCalls(build, opts, s, lease);
  }

  /** After a successful `add_address` the only route deletion is the
      metric-0 subnet route's, when a metric is configured and the address
      changed. */
  lemma AfterDelRoute(build: Build, opts: Options, iface: Iface, s: Snapshot, lease: Lease, env: Env, r: Route, metric: int)
    requires HostnameFits(build, opts, lease, env)
    ensures Os(DelRoute(r, metric)) in AfterAddress(build, opts, iface, s, lease, env) ==>
              r == SubnetRoute(lease) && metric == 0 && opts.metric > 0 && s.address != lease.address
  {
    var x := Os(DelRoute(r, metric));
    var a := AddressActions(build, opts, s, lease);
    var adds := RouteAdds(lease.routes, opts);
    var sv := Services(build, opts, iface, lease, env);
    var sc := ScriptActions(build, opts, iface, env, Hook(s, lease));
    NoOsMembers(sv);
    NoOsMembers(sc);
    assert x !in adds;
    assert x in a <==> x in SubnetActions(build, opts, s, lease);
    assert AfterAddress(build, opts, iface, s, lease, env) == a + adds + sv + sc;
  }

  /** After a successful `add_address` the MTU is not touched. */
  lemma AfterNoSetMtu(build: Build, opts: Options, iface: Iface, s: Snapshot, lease: Lease, env: Env, m: u16)
    requires HostnameFits(build, opts, lease, env)
    ensures Os(SetMtu(m)) !in AfterAddress(build, opts, iface, s, lease, env)
  {
    AfterParts(build, opts, iface, s, lease, env);
    AddressCalls(build, opts, s, lease);
  }

  lemma NotInDelRoutes(routes: seq<Route>, metric: int, x: Action)
    requires !IsDelRoute(x)
    ensures x !in DelRouteActions(routes, metric)
  {
  }

  lemma NoRoutesNoDeletion(routes: seq<Route>, metric: int, x: Action)
    requires forall r :: r !in routes
    ensures x !in DelRouteActions(routes, metric)
  {
    if routes != [] {
      FirstIsMember(routes);
      assert false;
    }
  }

  lemma FirstIsMember(routes: seq<Route>)
    requires routes != []
    ensures routes[0] in routes
  {
  }

  // ---------------------------------------------------------------------
  // Old-route deletion (configure.c:507-526)

  lemma StaleDeletedOnLoss(build: Build, opts: Options, iface: Iface, s: Snapshot, lease: Lease, env: Env, r: Route)
    requires lease.address == 0
    ensures Os(DelRoute(r, opts.metric)) in ConfigureSpec(build, opts, iface, s, lease, env).actions <==>
              r in StaleRoutes(s.routes, opts, lease)
  {
    DelRouteMember(StaleRoutes(s.routes, opts, lease), opts.metric, r);
    LossCalls(build, opts, iface, s, env);
  }

  lemma StaleDeletedOnApply(build: Build, opts: Options, iface: Iface, s: Snapshot, lease: Lease, env: Env, r: Route)
    requires lease.address != 0 && HostnameFits(build, opts, lease, env)
    ensures Os(DelRoute(r, opts.metric)) in ConfigureSpec(build, opts, iface, s, lease, env).actions <==>
              r in StaleRoutes(s.routes, opts, lease)
  {
    var d := DelRouteActions(StaleRoutes(s.routes, opts, lease), opts.metric);
    var m := MtuActions(opts, iface, lease, s.mtu);
    var after := if env.os(AddCall(lease)) == Failed then [] else AfterAddress(build, opts, iface, s, lease, env);
    var x := Os(DelRoute(r, opts.metric));
    ApplyShape(build, opts, iface, s, lease, env);
    InFour(d, m, Os(AddCall(lease)), after, x);
    DelRouteMember(StaleRoutes(s.routes, opts, lease), opts.metric, r);
    assert x !in m;
    if env.os(AddCall(lease)) != Failed {
      AfterDelRoute(build, opts, iface, s, lease, env, r, opts.metric);
    }
  }

  /** A previous route is deleted with the configured metric exactly when
      it is gated (non-zero destination, or gateways managed) and the lease
      has no address or no equal route; so a lease without an address
      deletes every gated route. */
  lemma OldRouteDeletion(build: Build, opts: Options, iface: Iface, s: Snapshot, lease: Lease, env: Env, r: Route)
    requires lease.address != 0 ==> HostnameFits(build, opts, lease, env)
    ensures Os(DelRoute(r, opts.metric)) in ConfigureSpec(build, opts, iface, s, lease, env).actions <==>
              r in s.routes && (r.destination != 0 || opts.dogateway) && (lease.address == 0 || r !in lease.routes)
  {
    if lease.address == 0 {
      StaleDeletedOnLoss(build, opts, iface, s, lease, env, r);
    } else {
      StaleDeletedOnApply(build, opts, iface, s, lease, env, r);
    }
  }

  /** A default route is never deleted when gateways are not managed. */
  lemma DefaultRouteKept(build: Build, opts: Options, iface: Iface, s: Snapshot, lease: Lease, env: Env, r: Route)
    requires lease.address != 0 ==> HostnameFits(build, opts, lease, env)
    requires r.destination == 0 && !opts.dogateway
    ensures Os(DelRoute(r, opts.metric)) !in ConfigureSpec(build, opts, iface, s, lease, env).actions
  {
    OldRouteDeletion(build, opts, iface, s, lease, env, r);
  }

  // ---------------------------------------------------------------------
  // Lease loss (configure.c:529-557)

  /** With no address: return 0, own no routes, record the interface's own
      MTU when it is known (whatever `set_mtu` returned), and forget the
      previous address when there was one. */
  lemma LeaseLossState(build: Build, opts: Options, iface: Iface, s: Snapshot, lease: Lease, env: Env)
    requires lease.address == 0
    ensures var o := ConfigureSpec(build, opts, iface, s, lease, env);
            o.rc == 0 && o.state.routes == [] && o.state.mtu == (if iface.mtu != 0 then iface.mtu else s.mtu)
            && o.state.address == 0 && o.state.netmask == (if s.address != 0 then 0 else s.netmask)
  {
  }

  /** With no address, `set_mtu` restores the interface's own MTU exactly
      when it is known and differs from the last MTU set. */
  lemma LeaseLossMtuCall(build: Build, opts: Options, iface: Iface, s: Snapshot, lease: Lease, env: Env)
    requires lease.address == 0
    ensures Os(SetMtu(iface.mtu)) in ConfigureSpec(build, opts, iface, s, lease, env).actions <==>
              iface.mtu != 0 && s.mtu != iface.mtu
  {
    LossCalls(build, opts, iface, s, env);
    NotInDelRoutes(StaleRoutes(s.routes, opts, lease), opts.metric, Os(SetMtu(iface.mtu)));
  }

  /** With no address and a previous one: delete it and run the hook with
      `down` last. */
  lemma LeaseLossUnconfigures(build: Build, opts: Options, iface: Iface, s: Snapshot, lease: Lease, env: Env)
    requires lease.address == 0 && s.address != 0
    ensures var a := ConfigureSpec(build, opts, iface, s, lease, env).actions;
            Os(DelAddress(s.address, s.netmask)) in a && EndsWith(a, ScriptActions(build, opts, iface, env, "down"))
  {
    var d := DelRouteActions(StaleRoutes(s.routes, opts, lease), opts.metric);
    var l := LeaseLoss(build, opts, iface, s, env);
    assert ConfigureSpec(build, opts, iface, s, lease, env).actions == d + l.actions;
    LossEndsWithDown(build, opts, iface, s, env);
    EndsWithPrefix(d, l.actions, ScriptActions(build, opts, iface, env, "down"));
  }

  /** With no address and a previous one, the pass ends with the
      teardown: the previous address deleted, then `resolvconf -d
      <ifname>` when resolvconf is configured and present, then the hook
      with `down`. */
  lemma LeaseLossTeardown(build: Build, opts: Options, iface: Iface, s: Snapshot, lease: Lease, env: Env)
    requires lease.address == 0 && s.address != 0
    ensures EndsWith(ConfigureSpec(build, opts, iface, s, lease, env).actions,
                     [Os(DelAddress(s.address, s.netmask))]
                     + (if build.resolvconf.Some? && env.resolvconfPresent
                        then [Exec([build.resolvconf.value, "-d", iface.name])] else [])
                     + ScriptActions(build, opts, iface, env, "down"))
  {
    var d := DelRouteActions(StaleRoutes(s.routes, opts, lease), opts.metric);
    var l := LeaseLoss(build, opts, iface, s, env);
    var down := DownActions(build, opts, iface, s, env);
    assert ConfigureSpec(build, opts, iface, s, lease, env).actions == d + l.actions;
    assert l.actions == LossMtuActions(iface, s.mtu) + down;
    EndsWithAppend(LossMtuActions(iface, s.mtu), down);
    EndsWithPrefix(d, l.actions, down);
  }

  /** With no address and none before: only route deletions and `set_mtu`;
      no address deletion, no command, no hook. */
  lemma LeaseLossWithoutAddress(build: Build, opts: Options, iface: Iface, s: Snapshot, lease: Lease, env: Env)
    requires lease.address == 0 && s.address == 0
    ensures forall x :: x in ConfigureSpec(build, opts, iface, s, lease, env).actions ==>
              x.Os? && (x.call.DelRoute? || x.call.SetMtu?)
  {
  }

  /** With no address nothing is added. */
  lemma LeaseLossAddsNothing(build: Build, opts: Options, iface: Iface, s: Snapshot, lease: Lease, env: Env)
    requires lease.address == 0
    ensures forall x :: x in ConfigureSpec(build, opts, iface, s, lease, env).actions && x.Os? ==>
              !x.call.AddAddress? && !x.call.AddRoute?
  {
    LossCalls(build, opts, iface, s, env);
  }

  lemma EndsWithPrefix(a: seq<Action>, b: seq<Action>, c: seq<Action>)
    requires EndsWith(b, c)
    ensures EndsWith(a + b, c)
  {
    assert (a + b)[|a + b| - |c|..] == b[|b| - |c|..];
  }

  lemma LossEndsWithDown(build: Build, opts: Options, iface: Iface, s: Snapshot, env: Env)
    requires s.address != 0
    ensures EndsWith(LeaseLoss(build, opts, iface, s, env).actions, ScriptActions(build, opts, iface, env, "down"))
  {
    var m := LossMtuActions(iface, s.mtu);
    var script := ScriptActions(build, opts, iface, env, "down");
    var restore := match Resolv.RestoreResolvArgv(build, env.resolvconfPresent, iface.name)
                   case Some(argv) => [Exec(argv)]
                   case None => [];
    var x := [Os(DelAddress(s.address, s.netmask))] + restore;
    assert DownActions(build, opts, iface, s, env) == x + script;
    AppendAssoc(m, x, script);
    EndsWithAppend(m + x, script);
  }

  // ---------------------------------------------------------------------
  // MTU (configure.c:563-574)

  /** With an address, `set_mtu` is called only with the target (the
      lease's MTU, or the interface's own), only when asked to and the
      target differs from the last MTU set. */
  lemma MtuCall(build: Build, opts: Options, iface: Iface, s: Snapshot, lease: Lease, env: Env, m: u16)
    requires lease.address != 0 && HostnameFits(build, opts, lease, env)
    ensures Os(SetMtu(m)) in ConfigureSpec(build, opts, iface, s, lease, env).actions <==>
              opts.domtu && m == MtuTarget(iface, lease) && m != s.mtu
  {
    var d := DelRouteActions(StaleRoutes(s.routes, opts, lease), opts.metric);
    var mtu := MtuActions(opts, iface, lease, s.mtu);
    var after := if env.os(AddCall(lease)) == Failed then [] else AfterAddress(build, opts, iface, s, lease, env);
    var x := Os(SetMtu(m));
    ApplyShape(build, opts, iface, s, lease, env);
    InFour(d, mtu, Os(AddCall(lease)), after, x);
    NotInDelRoutes(StaleRoutes(s.routes, opts, lease), opts.metric, x);
    if env.os(AddCall(lease)) != Failed {
      AfterNoSetMtu(build, opts, iface, s, lease, env, m);
    }
  }

  /** With an address, the target MTU is recorded only when `set_mtu`
      succeeded, else the last MTU set stays. */
  lemma MtuRecorded(build: Build, opts: Options, iface: Iface, s: Snapshot, lease: Lease, env: Env)
    requires lease.address != 0 && HostnameFits(build, opts, lease, env)
    ensures ConfigureSpec(build, opts, iface, s, lease, env).state.mtu ==
              if opts.domtu && env.os(SetMtu(MtuTarget(iface, lease))) == Ok then MtuTarget(iface, lease) else s.mtu
  {
  }

  /** A second pass with the same lease calls `set_mtu` only to retry a
      call that failed, and records the same MTU: once `set_mtu` has
      succeeded, repeated passes leave the MTU alone. */
  lemma MtuConvergence(build: Build, opts: Options, iface: Iface, s: Snapshot, lease: Lease, env: Env, m: u16)
    requires lease.address != 0 && HostnameFits(build, opts, lease, env)
    ensures var o1 := ConfigureSpec(build, opts, iface, s, lease, env);
            var o2 := ConfigureSpec(build, opts, iface, o1.state, lease, env);
            (Os(SetMtu(m)) in o2.actions ==> env.os(SetMtu(m)) != Ok) && o2.state.mtu == o1.state.mtu
  {
    var o1 := ConfigureSpec(build, opts, iface, s, lease, env);
    MtuRecorded(build, opts, iface, s, lease, env);
    MtuRecorded(build, opts, iface, o1.state, lease, env);
    MtuCall(build, opts, iface, o1.state, lease, env, m);
  }

  // ---------------------------------------------------------------------
  // Address ordering and abort (configure.c:576-583)

  lemma HeadDeletesNoAddress(opts: Options, iface: Iface, s: Snapshot, lease: Lease)
    ensures var head := DelRouteActions(StaleRoutes(s.routes, opts, lease), opts.metric)
                        + MtuActions(opts, iface, lease, s.mtu);
            forall x :: x in head ==> !IsDelAddress(x)
  {
  }

  /** With an address, every address deletion comes after `add_address`. */
  lemma AddBeforeDelete(build: Build, opts: Options, iface: Iface, s: Snapshot, lease: Lease, env: Env)
    requires lease.address != 0 && HostnameFits(build, opts, lease, env)
    ensures var a := ConfigureSpec(build, opts, iface, s, lease, env).actions;
            forall k :: 0 <= k < |a| && IsDelAddress(a[k]) ==> Os(AddCall(lease)) in a[..k]
  {
    var head := DelRouteActions(StaleRoutes(s.routes, opts, lease), opts.metric) + MtuActions(opts, iface, lease, s.mtu);
    var after := if env.os(AddCall(lease)) == Failed then [] else AfterAddress(build, opts, iface, s, lease, env);
    ApplyShape(build, opts, iface, s, lease, env);
    HeadDeletesNoAddress(opts, iface, s, lease);
    DeletionsAfter(head, Os(AddCall(lease)), after);
  }

  /** With an address, an address is deleted exactly when it is the
      previous one, that was set, differs from the new one, and
      `add_address` did not fail. */
  lemma AddressDeletion(build: Build, opts: Options, iface: Iface, s: Snapshot, lease: Lease, env: Env, a: Addr, n: Addr)
    requires lease.address != 0 && HostnameFits(build, opts, lease, env)
    ensures Os(DelAddress(a, n)) in ConfigureSpec(build, opts, iface, s, lease, env).actions <==>
              a == s.address && n == s.netmask && s.address != 0 && s.address != lease.address
              && env.os(AddCall(lease)) != Failed
  {
    var d := DelRouteActions(StaleRoutes(s.routes, opts, lease), opts.metric);
    var m := MtuActions(opts, iface, lease, s.mtu);
    var after := if env.os(AddCall(lease)) == Failed then [] else AfterAddress(build, opts, iface, s, lease, env);
    var x := Os(DelAddress(a, n));
    ApplyShape(build, opts, iface, s, lease, env);
    NotInDelRoutes(StaleRoutes(s.routes, opts, lease), opts.metric, x);
    NotInMtuActions(opts, iface, lease, s.mtu, x);
    OnlyAfter(d, m, Os(AddCall(lease)), after, x);
    if env.os(AddCall(lease)) != Failed {
      AfterDelAddress(build, opts, iface, s, lease, env, a, n);
    }
  }

  /** A failing `add_address` (any error but EEXIST) ends `configure` with
      -1 right after it: the address, netmask and routes stay as they were
      (the MTU step before it has happened). */
  lemma AbortOnFailure(build: Build, opts: Options, iface: Iface, s: Snapshot, lease: Lease, env: Env)
    requires lease.address != 0 && HostnameFits(build, opts, lease, env)
    requires env.os(AddCall(lease)) == Failed
    ensures var o := ConfigureSpec(build, opts, iface, s, lease, env);
            o.rc == -1 && o.state.address == s.address && o.state.netmask == s.netmask && o.state.routes == s.routes
            && o.actions != [] && o.actions[|o.actions| - 1] == Os(AddCall(lease))
  {
    ApplyShape(build, opts, iface, s, lease, env);
  }

  /** After a failing `add_address` nothing is deleted but the stale routes
      and nothing is added but the address. */
  lemma AbortTouchesNothing(build: Build, opts: Options, iface: Iface, s: Snapshot, lease: Lease, env: Env)
    requires lease.address != 0 && HostnameFits(build, opts, lease, env)
    requires env.os(AddCall(lease)) == Failed
    ensures forall x :: x in ConfigureSpec(build, opts, iface, s, lease, env).actions ==>
              !IsDelAddress(x) && !(x.Os? && x.call.AddRoute?)
  {
    ApplyShape(build, opts, iface, s, lease, env);
    assert forall x :: x in DelRouteActions(StaleRoutes(s.routes, opts, lease), opts.metric) ==> IsDelRoute(x);
  }

  /** An `add_address` that succeeds, or fails with EEXIST, leads to 0 and
      records the lease's address and netmask, the MTU of the MTU step and
      the owned routes. */
  lemma StateOnSuccess(build: Build, opts: Options, iface: Iface, s: Snapshot, lease: Lease, env: Env)
    requires lease.address != 0 && HostnameFits(build, opts, lease, env)
    requires env.os(AddCall(lease)) != Failed
    ensures var o := ConfigureSpec(build, opts, iface, s, lease, env);
            o.rc == 0 && o.state == Snapshot(lease.address, lease.netmask, MtuAfter(opts, iface, lease, s.mtu, env.os),
                                             RoutesAfter(lease, opts, env.os, s.routes))
  {
  }

  // ---------------------------------------------------------------------
  // The subnet route's metric (configure.c:585-598)

  lemma DelRouteMetric(routes: seq<Route>, metric: int, x: Action)
    requires x in DelRouteActions(routes, metric)
    ensures x.Os? && x.call.DelRoute? && x.call.metric == metric
  {
  }

  lemma AfterSubnetDelete(build: Build, opts: Options, iface: Iface, s: Snapshot, lease: Lease, env: Env)
    requires HostnameFits(build, opts, lease, env)
    requires SubnetActions(build, opts, s, lease) != []
    ensures Os(DelRoute(SubnetRoute(lease), 0)) in AfterAddress(build, opts, iface, s, lease, env)
  {
    var x := Os(DelRoute(SubnetRoute(lease), 0));
    var sub := SubnetActions(build, opts, s, lease);
    assert sub[1] == x;
    var a := AddressActions(build, opts, s, lease);
    var ar := a + RouteAdds(lease.routes, opts);
    var arv := ar + Services(build, opts, iface, lease, env);
    InRight(OldAddressActions(s, lease), sub, x);
    InLeft(a, RouteAdds(lease.routes, opts), x);
    InLeft(ar, Services(build, opts, iface, lease, env), x);
    InLeft(arv, ScriptActions(build, opts, iface, env, Hook(s, lease)), x);
  }

  /** After a successful `add_address`, a metric-0 route is deleted
      exactly when it is the subnet route and its metric is moved. */
  lemma AfterMetricZeroDelete(build: Build, opts: Options, iface: Iface, s: Snapshot, lease: Lease, env: Env, r: Route)
    requires HostnameFits(build, opts, lease, env)
    ensures Os(DelRoute(r, 0)) in AfterAddress(build, opts, iface, s, lease, env) <==>
              r == SubnetRoute(lease) && SubnetActions(build, opts, s, lease) != []
  {
    var x := Os(DelRoute(r, 0));
    var sub := SubnetActions(build, opts, s, lease);
    if x in AfterAddress(build, opts, iface, s, lease, env) {
      AfterParts(build, opts, iface, s, lease, env);
      assert x in OldAddressActions(s, lease) + sub;
      assert x in sub;
    }
    if r == SubnetRoute(lease) && sub != [] {
      AfterSubnetDelete(build, opts, iface, s, lease, env);
    }
  }

  lemma InLeft(a: seq<Action>, b: seq<Action>, x: Action)
    requires x in a
    ensures x in a + b
  {
  }

  lemma InRight(a: seq<Action>, b: seq<Action>, x: Action)
    requires x in b
    ensures x in a + b
  {
  }

  /** With a metric configured, a metric-0 route is deleted exactly when
      it is the lease's subnet route on Linux, the address changed, the
      netmask is not all-ones and `add_address` did not fail: the kernel's
      subnet route is replaced by one with the metric. */
  lemma SubnetRouteMoved(build: Build, opts: Options, iface: Iface, s: Snapshot, lease: Lease, env: Env, r: Route)
    requires lease.address != 0 && HostnameFits(build, opts, lease, env)
    requires opts.metric > 0
    ensures Os(DelRoute(r, 0)) in ConfigureSpec(build, opts, iface, s, lease, env).actions <==>
              r == SubnetRoute(lease) && build.linux && s.address != lease.address
              && lease.netmask != INADDR_BROADCAST && env.os(AddCall(lease)) != Failed
  {
    var d := DelRouteActions(StaleRoutes(s.routes, opts, lease), opts.metric);
    var m := MtuActions(opts, iface, lease, s.mtu);
    var after := if env.os(AddCall(lease)) == Failed then [] else AfterAddress(build, opts, iface, s, lease, env);
    var x := Os(DelRoute(r, 0));
    ApplyShape(build, opts, iface, s, lease, env);
    InFour(d, m, Os(AddCall(lease)), after, x);
    if x in d {
      DelRouteMetric(StaleRoutes(s.routes, opts, lease), opts.metric, x);
    }
    assert x !in m;
    if env.os(AddCall(lease)) != Failed {
      AfterMetricZeroDelete(build, opts, iface, s, lease, env, r);
    }
  }

  // ---------------------------------------------------------------------
  // Route additions (configure.c:585-598, 601-651)

  /** After a successful `add_address` a route is added exactly when it is
      an installable lease route, or the subnet route whose metric is
      moved; always with the configured metric. */
  lemma AfterAddRoute(build: Build, opts: Options, iface: Iface, s: Snapshot, lease: Lease, env: Env, r: Route, m: int)
    requires HostnameFits(build, opts, lease, env)
    ensures Os(AddRoute(r, m)) in AfterAddress(build, opts, iface, s, lease, env) <==>
              m == opts.metric && ((r in lease.routes && Installable(r, opts))
                                   || (SubnetActions(build, opts, s, lease) != [] && r == SubnetRoute(lease)))
  {
    var x := Os(AddRoute(r, m));
    var a := AddressActions(build, opts, s, lease);
    var adds := RouteAdds(lease.routes, opts);
    var sv := Services(build, opts, iface, lease, env);
    var sc := ScriptActions(build, opts, iface, env, Hook(s, lease));
    NoOsMembers(sv);
    NoOsMembers(sc);
    RouteAddsMember(lease.routes, opts, r, m);
    assert x in a <==> x in SubnetActions(build, opts, s, lease);
    assert AfterAddress(build, opts, iface, s, lease, env) == a + adds + sv + sc;
  }

  /** With an address, a route is added exactly when `add_address`
      succeeded and the route is an installable lease route or the subnet
      route whose metric is moved; always with the configured metric. */
  lemma RouteAddition(build: Build, opts: Options, iface: Iface, s: Snapshot, lease: Lease, env: Env, r: Route, m: int)
    requires lease.address != 0 && HostnameFits(build, opts, lease, env)
    ensures Os(AddRoute(r, m)) in ConfigureSpec(build, opts, iface, s, lease, env).actions <==>
              env.os(AddCall(lease)) != Failed && m == opts.metric
              && ((r in lease.routes && Installable(r, opts))
                  || (SubnetActions(build, opts, s, lease) != [] && r == SubnetRoute(lease)))
  {
    AddRouteAfterAdd(build, opts, iface, s, lease, env, r, m);
    AfterAddRoute(build, opts, iface, s, lease, env, r, m);
  }

  /** With an address, route additions are only made after a successful
      `add_address`. */
  lemma AddRouteAfterAdd(build: Build, opts: Options, iface: Iface, s: Snapshot, lease: Lease, env: Env, r: Route, m: int)
    requires lease.address != 0 && HostnameFits(build, opts, lease, env)
    ensures Os(AddRoute(r, m)) in ConfigureSpec(build, opts, iface, s, lease, env).actions <==>
              env.os(AddCall(lease)) != Failed && Os(AddRoute(r, m)) in AfterAddress(build, opts, iface, s, lease, env)
  {
    var d := DelRouteActions(StaleRoutes(s.routes, opts, lease), opts.metric);
    var mt := MtuActions(opts, iface, lease, s.mtu);
    var after := if env.os(AddCall(lease)) == Failed then [] else AfterAddress(build, opts, iface, s, lease, env);
    var x := Os(AddRoute(r, m));
    ApplyShape(build, opts, iface, s, lease, env);
    NotInDelRoutes(StaleRoutes(s.routes, opts, lease), opts.metric, x);
    NotInMtuActions(opts, iface, lease, s.mtu, x);
    OnlyAfter(d, mt, Os(AddCall(lease)), after, x);
  }

  lemma NotInMtuActions(opts: Options, iface: Iface, lease: Lease, prevMtu: u16, x: Action)
    requires !IsSetMtu(x)
    ensures x !in MtuActions(opts, iface, lease, prevMtu)
  {
  }

  lemma OnlyAfter(d: seq<Action>, m: seq<Action>, y: Action, after: seq<Action>, x: Action)
    requires x !in d && x !in m && x != y
    ensures x in d + m + [y] + after <==> x in after
  {
  }

  // ---------------------------------------------------------------------
  // New owned routes (configure.c:601-651)

  /** A lease with routes makes the owned routes those of its routes, in
      its order, that are not a default route (unless gateways are
      managed) and whose `add_route` succeeded or that were owned already;
      a lease without routes leaves them as they were. */
  lemma OwnedRoutesRule(lease: Lease, opts: Options, os: OsCall -> OsResult, prev: seq<Route>)
    ensures lease.routes == [] ==> RoutesAfter(lease, opts, os, prev) == prev
    ensures lease.routes != [] ==>
              SubseqOf(RoutesAfter(lease, opts, os, prev), lease.routes)
              && forall r :: r in RoutesAfter(lease, opts, os, prev) <==>
                   r in lease.routes && !(r.destination == 0 && r.netmask == 0 && !opts.dogateway)
                   && (os(AddRoute(r, opts.metric)) == Ok || r in prev)
  {
    OwnedRoutesInOrder(lease.routes, opts, os, prev);
  }

  /** Owning the routes again with the result as the previous ones gives
      the same result. */
  lemma RoutesAfterStable(lease: Lease, opts: Options, os: OsCall -> OsResult, prev: seq<Route>)
    ensures var p := RoutesAfter(lease, opts, os, prev);
            RoutesAfter(lease, opts, os, p) == p
  {
    if lease.routes != [] {
      OwnedRoutesAgree(lease.routes, opts, os, prev, RoutesAfter(lease, opts, os, prev));
    }
  }

  // ---------------------------------------------------------------------
  // Transition kind (configure.c:705-715)

  /** After a successful `add_address` the hook runs last, with `new` when
      the address or netmask changed and `up` otherwise; the lease's
      address and netmask are then recorded, so the same lease again is
      `up`. */
  lemma TransitionKind(build: Build, opts: Options, iface: Iface, s: Snapshot, lease: Lease, env: Env)
    requires lease.address != 0 && HostnameFits(build, opts, lease, env)
    requires env.os(AddCall(lease)) != Failed
    ensures var o := ConfigureSpec(build, opts, iface, s, lease, env);
            EndsWith(o.actions, ScriptActions(build, opts, iface, env,
                       if s.address != lease.address || s.netmask != lease.netmask then "new" else "up"))
            && Hook(o.state, lease) == "up"
  {
    var script := ScriptActions(build, opts, iface, env, Hook(s, lease));
    var head := DelRouteActions(StaleRoutes(s.routes, opts, lease), opts.metric) + MtuActions(opts, iface, lease, s.mtu)
                + [Os(AddCall(lease))];
    var mid := AddressActions(build, opts, s, lease) + RouteAdds(lease.routes, opts) + Services(build, opts, iface, lease, env);
    ApplyShape(build, opts, iface, s, lease, env);
    assert AfterAddress(build, opts, iface, s, lease, env) == mid + script;
    AppendAssoc(head, mid, script);
    EndsWithAppend(head + mid, script);
  }

  // ---------------------------------------------------------------------
  // A second pass with the same lease

  lemma MtuAfterStable(opts: Options, iface: Iface, lease: Lease, m: u16, os: OsCall -> OsResult)
    ensures var m1 := MtuAfter(opts, iface, lease, m, os);
            MtuAfter(opts, iface, lease, m1, os) == m1
  {
  }

  /** Configuring the same lease again returns 0 and leaves the state as
      the first pass left it. */
  lemma SecondPassFixpoint(build: Build, opts: Options, iface: Iface, s: Snapshot, lease: Lease, env: Env)
    requires lease.address != 0 && HostnameFits(build, opts, lease, env)
    requires env.os(AddCall(lease)) != Failed
    ensures var o1 := ConfigureSpec(build, opts, iface, s, lease, env);
            var o2 := ConfigureSpec(build, opts, iface, o1.state, lease, env);
            o2.rc == 0 && o2.state == o1.state
  {
    var s1 := ConfigureSpec(build, opts, iface, s, lease, env).state;
    StateOnSuccess(build, opts, iface, s, lease, env);
    StateOnSuccess(build, opts, iface, s1, lease, env);
    MtuAfterStable(opts, iface, lease, s.mtu, env.os);
    RoutesAfterStable(lease, opts, env.os, s.routes);
  }

  /** The second pass deletes no address and runs the hook with `up`. */
  lemma SecondPassIsUp(build: Build, opts: Options, iface: Iface, s: Snapshot, lease: Lease, env: Env, a: Addr, n: Addr)
    requires lease.address != 0 && HostnameFits(build, opts, lease, env)
    requires env.os(AddCall(lease)) != Failed
    ensures var o1 := ConfigureSpec(build, opts, iface, s, lease, env);
            var o2 := ConfigureSpec(build, opts, iface, o1.state, lease, env);
            EndsWith(o2.actions, ScriptActions(build, opts, iface, env, "up")) && Os(DelAddress(a, n)) !in o2.actions
  {
    var s1 := ConfigureSpec(build, opts, iface, s, lease, env).state;
    TransitionKind(build, opts, iface, s, lease, env);
    TransitionKind(build, opts, iface, s1, lease, env);
    AddressDeletion(build, opts, iface, s1, lease, env, a, n);
  }

  /** With routes in the lease, the second pass deletes no route. */
  lemma SecondPassKeepsRoutes(build: Build, opts: Options, iface: Iface, s: Snapshot, lease: Lease, env: Env, r: Route, metric: int)
    requires lease.address != 0 && HostnameFits(build, opts, lease, env)
    requires env.os(AddCall(lease)) != Failed
    requires lease.routes != []
    ensures var o1 := ConfigureSpec(build, opts, iface, s, lease, env);
            var o2 := ConfigureSpec(build, opts, iface, o1.state, lease, env);
            Os(DelRoute(r, metric)) !in o2.actions
  {
    var s1 := ConfigureSpec(build, opts, iface, s, lease, env).state;
    StateOnSuccess(build, opts, iface, s, lease, env);
    OwnedRoutesRule(lease, opts, env.os, s.routes);
    var stale := StaleRoutes(s1.routes, opts, lease);
    var d := DelRouteActions(stale, opts.metric);
    var m := MtuActions(opts, iface, lease, s1.mtu);
    var after := AfterAddress(build, opts, iface, s1, lease, env);
    var x := Os(DelRoute(r, metric));
    ApplyShape(build, opts, iface, s1, lease, env);
    InFour(d, m, Os(AddCall(lease)), after, x);
    NoRoutesNoDeletion(stale, opts.metric, x);
    assert x !in m;
    AfterDelRoute(build, opts, iface, s1, lease, env, r, metric);
  }

  /** Without routes in the lease the previous routes stay remembered after
      their deletion, so the second pass deletes the gated ones again. */
  lemma SecondPassRepeatsDeletion(build: Build, opts: Options, iface: Iface, s: Snapshot, lease: Lease, env: Env, r: Route)
    requires lease.address != 0 && HostnameFits(build, opts, lease, env)
    requires env.os(AddCall(lease)) != Failed
    requires lease.routes == []
    ensures var o1 := ConfigureSpec(build, opts, iface, s, lease, env);
            var o2 := ConfigureSpec(build, opts, iface, o1.state, lease, env);
            Os(DelRoute(r, opts.metric)) in o2.actions <==> r in s.routes && (r.destination != 0 || opts.dogateway)
  {
    var s1 := ConfigureSpec(build, opts, iface, s, lease, env).state;
    StateOnSuccess(build, opts, iface, s, lease, env);
    OldRouteDeletion(build, opts, iface, s1, lease, env, r);
  }
}
