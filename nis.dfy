/** `make_nis`: the NIS client configuration written for a lease. */
module Nis {
  import opened Types
  import Text
  import opened ConfigText

  /** Size of the `prefix` buffer that `snprintf` fills. */
  const PrefixSize: nat := 256

  /** The text before each server address: `domain <d> server` (cut to the
      buffer) when the lease has a NIS domain and servers, `ypserver`
      without a domain, and the empty initial buffer otherwise. */
  function Prefix(lease: Lease): (p: string)
    ensures |p| < PrefixSize
    ensures lease.nisDomain.None? ==> p == "ypserver"
    ensures lease.nisDomain.Some? && lease.nisServers == [] ==> p == ""
    ensures lease.nisDomain.Some? && lease.nisServers != [] ==>
              |p| <= |"domain " + lease.nisDomain.value + " server"|
              && p == ("domain " + lease.nisDomain.value + " server")[..|p|]
              && (|lease.nisDomain.value| + 14 < PrefixSize ==> p == "domain " + lease.nisDomain.value + " server")
              && (|lease.nisDomain.value| + 14 >= PrefixSize ==> |p| == PrefixSize - 1)
  {
    match lease.nisDomain
    case Some(d) => if lease.nisServers != [] then Text.Truncate("domain " + d + " server", PrefixSize) else ""
    case None => "ypserver"
  }

  /** The lines `make_nis` writes. */
  function NisLines(ifname: string, lease: Lease): seq<string>
  {
    [Header(ifname)]
    + (match lease.nisDomain
       case Some(d) => if lease.nisServers == [] then [Line("domain", d + " broadcast")] else []
       case None => [])
    + AddressLines(Prefix(lease), lease.nisServers)
  }

  /** Without a NIS domain the file lists every server as a `ypserver`
      line, in the lease's order. */
  lemma YpserversReadBack(ifname: string, lease: Lease)
    requires lease.nisDomain.None?
    ensures Arguments(NisLines(ifname, lease), "ypserver") == Text.NtoaAll(lease.nisServers)
  {
    var head := [Header(ifname)];
    assert NisLines(ifname, lease) == head + AddressLines("ypserver", lease.nisServers);
    ArgumentsAppend(head, AddressLines("ypserver", lease.nisServers), "ypserver");
    HeaderIsNoKeyword(ifname, "ypserver");
    assert head[1..] == [];
    AddressLinesReadBack("ypserver", lease.nisServers);
  }

  /** With a domain and servers, line `k + 1` names server `k` after the
      prefix `domain <d> server`, which is whole when the domain is short
      enough for the buffer. */
  lemma DomainServerLines(ifname: string, lease: Lease, k: nat)
    requires lease.nisDomain.Some? && k < |lease.nisServers|
    requires |lease.nisDomain.value| + 14 < PrefixSize
    ensures |NisLines(ifname, lease)| == 1 + |lease.nisServers|
    ensures NisLines(ifname, lease)[k + 1] ==
              "domain " + lease.nisDomain.value + " server " + Text.Ntoa(lease.nisServers[k]) + "\n"
  {
    var p := Prefix(lease);
    assert p == "domain " + lease.nisDomain.value + " server";
    AddressLinesAt(p, lease.nisServers, k);
    assert NisLines(ifname, lease) == [Header(ifname)] + AddressLines(p, lease.nisServers);
  }

  /** Every server line of `DomainServerLines`. */
  lemma DomainServerLinesAll(ifname: string, lease: Lease)
    requires lease.nisDomain.Some? && lease.nisServers != [] && |lease.nisDomain.value| + 14 < PrefixSize
    ensures |NisLines(ifname, lease)| == 1 + |lease.nisServers|
    ensures forall k :: 0 <= k < |lease.nisServers| ==>
              NisLines(ifname, lease)[k + 1] ==
                "domain " + lease.nisDomain.value + " server " + Text.Ntoa(lease.nisServers[k]) + "\n"
  {
    DomainServerLines(ifname, lease, 0);
    forall k | 0 <= k < |lease.nisServers|
      ensures NisLines(ifname, lease)[k + 1] ==
                "domain " + lease.nisDomain.value + " server " + Text.Ntoa(lease.nisServers[k]) + "\n"
    {
      DomainServerLines(ifname, lease, k);
    }
  }

  lemma {:induction false} AddressLinesAt(keyword: string, addrs: seq<Addr>, k: nat)
    requires k < |addrs|
    ensures AddressLines(keyword, addrs)[k] == Line(keyword, Text.Ntoa(addrs[k]))
  {
    if k > 0 {
      AddressLinesAt(keyword, addrs[1..], k - 1);
    }
  }

  /** With a domain and no servers the file only says to find a server by
      broadcast. */
  lemma BroadcastOnly(ifname: string, lease: Lease)
    requires lease.nisDomain.Some? && lease.nisServers == []
    ensures NisLines(ifname, lease) == [Header(ifname), Line("domain", lease.nisDomain.value + " broadcast")]
  {
  }

  /** What `make_nis` did: -1 when the file cannot be opened for writing
      (nothing else happens), else 0, the lines written, the domain name
      given to `setdomainname` and the restart command of the NIS
      service. */
  datatype NisResult = NisResult(rc: int, lines: Option<seq<string>>, domainname: Option<string>,
                                 restart: Option<seq<string>>)

  function MakeNis(build: Build, canOpen: bool, ifname: string, lease: Lease): (r: NisResult)
    ensures r.rc == 0 <==> canOpen
    ensures r.rc == -1 <==> !canOpen
    ensures !canOpen ==> r.lines.None? && r.domainname.None? && r.restart.None?
    ensures canOpen ==> r.lines == Some(NisLines(ifname, lease)) && r.domainname == lease.nisDomain
    ensures canOpen ==> r.restart == Some([build.nisService.program, build.nisService.restartArgs])
    ensures canOpen && lease.nisDomain.None? ==>
              Arguments(r.lines.value, "ypserver") == Text.NtoaAll(lease.nisServers)
    ensures canOpen && lease.nisDomain.Some? && lease.nisServers == [] ==>
              r.lines.value == [Header(ifname), Line("domain", lease.nisDomain.value + " broadcast")]
    ensures canOpen && lease.nisDomain.Some? && lease.nisServers != [] && |lease.nisDomain.value| + 14 < PrefixSize ==>
              |r.lines.value| == 1 + |lease.nisServers|
              && forall k :: 0 <= k < |lease.nisServers| ==>
                   r.lines.value[k + 1] ==
                     "domain " + lease.nisDomain.value + " server " + Text.Ntoa(lease.nisServers[k]) + "\n"
  {
    if canOpen && lease.nisDomain.None? then
      YpserversReadBack(ifname, lease);
      NisResult(0, Some(NisLines(ifname, lease)), lease.nisDomain,
                Some([build.nisService.program, build.nisService.restartArgs]))
    else if canOpen && lease.nisDomain.Some? && lease.nisServers != [] && |lease.nisDomain.value| + 14 < PrefixSize then
      DomainServerLinesAll(ifname, lease);
      NisResult(0, Some(NisLines(ifname, lease)), lease.nisDomain,
                Some([build.nisService.program, build.nisService.restartArgs]))
    else if !canOpen then NisResult(-1, None, None, None)
    else NisResult(0, Some(NisLines(ifname, lease)), lease.nisDomain,
                   Some([build.nisService.program, build.nisService.restartArgs]))
  }
}
