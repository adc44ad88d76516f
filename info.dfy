/** `write_info`: the `KEY='value'` lines of the info file that hook
    scripts source. Free-text lease fields go through `cleanmetas` so that
    the shell reads each value back as exactly the lease's text. */
module Info {
  import opened Types
  import Text
  import opened ShellQuote

  /** One `KEY='value'` line; `cleaned` when the value is written through
      `cleanmetas`. */
  datatype Entry = Entry(key: string, value: string, cleaned: bool)

  /** The line `key=word`. */
  function Assign(key: string, word: string): string
  {
    key + "=" + word + "\n"
  }

  function Render(e: Entry): string
  {
    Assign(e.key, "'" + (if e.cleaned then Escape(e.value) else e.value) + "'")
  }

  predicate QuoteFree(s: string)
  {
    forall i :: 0 <= i < |s| ==> s[i] != '\''
  }

  /** An entry whose value cannot end its quotes early. */
  predicate Safe(e: Entry)
  {
    e.cleaned || QuoteFree(e.value)
  }

  predicate AllSafe(es: seq<Entry>)
  {
    forall i :: 0 <= i < |es| ==> Safe(es[i])
  }

  /** How a shell that sources the file reads the line that sets `key`:
      the value of the word between `key=` and the closing newline. None
      when the line sets another name or the word is not read back as one
      literal. */
  function ValueOf(line: string, key: string): Option<string>
  {
    if |line| < |key| + 2 || line[..|key| + 1] != key + "=" || line[|line| - 1] != '\n' then None
    else ShellValue(line[|key| + 1..|line| - 1])
  }

  lemma AssignValue(key: string, word: string)
    ensures ValueOf(Assign(key, word), key) == ShellValue(word)
  {
    var line := Assign(key, word);
    assert line[..|key| + 1] == key + "=";
    assert line[|key| + 1..|line| - 1] == word;
  }

  /** Every safe entry reads back as its value. */
  lemma RenderReadsBack(e: Entry)
    requires Safe(e)
    ensures ValueOf(Render(e), e.key) == Some(e.value)
  {
    var w := if e.cleaned then Escape(e.value) else e.value;
    if !e.cleaned {
      EscapeQuoteFree(e.value);
    }
    AssignValue(e.key, "'" + w + "'");
    QuotedValueReadsBack(e.value);
  }

  lemma {:induction false} JoinQuoteFree(parts: seq<string>, sep: string)
    requires forall k :: 0 <= k < |parts| ==> QuoteFree(parts[k])
    requires QuoteFree(sep)
    ensures QuoteFree(Text.Join(parts, sep))
    decreases |parts|
  {
    if |parts| > 1 {
      JoinQuoteFree(parts[1..], sep);
      var r := Text.Join(parts[1..], sep);
      forall i | 0 <= i < |parts[0] + sep + r|
        ensures (parts[0] + sep + r)[i] != '\''
      {
        if i < |parts[0]| {
        } else if i < |parts[0]| + |sep| {
          assert (parts[0] + sep + r)[i] == sep[i - |parts[0]|];
        } else {
          assert (parts[0] + sep + r)[i] == r[i - |parts[0]| - |sep|];
        }
      }
    }
  }

  /** The text `destination,netmask,gateway` of a route. */
  function RouteText(r: Route): (t: string)
    ensures QuoteFree(t)
  {
    var d, n, g := Text.Ntoa(r.destination), Text.Ntoa(r.netmask), Text.Ntoa(r.gateway);
    Text.NtoaPlain(r.destination);
    Text.NtoaPlain(r.netmask);
    Text.NtoaPlain(r.gateway);
    assert Text.Plain(",");
    Text.PlainAppend(d, ",");
    Text.PlainAppend(d + ",", n);
    Text.PlainAppend(d + "," + n, ",");
    Text.PlainAppend(d + "," + n + ",", g);
    d + "," + n + "," + g
  }

  /** Blank-separated address texts. */
  function AddrList(addrs: seq<Addr>): (t: string)
    ensures QuoteFree(t)
  {
    JoinQuoteFree(Text.NtoaAll(addrs), " ");
    Text.Join(Text.NtoaAll(addrs), " ")
  }

  function RouteList(routes: seq<Route>): (t: string)
    ensures QuoteFree(t)
  {
    var texts := seq(|routes|, k requires 0 <= k < |routes| => RouteText(routes[k]));
    JoinQuoteFree(texts, " ");
    Text.Join(texts, " ")
  }

  /** A cleaned entry for an optional free-text field, absent for NULL. */
  function Optional(key: string, o: Option<string>): (r: seq<Entry>)
    ensures AllSafe(r) && |r| <= 1
    ensures o.Some? <==> |r| == 1
    ensures o.Some? ==> r[0].key == key && r[0].value == o.value
  {
    if o.Some? then [Entry(key, o.value, true)] else []
  }

  /** An entry for an address list, absent when the list is empty. */
  function AddressEntry(key: string, addrs: seq<Addr>): (r: seq<Entry>)
    ensures AllSafe(r) && |r| <= 1
    ensures addrs != [] <==> |r| == 1
  {
    if addrs != [] then [Entry(key, AddrList(addrs), false)] else []
  }

  /** The FQDN option as written: its name goes into the file without
      `cleanmetas`, so the lines are safe only for a name with no quote. */
  function FqdnEntriesAsWritten(f: Fqdn): (r: seq<Entry>)
    ensures |r| == 4 && r[3].key == "FQDNHOSTNAME" && r[3].value == f.name && !r[3].cleaned
    ensures AllSafe(r) <==> QuoteFree(f.name)
  {
    [NumberEntry("FQDNFLAGS", f.flags),
     NumberEntry("FQDNRCODE1", f.r1),
     NumberEntry("FQDNRCODE2", f.r2),
     Entry("FQDNHOSTNAME", f.name, false)]
  }

  lemma DecQuoteFree(n: nat)
    ensures QuoteFree(Text.Dec(n))
  {
  }

  /** A name holding a quote closes the quotes of the `FQDNHOSTNAME` line
      early: the line is no longer read back as the name. */
  lemma FqdnBreaksOut()
    ensures ValueOf(Render(FqdnEntriesAsWritten(Fqdn(0, 0, 0, "a'b"))[3]), "FQDNHOSTNAME") != Some("a'b")
  {
    var e := FqdnEntriesAsWritten(Fqdn(0, 0, 0, "a'b"))[3];
    var w := "'a'b'";
    assert Render(e) == Assign("FQDNHOSTNAME", w);
    AssignValue("FQDNHOSTNAME", w);
    assert w[1..] == "a'b'" && w[1..][1..] == "'b'" && w[1..][1..][1..] == "b'";
    assert Unquote("b'", false) == None;
    assert Unquote("'b'", true) == None;
    assert Unquote("a'b'", true) == None;
    assert ShellValue(w) == None;
  }

  /** The FQDN option with its name cleaned like the other free-text
      fields. */
  function FqdnEntries(f: Fqdn): (r: seq<Entry>)
    ensures |r| == 4 && AllSafe(r)
    ensures r[3].key == "FQDNHOSTNAME" && r[3].value == f.name
  {
    [NumberEntry("FQDNFLAGS", f.flags),
     NumberEntry("FQDNRCODE1", f.r1),
     NumberEntry("FQDNRCODE2", f.r2),
     Entry("FQDNHOSTNAME", f.name, true)]
  }

  /** With the name cleaned every FQDN line reads back as its value,
      whatever the name holds. */
  lemma FqdnReadsBack(f: Fqdn)
    ensures var es := FqdnEntries(f);
            forall k :: 0 <= k < |es| ==> ValueOf(RenderAll(es)[k], es[k].key) == Some(es[k].value)
  {
    RenderAllReadsBack(FqdnEntries(f));
  }

  /** The lease's FQDN name, if any, holds no quote. */
  predicate FqdnQuoteFree(lease: Lease)
  {
    lease.fqdn.Some? ==> QuoteFree(lease.fqdn.value.name)
  }

  lemma AllSafeAppend(a: seq<Entry>, b: seq<Entry>)
    requires AllSafe(a) && AllSafe(b)
    ensures AllSafe(a + b)
  {
    assert forall i :: 0 <= i < |a + b| ==> (a + b)[i] == if i < |a| then a[i] else b[i - |a|];
  }

  lemma AllSafeSplit(a: seq<Entry>, b: seq<Entry>)
    requires AllSafe(a)
    ensures AllSafe(a + b) <==> AllSafe(b)
  {
    if AllSafe(b) {
      AllSafeAppend(a, b);
    }
    if AllSafe(a + b) {
      forall k | 0 <= k < |b|
        ensures Safe(b[k])
      {
        assert (a + b)[|a| + k] == b[k];
      }
    }
  }

  /** The entries for the lease's addresses, routes and names. */
  function LeaseEntries(lease: Lease): (r: seq<Entry>)
    ensures FqdnQuoteFree(lease) ==> AllSafe(r)
  {
    var a := AddressEntries(lease);
    var n := NameEntries(lease);
    var s := ServiceEntries(lease);
    if FqdnQuoteFree(lease) then
      AllSafeAppend(a, n);
      AllSafeAppend(a + n, s);
      a + n + s
    else a + n + s
  }

  function AddressEntries(lease: Lease): (r: seq<Entry>)
    ensures AllSafe(r)
  {
    var a := [AddrEntry("IPADDR", lease.address), AddrEntry("NETMASK", lease.netmask),
              AddrEntry("BROADCAST", lease.broadcast)];
    var m := if lease.mtu > 0 then [NumberEntry("MTU", lease.mtu)] else [];
    var r := if lease.routes != [] then [Entry("ROUTES", RouteList(lease.routes), false)] else [];
    AllSafeAppend(a, m);
    AllSafeAppend(a + m, r);
    a + m + r
  }

  /** An entry for a single address. */
  function AddrEntry(key: string, a: Addr): (e: Entry)
    ensures Safe(e) && e.key == key && e.value == Text.Ntoa(a)
  {
    Entry(key, Text.Ntoa(a), false)
  }

  /** An entry for a number, written in decimal. */
  function NumberEntry(key: string, n: nat): (e: Entry)
    ensures Safe(e) && e.key == key && e.value == Text.Dec(n)
  {
    DecQuoteFree(n);
    Entry(key, Text.Dec(n), false)
  }

  /** The name entries; the FQDN ones as written. */
  function NameEntries(lease: Lease): (r: seq<Entry>)
    ensures FqdnQuoteFree(lease) <==> AllSafe(r)
  {
    var h := Optional("HOSTNAME", lease.hostname);
    var d := Optional("DNSDOMAIN", lease.dnsDomain);
    var s := Optional("DNSSEARCH", lease.dnsSearch);
    var v := AddressEntry("DNSSERVERS", lease.dnsServers);
    var f := match lease.fqdn case Some(f) => FqdnEntriesAsWritten(f) case None => [];
    AllSafeAppend(h, d);
    AllSafeAppend(h + d, s);
    AllSafeAppend(h + d + s, v);
    AllSafeSplit(h + d + s + v, f);
    h + d + s + v + f
  }

  function ServiceEntries(lease: Lease): (r: seq<Entry>)
    ensures AllSafe(r)
  {
    var t := AddressEntry("NTPSERVERS", lease.ntpServers);
    var d := Optional("NISDOMAIN", lease.nisDomain);
    var n := AddressEntry("NISSERVERS", lease.nisServers);
    var p := Optional("ROOTPATH", lease.rootPath);
    AllSafeAppend(t, d);
    AllSafeAppend(t + d, n);
    AllSafeAppend(t + d + n, p);
    t + d + n + p
  }

  /** The entries for the server and the lease times. A NULL server name
      is cleaned to the empty text. */
  function ServerEntries(lease: Lease): (r: seq<Entry>)
    ensures AllSafe(r)
  {
    [AddrEntry("DHCPSID", lease.serverAddress),
     Entry("DHCPSNAME", if lease.serverName.Some? then lease.serverName.value else "", true),
     NumberEntry("LEASETIME", lease.leaseTime),
     NumberEntry("RENEWALTIME", lease.renewalTime),
     NumberEntry("REBINDTIME", lease.rebindTime)]
  }

  /** The entries for the interface and the client identity: the
      interface name is written as it is, the client id cleaned, or the
      hardware address when the client id is empty. */
  function InterfaceEntries(ifname: string, hwaddr: seq<u8>, opts: Options): (r: seq<Entry>)
    ensures |r| == 4 && r[0] == Entry("INTERFACE", ifname, false)
    ensures AllSafe(r[1..])
    ensures r[1].key == "CLASSID" && r[1].value == opts.classid
    ensures r[2].key == "CLIENTID" && (opts.clientid != "" ==> r[2].value == opts.clientid)
    ensures opts.clientid == "" ==> r[2].value == Text.HwaddrNtoa(hwaddr)
    ensures r[3].key == "DHCPCHADDR" && r[3].value == Text.HwaddrNtoa(hwaddr)
  {
    var hw := Text.HwaddrNtoa(hwaddr);
    [Entry("INTERFACE", ifname, false),
     Entry("CLASSID", opts.classid, true),
     if opts.clientid != "" then Entry("CLIENTID", opts.clientid, true) else Entry("CLIENTID", hw, false),
     Entry("DHCPCHADDR", hw, false)]
  }

  /** Every entry of the info file, in file order. */
  function InfoEntries(ifname: string, hwaddr: seq<u8>, lease: Lease, opts: Options): seq<Entry>
  {
    LeaseEntries(lease) + ServerEntries(lease) + InterfaceEntries(ifname, hwaddr, opts)
  }

  /** The lines of a list of entries. */
  function RenderAll(es: seq<Entry>): (lines: seq<string>)
    ensures |lines| == |es|
  {
    seq(|es|, k requires 0 <= k < |es| => Render(es[k]))
  }

  /** Lines of safe entries read back as the entries' values. */
  lemma RenderAllReadsBack(es: seq<Entry>)
    requires AllSafe(es)
    ensures forall k :: 0 <= k < |es| ==> ValueOf(RenderAll(es)[k], es[k].key) == Some(es[k].value)
  {
    forall k | 0 <= k < |es|
      ensures ValueOf(RenderAll(es)[k], es[k].key) == Some(es[k].value)
    {
      RenderReadsBack(es[k]);
    }
  }

  function InfoLines(ifname: string, hwaddr: seq<u8>, lease: Lease, opts: Options): seq<string>
  {
    RenderAll(InfoEntries(ifname, hwaddr, lease, opts))
  }

  /** `write_info`: None (-1) when the file cannot be opened, else its
      lines. */
  function WriteInfo(canOpen: bool, ifname: string, hwaddr: seq<u8>, lease: Lease, opts: Options)
    : (lines: Option<seq<string>>)
    ensures lines.Some? <==> canOpen
    ensures lines.Some? && QuoteFree(ifname) && FqdnQuoteFree(lease) ==>
              var es := InfoEntries(ifname, hwaddr, lease, opts);
              |lines.value| == |es| &&
              forall k :: 0 <= k < |es| ==> ValueOf(lines.value[k], es[k].key) == Some(es[k].value)
  {
    if canOpen then
      if QuoteFree(ifname) && FqdnQuoteFree(lease) then
        InfoReadsBack(ifname, hwaddr, lease, opts);
        Some(InfoLines(ifname, hwaddr, lease, opts))
      else Some(InfoLines(ifname, hwaddr, lease, opts))
    else None
  }

  /** Provided neither the interface name nor the FQDN name holds a
      quote, every line of the info file reads back as the value the lease
      (or the options) hold. */
  lemma InfoReadsBack(ifname: string, hwaddr: seq<u8>, lease: Lease, opts: Options)
    requires QuoteFree(ifname) && FqdnQuoteFree(lease)
    ensures var es := InfoEntries(ifname, hwaddr, lease, opts);
            forall k :: 0 <= k < |es| ==> ValueOf(InfoLines(ifname, hwaddr, lease, opts)[k], es[k].key) == Some(es[k].value)
  {
    InfoSafe(ifname, hwaddr, lease, opts);
    RenderAllReadsBack(InfoEntries(ifname, hwaddr, lease, opts));
  }

  /** Every entry is cleaned or quote-free when the interface name and the
      FQDN name are quote-free. */
  lemma InfoSafe(ifname: string, hwaddr: seq<u8>, lease: Lease, opts: Options)
    requires QuoteFree(ifname) && FqdnQuoteFree(lease)
    ensures AllSafe(InfoEntries(ifname, hwaddr, lease, opts))
  {
    var tail := InterfaceEntries(ifname, hwaddr, opts);
    assert tail == [tail[0]] + tail[1..];
    AllSafeAppend(LeaseEntries(lease), ServerEntries(lease));
    AllSafeAppend([tail[0]], tail[1..]);
    AllSafeAppend(LeaseEntries(lease) + ServerEntries(lease), tail);
  }
}
