/** `make_resolv` and `restore_resolv`: the resolver configuration written
    for a lease, and where it goes. */
module Resolv {
  import opened Types
  import Text
  import opened ConfigText

  /** The domain the `search` line names: the search list when the lease
      has one, else the domain name. */
  function SearchDomain(lease: Lease): (d: Option<string>)
    ensures lease.dnsSearch.Some? ==> d == lease.dnsSearch
    ensures lease.dnsSearch.None? ==> d == lease.dnsDomain
  {
    if lease.dnsSearch.Some? then lease.dnsSearch else lease.dnsDomain
  }

  /** The lines `make_resolv` writes. */
  function ResolvLines(ifname: string, lease: Lease): seq<string>
  {
    [Header(ifname)] + SearchLines(lease) + AddressLines("nameserver", lease.dnsServers)
  }

  /** The `search` line, when there is a search domain. */
  function SearchLines(lease: Lease): (r: seq<string>)
    ensures |r| <= 1
  {
    match SearchDomain(lease)
    case Some(d) => [Line("search", d)]
    case None => []
  }

  lemma HeaderHasNoArguments(ifname: string, keyword: string)
    requires |keyword| > 0 && keyword[0] != '#'
    ensures Arguments([Header(ifname)], keyword) == []
  {
    HeaderIsNoKeyword(ifname, keyword);
  }

  lemma SearchHasNoNameserver(lease: Lease)
    ensures Arguments(SearchLines(lease), "nameserver") == []
  {
    if SearchDomain(lease).Some? {
      OtherKeyword("search", SearchDomain(lease).value, "nameserver");
    }
  }

  /** The `nameserver` lines of the file read back as the lease's DNS
      servers, in the lease's order, whatever the search domain holds. */
  lemma ResolvNameservers(ifname: string, lease: Lease)
    ensures Arguments(ResolvLines(ifname, lease), "nameserver") == Text.NtoaAll(lease.dnsServers)
  {
    var search := SearchLines(lease);
    ArgumentsAppend([Header(ifname)] + search, AddressLines("nameserver", lease.dnsServers), "nameserver");
    ArgumentsAppend([Header(ifname)], search, "nameserver");
    HeaderHasNoArguments(ifname, "nameserver");
    SearchHasNoNameserver(lease);
    AddressLinesReadBack("nameserver", lease.dnsServers);
  }

  /** Whatever the search text holds, the file's second line is
      `search <text>` written verbatim, and the nameserver lines follow. */
  lemma ResolvSearchLine(ifname: string, lease: Lease)
    requires SearchDomain(lease).Some?
    ensures var lines := ResolvLines(ifname, lease);
            |lines| == 2 + |lease.dnsServers| && lines[1] == "search " + SearchDomain(lease).value + "\n"
  {
  }

  /** A search text without blanks or newlines reads back from the only
      `search` line; with neither search list nor domain there is no
      `search` line. */
  lemma ResolvSearch(ifname: string, lease: Lease)
    requires SearchDomain(lease).Some? ==> OneField(SearchDomain(lease).value)
    ensures Arguments(ResolvLines(ifname, lease), "search") ==
              (match SearchDomain(lease) case Some(d) => [d] case None => [])
  {
    SearchArguments(ifname, lease);
    if SearchDomain(lease).Some? {
      SearchLineReadsBack(SearchDomain(lease).value, SearchDomain(lease).value);
    }
  }

  /** A search list of several domains separated by blanks reads back
      through `strsep` as its first domain only. */
  lemma SearchListFirstDomain(ifname: string, lease: Lease, first: string, others: string)
    requires SearchDomain(lease) == Some(first + " " + others) && OneField(first)
    ensures Arguments(ResolvLines(ifname, lease), "search") == [first]
  {
    SearchArguments(ifname, lease);
    SearchLineReadsBack(first + " " + others, first);
  }

  /** The `search` arguments of the file are those of its search lines. */
  lemma SearchArguments(ifname: string, lease: Lease)
    ensures Arguments(ResolvLines(ifname, lease), "search") == Arguments(SearchLines(lease), "search")
  {
    var head := [Header(ifname)];
    var servers := AddressLines("nameserver", lease.dnsServers);
    HeaderHasNoArguments(ifname, "search");
    NoOtherKeywordLines(lease.dnsServers);
    var search := SearchLines(lease);
    ArgumentsAppend(head + search, servers, "search");
    ArgumentsAppend(head, search, "search");
  }

  /** The `search` line of `d` reads back as `d` up to its first blank or
      newline, here `w`. */
  lemma SearchLineReadsBack(d: string, w: string)
    requires OneField(w) && |w| <= |d| && d[..|w|] == w && (|w| < |d| ==> d[|w|] == ' ')
    ensures Arguments([Line("search", d)], "search") == [w]
  {
    var line := Line("search", d);
    FieldEndAt(line, false, 6);
    assert line[..6] == "search";
    var rest := line[7..];
    assert rest == d + "\n";
    FieldEndAt(rest, true, |w|);
    assert rest[..|w|] == w;
    var lines := [line];
    assert lines[1..] == [];
    assert KeywordArgument(lines[0], "search") == Some(w);
  }

  lemma {:induction false} NoOtherKeywordLines(addrs: seq<Addr>)
    ensures Arguments(AddressLines("nameserver", addrs), "search") == []
  {
    if addrs != [] {
      OtherKeyword("nameserver", Text.Ntoa(addrs[0]), "search");
      NoOtherKeywordLines(addrs[1..]);
    }
  }

  /** Where `make_resolv` sends its lines: to `resolvconf -a <ifname>`
      through a pipe when that program is configured and present, else to
      the resolver file. */
  datatype Target = Pipe(command: string) | File(path: string)

  function ResolvTarget(build: Build, resolvconfPresent: bool, ifname: string): (t: Target)
    ensures t.Pipe? <==> build.resolvconf.Some? && resolvconfPresent
    ensures t.File? ==> t.path == build.resolvFile
  {
    if build.resolvconf.Some? && resolvconfPresent
    then Pipe(build.resolvconf.value + " -a " + ifname)
    else File(build.resolvFile)
  }

  /** `make_resolv`: -1 when the pipe or file cannot be opened, else 0 and
      the lines written to the target. */
  datatype ResolvResult = ResolvResult(rc: int, target: Target, lines: Option<seq<string>>)

  function MakeResolv(build: Build, resolvconfPresent: bool, canOpen: bool,
                      ifname: string, lease: Lease): (r: ResolvResult)
    ensures r.rc == 0 <==> canOpen
    ensures r.rc == -1 <==> !canOpen
    ensures r.lines.Some? <==> canOpen
    ensures r.lines.Some? ==> Arguments(r.lines.value, "nameserver") == Text.NtoaAll(lease.dnsServers)
  {
    var target := ResolvTarget(build, resolvconfPresent, ifname);
    if canOpen then
      ResolvNameservers(ifname, lease);
      ResolvResult(0, target, Some(ResolvLines(ifname, lease)))
    else ResolvResult(-1, target, None)
  }

  /** `restore_resolv`: `resolvconf -d <ifname>` when resolvconf is
      configured and present, else nothing. */
  function RestoreResolvArgv(build: Build, resolvconfPresent: bool, ifname: string): (argv: Option<seq<string>>)
    ensures argv.Some? <==> build.resolvconf.Some? && resolvconfPresent
    ensures argv.Some? ==> argv.value == [build.resolvconf.value, "-d", ifname]
  {
    if build.resolvconf.Some? && resolvconfPresent
    then Some([build.resolvconf.value, "-d", ifname])
    else None
  }
}
