/** `_make_ntp` and `make_ntp`: skip rewriting an NTP configuration that
    already names the lease's servers, otherwise rewrite it, and restart
    the time service whose file changed. */
module Ntp {
  import opened Types
  import Text
  import opened ConfigText

  /** An existing configuration file as `fopen(file, "r")` finds it. */
  datatype FileState = Missing | Unreadable | Present(lines: seq<string>)

  /** The `server` argument of `line` is the text of one of `servers`. */
  predicate MatchesServer(line: string, servers: seq<Addr>)
  {
    match KeywordArgument(line, "server")
    case Some(t) => t in Text.NtoaAll(servers)
    case None => false
  }

  /** The number of lines whose `server` argument is a lease server: the
      amount by which the check lowers its counter. */
  function Matches(lines: seq<string>, servers: seq<Addr>): (n: nat)
    ensures n <= |lines|
  {
    if lines == [] then 0
    else Matches(lines[..|lines| - 1], servers) + (if MatchesServer(lines[|lines| - 1], servers) then 1 else 0)
  }

  /** The file is taken as already configured when at least as many of its
      lines match as the lease has servers. */
  predicate Configured(lines: seq<string>, servers: seq<Addr>)
  {
    Matches(lines, servers) >= |servers|
  }

  lemma {:induction false} MatchesAppend(a: seq<string>, b: seq<string>, servers: seq<Addr>)
    ensures Matches(a + b, servers) == Matches(a, servers) + Matches(b, servers)
    decreases |b|
  {
    if b == [] {
      assert a + b == a;
    } else {
      assert (a + b)[..|a + b| - 1] == a + b[..|b| - 1];
      MatchesAppend(a, b[..|b| - 1], servers);
    }
  }

  /** With no lease servers no line matches. */
  lemma {:induction false} NoServersNoMatches(lines: seq<string>, servers: seq<Addr>)
    requires servers == []
    ensures Matches(lines, servers) == 0
  {
    if lines != [] {
      NoServersNoMatches(lines[..|lines| - 1], servers);
    }
  }

  lemma MatchesPrefix(lines: seq<string>, i: nat, servers: seq<Addr>)
    requires i <= |lines|
    ensures Matches(lines[..i], servers) <= Matches(lines, servers)
  {
    assert lines == lines[..i] + lines[i..];
    MatchesAppend(lines[..i], lines[i..], servers);
  }

  /** Adding one more line of the file adds its match, if any. */
  lemma MatchesStep(lines: seq<string>, i: nat, servers: seq<Addr>)
    requires i < |lines|
    ensures Matches(lines[..i + 1], servers) ==
              Matches(lines[..i], servers) + (if MatchesServer(lines[i], servers) then 1 else 0)
  {
    assert lines[..i + 1][..i] == lines[..i];
  }

  /** The inner loop over the lease servers: whether `token` is the text of
      one of them. */
  method FindServer(token: string, servers: seq<Addr>) returns (found: bool)
    ensures found <==> token in Text.NtoaAll(servers)
  {
    found := false;
    var j := 0;
    while j < |servers|
      invariant 0 <= j <= |servers|
      invariant token !in Text.NtoaAll(servers)[..j]
    {
      if token == Text.Ntoa(servers[j]) {
        assert Text.NtoaAll(servers)[j] == token;
        return true;
      }
      assert Text.NtoaAll(servers)[..j + 1] == Text.NtoaAll(servers)[..j] + [Text.Ntoa(servers[j])];
      j := j + 1;
    }
    assert Text.NtoaAll(servers)[..j] == Text.NtoaAll(servers);
  }

  /** The scan of the existing file: `tomatch` starts at the number of lease
      servers, drops by one for each `server` line naming one of them, and
      the scan stops as soon as it reaches 0 after a `server` line. */
  method CheckConfigured(lines: seq<string>, servers: seq<Addr>) returns (configured: bool)
    ensures configured <==> Configured(lines, servers)
  {
    var tomatch := 0;
    var k := 0;
    while k < |servers|
      invariant 0 <= k <= |servers| && tomatch == k
    {
      tomatch := tomatch + 1;
      k := k + 1;
    }
    var i := 0;
    var done := false;
    while i < |lines| && !done
      invariant 0 <= i <= |lines|
      invariant tomatch == |servers| - Matches(lines[..i], servers)
      invariant done ==> tomatch == 0
      invariant !done && |servers| > 0 ==> tomatch > 0
    {
      MatchesStep(lines, i, servers);
      var token := KeywordArgument(lines[i], "server");
      if token.Some? {
        var found := FindServer(token.value, servers);
        if found {
          tomatch := tomatch - 1;
        }
        if tomatch == 0 {
          done := true;
        }
      }
      i := i + 1;
    }
    MatchesPrefix(lines, i, servers);
    if !done {
      assert lines[..i] == lines;
      if servers == [] {
        NoServersNoMatches(lines, servers);
      }
    }
    configured := tomatch == 0;
  }

  /** The lines `_make_ntp` writes; `ntpStyle` when `file` is the ntpd
      configuration file, which also gets access restrictions and the drift
      and log files. */
  function NtpLines(build: Build, ifname: string, servers: seq<Addr>, ntpStyle: bool): seq<string>
  {
    NtpHead(ifname, ntpStyle) + ServerBlock(servers, ntpStyle) + NtpTail(build, ntpStyle)
  }

  function NtpHead(ifname: string, ntpStyle: bool): seq<string>
  {
    [Header(ifname)]
    + (if ntpStyle then [Line("restrict", "default noquery notrust nomodify"), Line("restrict", "127.0.0.1")] else [])
  }

  function NtpTail(build: Build, ntpStyle: bool): seq<string>
  {
    if ntpStyle then [Line("driftfile", build.ntpDriftFile), Line("logfile", build.ntpLogFile)] else []
  }

  /** One `server` line per lease server, each after its `restrict` line in
      the ntpd style. */
  function ServerBlock(servers: seq<Addr>, ntpStyle: bool): seq<string>
  {
    if servers == [] then []
    else
      (if ntpStyle then [Line("restrict", Text.Ntoa(servers[0]) + " nomodify notrap noquery")] else [])
      + [AddressLine("server", servers[0])]
      + ServerBlock(servers[1..], ntpStyle)
  }

  lemma NoMatch(word: string, arg: string, servers: seq<Addr>)
    requires forall i :: 0 <= i < |word| ==> word[i] != ' '
    requires word != "server"
    ensures Matches([Line(word, arg)], servers) == 0
  {
    OtherKeyword(word, arg, "server");
    assert [Line(word, arg)][..0] == [];
  }

  /** Each `server` line of a block counts once when its servers are among
      the lease's. */
  lemma {:induction false} ServerBlockMatches(sub: seq<Addr>, ntpStyle: bool, servers: seq<Addr>)
    requires forall k :: 0 <= k < |sub| ==> sub[k] in servers
    ensures Matches(ServerBlock(sub, ntpStyle), servers) == |sub|
  {
    if sub != [] {
      var a := sub[0];
      var restrict := if ntpStyle then [Line("restrict", Text.Ntoa(a) + " nomodify notrap noquery")] else [];
      var line := AddressLine("server", a);
      assert ServerBlock(sub, ntpStyle) == restrict + [line] + ServerBlock(sub[1..], ntpStyle);
      MatchesAppend(restrict + [line], ServerBlock(sub[1..], ntpStyle), servers);
      MatchesAppend(restrict, [line], servers);
      if ntpStyle {
        NoMatch("restrict", Text.Ntoa(a) + " nomodify notrap noquery", servers);
      }
      ServerLineMatches(a, servers);
      ServerBlockMatches(sub[1..], ntpStyle, servers);
    }
  }

  /** The `server` line of a lease server matches. */
  lemma ServerLineMatches(a: Addr, servers: seq<Addr>)
    requires a in servers
    ensures Matches([AddressLine("server", a)], servers) == 1
  {
    var line := AddressLine("server", a);
    Text.NtoaToken(a);
    KeywordLineReadsBack("server", Text.Ntoa(a));
    var k :| 0 <= k < |servers| && servers[k] == a;
    assert Text.NtoaAll(servers)[k] == Text.Ntoa(a);
    assert MatchesServer(line, servers);
    assert [line][..0] == [];
  }

  /** Writing the lease's servers and then checking the written file finds
      it configured: a second pass with the same servers does not rewrite. */
  lemma RewriteIsConfigured(build: Build, ifname: string, servers: seq<Addr>, ntpStyle: bool)
    ensures Configured(NtpLines(build, ifname, servers, ntpStyle), servers)
  {
    var head := NtpHead(ifname, ntpStyle);
    var block := ServerBlock(servers, ntpStyle);
    MatchesAppend(head + block, NtpTail(build, ntpStyle), servers);
    MatchesAppend(head, block, servers);
    HeadNoMatch(ifname, ntpStyle, servers);
    TailNoMatch(build, ntpStyle, servers);
    ServerBlockMatches(servers, ntpStyle, servers);
  }

  lemma HeadNoMatch(ifname: string, ntpStyle: bool, servers: seq<Addr>)
    ensures Matches(NtpHead(ifname, ntpStyle), servers) == 0
  {
    var head := [Header(ifname)];
    HeaderIsNoKeyword(ifname, "server");
    assert head[..0] == [];
    if ntpStyle {
      PairNoMatch("restrict", "default noquery notrust nomodify", "restrict", "127.0.0.1", servers);
      MatchesAppend(head, [Line("restrict", "default noquery notrust nomodify"), Line("restrict", "127.0.0.1")], servers);
    } else {
      assert NtpHead(ifname, ntpStyle) == head;
    }
  }

  lemma TailNoMatch(build: Build, ntpStyle: bool, servers: seq<Addr>)
    ensures Matches(NtpTail(build, ntpStyle), servers) == 0
  {
    if ntpStyle {
      PairNoMatch("driftfile", build.ntpDriftFile, "logfile", build.ntpLogFile, servers);
    }
  }

  lemma PairNoMatch(w1: string, a1: string, w2: string, a2: string, servers: seq<Addr>)
    requires forall i :: 0 <= i < |w1| ==> w1[i] != ' '
    requires forall i :: 0 <= i < |w2| ==> w2[i] != ' '
    requires w1 != "server" && w2 != "server"
    ensures Matches([Line(w1, a1), Line(w2, a2)], servers) == 0
  {
    NoMatch(w1, a1, servers);
    NoMatch(w2, a2, servers);
    MatchesAppend([Line(w1, a1)], [Line(w2, a2)], servers);
    assert [Line(w1, a1), Line(w2, a2)] == [Line(w1, a1)] + [Line(w2, a2)];
  }

  /** The check counts matching lines, not distinct servers: a file that
      repeats the line of one server is taken as configured for a lease
      with that server and any other. */
  lemma RepeatedLineCounts(a: Addr, b: Addr)
    ensures Configured([AddressLine("server", a), AddressLine("server", a)], [a, b])
  {
    var line := AddressLine("server", a);
    Text.NtoaToken(a);
    KeywordLineReadsBack("server", Text.Ntoa(a));
    assert Text.NtoaAll([a, b])[0] == Text.Ntoa(a);
    assert MatchesServer(line, [a, b]);
    assert [line, line][..1] == [line];
    assert [line][..0] == [];
  }

  /** Whether `_make_ntp` rewrites a file in the given state (its result
      is 1). */
  predicate Rewrites(existing: FileState, writable: bool, servers: seq<Addr>)
  {
    !existing.Unreadable? && !(existing.Present? && Configured(existing.lines, servers)) && writable
  }

  /** `_make_ntp(file, ifname, dhcp)`: -1 when the file cannot be read (for
      a reason other than not existing) or cannot be written, 0 when it is
      already configured, else 1 with the lines written. */
  method MakeNtpFile(build: Build, file: string, existing: FileState, writable: bool,
                     ifname: string, servers: seq<Addr>) returns (rc: int, written: Option<seq<string>>)
    ensures rc == 0 <==> existing.Present? && Configured(existing.lines, servers)
    ensures rc == 1 <==> Rewrites(existing, writable, servers)
    ensures rc == -1 || rc == 0 || rc == 1
    ensures written.Some? <==> rc == 1
    ensures written.Some? ==> written.value == NtpLines(build, ifname, servers, build.ntpFile == Some(file))
    ensures written.Some? ==> Configured(written.value, servers)
  {
    if existing.Unreadable? {
      return -1, None;
    }
    if existing.Present? {
      var configured := CheckConfigured(existing.lines, servers);
      if configured {
        return 0, None;
      }
    }
    if !writable {
      return -1, None;
    }
    var ntpStyle := build.ntpFile == Some(file);
    written := Some(NtpLines(build, ifname, servers, ntpStyle));
    RewriteIsConfigured(build, ifname, servers, ntpStyle);
    rc := 1;
  }

  /** The lines `_make_ntp` writes to `file`, if the build names it and
      the file is rewritten. */
  function NtpWrite(build: Build, file: Option<string>, ifname: string, servers: seq<Addr>,
                    existing: FileState, writable: bool): (w: Option<seq<string>>)
    ensures w.Some? <==> file.Some? && Rewrites(existing, writable, servers)
    ensures w.Some? ==> Configured(w.value, servers)
  {
    if file.Some? && Rewrites(existing, writable, servers) then
      RewriteIsConfigured(build, ifname, servers, build.ntpFile == file);
      Some(NtpLines(build, ifname, servers, build.ntpFile == file))
    else None
  }

  /** Which services `make_ntp` restarts. */
  datatype Restarts = Restarts(ntp: bool, openntp: bool)

  /** The restart gating of `make_ntp`: ntpd's service is restarted when its
      file changed; OpenNTPD's when its file changed, unless both names are
      the same service and that service is already being restarted. */
  function NtpRestarts(build: Build, ntpChanged: bool, openChanged: bool): (r: Restarts)
    ensures r.ntp <==> build.ntpService.Some? && ntpChanged
    ensures r.openntp ==> build.openNtpService.Some? && openChanged
    ensures r.ntp && r.openntp ==> build.ntpService.value.program != build.openNtpService.value.program
    ensures build.openNtpService.Some? && openChanged && !r.openntp ==>
              r.ntp && build.ntpService.value.program == build.openNtpService.value.program
  {
    var ntp := build.ntpService.Some? && ntpChanged;
    var openntp :=
      if build.ntpService.Some? && build.openNtpService.Some? then
        openChanged && (build.ntpService.value.program != build.openNtpService.value.program || !ntpChanged)
      else
        build.openNtpService.Some? && openChanged;
    Restarts(ntp, openntp)
  }

  /** The restart commands, as `exec_cmd(service, restart-args, NULL)`. */
  function RestartArgvs(build: Build, r: Restarts): seq<seq<string>>
    requires r.ntp ==> build.ntpService.Some?
    requires r.openntp ==> build.openNtpService.Some?
  {
    (if r.ntp then [[build.ntpService.value.program, build.ntpService.value.restartArgs]] else [])
    + (if r.openntp then [[build.openNtpService.value.program, build.openNtpService.value.restartArgs]] else [])
  }

  /** `make_ntp`: write both configuration files the build names and restart
      the services whose file was rewritten. */
  method MakeNtp(build: Build, ifname: string, servers: seq<Addr>,
                 ntpExisting: FileState, ntpWritable: bool,
                 openExisting: FileState, openWritable: bool)
    returns (restarts: Restarts, ntpWritten: Option<seq<string>>, openWritten: Option<seq<string>>)
    ensures restarts == NtpRestarts(build,
                                    build.ntpFile.Some? && Rewrites(ntpExisting, ntpWritable, servers),
                                    build.openNtpFile.Some? && Rewrites(openExisting, openWritable, servers))
    ensures ntpWritten == NtpWrite(build, build.ntpFile, ifname, servers, ntpExisting, ntpWritable)
    ensures openWritten == NtpWrite(build, build.openNtpFile, ifname, servers, openExisting, openWritable)
    ensures ntpWritten.Some? ==> Configured(ntpWritten.value, servers)
    ensures openWritten.Some? ==> Configured(openWritten.value, servers)
  {
    var restartNtp, restartOpen := false, false;
    ntpWritten, openWritten := None, None;
    if build.ntpFile.Some? {
      var rc;
      rc, ntpWritten := MakeNtpFile(build, build.ntpFile.value, ntpExisting, ntpWritable, ifname, servers);
      restartNtp := rc > 0;
    }
    if build.openNtpFile.Some? {
      var rc;
      rc, openWritten := MakeNtpFile(build, build.openNtpFile.value, openExisting, openWritable, ifname, servers);
      restartOpen := rc > 0;
    }
    restarts := NtpRestarts(build, restartNtp, restartOpen);
  }
}
