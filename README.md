# dhcpcd `configure` in Dafny

This project models `configure.c` of dhcpcd, a DHCP client daemon. `configure` applies
a DHCP lease to one network interface. It compares the interface's
last-applied state with the new lease and makes the system calls in a fixed
order:

- delete the routes it installed for the previous lease;
- on a lease without an address, tear down: restore the MTU, delete the
  address, remove resolver information, run the hook with `down`;
- otherwise set the MTU, add the new address (the one step that can abort
  the pass), delete the old address, move the Linux subnet route to the
  configured metric, and install the lease's routes while recording which
  of them it now owns;
- then write the resolver, NTP, NIS and info files, set the hostname, and
  run the hook with `new` or `up`.

The project is organised as follows.

- `Reconcile.Interface` (interface.dfy) is a class. Its fields are the
  `interface_t` fields that `configure` updates in place: `previousAddress`,
  `previousNetmask`, `previousMtu` and `previousRoutes`.
- Its method `Configure` follows the source step by step: loops over the
  previous and the new routes, and one method per block. The info file is
  written as the code writes it, FQDN name uncleaned included.
- Every system call, command, file and hostname it produces is appended to a
  ghost `trace`.
- The results of the address, route and MTU primitives come from an oracle
  `Env.os`. Those primitives live in files that are not part of this model.
- `ReconcileSpec.ConfigureSpec` (reconcile_spec.dfy) is the same behaviour
  written as a function of the old state, the lease and the environment. It
  returns the return code, the new state and the action list.
- `Configure`'s postcondition ties the method to that function.
- The properties of `configure` are lemmas about `ConfigureSpec` in
  `ReconcileProps` (reconcile_props.dfy). They cover:
  - which old routes are deleted;
  - lease loss;
  - MTU convergence;
  - the add-before-delete order and the abort point;
  - the subnet-route move;
  - the owned-route list;
  - the `new`/`up` classification;
  - what a second identical pass does.

The helpers around `configure` have their own modules:

- `ShellQuote` models `cleanmetas`, the escaping of free text for single
  quotes (POSIX.1-2017 XCU section 2.2.2). It has a class over the static
  1024-byte buffer and a strict reader of shell single-quote words, which
  the round-trip lemmas use.
- `Exec` models `exec_cmd`'s argument vector and `exec_script`'s skip rules.
- `ConfigText` models the lines of the generated files and the `strsep`
  reading of a `keyword argument` line.
- `Resolv` models `make_resolv` and `restore_resolv`.
- `Ntp` models the "already configured" scan, the writer and the restart
  gating of `_make_ntp` and `make_ntp`.
- `Nis` models `make_nis`.
- `Info` models `write_info`: the `KEY='value'` lines. They read back as
  the lease's values when neither the interface name nor the FQDN name
  holds a single quote; the FQDN name is written without `cleanmetas`
  (configure.c:439, see Findings).
- `Hostname` models the reverse-lookup cut and the rule for setting the
  hostname.

Compile-time switches become fields of `Types.Build`. These include
`ENABLE_INFO`, `ENABLE_NTP`, `ENABLE_NIS`, `__linux__`, `RESOLVCONF`, the
NTP files and services, and `HOSTNAME_MAX_LEN`. `Env` supplies:

- the existence of files and whether they open;
- the reverse-lookup name;
- the current hostname.

Behaviour of the code worth knowing:

- `add_address` is called on every pass with an address, including a second
  identical pass (configure.c:576). Only `set_mtu` and `del_address` are
  skipped then (`ReconcileProps.MtuConvergence`,
  `ReconcileProps.SecondPassIsUp`).
- Every lease route is added, also one that was already owned
  (configure.c:606-615). Routes are not limited to the new ones.
- An old route that is also in the new lease is never deleted while the
  lease has an address, whatever the address change.
- A route whose addition fails is remembered only when it was owned before
  (configure.c:618-629). This holds whether the failure was "already
  exists" or another error. A route that was not owned before is not
  remembered.
- When the lease has no routes, the owned-route list is kept, although its
  gated routes were just deleted. The next pass deletes them again
  (`ReconcileProps.SecondPassRepeatsDeletion`).
- The NTP check counts matching lines, not distinct servers
  (`Ntp.RepeatedLineCounts`).
- The `down` hook, the resolver restore and the address deletion on lease
  loss happen only when an address was configured (configure.c:545).
- In a build without the info file, the hook gets an extra empty argument
  (configure.c:115). With no info file path it gets no arguments at all,
  since `exec_cmd` stops at the first NULL.

## Model

| member | source | states |
|---|---|---|
| Reconcile.HasRoute | configure.c:514-521 | the loop that compares destination, netmask and gateway finds a route exactly when a structurally equal route is in the list |
| Reconcile.Interface.Call | configure.c:576-577 | a primitive call returns the system's result and is appended to the trace |
| Reconcile.Interface.Configure | configure.c:489-718 | the return code, the new interface state and the trace extension are exactly those of `ConfigureSpec` for the old state, lease and environment |
| Reconcile.Interface.RemoveStaleRoutes | configure.c:507-526 | the loop appends, in order, one `del_route` with the option metric for each previous route that is gated and not in the lease (no route is kept when the lease has no address) |
| Reconcile.Interface.LoseLease | configure.c:528-558 | with address 0: owned routes cleared; the interface MTU restored and recorded when it is known and differs; the address deleted and zeroed, then `down`, only when one was set |
| Reconcile.Interface.Unconfigure | configure.c:545-556 | deletes the previous address, zeroes address and netmask, restores the resolver, runs `down` |
| Reconcile.Interface.ApplyLease | configure.c:560-718 | the pass for a lease with an address equals `Apply`: MTU step, `add_address`, and on a failure other than EEXIST -1 with only the MTU possibly recorded |
| Reconcile.Interface.SetMtuStep | configure.c:563-574 | `set_mtu` is called with the lease MTU (or the interface's own) only when `domtu` is set and it differs from the recorded one; it is recorded only when the call succeeds |
| Reconcile.Interface.FinishLease | configure.c:580-715 | after a successful `add_address` the state holds the lease address and netmask and the owned routes, and the trace the address, route, service and hook steps in order |
| Reconcile.Interface.ReplaceAddress | configure.c:580-598 | deletes the old address only when set and different; on Linux, with a metric and a netmask other than all-ones, adds the subnet route with the metric and then deletes it with metric 0 |
| Reconcile.Interface.RememberRoutes | configure.c:600-651 | the loop adds every installable lease route in order, and the new owned list is `OwnedRoutes` of the lease routes |
| Reconcile.Interface.InstallRoute | configure.c:608-628 | a 0/0 route is skipped without `gateway`; otherwise `add_route` is called, and the route is remembered iff it succeeded or was owned before |
| Reconcile.Interface.ConfigureServices | configure.c:653-703 | resolver, NTP, NIS, hostname and info steps in this order, each under its own condition |
| Reconcile.Interface.NtpStep | configure.c:658-661 | `make_ntp` runs only when built in, asked for and the lease has NTP servers |
| Reconcile.Interface.NisStep | configure.c:663-666 | `make_nis` runs only when built in, asked for and the lease has a NIS domain or servers; its restart follows |
| Reconcile.Interface.ChooseHostname | configure.c:668-699 | the name set, if any, is `NewHostname` of the options, lease, reverse lookup and current name |
| Reconcile.Interface.RunHook | configure.c:705-715 | the lease address and netmask are recorded and the hook runs `new` when either changed, else `up` |
| Reconcile.Interface.RestoreResolv | configure.c:169-180 | runs `resolvconf -d <ifname>` only when resolvconf is configured and present |
| Reconcile.Interface.RunScript | configure.c:90-117 | runs the command `exec_script` would start, if any |
| ReconcileSpec.StaleRoutes | configure.c:507-526 | a route is deleted iff it was owned, is gated (destination non-zero or `dogateway`) and the lease has no address or lacks the route |
| ReconcileSpec.LossMtu | configure.c:537-542 | on lease loss the recorded MTU becomes the interface's own when that is known (non-zero), and stays what it was when it is 0 |
| ReconcileSpec.ScriptActions | configure.c:90-117 | at most one command, present iff `exec_script` starts one |
| ReconcileSpec.MtuAfter | configure.c:569-573 | the recorded MTU changes only to the target and only when `domtu` is set and `set_mtu` succeeded |
| ReconcileSpec.SubnetRoute | configure.c:590-595 | the subnet route has the lease netmask, no gateway, and destination `And(address, netmask)`, the bitwise and (`Types.AndBit`) |
| Types.AndBit | configure.c:594 | `And` is the bitwise and of `s_addr & s_addr`: bit k of the result is set iff it is set in both operands |
| ReconcileSpec.RouteAdds | configure.c:606-615 | every `add_route` is for a lease route with the option metric, at most one per lease route |
| ReconcileSpec.RouteAddsMember | configure.c:606-615 | `add_route(r, m)` is among the additions iff r is a lease route, is not a 0/0 route skipped for lack of `dogateway`, and m is the option metric |
| ReconcileSpec.OwnedRoutes | configure.c:601-645 | a route is owned afterwards iff it is a lease route, installable, and its addition succeeded or it was owned before |
| ReconcileSpec.OwnedRoutesInOrder | configure.c:629-644 | the owned routes keep the lease's order (a subsequence) |
| ReconcileSpec.OwnedRoutesAgree | configure.c:618-627 | the old owned list matters only for lease routes whose addition failed |
| ReconcileSpec.ResolvActions | configure.c:653-656 | the resolver is written iff `dodns` and the lease has DNS servers |
| ReconcileSpec.NtpActions | configure.c:658-661 | NTP actions happen iff built in, `dontp` and NTP servers |
| ReconcileSpec.NisActions | configure.c:663-666 | NIS actions happen iff built in, `donis` and a NIS domain or servers |
| ReconcileSpec.InfoActions | configure.c:701-703 | the info file is written iff the build has it |
| ReconcileSpec.Services | configure.c:653-703 | the service steps make no address, route or MTU call |
| ReconcileProps.OldRouteDeletion | configure.c:507-526 | `del_route(r, option metric)` is issued iff r was owned, is gated (destination non-zero or `dogateway`), and the lease has no address or does not contain r |
| ReconcileProps.StaleDeletedOnLoss | configure.c:507-526 | with address 0 every gated owned route is deleted |
| ReconcileProps.StaleDeletedOnApply | configure.c:507-526 | with an address the deletions are exactly the stale routes, whatever later steps do |
| ReconcileProps.DefaultRouteKept | configure.c:510 | a route with destination 0 is never deleted without `dogateway` |
| ReconcileProps.LeaseLossState | configure.c:529-557 | lease loss returns 0, empties the owned routes, zeroes the address, zeroes the netmask if an address was set, records the interface's own MTU when known |
| ReconcileProps.LeaseLossMtuCall | configure.c:537-542 | on lease loss `set_mtu(iface mtu)` is issued iff it is known and differs from the recorded one |
| ReconcileProps.LeaseLossUnconfigures | configure.c:545-556 | with a previous address, lease loss deletes it and ends with the `down` hook |
| ReconcileProps.LossEndsWithDown | configure.c:552-555 | the teardown's last action is the `down` hook |
| ReconcileProps.LeaseLossTeardown | configure.c:545-556 | with a previous address, lease loss ends with: `del_address(previous)`, then `resolvconf -d <ifname>` exactly when resolvconf is configured and present (configure.c:169-180), then the `down` hook |
| ReconcileProps.LeaseLossWithoutAddress | configure.c:529-557 | without a previous address, lease loss only deletes routes and restores the MTU |
| ReconcileProps.LeaseLossAddsNothing | configure.c:529-557 | lease loss adds no address and no route |
| ReconcileProps.MtuCall | configure.c:563-574 | with an address, `set_mtu(m)` is issued iff `domtu`, m is the target (the lease MTU when non-zero, else the interface's own) and differs from the recorded MTU |
| ReconcileProps.MtuRecorded | configure.c:569-573 | the recorded MTU becomes the target iff `domtu` and `set_mtu(target)` succeeds, else stays |
| ReconcileProps.MtuConvergence | configure.c:563-574 | on a repeated identical pass `set_mtu` is issued only if it failed, and the recorded MTU does not change |
| ReconcileProps.MtuAfterStable | configure.c:569-573 | the MTU step applied to its own result changes nothing |
| ReconcileProps.AddBeforeDelete | configure.c:576-583 | every `del_address` in the pass comes after the `add_address` of the lease |
| ReconcileProps.AddressDeletion | configure.c:576-583 | `del_address(a, n)` is issued iff (a, n) is the previous address, it is non-zero and different, and `add_address` did not fail |
| ReconcileProps.AfterDelAddress | configure.c:580-583 | after the address is added, the only address deletion is of the previous, different, non-zero address |
| ReconcileProps.AbortOnFailure | configure.c:576-578 | a failure other than EEXIST returns -1, `add_address` is the last action, and address, netmask and routes are unchanged |
| ReconcileProps.AbortTouchesNothing | configure.c:576-578 | an aborted pass deletes no address and adds no route |
| ReconcileProps.StateOnSuccess | configure.c:563-715 | after a successful `add_address` the state holds the lease address and netmask, `MtuAfter` and `RoutesAfter` |
| ReconcileProps.AfterDelRoute | configure.c:585-597 | after the address is added, the only route deletion is the metric-0 subnet route of a changed address |
| ReconcileProps.AfterSubnetDelete | configure.c:594-596 | when the subnet route is moved, its metric-0 deletion is issued |
| ReconcileProps.AfterMetricZeroDelete | configure.c:585-597 | after the address is added, `del_route(r, 0)` is issued iff r is the subnet route and the move applies |
| ReconcileProps.SubnetRouteMoved | configure.c:585-597 | with a metric, `del_route(r, 0)` is issued iff r is the lease's subnet route, on Linux, for a changed address and a netmask other than all-ones, and `add_address` did not fail |
| ReconcileProps.AfterAddRoute | configure.c:585-615 | after the address is added, `add_route(r, m)` is issued iff m is the option metric and r is an installable lease route or the subnet route being moved |
| ReconcileProps.RouteAddition | configure.c:576-615 | with an address, `add_route(r, m)` is issued iff `add_address` did not fail, m is the option metric, and r is an installable lease route or the moved subnet route |
| ReconcileProps.OwnedRoutesRule | configure.c:600-651 | without lease routes the owned list is unchanged; with them it is an order-preserving subsequence of the lease routes containing exactly the installable ones that were added or owned before |
| ReconcileProps.RoutesAfterStable | configure.c:600-651 | recomputing the owned list from its own result gives it back |
| ReconcileProps.TransitionKind | configure.c:705-715 | a successful pass ends with the hook `new` when the address or the netmask differs from the recorded one, else `up`, and afterwards the state classifies as `up` |
| ReconcileProps.SecondPassFixpoint | configure.c:489-718 | a second identical pass returns 0 and leaves the state exactly as the first left it |
| ReconcileProps.SecondPassIsUp | configure.c:705-715 | a second identical pass ends with `up` and deletes no address |
| ReconcileProps.SecondPassKeepsRoutes | configure.c:507-526 | a second identical pass with lease routes deletes no route at all |
| ReconcileProps.SecondPassRepeatsDeletion | configure.c:507-526 | a second pass with a routeless lease deletes again every gated route owned before the first |
| ShellQuote.MetaBuffer.constructor | configure.c:354 | the static buffer has 1024 characters |
| ShellQuote.MetaBuffer.Clean | configure.c:350-377 | the buffer holds the escaped text and then a NUL, or just a NUL for a NULL or empty input, with no NUL inside |
| ShellQuote.MetaBuffer.Put | configure.c:362-370 | writes the characters of one input character's escape after what is already there |
| ShellQuote.EscapeLength | configure.c:361-371 | the escaped length is the input length plus 3 per quote |
| ShellQuote.EscapeAppend | configure.c:361-371 | escaping is character by character: the escape of a concatenation is the concatenation of the escapes |
| ShellQuote.EscapeQuoteFree | configure.c:369-370 | text without quotes is copied unchanged |
| ShellQuote.EscapeNoNul | configure.c:361-373 | escaping adds no NUL, so the C string ends at the end of the escaped text |
| ShellQuote.EscapeFitsBuffer | configure.c:352-354 | an option of at most 255 bytes, escaped and terminated, fits the 1024-byte buffer |
| ShellQuote.EscapeReadsBack | configure.c:362-368 | inside an open quote, the escaped text and a closing quote read back as the original |
| ShellQuote.QuotedValueReadsBack | configure.c:362-368 | `'<escaped>'` is read by a shell as exactly the original text, quotes included |
| ShellQuote.EscapeInjective | configure.c:361-371 | different texts have different escapes |
| Exec.ArgvSlotsAsWritten | configure.c:56-74 | as written, |rest| + 2 slots are reserved and |rest| + 3 are written |
| Exec.BuildArgv | configure.c:51-75 | with n + 2 slots the vector holds cmd, args, the rest and a closing NULL; `execv` sees it up to the first NULL: `cmd` alone when `args` is NULL, else `cmd`, `args` and the rest |
| Exec.ScriptArgv | configure.c:90-117 | a command is started iff a script is set, exists, and (with the info file built in) an info file is set; it starts with the script; with an info file its second argument is that file and its last the kind, with an empty argument between them in a build without the info file; without an info file the kind is lost |
| ConfigText.FieldEnd | configure.c:212-216 | `strsep` cuts at the first blank (or newline) |
| ConfigText.KeywordLineReadsBack | configure.c:209-217 | a `keyword argument` line with a one-word argument reads back as that argument |
| ConfigText.OtherKeyword | configure.c:212-214 | a line whose first word is another word is not a `keyword` line |
| ConfigText.HeaderIsNoKeyword | configure.c:246 | the `# Generated by dhcpcd` header is not a `keyword` line |
| ConfigText.AddressLinesReadBack | configure.c:153-154 | `keyword address` lines read back as the addresses' text, in order |
| Resolv.ResolvNameservers | configure.c:146-154 | the `nameserver` lines of the file read back as the lease's DNS servers, in order |
| Resolv.ResolvSearchLine | configure.c:146-151 | whatever it holds, the search list (else the domain name) is written verbatim as the file's second line, `search <text>`, and the file has one more line per nameserver |
| Resolv.ResolvSearch | configure.c:146-151 | a search text without blanks or newlines (the search list, else the domain name) reads back from the only `search` line; without either there is no `search` line |
| Resolv.SearchListFirstDomain | configure.c:146-151 | a blank-separated list of several domains reads back through the `strsep` reader as its first domain only |
| Resolv.ResolvTarget | configure.c:126-142 | a pipe to resolvconf iff it is configured and present, else the resolver file |
| Resolv.MakeResolv | configure.c:119-167 | 0 and the lines iff the target opens, else -1 and nothing written; written nameservers read back as the lease's |
| Ntp.FindServer | configure.c:219-224 | the inner loop finds the token iff it is the text of a lease server |
| Ntp.CheckConfigured | configure.c:193-228 | the `tomatch` scan ends at 0 iff at least as many `server` lines match as there are lease servers |
| Ntp.RewriteIsConfigured | configure.c:246-268 | the file written for a server list is found configured for that list |
| Ntp.ServerBlockMatches | configure.c:256-262 | each written `server` line of a lease server counts once; `restrict` lines count for nothing |
| Ntp.RepeatedLineCounts | configure.c:219-227 | a file repeating one server's line is found configured for a lease with that server and another |
| Ntp.MakeNtpFile | configure.c:183-272 | -1 if unreadable or unwritable, 0 iff the existing file is configured, else 1 with the lines written, which are configured |
| Ntp.NtpWrite | configure.c:239-271 | a configured build file is rewritten iff `_make_ntp` returns 1, and what is written is configured |
| Ntp.NtpRestarts | configure.c:284-306 | ntpd restarts iff its file changed; OpenNTPD restarts only if its file changed, never when it is the same service already restarted, and otherwise always |
| Ntp.MakeNtp | configure.c:274-309 | both files are processed and the restarts follow `NtpRestarts` of which files changed |
| Nis.Prefix | configure.c:327-337 | `ypserver` without a domain; with a domain and servers `domain <d> server`, whole when it fits the 256-byte buffer, else its first 255 characters; with a domain and no servers the empty buffer |
| Nis.YpserversReadBack | configure.c:336-340 | without a domain the `ypserver` lines read back as the NIS servers, in order |
| Nis.DomainServerLines | configure.c:331-340 | with a domain and servers, line k+1 is `domain <d> server <server k>` |
| Nis.DomainServerLinesAll | configure.c:331-340 | with a domain that fits and servers, the file has one line per server, each `domain <d> server <server>` |
| Nis.BroadcastOnly | configure.c:333-334 | with a domain and no servers the file has only the header and `domain <d> broadcast` |
| Nis.MakeNis | configure.c:313-346 | -1 and nothing else when the file does not open; else 0, the domain name set and the restart, and lines that read back as the NIS servers (`ypserver` lines without a domain, one `domain <d> server` line per server with one, only `domain <d> broadcast` with a domain and no servers) |
| Hostname.ShortName | configure.c:675-677 | the longest prefix of name characters of the looked-up name |
| Hostname.NameLength | configure.c:675-678 | the scan stops at the first byte that is not above 32 (or is negative as a signed char) |
| Hostname.ShortNameWhole | configure.c:676-677 | a name made only of name characters is kept whole |
| Hostname.ShortNameIdempotent | configure.c:675-680 | cutting a cut name changes nothing |
| Hostname.SignedCharCutsHighBytes | configure.c:676 | with a signed `char` a byte from 128 up ends the name |
| Hostname.Derived | configure.c:669-682 | a name is derived only with `dohostname`, no lease hostname and a lookup result, and is its cut name |
| Hostname.NewHostname | configure.c:684-699 | set only if allowed and non-empty; the lease name (truncated) when there is one, else the derived one |
| Hostname.LeaseNameOverrides | configure.c:691-692 | with a lease hostname the reverse lookup does not affect the result |
| Hostname.LookupKeyAsWritten | configure.c:671-672 | as written, the four bytes looked up are the first four characters of the address's dotted text |
| Hostname.LookupKeyShared | configure.c:671-672 | 10.0.0.5 and 10.0.1.6 are looked up under the same key as written, though their intended keys differ |
| Hostname.LookupKey | configure.c:671-672 | the intended key is the address's four bytes, which make up the address again |
| Info.Optional | configure.c:413-420 | a free-text field gives one cleaned line iff it is present |
| Info.AddressEntry | configure.c:422-432 | an address list gives one line iff non-empty |
| Info.RouteText | configure.c:404-406 | a route's text holds no quote |
| Info.AddrList | configure.c:425-430 | an address list's text holds no quote |
| Info.RouteList | configure.c:399-411 | the route list's text holds no quote |
| Info.AddrEntry | configure.c:393-395 | an address line holds the address text |
| Info.NumberEntry | configure.c:396-397 | a number line holds the decimal text |
| Info.FqdnEntriesAsWritten | configure.c:434-440 | as written, `FQDNHOSTNAME` holds the name without cleaning, so the lines are safe iff the name holds no quote |
| Info.FqdnBreaksOut | configure.c:439 | a name with a quote is not read back from the `FQDNHOSTNAME` line |
| Info.FqdnEntries | configure.c:434-440 | with the name cleaned, as intended, every FQDN line is safe |
| Info.FqdnReadsBack | configure.c:434-440 | with the name cleaned every FQDN line reads back as its value, whatever the name holds |
| Info.LeaseEntries | configure.c:393-470 | every lease line is cleaned or quote-free when the FQDN name holds no quote |
| Info.AddressEntries | configure.c:393-411 | address, MTU and route lines are quote-free |
| Info.NameEntries | configure.c:413-440 | name, DNS and FQDN lines (the FQDN name as written) are all cleaned or quote-free iff the FQDN name holds no quote |
| Info.ServiceEntries | configure.c:442-470 | NTP, NIS and root-path lines are cleaned or quote-free |
| Info.ServerEntries | configure.c:472-476 | server and lease-time lines are cleaned or quote-free |
| Info.InterfaceEntries | configure.c:477-483 | the interface name is written as it is; the class id cleaned; the client id cleaned, or the hardware address text when the client id is empty; then the hardware address text |
| Info.RenderReadsBack | configure.c:413-414 | a cleaned or quote-free line reads back as its value |
| Info.InfoSafe | configure.c:393-483 | with a quote-free interface name and FQDN name every line is cleaned or quote-free |
| Info.InfoReadsBack | configure.c:393-483 | with a quote-free interface name and FQDN name every line of the file reads back as the value it holds |
| Info.WriteInfo | configure.c:379-486 | lines iff the file opens; then, with a quote-free interface name and FQDN name, each reads back as its value |

## Left out

- Process spawning (`fork`, `execv`, `exit`) is not modelled. A command is recorded as the argument vector it would start; its outcome is not observed.
- File and pipe I/O, `stat`, `res_init`, `setdomainname`, `sethostname` and logging are not modelled. Whether a file exists or opens is an input. Written files are recorded as their lines. `setdomainname` appears only as the domain name in `Nis.NisResult`.
- `gethostbyaddr` and `gethostname` are inputs (`Env.reverseName`, `Env.currentHostname`). `Env.reverseName` is whatever name the lookup returns; the key it is looked up under is modelled apart (`Hostname.LookupKeyAsWritten`, `Hostname.LookupKey`).
- A Dafny `char` stands for one byte (0 to 255) of a C string: there is no character encoding, so `é` in `Hostname.SignedCharCutsHighBytes` is the single Latin-1 byte 233.
- `add_address`, `del_address`, `add_route`, `del_route` and `set_mtu` are not part of this model. Their results come from `Env.os`, a function of the call alone, so two identical calls in one pass get the same result.
- The NULL-pointer guard at configure.c:501-502 is not modelled: `options`, `iface` and `dhcp` are always values here.
- The chunking of lines longer than 1023 bytes by `fgets` (configure.c:209) is not modelled: a line of an existing NTP file is one whole string.
- The return value of `make_ntp` (a sum of `exec_cmd` results) and those of `make_resolv`, `make_nis` and `write_info` are ignored by `configure`. They are modelled but not passed on.
- `inet_ntoa` and `hwaddr_ntoa` are defined outside configure.c. `Text.Ntoa` writes the four bytes most significant first and does not model the byte order of `s_addr`.
- The `interface_t` fields are set up outside configure.c. `Reconcile.Interface.constructor` starts with no address, no routes and the recorded MTU equal to the interface's own.
- Reconcile.Interface.Configure: requires that the name derived from the reverse lookup fits `HOSTNAME_MAX_LEN` (`HostnameFits`). The `memcpy` at configure.c:679 does not check this, and the overflow is not modelled.
- ShellQuote.MetaBuffer.Clean: requires that the escaped text and its two NULs fit the 1024-byte buffer (`ShellQuote.EscapeFitsBuffer` shows this for inputs of at most 255 bytes). The overflow of longer inputs is not modelled, and `Info` uses the escaping function rather than the buffer.
- Info.WriteInfo: the read-back holds only when the FQDN name (and the interface name) holds no single quote, because configure.c:439 writes the FQDN name without `cleanmetas`; `Info.FqdnReadsBack` states the unconditional read-back of the intended cleaned lines.
- `exec_cmd`'s failure when `alloca` returns NULL (configure.c:63-67) is not modelled: a command is always recorded as started.
- Resolv.ResolvSearch: the read-back covers a search text without blanks or newlines only. The line reader of this model cuts at the first blank (`strsep`, as dhcpcd reads its NTP file), so a list of several domains reads back as its first domain (`Resolv.SearchListFirstDomain`); how a resolver splits the list is outside configure.c. `Resolv.ResolvSearchLine` states that the whole list is written verbatim.
- Exec.BuildArgv: models the corrected reservation, not the out-of-bounds write of the code as written (see Findings).

## Findings

| source | as written | input that shows it | evidently intended | confidence | as-written member | corrected member |
|---|---|---|---|---|---|---|
| configure.c:62 | `exec_cmd` reserves n + 1 argv slots, where n counts `cmd` and the variable arguments; the fill loop then writes `cmd`, `args`, the rest and the closing NULL, which is n + 2 slots | `exec_cmd(RESOLVCONF, "-d", ifname, NULL)`: 3 slots reserved, the NULL written into a 4th | reserve n + 2 slots | high, not executed | Exec.ArgvSlotsAsWritten | Exec.BuildArgv |
| configure.c:439 | the FQDN name is written between single quotes without `cleanmetas`, unlike every other free-text field | an FQDN option whose name is `a'b`: the line `FQDNHOSTNAME='a'b'` is not read back as `a'b` | write the name through `cleanmetas` | medium, not executed | Info.FqdnBreaksOut | Info.FqdnReadsBack |
| configure.c:671-672 | `gethostbyaddr` is given the dotted text of the leased address with the length of an address, so it looks up the text's first four characters as an address | leased 10.0.0.5 and 10.0.1.6: both look up the bytes of "10.0" | pass `&dhcp->address`, the address's own four bytes | medium, not executed | Hostname.LookupKeyShared | Hostname.LookupKey |
