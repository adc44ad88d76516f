/** Values shared by every part of the model: addresses, routes, the lease
    a DHCP exchange produced, the daemon's options and the compile-time
    configuration of the build. */
module Types {

  datatype Option<+T> = None | Some(value: T)

  type u8 = x: int | 0 <= x < 0x100
  type u16 = x: int | 0 <= x < 0x1_0000
  type u32 = x: int | 0 <= x < 0x1_0000_0000

  /** The 32 bits of an IPv4 `struct in_addr`, as a number. Only equality,
      comparison with 0 and with all-ones, bitwise and, and the four bytes
      of the text form are used, so the byte order of `s_addr` does not
      matter. */
  type Addr = u32

  const INADDR_BROADCAST: Addr := 0xFFFF_FFFF

  /** Bitwise and of two addresses. */
  function And(a: Addr, b: Addr): (r: Addr)
    ensures r <= a && r <= b
    ensures a == 0 || b == 0 ==> r == 0
    decreases a
  {
    if a == 0 || b == 0 then 0
    else 2 * And(a / 2, b / 2) + (if a % 2 == 1 && b % 2 == 1 then 1 else 0)
  }

  /** Bit `k` (0 is the least significant) of a number. */
  predicate Bit(x: nat, k: nat)
    decreases k
  {
    if k == 0 then x % 2 == 1 else Bit(x / 2, k - 1)
  }

  /** `And` is the bitwise and: each bit of the result is set exactly when
      it is set in both operands. */
  lemma {:induction false} AndBit(a: Addr, b: Addr, k: nat)
    ensures Bit(And(a, b), k) <==> Bit(a, k) && Bit(b, k)
    decreases k
  {
    if a == 0 || b == 0 {
      ZeroHasNoBit(k);
    } else if k > 0 {
      AndBit(a / 2, b / 2, k - 1);
    }
  }

  lemma {:induction false} ZeroHasNoBit(k: nat)
    ensures !Bit(0, k)
    decreases k
  {
    if k > 0 {
      ZeroHasNoBit(k - 1);
    }
  }

  /** A static route. Two routes are the same route when all three fields
      are equal, which is exactly datatype equality. */
  datatype Route = Route(destination: Addr, netmask: Addr, gateway: Addr)

  /** The 0.0.0.0/0 route. */
  predicate IsDefault(r: Route)
  {
    r.destination == 0 && r.netmask == 0
  }

  datatype Fqdn = Fqdn(flags: u8, r1: u8, r2: u8, name: string)

  /** The lease (`dhcp_t`). A NULL pointer is `None`, a NULL list is `[]`;
      `mtu == 0` means the server sent no MTU. */
  datatype Lease = Lease(
    address: Addr,
    netmask: Addr,
    broadcast: Addr,
    mtu: u16,
    routes: seq<Route>,
    hostname: Option<string>,
    dnsDomain: Option<string>,
    dnsSearch: Option<string>,
    dnsServers: seq<Addr>,
    fqdn: Option<Fqdn>,
    ntpServers: seq<Addr>,
    nisDomain: Option<string>,
    nisServers: seq<Addr>,
    rootPath: Option<string>,
    serverAddress: Addr,
    serverName: Option<string>,
    leaseTime: u32,
    renewalTime: u32,
    rebindTime: u32)

  /** The run-time options (`options_t`) that configure consults. */
  datatype Options = Options(
    dogateway: bool,
    domtu: bool,
    dodns: bool,
    dontp: bool,
    donis: bool,
    dohostname: bool,
    metric: int,
    script: Option<string>,
    classid: string,
    clientid: string)

  /** A service restart command: the program and its restart arguments. */
  datatype Service = Service(program: string, restartArgs: string)

  /** Compile-time switches and path macros of the build, as values. */
  datatype Build = Build(
    linux: bool,
    enableInfo: bool,
    enableNtp: bool,
    enableNis: bool,
    signedChar: bool,
    hostnameMax: nat,
    defaultScript: string,
    resolvconf: Option<string>,
    resolvFile: string,
    ntpFile: Option<string>,
    openNtpFile: Option<string>,
    ntpService: Option<Service>,
    openNtpService: Option<Service>,
    ntpDriftFile: string,
    ntpLogFile: string,
    nisFile: string,
    nisService: Service)
}
