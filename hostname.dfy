/** The hostname decision of `configure`: the name taken from a reverse
    lookup of the leased address, and whether and which name is set. */
module Hostname {
  import opened Types
  import Text

  /** A character the scan `while (*dname > 32)` steps over. With a signed
      `char`, bytes from 128 up are negative and end the scan as well. */
  predicate NameChar(c: char, signedChar: bool)
  {
    32 < c as int && (!signedChar || c as int < 128)
  }

  /** The reverse-lookup name up to its first character that is not a
      `NameChar`. */
  function ShortName(h: string, signedChar: bool): (r: string)
    ensures |r| <= |h| && r == h[..|r|]
    ensures forall i :: 0 <= i < |r| ==> NameChar(r[i], signedChar)
    ensures |r| < |h| ==> !NameChar(h[|r|], signedChar)
  {
    if h == [] || !NameChar(h[0], signedChar) then [] else [h[0]] + ShortName(h[1..], signedChar)
  }

  /** The scan of configure.c: the length `dname - he->h_name` of the
      copied name. */
  method NameLength(h: string, signedChar: bool) returns (n: nat)
    ensures n <= |h| && h[..n] == ShortName(h, signedChar)
  {
    n := 0;
    while n < |h| && NameChar(h[n], signedChar)
      invariant n <= |ShortName(h, signedChar)|
    {
      n := n + 1;
    }
  }

  /** A name made only of name characters is taken whole, and cutting a
      cut name again changes nothing. */
  lemma {:induction false} ShortNameWhole(h: string, signedChar: bool)
    requires forall i :: 0 <= i < |h| ==> NameChar(h[i], signedChar)
    ensures ShortName(h, signedChar) == h
  {
    if h != [] {
      ShortNameWhole(h[1..], signedChar);
    }
  }

  lemma ShortNameIdempotent(h: string, signedChar: bool)
    ensures ShortName(ShortName(h, signedChar), signedChar) == ShortName(h, signedChar)
  {
    ShortNameWhole(ShortName(h, signedChar), signedChar);
  }

  /** With a signed `char` a name is cut at its first byte from 128 up,
      although such a byte is above 32. */
  lemma SignedCharCutsHighBytes()
    ensures ShortName("héte", true) == "h"
    ensures ShortName("héte", false) == "héte"
  {
    ShortNameWhole("héte", false);
    assert !NameChar("héte"[1], true);
  }

  /** The four bytes `gethostbyaddr` reads as the address to look up, as
      written: the call passes the dotted text of the leased address with
      the length of an address, so the key is the text's first four
      characters. */
  function LookupKeyAsWritten(a: Addr): (key: seq<nat>)
    ensures |key| == 4
    ensures forall i :: 0 <= i < 4 ==> key[i] == Text.Ntoa(a)[i] as nat
  {
    var t := Text.Ntoa(a);
    [t[0] as nat, t[1] as nat, t[2] as nat, t[3] as nat]
  }

  /** Two leased addresses of one /16 network, 10.0.0.5 and 10.0.1.6, get
      the same key as written: both look up the bytes of "10.0". */
  lemma LookupKeyShared()
    ensures LookupKeyAsWritten(0x0A00_0005) == LookupKeyAsWritten(0x0A00_0106)
    ensures LookupKey(0x0A00_0005) != LookupKey(0x0A00_0106)
  {
    SameTextSameKey(0x0A00_0005, 0x0A00_0106);
    ThirdByte(0x0A00_0005);
    ThirdByte(0x0A00_0106);
  }

  lemma SameTextSameKey(a: Addr, b: Addr)
    requires a / 0x1_0000 == 0x0A00 && b / 0x1_0000 == 0x0A00
    ensures LookupKeyAsWritten(a) == LookupKeyAsWritten(b)
  {
    TenDotZero(a);
    TenDotZero(b);
    assert Text.Ntoa(a)[..4] == Text.Ntoa(b)[..4];
    assert forall i :: 0 <= i < 4 ==> Text.Ntoa(a)[i] == Text.Ntoa(a)[..4][i];
    assert forall i :: 0 <= i < 4 ==> Text.Ntoa(b)[i] == Text.Ntoa(b)[..4][i];
  }

  lemma ThirdByte(a: Addr)
    ensures LookupKey(a)[2] == a / 0x100 % 0x100
  {
  }

  lemma TenDotZero(a: Addr)
    requires a / 0x1_0000 == 0x0A00
    ensures Text.Ntoa(a)[..4] == "10.0"
  {
    assert Text.Octet(a, 0) == 10 && Text.Octet(a, 1) == 0;
    assert Text.Dec(10) == "10" && Text.Dec(0) == "0";
    var rest := "." + Text.Dec(Text.Octet(a, 2)) + "." + Text.Dec(Text.Octet(a, 3));
    assert Text.Ntoa(a) == "10.0" + rest;
  }

  /** The key the lookup is meant to have: the leased address's four bytes
      in network order. They make up the address again, so different
      addresses are looked up under different keys. */
  function LookupKey(a: Addr): (key: seq<nat>)
    ensures |key| == 4 && forall i :: 0 <= i < 4 ==> key[i] < 256
    ensures Compose(key) == a
  {
    OctetsCompose(a);
    [Text.Octet(a, 0), Text.Octet(a, 1), Text.Octet(a, 2), Text.Octet(a, 3)]
  }

  lemma OctetsCompose(a: Addr)
    ensures Compose([Text.Octet(a, 0), Text.Octet(a, 1), Text.Octet(a, 2), Text.Octet(a, 3)]) == a
  {
    var q1, q2 := a / 0x100, a / 0x1_0000;
    var b0, b1, b2, b3 := a / 0x100_0000, q2 % 0x100, q1 % 0x100, a % 0x100;
    assert a == q1 * 0x100 + b3;
    DivByte(a);
    DivByte(q1);
    assert q1 / 0x100 == q2;
    DivByte(q2);
    assert q2 == (q2 / 0x100) * 0x100 + b1;
    assert q1 == q2 * 0x100 + b2;
  }

  /** Dividing twice by 256 is dividing by 65536. */
  lemma DivByte(x: nat)
    ensures x / 0x1_0000 == (x / 0x100) / 0x100
    ensures x / 0x100_0000 == (x / 0x1_0000) / 0x100
  {
  }

  /** The address four bytes in network order make up. */
  function Compose(key: seq<nat>): nat
    requires |key| == 4
  {
    key[0] * 0x100_0000 + key[1] * 0x1_0000 + key[2] * 0x100 + key[3]
  }

  /** A current hostname that may be replaced even without `dohostname`. */
  predicate Placeholder(current: string)
  {
    current == "" || current == "(none)" || current == "localhost"
  }

  predicate MaySet(dohostname: bool, current: string)
  {
    dohostname || Placeholder(current)
  }

  /** The name the reverse lookup leaves in `newhostname`: looked up only
      when `dohostname` is set and the lease has no hostname; `reverse` is
      the lookup's result, None when it found nothing. */
  function Derived(dohostname: bool, leaseHostname: Option<string>, reverse: Option<string>,
                   signedChar: bool): (d: string)
    ensures d != "" ==> dohostname && leaseHostname.None? && reverse.Some?
    ensures d != "" ==> d == ShortName(reverse.value, signedChar)
  {
    if dohostname && leaseHostname.None? && reverse.Some? then ShortName(reverse.value, signedChar) else ""
  }

  /** The name `sethostname` is called with, if any. `size` is
      `HOSTNAME_MAX_LEN`; the derived name must fit below it, as the
      `memcpy` into `newhostname` does not check. */
  function NewHostname(dohostname: bool, leaseHostname: Option<string>, reverse: Option<string>,
                       current: string, signedChar: bool, size: nat): (r: Option<string>)
    requires size > 0
    requires |Derived(dohostname, leaseHostname, reverse, signedChar)| < size
    ensures r.Some? ==> r.value != "" && |r.value| < size
    ensures r.Some? ==> MaySet(dohostname, current)
    ensures MaySet(dohostname, current) && leaseHostname.Some? && leaseHostname.value != "" && size > 1 ==>
              r == Some(Text.Truncate(leaseHostname.value, size))
    ensures leaseHostname == Some("") ==> r == None
    ensures leaseHostname.None? ==>
              (r.Some? <==> dohostname && reverse.Some? && ShortName(reverse.value, signedChar) != "")
    ensures leaseHostname.None? && r.Some? ==> r.value == ShortName(reverse.value, signedChar)
  {
    if !MaySet(dohostname, current) then None
    else
      var name := if leaseHostname.Some? then Text.Truncate(leaseHostname.value, size)
                  else Derived(dohostname, leaseHostname, reverse, signedChar);
      if name == "" then None else Some(name)
  }

  /** A lease hostname overrides whatever the reverse lookup found. */
  lemma LeaseNameOverrides(dohostname: bool, name: string, reverse1: Option<string>, reverse2: Option<string>,
                           current: string, signedChar: bool, size: nat)
    requires size > 0
    ensures NewHostname(dohostname, Some(name), reverse1, current, signedChar, size)
         == NewHostname(dohostname, Some(name), reverse2, current, signedChar, size)
  {
  }
}
