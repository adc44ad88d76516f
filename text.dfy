/** Text forms of numbers and addresses: `%u`/`%d`, `inet_ntoa` and
    `hwaddr_ntoa`. The latter two are defined outside configure.c; the
    model only relies on their output being made of digits, hexadecimal
    digits, dots and colons. */
module Text {
  import opened Types

  predicate IsDigit(c: char)
  {
    '0' <= c <= '9'
  }

  predicate IsHexDigit(c: char)
  {
    IsDigit(c) || 'a' <= c <= 'f'
  }

  /** Characters that never occur in an address, a number or a hardware
      address: blank, newline, single quote and backslash. */
  predicate Special(c: char)
  {
    c == ' ' || c == '\n' || c == '\'' || c == '\\'
  }

  /** A string that contains none of the `Special` characters. */
  predicate Plain(s: string)
  {
    forall i :: 0 <= i < |s| ==> !Special(s[i])
  }

  lemma PlainAppend(a: string, b: string)
    requires Plain(a) && Plain(b)
    ensures Plain(a + b)
  {
    forall i | 0 <= i < |a + b|
      ensures !Special((a + b)[i])
    {
      if i < |a| { assert (a + b)[i] == a[i]; } else { assert (a + b)[i] == b[i - |a|]; }
    }
  }

  function DigitChar(d: nat): (c: char)
    requires d < 10
    ensures IsDigit(c)
  {
    "0123456789"[d]
  }

  /** Decimal text of a non-negative number, as `printf("%u")` writes it. */
  function Dec(n: nat): (r: string)
    ensures |r| > 0
    ensures forall i :: 0 <= i < |r| ==> IsDigit(r[i])
    ensures n < 10 <==> |r| == 1
    decreases n
  {
    if n < 10 then [DigitChar(n)] else Dec(n / 10) + [DigitChar(n % 10)]
  }

  /** Byte `k` (0 is the most significant) of an address. */
  function Octet(a: Addr, k: nat): (o: nat)
    requires k < 4
    ensures o < 256
  {
    (if k == 0 then a / 0x100_0000 else if k == 1 then a / 0x1_0000 % 0x100
     else if k == 2 then a / 0x100 % 0x100 else a % 0x100)
  }

  /** Dotted-quad text of an address, as `inet_ntoa` writes it. */
  function Ntoa(a: Addr): (r: string)
    ensures |r| >= 7
    ensures forall i :: 0 <= i < |r| ==> IsDigit(r[i]) || r[i] == '.'
  {
    Dec(Octet(a, 0)) + "." + Dec(Octet(a, 1)) + "." + Dec(Octet(a, 2)) + "." + Dec(Octet(a, 3))
  }

  /** An address's text holds no blank and no newline, so it is one field. */
  lemma NtoaToken(a: Addr)
    ensures forall i :: 0 <= i < |Ntoa(a)| ==> Ntoa(a)[i] != ' ' && Ntoa(a)[i] != '\n'
  {
  }

  lemma NtoaPlain(a: Addr)
    ensures Plain(Ntoa(a))
  {
  }

  function HexChar(d: nat): (c: char)
    requires d < 16
    ensures IsHexDigit(c)
  {
    "0123456789abcdef"[d]
  }

  /** Colon-separated lower-case hexadecimal text of a hardware address. */
  function HwaddrNtoa(hw: seq<u8>): (r: string)
    ensures |hw| == 0 ==> r == ""
    ensures |hw| > 0 ==> |r| == 3 * |hw| - 1
    ensures forall i :: 0 <= i < |r| ==> IsHexDigit(r[i]) || r[i] == ':'
  {
    if |hw| == 0 then ""
    else
      [HexChar(hw[0] / 16), HexChar(hw[0] % 16)]
      + (if |hw| == 1 then "" else ":" + HwaddrNtoa(hw[1..]))
  }

  /** `parts` separated by `sep`, as the loops that print a list with a
      separator between (not after) its items do. */
  function Join(parts: seq<string>, sep: string): (r: string)
  {
    if |parts| == 0 then ""
    else if |parts| == 1 then parts[0]
    else parts[0] + sep + Join(parts[1..], sep)
  }

  lemma {:induction false} JoinPlain(parts: seq<string>, sep: string)
    requires forall k :: 0 <= k < |parts| ==> Plain(parts[k])
    requires Plain(sep)
    ensures Plain(Join(parts, sep))
  {
    if |parts| > 1 {
      JoinPlain(parts[1..], sep);
      PlainAppend(parts[0], sep);
      PlainAppend(parts[0] + sep, Join(parts[1..], sep));
    }
  }

  /** The addresses of a list in text form, in order. */
  function NtoaAll(addrs: seq<Addr>): (r: seq<string>)
    ensures |r| == |addrs|
    ensures forall k :: 0 <= k < |r| ==> r[k] == Ntoa(addrs[k])
  {
    seq(|addrs|, k requires 0 <= k < |addrs| => Ntoa(addrs[k]))
  }

  /** What `strlcpy` or `snprintf` leaves in a buffer of `size` bytes: at
      most `size - 1` characters of `s`, the whole of `s` when it fits. */
  function Truncate(s: string, size: nat): (r: string)
    requires size > 0
    ensures |r| < size && |r| <= |s| && r == s[..|r|]
    ensures |s| < size ==> r == s
    ensures |s| >= size ==> |r| == size - 1
  {
    if |s| < size then s else s[..size - 1]
  }
}
