/** `cleanmetas`: the escaping applied to free-text lease fields before they
    are written between single quotes into the info file, following the
    single-quote rule of POSIX.1-2017 XCU section 2.2.2: inside single
    quotes nothing is special except the closing quote, so a literal quote
    is written as quote, backslash, quote, quote. */
module ShellQuote {
  import opened Types
  import Text

  const Nul: char := '\0'

  /** The text one character is written as. */
  function EscapeChar(c: char): string
  {
    if c == '\'' then "'\\''" else [c]
  }

  /** The escaped text of `s`. */
  function Escape(s: string): (r: string)
  {
    if s == [] then [] else EscapeChar(s[0]) + Escape(s[1..])
  }

  /** Number of single quotes in `s`. */
  function Quotes(s: string): (n: nat)
    ensures n <= |s|
  {
    if s == [] then 0 else (if s[0] == '\'' then 1 else 0) + Quotes(s[1..])
  }

  predicate NoNul(s: string)
  {
    forall i :: 0 <= i < |s| ==> s[i] != Nul
  }

  lemma {:induction false} EscapeLength(s: string)
    ensures |Escape(s)| == |s| + 3 * Quotes(s)
  {
    if s != [] { EscapeLength(s[1..]); }
  }

  lemma {:induction false} EscapeAppend(a: string, b: string)
    ensures Escape(a + b) == Escape(a) + Escape(b)
  {
    if a == [] {
      assert a + b == b;
    } else {
      assert (a + b)[1..] == a[1..] + b;
      EscapeAppend(a[1..], b);
    }
  }

  /** A string without quotes is copied unchanged. */
  lemma {:induction false} EscapeQuoteFree(s: string)
    requires forall i :: 0 <= i < |s| ==> s[i] != '\''
    ensures Escape(s) == s
  {
    if s != [] {
      EscapeQuoteFree(s[1..]);
    }
  }

  /** Escaping never introduces a NUL, so the C string ends where the
      escaped text ends. */
  lemma {:induction false} EscapeNoNul(s: string)
    requires NoNul(s)
    ensures NoNul(Escape(s))
  {
    if s != [] {
      EscapeNoNul(s[1..]);
      var head := if s[0] == '\'' then "'\\''" else [s[0]];
      assert Escape(s) == head + Escape(s[1..]);
      forall i | 0 <= i < |Escape(s)|
        ensures Escape(s)[i] != Nul
      {
        if i >= |head| { assert Escape(s)[i] == Escape(s[1..])[i - |head|]; }
      }
    }
  }

  /** Escaping a prefix one character longer appends that character's
      text, and the escaped prefix is never longer than the whole. */
  lemma EscapePrefixStep(s: string, i: nat)
    requires i < |s|
    ensures Escape(s[..i + 1]) == Escape(s[..i]) + EscapeChar(s[i])
    ensures |Escape(s[..i + 1])| <= |Escape(s)|
  {
    EscapeAppend(s[..i], [s[i]]);
    assert s[..i + 1] == s[..i] + [s[i]];
    EscapeAppend(s[..i + 1], s[i + 1..]);
    assert s[..i + 1] + s[i + 1..] == s;
  }

  /** A lease option is at most 255 bytes long; its escaped text, the copied
      terminator and the extra terminator then fit the 1024-byte buffer. */
  lemma EscapeFitsBuffer(s: string)
    requires |s| <= 255
    ensures |Escape(s)| + 2 <= 1024
  {
    EscapeLength(s);
  }

  function Prepend(c: char, o: Option<string>): Option<string>
  {
    if o.Some? then Some([c] + o.value) else None
  }

  /** A strict reader of one shell word made only of single-quoted parts and
      backslash-escaped characters; `inQuote` is true inside single quotes.
      Any other unquoted character, or an unterminated quote, is refused
      (None): such text would not be read back as one literal value. */
  function Unquote(t: string, inQuote: bool): Option<string>
    decreases |t|
  {
    if t == [] then (if inQuote then None else Some([]))
    else if inQuote then
      (if t[0] == '\'' then Unquote(t[1..], false) else Prepend(t[0], Unquote(t[1..], true)))
    else if t[0] == '\'' then Unquote(t[1..], true)
    else if t[0] == '\\' && |t| >= 2 then Prepend(t[1], Unquote(t[2..], false))
    else None
  }

  /** The value a shell assigns for the word `w` after `KEY=`. */
  function ShellValue(w: string): Option<string>
  {
    Unquote(w, false)
  }

  /** Inside an open quote, the escaped text followed by the closing quote
      reads back as exactly the original text. */
  lemma {:induction false} EscapeReadsBack(s: string)
    ensures Unquote(Escape(s) + "'", true) == Some(s)
  {
    if s == [] {
    } else {
      EscapeReadsBack(s[1..]);
      var rest := Escape(s[1..]) + "'";
      if s[0] == '\'' {
        var t := "'\\''" + rest;
        assert Escape(s) + "'" == t;
        assert t[1..] == "\\''" + rest;
        assert ("\\''" + rest)[2..] == "'" + rest;
        assert ("'" + rest)[1..] == rest;
        assert Unquote(t, true) == Unquote("\\''" + rest, false);
        assert Unquote("\\''" + rest, false) == Prepend('\'', Unquote("'" + rest, false));
        assert Unquote("'" + rest, false) == Unquote(rest, true);
        assert [s[0]] + s[1..] == s;
      } else {
        var t := [s[0]] + rest;
        assert Escape(s) + "'" == t;
        assert t[1..] == rest;
        assert [s[0]] + s[1..] == s;
      }
    }
  }

  /** Any text, quotes included, written as `'<escaped>'` is read back by a
      shell as itself: the value cannot break out of its quotes. */
  lemma QuotedValueReadsBack(s: string)
    ensures ShellValue("'" + Escape(s) + "'") == Some(s)
  {
    EscapeReadsBack(s);
    assert ("'" + Escape(s) + "'")[1..] == Escape(s) + "'";
  }

  /** The escaping is injective: different texts give different escapes. */
  lemma EscapeInjective(s: string, t: string)
    requires Escape(s) == Escape(t)
    ensures s == t
  {
    QuotedValueReadsBack(s);
    QuotedValueReadsBack(t);
  }

  /** `cleanmetas`'s static 1024-byte result buffer. */
  class MetaBuffer {
    const buffer: array<char>

    constructor ()
      ensures buffer.Length == 1024
    {
      buffer := new char[1024];
    }

    /** `cleanmetas(cstr)`: the C string left at the start of the buffer
        is `buffer[..len]` followed by a NUL. A NULL or empty input gives
        the empty string. */
    method Clean(cstr: Option<string>) returns (len: nat)
      requires buffer.Length == 1024
      requires cstr.Some? ==> NoNul(cstr.value) && |Escape(cstr.value)| + 2 <= buffer.Length
      modifies buffer
      ensures len < buffer.Length && buffer[len] == Nul
      ensures buffer[..len] == if cstr.Some? then Escape(cstr.value) else ""
      ensures NoNul(buffer[..len])
    {
      forall k | 0 <= k < buffer.Length {
        buffer[k] := Nul;
      }
      if cstr.None? || |cstr.value| == 0 {
        return 0;
      }
      var s := cstr.value;
      var i, b := 0, 0;
      // copies every character of `s`; the do-while of the C code also
      // copies the terminating NUL, written after the loop here
      while i < |s|
        invariant 0 <= i <= |s|
        invariant b == |Escape(s[..i])| <= |Escape(s)|
        invariant buffer[..b] == Escape(s[..i])
      {
        EscapePrefixStep(s, i);
        Put(b, EscapeChar(s[i]));
        b := b + |EscapeChar(s[i])|;
        i := i + 1;
      }
      assert s[..i] == s;
      buffer[b] := Nul;
      buffer[b + 1] := Nul;
      len := b;
      EscapeNoNul(s);
    }

    /** Writes `piece` at `buffer[b..]`, as `*b++ = c` does character by
        character. */
    method Put(b: nat, piece: string)
      requires b + |piece| <= buffer.Length
      modifies buffer
      ensures buffer[..b + |piece|] == old(buffer[..b]) + piece
    {
      for k := 0 to |piece|
        invariant buffer[..b + k] == old(buffer[..b]) + piece[..k]
      {
        buffer[b + k] := piece[k];
        assert piece[..k + 1] == piece[..k] + [piece[k]];
      }
    }
  }
}
