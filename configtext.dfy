/** Lines of the generated configuration files, and the `strsep` reading of
    a `keyword argument` line that the NTP check uses. A line is the text
    `fgets` returns, its newline included. */
module ConfigText {
  import opened Types
  import Text


  /** The line `keyword argument`. */
  function Line(keyword: string, arg: string): string
  {
    keyword + " " + arg + "\n"
  }

  /** The first line of every generated file,
      `# Generated by dhcpcd for interface <ifname>`. */
  function Header(ifname: string): string
  {
    Line("#", "Generated by dhcpcd for interface " + ifname)
  }

  /** The line `keyword address`. */
  function AddressLine(keyword: string, a: Addr): string
  {
    Line(keyword, Text.Ntoa(a))
  }

  /** `keyword address` lines, one per address, in order. */
  function AddressLines(keyword: string, addrs: seq<Addr>): (r: seq<string>)
    ensures |r| == |addrs|
  {
    if addrs == [] then [] else [AddressLine(keyword, addrs[0])] + AddressLines(keyword, addrs[1..])
  }

  predicate Stops(c: char, atNewline: bool)
  {
    c == ' ' || (atNewline && c == '\n')
  }

  /** Text `strsep(" \n")` returns whole: no blank and no newline. */
  predicate OneField(s: string)
  {
    forall i :: 0 <= i < |s| ==> !Stops(s[i], true)
  }

  /** Where `strsep` cuts `s`: the index of the first blank (or newline,
      when `atNewline`), or `|s|` when there is none. */
  function FieldEnd(s: string, atNewline: bool): (n: nat)
    ensures n <= |s|
    ensures forall i :: 0 <= i < n ==> !Stops(s[i], atNewline)
    ensures n < |s| ==> Stops(s[n], atNewline)
  {
    if s == [] || Stops(s[0], atNewline) then 0 else 1 + FieldEnd(s[1..], atNewline)
  }

  /** The argument of a `keyword argument` line: the first `strsep(" ")`
      must give `keyword` and leave a rest (the line has a blank), then
      `strsep(" \n")` gives the argument. None for any other line. */
  function KeywordArgument(line: string, keyword: string): Option<string>
  {
    var n := FieldEnd(line, false);
    if n == |line| || line[..n] != keyword then None
    else
      var rest := line[n + 1..];
      Some(rest[..FieldEnd(rest, true)])
  }

  /** The arguments of every `keyword` line, in file order. */
  function Arguments(lines: seq<string>, keyword: string): (r: seq<string>)
    ensures |r| <= |lines|
  {
    if lines == [] then []
    else
      (match KeywordArgument(lines[0], keyword)
       case Some(a) => [a]
       case None => [])
      + Arguments(lines[1..], keyword)
  }

  /** The arguments of a line followed by more lines. */
  lemma ArgumentsCons(line: string, lines: seq<string>, keyword: string)
    ensures Arguments([line] + lines, keyword) ==
              (match KeywordArgument(line, keyword) case Some(a) => [a] case None => []) + Arguments(lines, keyword)
  {
    assert ([line] + lines)[0] == line && ([line] + lines)[1..] == lines;
  }

  lemma StringsAssoc(a: seq<string>, b: seq<string>, c: seq<string>)
    ensures a + (b + c) == a + b + c
  {
  }

  lemma {:induction false} ArgumentsAppend(a: seq<string>, b: seq<string>, keyword: string)
    ensures Arguments(a + b, keyword) == Arguments(a, keyword) + Arguments(b, keyword)
  {
    if a == [] {
      assert a + b == b;
    } else {
      var h := match KeywordArgument(a[0], keyword) case Some(x) => [x] case None => [];
      assert a == [a[0]] + a[1..];
      assert a + b == [a[0]] + (a[1..] + b);
      ArgumentsCons(a[0], a[1..] + b, keyword);
      ArgumentsCons(a[0], a[1..], keyword);
      ArgumentsAppend(a[1..], b, keyword);
      StringsAssoc(h, Arguments(a[1..], keyword), Arguments(b, keyword));
    }
  }

  /** A blank-free keyword followed by a blank, an argument with neither
      blank nor newline, and a newline reads back as that argument. */
  lemma KeywordLineReadsBack(keyword: string, arg: string)
    requires forall i :: 0 <= i < |keyword| ==> keyword[i] != ' '
    requires forall i :: 0 <= i < |arg| ==> arg[i] != ' ' && arg[i] != '\n'
    ensures KeywordArgument(Line(keyword, arg), keyword) == Some(arg)
  {
    var line := keyword + " " + arg + "\n";
    FieldEndAt(line, false, |keyword|);
    assert line[..|keyword|] == keyword;
    var rest := line[|keyword| + 1..];
    assert rest == arg + "\n";
    FieldEndAt(rest, true, |arg|);
    assert rest[..|arg|] == arg;
  }

  /** `FieldEnd` is the first stop position. */
  lemma FieldEndAt(s: string, atNewline: bool, n: nat)
    requires n <= |s|
    requires forall i :: 0 <= i < n ==> !Stops(s[i], atNewline)
    requires n < |s| ==> Stops(s[n], atNewline)
    ensures FieldEnd(s, atNewline) == n
  {
  }

  /** A line whose first field is a different word is not a `keyword` line.
      Covers lines such as `restrict`, `driftfile` or `search`. */
  lemma OtherKeyword(word: string, arg: string, keyword: string)
    requires forall i :: 0 <= i < |word| ==> word[i] != ' '
    requires word != keyword
    ensures KeywordArgument(Line(word, arg), keyword) == None
  {
    var line := Line(word, arg);
    assert line == word + (" " + arg + "\n");
    assert line[..|word|] == word;
    FieldEndAt(line, false, |word|);
  }

  /** The header line never reads as a `keyword` line for a keyword that
      does not start with `#`. */
  lemma HeaderIsNoKeyword(ifname: string, keyword: string)
    requires |keyword| > 0 && keyword[0] != '#'
    ensures KeywordArgument(Header(ifname), keyword) == None
  {
    OtherKeyword("#", "Generated by dhcpcd for interface " + ifname, keyword);
  }

  /** The `keyword` lines of a list of addresses read back as the addresses'
      text, in order. */
  lemma {:induction false} AddressLinesReadBack(keyword: string, addrs: seq<Addr>)
    requires forall i :: 0 <= i < |keyword| ==> keyword[i] != ' '
    ensures Arguments(AddressLines(keyword, addrs), keyword) == Text.NtoaAll(addrs)
  {
    if addrs != [] {
      var line := AddressLine(keyword, addrs[0]);
      var rest := AddressLines(keyword, addrs[1..]);
      assert AddressLines(keyword, addrs) == [line] + rest;
      AddressLinesReadBack(keyword, addrs[1..]);
      Text.NtoaToken(addrs[0]);
      KeywordLineReadsBack(keyword, Text.Ntoa(addrs[0]));
      ArgumentsCons(line, rest, keyword);
      assert Text.NtoaAll(addrs) == [Text.Ntoa(addrs[0])] + Text.NtoaAll(addrs[1..]);
    }
  }
}
