/** `exec_cmd` and `exec_script`: which program is started with which
    arguments. Starting it (`fork`/`execv`) is not modelled; a command is
    its argument vector, `argv[0]` being the program. */
module Exec {
  import opened Types

  /** The argument vector `execv` sees for `exec_cmd(cmd, args, rest...,
      NULL)`: it ends at the first NULL, so a NULL `args` hides `rest`. */
  function ExecArgv(cmd: string, args: Option<string>, rest: seq<string>): (argv: seq<string>)
    ensures |argv| >= 1 && argv[0] == cmd
    ensures args.None? ==> argv == [cmd]
    ensures args.Some? ==> |argv| == |rest| + 2 && argv[1] == args.value && argv[2..] == rest
  {
    if args.None? then [cmd] else [cmd, args.value] + rest
  }

  /** The entries of a NULL-terminated vector before its first NULL. */
  function UntilNull(v: seq<Option<string>>): seq<string>
  {
    if v == [] || v[0].None? then [] else [v[0].value] + UntilNull(v[1..])
  }

  /** `exec_cmd` as written: the slots `alloca` reserves for `argv` and the
      slots the filling loop then writes. The counting loop stops at the
      NULL that ends the variable arguments, leaving `n == 1 + |rest|`;
      `n + 1` slots are reserved, but `cmd`, `args`, `rest` and the closing
      NULL take `n + 2`: the closing NULL is written one slot past the
      reservation. */
  method ArgvSlotsAsWritten(rest: seq<string>) returns (reserved: nat, written: nat)
    ensures reserved == |rest| + 2
    ensures written == reserved + 1
  {
    var n := 1;
    var i := 0;
    while i < |rest|
      invariant 0 <= i <= |rest| && n == 1 + i
    {
      n := n + 1;
      i := i + 1;
    }
    reserved := n + 1;
    // argv[0] = cmd, argv[1] = args, then argv[n] for each of rest and
    // finally the NULL at argv[n]
    n := 2;
    i := 0;
    while i < |rest|
      invariant 0 <= i <= |rest| && n == 2 + i
    {
      n := n + 1;
      i := i + 1;
    }
    written := n + 1;
  }

  /** `exec_cmd` with the reservation corrected to `n + 2` slots: the
      vector holds `cmd`, `args`, `rest` and the closing NULL, and what
      `execv` sees of it is `ExecArgv`. */
  method BuildArgv(cmd: string, args: Option<string>, rest: seq<string>) returns (argv: array<Option<string>>)
    ensures argv.Length == |rest| + 3
    ensures argv[0] == Some(cmd) && argv[1] == args && argv[|rest| + 2] == None
    ensures forall k :: 0 <= k < |rest| ==> argv[k + 2] == Some(rest[k])
    ensures UntilNull(argv[..]) == ExecArgv(cmd, args, rest)
  {
    var n := 1;
    while n - 1 < |rest|
      invariant 1 <= n <= |rest| + 1
    {
      n := n + 1;
    }
    argv := new Option<string>[n + 2];
    argv[0] := Some(cmd);
    argv[1] := args;
    n := 2;
    while n - 2 < |rest|
      invariant 2 <= n <= |rest| + 2
      invariant argv[0] == Some(cmd) && argv[1] == args
      invariant forall k :: 0 <= k < n - 2 ==> argv[k + 2] == Some(rest[k])
    {
      argv[n] := Some(rest[n - 2]);
      n := n + 1;
    }
    argv[n] := None;
    UntilNullOfVector(argv[..], cmd, args, rest);
  }

  lemma UntilNullOfVector(v: seq<Option<string>>, cmd: string, args: Option<string>, rest: seq<string>)
    requires |v| == |rest| + 3
    requires v[0] == Some(cmd) && v[1] == args && v[|rest| + 2] == None
    requires forall k :: 0 <= k < |rest| ==> v[k + 2] == Some(rest[k])
    ensures UntilNull(v) == ExecArgv(cmd, args, rest)
  {
    assert v[1..][1..] == v[2..];
    if args.Some? {
      UntilNullOfSomes(v[2..], rest);
    }
  }

  lemma {:induction false} UntilNullOfSomes(v: seq<Option<string>>, rest: seq<string>)
    requires |v| == |rest| + 1 && v[|rest|] == None
    requires forall k :: 0 <= k < |rest| ==> v[k] == Some(rest[k])
    ensures UntilNull(v) == rest
  {
    if rest != [] {
      UntilNullOfSomes(v[1..], rest[1..]);
      assert [rest[0]] + rest[1..] == rest;
    }
  }

  /** `exec_script(script, infofile, arg)`: the command it starts, or None
      when it returns without starting one: no script, no info file in a
      build with the info file, or no file at the script's path. */
  function ScriptArgv(build: Build, script: Option<string>, infofile: Option<string>,
                      arg: string, scriptExists: bool): (argv: Option<seq<string>>)
    ensures argv.Some? <==> script.Some? && scriptExists && (build.enableInfo ==> infofile.Some?)
    ensures argv.Some? ==> |argv.value| >= 1 && argv.value[0] == script.value
    ensures argv.Some? && infofile.Some? ==>
              |argv.value| == (if build.enableInfo then 3 else 4)
              && argv.value[1] == infofile.value && argv.value[|argv.value| - 1] == arg
    ensures argv.Some? && !build.enableInfo && infofile.Some? ==> argv.value[2] == ""
    ensures argv.Some? && infofile.None? ==> argv.value == [script.value]
  {
    if script.None? || (build.enableInfo && infofile.None?) then None
    else if !scriptExists then None
    else if build.enableInfo then Some(ExecArgv(script.value, infofile, [arg]))
    else Some(ExecArgv(script.value, infofile, ["", arg]))
  }
}
