/**
 * How a command-line tool reads the argument vector it is given: an option
 * that takes a value consumes the next element whatever it looks like, any
 * other element starting with '-' is a flag, and the rest are positional.
 * This is the reading of `ffmpeg` and `yt-dlp` that the command templates
 * are checked against.
 */
module Argv {
  datatype Arg = Flag(name: string) | Opt(name: string, value: string) | Positional(value: string)

  predicate LooksLikeOption(a: string) {
    |a| > 0 && a[0] == '-'
  }

  function Parse(args: seq<string>, valued: set<string>): (r: seq<Arg>)
    ensures |r| <= |args|
    decreases |args|
  {
    if args == [] then []
    else if args[0] in valued && |args| >= 2 then [Opt(args[0], args[1])] + Parse(args[2..], valued)
    else if LooksLikeOption(args[0]) then [Flag(args[0])] + Parse(args[1..], valued)
    else [Positional(args[0])] + Parse(args[1..], valued)
  }

  lemma ParseOpt(name: string, value: string, rest: seq<string>, valued: set<string>)
    requires name in valued
    ensures Parse([name, value] + rest, valued) == [Opt(name, value)] + Parse(rest, valued)
  {
    assert ([name, value] + rest)[2..] == rest;
  }

  lemma ParseFlag(name: string, rest: seq<string>, valued: set<string>)
    requires name !in valued && LooksLikeOption(name)
    ensures Parse([name] + rest, valued) == [Flag(name)] + Parse(rest, valued)
  {
    assert ([name] + rest)[1..] == rest;
  }

  lemma ParsePositional(value: string, valued: set<string>)
    requires value !in valued && !LooksLikeOption(value)
    ensures Parse([value], valued) == [Positional(value)]
  {
  }

  /** Writes parsed arguments back out as an argument vector. */
  function Unparse(parsed: seq<Arg>): seq<string> {
    if parsed == [] then []
    else
      match parsed[0]
      case Flag(n) => [n] + Unparse(parsed[1..])
      case Opt(n, v) => [n, v] + Unparse(parsed[1..])
      case Positional(v) => [v] + Unparse(parsed[1..])
  }

  /** Parsing loses nothing: every element is accounted for, in order. */
  lemma {:induction false} UnparseParse(args: seq<string>, valued: set<string>)
    ensures Unparse(Parse(args, valued)) == args
    decreases |args|
  {
    if args != [] {
      if args[0] in valued && |args| >= 2 {
        UnparseParse(args[2..], valued);
        assert args == [args[0], args[1]] + args[2..];
      } else {
        UnparseParse(args[1..], valued);
        assert args == [args[0]] + args[1..];
      }
    }
  }
}
