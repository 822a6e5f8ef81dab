/** The byte cap on `/proc/<pid>/cmdline` and the absolute-path arguments read from it. */
module Cmdline {
  import opened Text

  newtype Byte = x: int | 0 <= x < 256

  const READ_LIMIT: nat := 131_072
  const NUL: Byte := 0
  const SLASH: Byte := 47

  function Absolute(args: seq<seq<Byte>>): seq<seq<Byte>> {
    if args == [] then []
    else (if args[0] != [] && args[0][0] == SLASH then [args[0]] else []) + Absolute(args[1..])
  }

  /** The path arguments a command line contributes. */
  function AbsolutePaths(cmdline: seq<Byte>): seq<seq<Byte>> {
    Absolute(Split(cmdline, NUL))
  }

  /** The prefix of length `n` holds whole arguments only. */
  predicate AtBoundary(s: seq<Byte>, n: nat)
    requires n <= |s|
  {
    n == 0 || s[n - 1] == 0
  }

  /** What is kept of a buffer over the limit: the longest run of whole arguments that
      ends before the last byte of the cap. */
  ghost predicate LongestWhole(buffer: seq<Byte>, kept: seq<Byte>)
    requires |buffer| > READ_LIMIT
  {
    && |kept| < READ_LIMIT && kept == buffer[..|kept|] && AtBoundary(buffer, |kept|)
    && forall n: nat | |kept| < n < READ_LIMIT :: !AtBoundary(buffer, n)
  }

  method CapCmdline(input: seq<Byte>) returns (buffer: seq<Byte>)
    ensures if |input| <= READ_LIMIT then buffer == input else LongestWhole(input, buffer)
  {
    buffer := input;
    if |buffer| <= READ_LIMIT {
      return;
    }
    buffer := buffer[..READ_LIMIT];
    if buffer[|buffer| - 1] == 0 {
      buffer := buffer[..|buffer| - 1];
    }
    var position := |buffer|;
    while position > 0 && buffer[position - 1] != 0
      invariant 0 <= position <= |buffer|
      invariant forall i | position <= i < |buffer| :: buffer[i] != 0
    {
      position := position - 1;
    }
    forall n: nat | position < n < READ_LIMIT
      ensures !AtBoundary(input, n)
    {
      assert buffer[n - 1] == input[n - 1];
    }
    buffer := buffer[..position];
  }

  lemma {:induction false} AbsoluteConcat(a: seq<seq<Byte>>, b: seq<seq<Byte>>)
    ensures Absolute(a + b) == Absolute(a) + Absolute(b)
    decreases |a|
  {
    if a == [] {
      assert a + b == b;
    } else {
      AbsoluteConcat(a[1..], b);
      var head := if a[0] != [] && a[0][0] == SLASH then [a[0]] else [];
      assert (a + b)[1..] == a[1..] + b && (a + b)[0] == a[0];
      assert head + (Absolute(a[1..]) + Absolute(b)) == head + Absolute(a[1..]) + Absolute(b);
    }
  }

  /** Every path read from a capped command line is a complete argument of the full one,
      in the same order: no truncated fragment is ever reported. */
  lemma CapKeepsWholePaths(cmdline: seq<Byte>, kept: seq<Byte>)
    requires |cmdline| > READ_LIMIT
    requires LongestWhole(cmdline[..READ_LIMIT + 1], kept)
    ensures AbsolutePaths(kept) <= AbsolutePaths(cmdline)
  {
    var rest := cmdline[|kept|..];
    assert cmdline[..READ_LIMIT + 1][..|kept|] == cmdline[..|kept|];
    assert cmdline == kept + rest;
    assert Absolute([[]]) == [];
    if kept == [] {
      assert AbsolutePaths(kept) == [];
    } else {
      var a := kept[..|kept| - 1];
      assert kept == a + [NUL] + [];
      assert cmdline == a + [NUL] + rest;
      SplitConcat(a, [], NUL);
      SplitConcat(a, rest, NUL);
      AbsoluteConcat(Split(a, NUL), [[]]);
      AbsoluteConcat(Split(a, NUL), Split(rest, NUL));
    }
  }
}
