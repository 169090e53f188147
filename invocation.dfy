/** The invocation builder of the `/run` handler: from the server's
    configuration it forms the path of the inference binary and the single
    argument string handed to the local-LLM client. Both `fmt.Sprintf` calls
    use only `%s` verbs, so each is a plain concatenation. */
module Invocation {
  import opened Text

  /** The settings read once at start-up: the working directory and the six
      environment values, all kept as strings as the server keeps them. */
  datatype Config = Config(
    wd: string,
    bin: string,
    model: string,
    promptFile: string,
    gpuLayers: string,
    threads: string,
    contextSize: string)

  /** What one request hands to the local-LLM client: the binary, the
      argument string, and the prompt, which travels separately. */
  datatype Spec = Spec(bin: string, args: string, prompt: string)

  /** The stop marker, quotes included, that follows `-r`. */
  const StopMarker: string := "\"[Question]\""

  /** `file` under the directory `dir`. */
  function Path(dir: string, file: string): (r: string)
    ensures |r| == |dir| + 1 + |file|
    ensures r[..|dir|] == dir && r[|dir|] == '/' && r[|dir| + 1..] == file
  {
    dir + "/" + file
  }

  /** The binary to run: the working directory, a slash, the configured
      binary, and nothing more. */
  function BinPath(c: Config): string
  {
    Path(c.wd, c.bin)
  }

  /** The argument string: the format string of the handler with each `%s`
      replaced, in order, by the working directory, model, threads, context
      size, GPU layers, working directory and prompt file. */
  function Args(c: Config): string
  {
    "-m " + c.wd + "/" + c.model + " -t " + c.threads + " --temp 0 -c " + c.contextSize
    + " -ngl " + c.gpuLayers + " --file " + c.wd + "/" + c.promptFile + " -r \"[Question]\" -p"
  }

  /** The same arguments as an ordered list of words, flag before value; the
      last word `-p` is the flag the client's prompt follows. */
  function ArgList(c: Config): seq<string>
  {
    ["-m", Path(c.wd, c.model), "-t", c.threads, "--temp", "0", "-c", c.contextSize,
     "-ngl", c.gpuLayers, "--file", Path(c.wd, c.promptFile), "-r", StopMarker, "-p"]
  }

  /** The flags every argument list carries, in order. */
  const FlagOrder: seq<string> := ["-m", "-t", "--temp", "-c", "-ngl", "--file", "-r", "-p"]

  /** The flags of an argument list: the words at even positions. */
  function Flags(args: seq<string>): seq<string>
    decreases |args|
  {
    if |args| == 0 then []
    else if |args| == 1 then [args[0]]
    else [args[0]] + Flags(args[2..])
  }

  /** The value after the first occurrence of `flag` in flag position. */
  function Lookup(args: seq<string>, flag: string): Option<string>
    decreases |args|
  {
    if |args| < 2 then None
    else if args[0] == flag then Some(args[1])
    else Lookup(args[2..], flag)
  }

  /** No configured value contains a space. */
  predicate NoSpaces(c: Config) {
    ' ' !in c.wd && ' ' !in c.bin && ' ' !in c.model && ' ' !in c.promptFile
    && ' ' !in c.gpuLayers && ' ' !in c.threads && ' ' !in c.contextSize
  }


  /** The binary path is the working directory, then `/`, then the configured
      binary, with nothing else added. */
  lemma BinPathShape(c: Config)
    ensures |BinPath(c)| == |c.wd| + 1 + |c.bin|
    ensures BinPath(c)[..|c.wd|] == c.wd
    ensures BinPath(c)[|c.wd|] == '/'
    ensures BinPath(c)[|c.wd| + 1..] == c.bin
  {
  }

  /** Two requests under one configuration run the same binary with the same
      arguments; only the prompt differs. */
  lemma BuildIgnoresInput(c: Config, a: string, b: string)
    ensures Build(c, a).bin == Build(c, b).bin
    ensures Build(c, a).args == Build(c, b).args
    ensures Build(c, a).prompt == a && Build(c, b).prompt == b
  {
  }

  /** Inserting a one-word chunk after `pre`. */
  lemma Spaced(pre: string, chunk: string, word: string)
    requires chunk == " " + word + " "
    ensures pre + chunk == pre + " " + word + " "
  {
  }

  /** Inserting a three-word chunk after `pre`. */
  lemma Spaced3(pre: string, chunk: string, a: string, b: string, c: string)
    requires chunk == " " + a + " " + b + " " + c + " "
    ensures pre + chunk == pre + " " + a + " " + b + " " + c + " "
  {
  }

  /** Appending the three-word end after `pre`. */
  lemma SpacedEnd(pre: string, chunk: string, a: string, b: string, c: string)
    requires chunk == " " + a + " " + b + " " + c
    ensures pre + chunk == pre + " " + a + " " + b + " " + c
  {
  }

  /** Appending a path after `pre`. */
  lemma PathAfter(pre: string, dir: string, file: string)
    ensures pre + dir + "/" + file == pre + Path(dir, file)
  {
  }

  /** The argument string written word by word with single spaces. */
  lemma ArgsSpelledOut(c: Config)
    ensures Args(c) == "-m" + " " + Path(c.wd, c.model) + " " + "-t" + " " + c.threads
      + " " + "--temp" + " " + "0" + " " + "-c" + " " + c.contextSize + " " + "-ngl"
      + " " + c.gpuLayers + " " + "--file" + " " + Path(c.wd, c.promptFile) + " " + "-r"
      + " " + StopMarker + " " + "-p"
  {
    var p1, p2 := Path(c.wd, c.model), Path(c.wd, c.promptFile);
    var e1 := "-m " + c.wd + "/" + c.model;
    var f1 := "-m" + " " + p1;
    assert e1 == f1 by { assert "-m " == "-m" + " "; PathAfter("-m ", c.wd, c.model); }
    var e2 := e1 + " -t " + c.threads;
    var f2 := f1 + " " + "-t" + " " + c.threads;
    assert e2 == f2 by { Spaced(f1, " -t ", "-t"); }
    var e3 := e2 + " --temp 0 -c " + c.contextSize;
    var f3 := f2 + " " + "--temp" + " " + "0" + " " + "-c" + " " + c.contextSize;
    assert e3 == f3 by { Spaced3(f2, " --temp 0 -c ", "--temp", "0", "-c"); }
    var e4 := e3 + " -ngl " + c.gpuLayers;
    var f4 := f3 + " " + "-ngl" + " " + c.gpuLayers;
    assert e4 == f4 by { Spaced(f3, " -ngl ", "-ngl"); }
    var e5 := e4 + " --file " + c.wd + "/" + c.promptFile;
    var f5 := f4 + " " + "--file" + " " + p2;
    assert e5 == f5 by {
      Spaced(f4, " --file ", "--file");
      PathAfter(f4 + " --file ", c.wd, c.promptFile);
    }
    assert e5 + " -r \"[Question]\" -p" == f5 + " " + "-r" + " " + StopMarker + " " + "-p" by {
      SpacedEnd(f5, " -r \"[Question]\" -p", "-r", StopMarker, "-p");
    }
  }

  /** Joining one more word of a list onto the join of the words before it. */
  lemma JoinStep(l: seq<string>, k: nat, sep: string)
    requires 1 <= k < |l|
    ensures Join(l[..k + 1], sep) == Join(l[..k], sep) + sep + l[k]
  {
    assert l[..k + 1] == l[..k] + [l[k]];
    JoinSnoc(l[..k], l[k], sep);
  }

  /** A fifteen-word list joined with single spaces, written out. */
  lemma JoinSpelledOut(l: seq<string>)
    requires |l| == 15
    ensures Join(l, " ") == l[0] + " " + l[1] + " " + l[2] + " " + l[3] + " " + l[4] + " " + l[5] + " " + l[6] + " " + l[7] + " " + l[8] + " " + l[9] + " " + l[10] + " " + l[11] + " " + l[12] + " " + l[13] + " " + l[14]
  {
    assert l[..1] == [l[0]];
    JoinStep(l, 1, " ");
    JoinStep(l, 2, " ");
    JoinStep(l, 3, " ");
    JoinStep(l, 4, " ");
    JoinStep(l, 5, " ");
    JoinStep(l, 6, " ");
    JoinStep(l, 7, " ");
    JoinStep(l, 8, " ");
    JoinStep(l, 9, " ");
    JoinStep(l, 10, " ");
    JoinStep(l, 11, " ");
    JoinStep(l, 12, " ");
    JoinStep(l, 13, " ");
    JoinStep(l, 14, " ");
    assert l[..15] == l;
  }

  /** The argument string is the word list joined with single spaces: the
      formatted string and the ordered list of flags and values agree. */
  lemma ArgsIsJoinedList(c: Config)
    ensures Args(c) == Join(ArgList(c), " ")
  {
    ArgsSpelledOut(c);
    JoinSpelledOut(ArgList(c));
  }

  /** A prefix of `s` is a prefix of anything that extends `s`. */
  lemma PrefixExtends(p: string, s: string, t: string)
    requires IsPrefix(p, s)
    ensures IsPrefix(p, s + t)
  {
    assert (s + t)[..|p|] == s[..|p|];
  }

  /** Anything ends with what was appended last. */
  lemma SuffixOfAppend(s: string, t: string)
    ensures IsSuffix(t, s + t)
  {
    assert (s + t)[|s|..] == t;
  }

  /** A string starts with whatever it was built from by appending. */
  lemma PrefixOfChain(q: string, x1: string, x2: string, x3: string, x4: string,
                      x5: string, x6: string, x7: string, x8: string, x9: string, x10: string)
    ensures IsPrefix(q, q + x1 + x2 + x3 + x4 + x5 + x6 + x7 + x8 + x9 + x10)
  {
    PrefixExtends(q, q, x1);
    PrefixExtends(q, q + x1, x2);
    PrefixExtends(q, q + x1 + x2, x3);
    PrefixExtends(q, q + x1 + x2 + x3, x4);
    PrefixExtends(q, q + x1 + x2 + x3 + x4, x5);
    PrefixExtends(q, q + x1 + x2 + x3 + x4 + x5, x6);
    PrefixExtends(q, q + x1 + x2 + x3 + x4 + x5 + x6, x7);
    PrefixExtends(q, q + x1 + x2 + x3 + x4 + x5 + x6 + x7, x8);
    PrefixExtends(q, q + x1 + x2 + x3 + x4 + x5 + x6 + x7 + x8, x9);
    PrefixExtends(q, q + x1 + x2 + x3 + x4 + x5 + x6 + x7 + x8 + x9, x10);
  }

  /** The argument string starts with the model flag and its path and ends
      with the stop marker and the prompt flag. */
  lemma ArgsEnds(c: Config)
    ensures IsPrefix("-m " + Path(c.wd, c.model) + " -t ", Args(c))
    ensures IsSuffix(" -r " + StopMarker + " -p", Args(c))
  {
    var q := "-m " + c.wd + "/" + c.model + " -t ";
    assert q == "-m " + Path(c.wd, c.model) + " -t " by { PathAfter("-m ", c.wd, c.model); }
    PrefixOfChain(q, c.threads, " --temp 0 -c ", c.contextSize, " -ngl ", c.gpuLayers,
      " --file ", c.wd, "/", c.promptFile, " -r \"[Question]\" -p");
    var tail := " -r \"[Question]\" -p";
    assert tail == " -r " + StopMarker + " -p";
    SuffixOfAppend(q + c.threads + " --temp 0 -c " + c.contextSize + " -ngl " + c.gpuLayers
      + " --file " + c.wd + "/" + c.promptFile, tail);
  }

  /** The flags are the words at the even positions, in order. */
  lemma {:induction false} FlagsAreEvenWords(args: seq<string>)
    ensures |Flags(args)| == (|args| + 1) / 2
    ensures forall i :: 0 <= i < |Flags(args)| ==> Flags(args)[i] == args[2 * i]
    decreases |args|
  {
    if |args| >= 2 {
      FlagsAreEvenWords(args[2..]);
    }
  }

  /** Every argument list carries the same flags in the same order. */
  lemma FlagsInFixedOrder(c: Config)
    ensures Flags(ArgList(c)) == FlagOrder
  {
    FlagsAreEvenWords(ArgList(c));
  }

  /** `Lookup` finds the value after the `i`-th flag when no earlier flag is
      the same. */
  lemma {:induction false} LookupAt(args: seq<string>, flag: string, i: nat)
    requires 2 * i + 1 < |args|
    requires i < |Flags(args)| && Flags(args)[i] == flag && flag !in Flags(args)[..i]
    ensures Lookup(args, flag) == Some(args[2 * i + 1])
    decreases i
  {
    FlagsAreEvenWords(args);
    if i > 0 {
      assert Flags(args)[..i][0] == args[0];
      assert Flags(args[2..]) == Flags(args)[1..];
      assert Flags(args[2..])[..i - 1] == Flags(args)[1..i];
      LookupAt(args[2..], flag, i - 1);
    }
  }

  /** The `i`-th flag of an argument list is followed by its value, provided
      it is not among the flags before it. */
  lemma FlagValueAt(c: Config, i: nat)
    requires i < 7 && FlagOrder[i] !in FlagOrder[..i]
    ensures Lookup(ArgList(c), FlagOrder[i]) == Some(ArgList(c)[2 * i + 1])
  {
    FlagsInFixedOrder(c);
    LookupAt(ArgList(c), FlagOrder[i], i);
  }

  /** Each flag in the list is followed by its configured value. */
  lemma FlagValues(c: Config)
    ensures Lookup(ArgList(c), "-m") == Some(Path(c.wd, c.model))
    ensures Lookup(ArgList(c), "-t") == Some(c.threads)
    ensures Lookup(ArgList(c), "--temp") == Some("0")
    ensures Lookup(ArgList(c), "-c") == Some(c.contextSize)
    ensures Lookup(ArgList(c), "-ngl") == Some(c.gpuLayers)
    ensures Lookup(ArgList(c), "--file") == Some(Path(c.wd, c.promptFile))
    ensures Lookup(ArgList(c), "-r") == Some(StopMarker)
  {
    FlagValueAt(c, 0);
    FlagValueAt(c, 1);
    FlagValueAt(c, 2);
    FlagValueAt(c, 3);
    FlagValueAt(c, 4);
    FlagValueAt(c, 5);
    FlagValueAt(c, 6);
  }

  /** Everything one request hands to the client: the binary is the working
      directory, one `/` and the configured binary; the arguments are the
      word list joined with single spaces; the prompt is the request's input. */
  function Build(c: Config, input: string): (s: Spec)
    ensures |s.bin| == |c.wd| + 1 + |c.bin|
    ensures s.bin[..|c.wd|] == c.wd && s.bin[|c.wd|] == '/' && s.bin[|c.wd| + 1..] == c.bin
    ensures s.args == Join(ArgList(c), " ")
    ensures s.prompt == input
  {
    ArgsIsJoinedList(c);
    Spec(BinPath(c), Args(c), input)
  }

  /** When no configured value holds a space, splitting the argument string
      at spaces gives back exactly the word list. */
  lemma ArgsSplitBack(c: Config)
    requires NoSpaces(c)
    ensures Split(Args(c), " ") == ArgList(c)
  {
    ArgsIsJoinedList(c);
    var l := ArgList(c);
    forall k | 0 <= k < |l| ensures ' ' !in l[k] {
    }
    SplitJoin(l, ' ');
  }

  /** When no configured value holds a space, reading the argument string
      back at spaces finds every configured setting after its flag. */
  lemma ArgsCarrySettings(c: Config)
    requires NoSpaces(c)
    ensures Lookup(Split(Args(c), " "), "-m") == Some(Path(c.wd, c.model))
    ensures Lookup(Split(Args(c), " "), "-t") == Some(c.threads)
    ensures Lookup(Split(Args(c), " "), "--temp") == Some("0")
    ensures Lookup(Split(Args(c), " "), "-c") == Some(c.contextSize)
    ensures Lookup(Split(Args(c), " "), "-ngl") == Some(c.gpuLayers)
    ensures Lookup(Split(Args(c), " "), "--file") == Some(Path(c.wd, c.promptFile))
    ensures Lookup(Split(Args(c), " "), "-r") == Some(StopMarker)
  {
    ArgsSplitBack(c);
    FlagValues(c);
  }

  /** When no configured value holds a space, the argument string determines
      the thread count, the context size, the GPU layer count and both
      paths. */
  lemma ArgsDetermineSettings(c1: Config, c2: Config)
    requires NoSpaces(c1) && NoSpaces(c2) && Args(c1) == Args(c2)
    ensures c1.threads == c2.threads && c1.contextSize == c2.contextSize
    ensures c1.gpuLayers == c2.gpuLayers
    ensures Path(c1.wd, c1.model) == Path(c2.wd, c2.model)
    ensures Path(c1.wd, c1.promptFile) == Path(c2.wd, c2.promptFile)
  {
    ArgsSplitBack(c1);
    ArgsSplitBack(c2);
    assert ArgList(c1) == ArgList(c2);
    assert ArgList(c1)[3] == ArgList(c2)[3];
  }

  /** Moving a chunk `m + b` from the end of one word to the front of the
      next leaves the concatenation unchanged. */
  lemma ShiftAcross(pre: string, a: string, m: string, b: string, x: string)
    ensures pre + (a + m + b) + m + x == pre + a + m + (b + m + x)
  {
  }

  /** Without that condition the string is ambiguous: for every
      configuration, a thread count that carries ` --temp 0 -c b` gives the
      same string as a context size that starts with `b --temp 0 -c `. */
  lemma SpacesMakeArgsAmbiguous(c: Config, a: string, b: string)
    ensures
      var c1 := c.(threads := a + " --temp 0 -c " + b);
      var c2 := c.(threads := a, contextSize := b + " --temp 0 -c " + c.contextSize);
      Args(c1) == Args(c2) && c1.threads != c2.threads
  {
    var c1 := c.(threads := a + " --temp 0 -c " + b);
    var c2 := c.(threads := a, contextSize := b + " --temp 0 -c " + c.contextSize);
    ShiftAcross("-m " + c.wd + "/" + c.model + " -t ", a, " --temp 0 -c ", b, c.contextSize);
    assert |c1.threads| > |c2.threads|;
  }
}
