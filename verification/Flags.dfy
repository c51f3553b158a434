/**
 Flags mixed with positional arguments.  The command moves flags to the front and hands the
 result to Go's `flag` parser, which stops at the first positional argument.
 */
module Flags {
  import opened Text

  datatype FlagKind = BoolFlag | ValueFlag

  /** The defined flags, and which value each of them accepts. */
  datatype FlagSet = FlagSet(kinds: map<string, FlagKind>, accepts: (string, string) -> bool)

  datatype Assignment = Assignment(name: string, value: string)

  /** What a parse leaves behind: the assignments made, in order, and the positionals if it succeeded. */
  datatype Outcome =
    | Parsed(assignments: seq<Assignment>, positionals: seq<string>)
    | Rejected(assignments: seq<Assignment>)

  datatype ParseStep = Stop(rest: seq<string>) | Bad | Took(assignment: Assignment, rest: seq<string>)

  predicate LooksLikeFlagToken(arg: string) {
    HasPrefix(arg, "-") && arg != "-"
  }

  function TrimLeftDashes(s: string): (r: string)
    ensures |r| <= |s|
    ensures r == "" || r[0] != '-'
  {
    if s != "" && s[0] == '-' then TrimLeftDashes(s[1..]) else s
  }

  /** The name in a flag token, and whether a value is attached with '='. */
  function FlagTokenName(arg: string): (string, bool) {
    var name := TrimLeftDashes(arg);
    var i := IndexOf(name, '=');
    (name[..i], i < |name|)
  }

  /** One step of Go's flag parser. */
  function ParseOne(fs: FlagSet, args: seq<string>): (step: ParseStep)
    ensures step.Stop? ==> |step.rest| <= |args|
    ensures step.Took? ==> |step.rest| < |args|
  {
    if args == [] || !LooksLikeFlagToken(args[0]) then Stop(args)
    else if args[0] == "--" then Stop(args[1..])
    else
      var body := Body(args[0]);
      if body == "" || body[0] == '-' || body[0] == '=' then Bad
      else
        var i := IndexOf(body, '=');
        var name := body[..i];
        if name !in fs.kinds then Bad
        else if i < |body| then Assign(fs, name, body[i + 1..], args[1..])
        else if fs.kinds[name].BoolFlag? then Assign(fs, name, "true", args[1..])
        else if |args| == 1 then Bad
        else Assign(fs, name, args[1], args[2..])
  }

  /** A flag token without its one or two leading dashes. */
  function Body(arg: string): string
    requires LooksLikeFlagToken(arg)
  {
    arg[if arg[1] == '-' then 2 else 1..]
  }

  function Assign(fs: FlagSet, name: string, value: string, rest: seq<string>): ParseStep {
    if fs.accepts(name, value) then Took(Assignment(name, value), rest) else Bad
  }

  function Assigning(a: Assignment, o: Outcome): Outcome {
    o.(assignments := [a] + o.assignments)
  }

  function Preceded(before: seq<string>, o: Outcome): Outcome {
    if o.Parsed? then o.(positionals := before + o.positionals) else o
  }

  /** Go's flag.FlagSet.Parse: stops at the first positional argument or at "--". */
  function Parse(fs: FlagSet, args: seq<string>): Outcome
    decreases |args|
  {
    match ParseOne(fs, args)
    case Stop(rest) => Parsed([], rest)
    case Bad => Rejected([])
    case Took(a, rest) => Assigning(a, Parse(fs, rest))
  }

  /** The reference: a parser that lets flags and positionals mix, up to a "--". */
  function Permute(fs: FlagSet, args: seq<string>): Outcome
    decreases |args|
  {
    if args == [] then Parsed([], [])
    else if args[0] == "--" then Parsed([], args[1..])
    else if !LooksLikeFlagToken(args[0]) then Preceded([args[0]], Permute(fs, args[1..]))
    else
      match ParseOne(fs, args)
      case Took(a, rest) => Assigning(a, Permute(fs, rest))
      case _ => Rejected([])
  }

  /** A flag's name: not empty, without "=", and not beginning with a dash. */
  predicate FlagName(name: string) {
    name != "" && name[0] != '-' && '=' !in name
  }

  lemma TokenBody(dashes: string, body: string)
    requires dashes in {"-", "--"} && body != "" && body[0] != '-'
    ensures var token := dashes + body; LooksLikeFlagToken(token) && token != "--" && Body(token) == body
  {
    var token := dashes + body;
    assert token[0] == '-' && token[1] == if dashes == "-" then body[0] else '-';
    assert token[|dashes|] == body[0];
  }

  /** What a flag token with "=" means, with one dash or two: the rest of it is the value, if the flag is known and accepts it. */
  lemma AttachedValueMeans(fs: FlagSet, dashes: string, name: string, value: string, rest: seq<string>)
    requires dashes in {"-", "--"} && FlagName(name)
    ensures ParseOne(fs, [dashes + (name + ['='] + value)] + rest) ==
            if name in fs.kinds && fs.accepts(name, value) then Took(Assignment(name, value), rest) else Bad
  {
    var long := name + ['='] + value;
    var args := [dashes + long] + rest;
    TokenBody(dashes, long);
    IndexOfAppend(name, '=', value);
    assert long[..|name|] == name && long[|name| + 1..] == value && args[1..] == rest && args[0] == dashes + long;
  }

  /** And one without: a flag that needs no value is true, and any other takes the next argument or is rejected. */
  lemma TokenAloneMeans(fs: FlagSet, dashes: string, name: string, rest: seq<string>)
    requires dashes in {"-", "--"} && FlagName(name)
    ensures ParseOne(fs, [dashes + name] + rest) ==
            if name !in fs.kinds then Bad
            else if fs.kinds[name].BoolFlag? then (if fs.accepts(name, "true") then Took(Assignment(name, "true"), rest) else Bad)
            else if rest != [] && fs.accepts(name, rest[0]) then Took(Assignment(name, rest[0]), rest[1..]) else Bad
  {
    var args := [dashes + name] + rest;
    TokenBody(dashes, name);
    assert name[..|name|] == name && args[1..] == rest && args[0] == dashes + name;
    if rest != [] {
      assert args[1] == rest[0] && args[2..] == rest[1..];
    }
  }

  /** True if the token takes the next argument as its value, as the re-orderer sees it. */
  predicate TakesNext(fs: FlagSet, arg: string) {
    var (name, inline) := FlagTokenName(arg);
    name in fs.kinds && !inline && fs.kinds[name].ValueFlag?
  }

  /** The flag arguments and the positional arguments, each in their original order. */
  function Reorder(fs: FlagSet, args: seq<string>): (seq<string>, seq<string>)
    decreases |args|
  {
    if args == [] then ([], [])
    else if args[0] == "--" then ([], args[1..])
    else if !LooksLikeFlagToken(args[0]) then
      var (flagArgs, positional) := Reorder(fs, args[1..]);
      (flagArgs, [args[0]] + positional)
    else
      var n := Width(fs, args);
      var (flagArgs, positional) := Reorder(fs, args[n..]);
      (args[..n] + flagArgs, positional)
  }

  /** How many arguments the re-ordered flag token moves to the front. */
  function Width(fs: FlagSet, args: seq<string>): (n: nat)
    requires args != []
    ensures 1 <= n <= 2 && n <= |args|
  {
    if TakesNext(fs, args[0]) && |args| > 1 then 2 else 1
  }

  /** After i arguments the loop below has split off these flag arguments and positionals. */
  ghost predicate SplitSoFar(fs: FlagSet, args: seq<string>, i: nat, flagArgs: seq<string>, positional: seq<string>) {
    && i <= |args|
    && Reorder(fs, args).0 == flagArgs + Reorder(fs, args[i..]).0
    && Reorder(fs, args).1 == positional + Reorder(fs, args[i..]).1
  }

  lemma SplitPositional(fs: FlagSet, args: seq<string>, i: nat, flagArgs: seq<string>, positional: seq<string>)
    requires i < |args| && SplitSoFar(fs, args, i, flagArgs, positional) && !LooksLikeFlagToken(args[i])
    ensures SplitSoFar(fs, args, i + 1, flagArgs, positional + [args[i]])
  {
    assert args[i..][1..] == args[i + 1..];
  }

  lemma SplitFlag(fs: FlagSet, args: seq<string>, i: nat, flagArgs: seq<string>, positional: seq<string>)
    requires i < |args| && SplitSoFar(fs, args, i, flagArgs, positional)
    requires LooksLikeFlagToken(args[i]) && args[i] != "--"
    ensures if TakesNext(fs, args[i]) && i + 1 < |args|
            then SplitSoFar(fs, args, i + 2, flagArgs + [args[i]] + [args[i + 1]], positional)
            else SplitSoFar(fs, args, i + 1, flagArgs + [args[i]], positional)
  {
    var here, n := args[i..], Width(fs, args[i..]);
    assert here[n..] == args[i + n..];
    if n == 2 {
      assert here[..n] == [args[i]] + [args[i + 1]];
    } else {
      assert here[..n] == [args[i]];
    }
  }

  lemma SplitTerminator(fs: FlagSet, args: seq<string>, i: nat, flagArgs: seq<string>, positional: seq<string>)
    requires i < |args| && SplitSoFar(fs, args, i, flagArgs, positional) && args[i] == "--"
    ensures Reorder(fs, args).0 == flagArgs && Reorder(fs, args).1 == positional + args[i + 1..]
  {
    assert args[i..][1..] == args[i + 1..];
  }

  method InterspersedFlagArgs(fs: FlagSet, args: seq<string>) returns (out: seq<string>)
    ensures out == Reorder(fs, args).0 + Reorder(fs, args).1
  {
    var flagArgs: seq<string>, positional: seq<string> := [], [];
    var i := 0;
    assert args[0..] == args;
    while i < |args|
      invariant 0 <= i <= |args|
      invariant SplitSoFar(fs, args, i, flagArgs, positional)
      decreases |args| - i
    {
      var arg := args[i];
      if arg == "--" {
        SplitTerminator(fs, args, i, flagArgs, positional);
        return flagArgs + (positional + args[i + 1..]);
      }
      if !LooksLikeFlagToken(arg) {
        SplitPositional(fs, args, i, flagArgs, positional);
        positional := positional + [arg];
        i := i + 1;
        continue;
      }
      SplitFlag(fs, args, i, flagArgs, positional);
      flagArgs := flagArgs + [arg];
      var (name, inlineValue) := FlagTokenName(arg);
      if name !in fs.kinds || inlineValue || fs.kinds[name].BoolFlag? || i + 1 >= |args| {
        i := i + 1;
        continue;
      }
      i := i + 1;
      flagArgs := flagArgs + [args[i]];
      i := i + 1;
    }
    return flagArgs + positional;
  }

  /** A value flag standing last without a value: the permuting parser rejects it. */
  predicate Dangling(fs: FlagSet, args: seq<string>) {
    |args| == 1 && LooksLikeFlagToken(args[0]) &&
    var body := Body(args[0]);
    body != "" && body[0] != '-' && body[0] != '=' && TakesNext(fs, args[0])
  }

  /**
   The two shapes on which moving the flags to the front changes the meaning of the line:
   a "--" with no positional before it and something flag-like after it (the "--" is dropped),
   and a last value flag without its value after some positional it is able to swallow.
   `before` holds the positionals seen so far.
   */
  predicate Trap(fs: FlagSet, args: seq<string>, before: seq<string>)
    decreases |args|
  {
    if args == [] then false
    else if args[0] == "--" then before == [] && |args| > 1 && LooksLikeFlagToken(args[1])
    else if !LooksLikeFlagToken(args[0]) then Trap(fs, args[1..], before + [args[0]])
    else
      match ParseOne(fs, args)
      case Took(_, rest) => Trap(fs, rest, before)
      case _ => Dangling(fs, args) && before != [] && fs.accepts(FlagTokenName(args[0]).0, before[0])
  }

  predicate AllPositional(args: seq<string>) {
    forall a | a in args :: !LooksLikeFlagToken(a)
  }

  lemma {:induction false} TrimLeftDashesOf(arg: string, k: nat)
    requires k <= 2 && k < |arg| && arg[k] != '-'
    requires forall i :: 0 <= i < k ==> arg[i] == '-'
    ensures TrimLeftDashes(arg) == arg[k..]
  {
    if k > 0 {
      TrimLeftDashesOf(arg[1..], k - 1);
    }
  }

  /** On every well-formed token the re-orderer and Go's parser agree about the flag's name. */
  lemma {:induction false} TokenNamesAgree(arg: string)
    requires LooksLikeFlagToken(arg) && Body(arg) != "" && Body(arg)[0] != '-'
    ensures var i := IndexOf(Body(arg), '=');
            FlagTokenName(arg) == (Body(arg)[..i], i < |Body(arg)|)
  {
    TrimLeftDashesOf(arg, if arg[1] == '-' then 2 else 1);
  }

  /** A flag step looks only at the token and its value, not at what follows: the token alone, then with a value. */
  lemma TokenAlone(fs: FlagSet, args: seq<string>, moved: seq<string>)
    requires args != [] && moved != [] && moved[0] == args[0] && LooksLikeFlagToken(args[0]) && args[0] != "--"
    requires !TakesNext(fs, args[0])
    ensures var here, there := ParseOne(fs, args), ParseOne(fs, moved);
      && !here.Stop? && (here.Took? ==> here.rest == args[1..])
      && there == if here.Took? then Took(here.assignment, moved[1..]) else Bad
  {
    var body := Body(args[0]);
    if body != "" && body[0] != '-' {
      TokenNamesAgree(args[0]);
    }
  }

  lemma TokenWithValue(fs: FlagSet, args: seq<string>, moved: seq<string>)
    requires |args| > 1 && |moved| > 1 && moved[0] == args[0] && moved[1] == args[1]
    requires LooksLikeFlagToken(args[0]) && args[0] != "--" && TakesNext(fs, args[0])
    ensures var here, there := ParseOne(fs, args), ParseOne(fs, moved);
      && !here.Stop? && (here.Took? ==> here.rest == args[2..])
      && there == if here.Took? then Took(here.assignment, moved[2..]) else Bad
  {
    var body := Body(args[0]);
    if body != "" && body[0] != '-' {
      TokenNamesAgree(args[0]);
    }
  }

  lemma StepIsLocal(fs: FlagSet, args: seq<string>, tail: seq<string>)
    requires args != [] && LooksLikeFlagToken(args[0]) && args[0] != "--"
    requires !Dangling(fs, args)
    ensures var n, here := Width(fs, args), ParseOne(fs, args);
            ParseOne(fs, args[..n] + tail) == (if here.Took? then Took(here.assignment, tail) else Bad)
            && !here.Stop? && (here.Took? ==> here.rest == args[n..])
  {
    var n := Width(fs, args);
    var moved := args[..n] + tail;
    assert moved[0] == args[0] && moved[n..] == tail;
    if !TakesNext(fs, args[0]) {
      TokenAlone(fs, args, moved);
    } else if |args| > 1 {
      assert moved[1] == args[1];
      TokenWithValue(fs, args, moved);
    }
  }

  /** A dangling value flag swallows the first argument moved behind it. */
  lemma {:induction false} DanglingStep(fs: FlagSet, args: seq<string>, tail: seq<string>)
    requires Dangling(fs, args)
    ensures ParseOne(fs, args).Bad?
    ensures ParseOne(fs, args + tail) ==
            if tail == [] then Bad else Assign(fs, FlagTokenName(args[0]).0, tail[0], tail[1..])
  {
    TokenNamesAgree(args[0]);
    var moved := args + tail;
    if tail == [] {
      assert moved == args;
    } else {
      assert moved[0] == args[0] && moved[1] == tail[0] && moved[2..] == tail[1..];
    }
  }

  lemma AssigningInjective(a: Assignment, x: Outcome, y: Outcome)
    ensures Assigning(a, x) == Assigning(a, y) <==> x == y
  {
    assert ([a] + x.assignments)[1..] == x.assignments;
    assert ([a] + y.assignments)[1..] == y.assignments;
  }

  /** What the parser makes of the arguments after a "--" that the re-ordering dropped. */
  lemma {:induction false} AfterTerminator(fs: FlagSet, rest: seq<string>)
    ensures Parse(fs, rest) == Parsed([], rest) <==> rest == [] || !LooksLikeFlagToken(rest[0])
  {
    if rest != [] && rest[0] == "--" {
      assert |rest[1..]| != |rest|;
    }
  }

  /** What is to be shown of a line: re-ordered, it parses as the permuting parser says, unless it is a trap. */
  ghost predicate SoundFor(fs: FlagSet, args: seq<string>, before: seq<string>) {
    var (flagArgs, positional) := Reorder(fs, args);
    Parse(fs, flagArgs + (before + positional)) == Preceded(before, Permute(fs, args)) <==> !Trap(fs, args, before)
  }

  lemma SoundAtTerminator(fs: FlagSet, args: seq<string>, before: seq<string>)
    requires AllPositional(before) && args != [] && args[0] == "--"
    ensures SoundFor(fs, args, before)
  {
    var line := before + args[1..];
    assert Reorder(fs, args).0 + (before + Reorder(fs, args).1) == line;
    if before == [] {
      assert line == args[1..];
      AfterTerminator(fs, args[1..]);
    } else {
      assert line[0] == before[0];
    }
  }

  /** The re-ordered line is what the flag step consumes and then the rest, re-ordered. */
  lemma ReorderAtFlag(fs: FlagSet, args: seq<string>, before: seq<string>)
    requires args != [] && LooksLikeFlagToken(args[0]) && args[0] != "--"
    ensures var n := Width(fs, args);
      var rest := Reorder(fs, args[n..]);
      Reorder(fs, args).0 + (before + Reorder(fs, args).1) == args[..n] + (rest.0 + (before + rest.1))
  {
  }

  lemma SoundAtDangling(fs: FlagSet, args: seq<string>, before: seq<string>)
    requires AllPositional(before) && args != [] && LooksLikeFlagToken(args[0]) && args[0] != "--" && Dangling(fs, args)
    ensures SoundFor(fs, args, before)
  {
    var n := Width(fs, args);
    ReorderAtFlag(fs, args, before);
    assert args[n..] == [] && args[..n] == args && Reorder(fs, []) == ([], []);
    assert [] + (before + []) == before;
    DanglingStep(fs, args, before);
  }

  lemma SoundAtFlag(fs: FlagSet, args: seq<string>, before: seq<string>)
    requires AllPositional(before) && args != [] && LooksLikeFlagToken(args[0]) && args[0] != "--" && !Dangling(fs, args)
    requires SoundFor(fs, args[Width(fs, args)..], before)
    ensures SoundFor(fs, args, before)
  {
    var n := Width(fs, args);
    var rest := Reorder(fs, args[n..]);
    var tail := rest.0 + (before + rest.1);
    ReorderAtFlag(fs, args, before);
    StepIsLocal(fs, args, tail);
    if ParseOne(fs, args).Took? {
      AssigningInjective(ParseOne(fs, args).assignment, Parse(fs, tail), Preceded(before, Permute(fs, args[n..])));
    }
  }

  lemma {:induction false} ReorderSound(fs: FlagSet, args: seq<string>, before: seq<string>)
    requires AllPositional(before)
    ensures SoundFor(fs, args, before)
    decreases |args|
  {
    if args == [] {
      assert [] + (before + []) == before;
    } else if args[0] == "--" {
      SoundAtTerminator(fs, args, before);
    } else if LooksLikeFlagToken(args[0]) {
      if Dangling(fs, args) {
        SoundAtDangling(fs, args, before);
      } else {
        ReorderSound(fs, args[Width(fs, args)..], before);
        SoundAtFlag(fs, args, before);
      }
    } else {
      ReorderSound(fs, args[1..], before + [args[0]]);
      assert before + Reorder(fs, args).1 == before + [args[0]] + Reorder(fs, args[1..]).1;
      PrecededTwice(before, args[0], Permute(fs, args[1..]));
    }
  }

  lemma PrecededTwice(before: seq<string>, p: string, o: Outcome)
    ensures Preceded(before + [p], o) == Preceded(before, Preceded([p], o))
  {
    if o.Parsed? {
      assert before + [p] + o.positionals == before + ([p] + o.positionals);
    }
  }

  /**
   For every argument list, the stop-at-first-positional parser run on the re-ordered line does
   exactly what the permuting parser does on the original - same assignments in the same order,
   same positionals, same rejection - if and only if the line is not one of the two traps.
   */
  lemma ReorderedParseMatchesPermutingParse(fs: FlagSet, args: seq<string>)
    ensures var (flagArgs, positional) := Reorder(fs, args);
            Parse(fs, flagArgs + positional) == Permute(fs, args) <==> !Trap(fs, args, [])
  {
    ReorderSound(fs, args, []);
    var (flagArgs, positional) := Reorder(fs, args);
    assert [] + positional == positional;
    var o := Permute(fs, args);
    assert o.Parsed? ==> [] + o.positionals == o.positionals;
  }

  /** True if a "--" stands where the permuting parser expects a flag or a positional. */
  predicate HasTerminator(fs: FlagSet, args: seq<string>)
    decreases |args|
  {
    args != [] &&
    (args[0] == "--" ||
     if !LooksLikeFlagToken(args[0]) then HasTerminator(fs, args[1..])
     else match ParseOne(fs, args)
       case Took(_, rest) => HasTerminator(fs, rest)
       case _ => false)
  }

  lemma {:induction false} NoTrapWithoutTerminator(fs: FlagSet, args: seq<string>, before: seq<string>)
    requires Permute(fs, args).Parsed? && !HasTerminator(fs, args)
    ensures !Trap(fs, args, before)
    decreases |args|
  {
    if args == [] {
    } else if !LooksLikeFlagToken(args[0]) {
      NoTrapWithoutTerminator(fs, args[1..], before + [args[0]]);
    } else {
      NoTrapWithoutTerminator(fs, ParseOne(fs, args).rest, before);
    }
  }

  /** Every line without "--" that the permuting parser accepts is parsed the same way after re-ordering. */
  lemma AcceptedLinesSurviveReordering(fs: FlagSet, args: seq<string>)
    requires Permute(fs, args).Parsed? && !HasTerminator(fs, args)
    ensures Parse(fs, Reorder(fs, args).0 + Reorder(fs, args).1) == Permute(fs, args)
  {
    NoTrapWithoutTerminator(fs, args, []);
    ReorderedParseMatchesPermutingParse(fs, args);
  }

  /** The terminator trap is real: "-- -x" puts "-x" where it is read as a flag. */
  lemma TerminatorIsDropped(fs: FlagSet)
    ensures Permute(fs, ["--", "-x"]) == Parsed([], ["-x"])
    ensures Parse(fs, Reorder(fs, ["--", "-x"]).0 + Reorder(fs, ["--", "-x"]).1) != Parsed([], ["-x"])
  {
    assert ["--", "-x"][1..] == ["-x"];
    assert Trap(fs, ["--", "-x"], []);
    ReorderedParseMatchesPermutingParse(fs, ["--", "-x"]);
  }
}
