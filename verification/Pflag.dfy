// The command-line parser of POSIX-style flags (spf13/pflag/flag.go), and the
// printer it inverts. Arguments are strings of bytes.
module Pflags {
  import opened Options
  import opened Strings

  // A flag with a default for being given without a value, if that is not empty.
  datatype Flag = Flag(name: string, noOptDefVal: string)

  // The defined flags; `accepts` says whether a flag's Value takes a value.
  datatype Definitions = Definitions(
    formal: map<string, Flag>,
    shorthands: map<char, Flag>,
    normalize: string -> string,
    interspersed: bool,
    accepts: (Flag, string) -> bool)
  {
    predicate HasLong(name: string) {
      normalize(name) in formal
    }

    function Long(name: string): Flag
      requires HasLong(name)
    {
      formal[normalize(name)]
    }
  }

  datatype Error = BadSyntax | UnknownFlag | Help | NeedsArgument | InvalidArgument

  // One call of a Value's Set.
  datatype Assignment = Assignment(flag: Flag, value: string)

  // What parsing leaves: the Set calls made, in order, the positional arguments,
  // how many of these came before "--", and the error, if any.
  datatype Outcome = Outcome(sets: seq<Assignment>, args: seq<string>, dash: Option<nat>, error: Option<Error>)

  // What one argument does: Set calls, arguments after it used up, an error.
  datatype Step = Step(sets: seq<Assignment>, used: nat, error: Option<Error>)

  function SetFlag(d: Definitions, flag: Flag, value: string, used: nat): Step {
    if d.accepts(flag, value) then Step([Assignment(flag, value)], used, None) else Step([], used, Some(InvalidArgument))
  }

  function ParseLong(d: Definitions, s: string, rest: seq<string>): (step: Step)
    requires |s| >= 2
    ensures step.used <= |rest|
  {
    var body := s[2..];
    var i := IndexOf(body, '=');
    var name := body[..i];
    if body == "" || body[0] == '-' || body[0] == '=' then Step([], 0, Some(BadSyntax))
    else if !d.HasLong(name) then Step([], 0, Some(if name == "help" then Help else UnknownFlag))
    else if i < |body| then SetFlag(d, d.Long(name), body[i + 1..], 0)
    else if d.Long(name).noOptDefVal != "" then SetFlag(d, d.Long(name), d.Long(name).noOptDefVal, 0)
    else if rest != [] then SetFlag(d, d.Long(name), rest[0], 1)
    else Step([], 0, Some(NeedsArgument))
  }

  // One shorthand of a cluster; `left` is what is left of the cluster.
  function ParseSingle(d: Definitions, shorts: string, rest: seq<string>): (r: (Step, string))
    requires shorts != ""
    ensures r.0.used <= |rest| && |r.1| < |shorts|
    ensures r.0.used > 0 ==> r.1 == ""
  {
    var c, left := shorts[0], shorts[1..];
    if c !in d.shorthands then (Step([], 0, Some(if c == 'h' then Help else UnknownFlag)), left)
    else
      var flag := d.shorthands[c];
      if |shorts| > 2 && shorts[1] == '=' then (SetFlag(d, flag, shorts[2..], 0), "")
      else if flag.noOptDefVal != "" then (SetFlag(d, flag, flag.noOptDefVal, 0), left)
      else if |shorts| > 1 then (SetFlag(d, flag, left, 0), "")
      else if rest != [] then (SetFlag(d, flag, rest[0], 1), left)
      else (Step([], 0, Some(NeedsArgument)), left)
  }

  function ParseShorts(d: Definitions, shorts: string, rest: seq<string>): (step: Step)
    ensures step.used <= |rest|
    decreases |shorts|
  {
    if shorts == "" then Step([], 0, None)
    else
      var (first, left) := ParseSingle(d, shorts, rest);
      if first.error.Some? || first.used > 0 then first
      else
        var more := ParseShorts(d, left, rest);
        more.(sets := first.sets + more.sets)
  }

  // A step that some Set calls come before.
  function Resumed(done: seq<Assignment>, step: Step): Step {
    step.(sets := done + step.sets)
  }

  lemma NoShorts(d: Definitions, rest: seq<string>)
    ensures ParseShorts(d, "", rest) == Step([], 0, None)
  {
  }

  // One shorthand, and then the others.
  lemma ShortsStep(d: Definitions, shorts: string, rest: seq<string>, done: seq<Assignment>)
    requires shorts != ""
    ensures var (first, left) := ParseSingle(d, shorts, rest);
            Resumed(done, ParseShorts(d, shorts, rest)) ==
              if first.error.Some? || first.used > 0 || left == "" then Resumed(done, first)
              else Resumed(done + first.sets, ParseShorts(d, left, rest))
  {
    var (first, left) := ParseSingle(d, shorts, rest);
    var more := ParseShorts(d, left, rest);
    assert done + (first.sets + more.sets) == done + first.sets + more.sets;
  }

  predicate IsPositional(s: string) {
    s == "" || s[0] != '-' || |s| == 1
  }

  function ParseOne(d: Definitions, s: string, rest: seq<string>): (step: Step)
    requires !IsPositional(s)
    ensures step.used <= |rest|
  {
    if s[1] == '-' then ParseLong(d, s, rest) else ParseShorts(d, s[1..], rest)
  }

  // An outcome that some Set calls and positional arguments come before.
  function After(sets: seq<Assignment>, args: seq<string>, o: Outcome): Outcome {
    Outcome(sets + o.sets, args + o.args, if o.dash.None? then None else Some(|args| + o.dash.value), o.error)
  }

  function ParseAll(d: Definitions, argv: seq<string>): Outcome
    decreases |argv|
  {
    if argv == [] then Outcome([], [], None, None)
    else
      var s, rest := argv[0], argv[1..];
      if IsPositional(s) then
        if d.interspersed then After([], [s], ParseAll(d, rest)) else Outcome([], argv, None, None)
      else if s == "--" then Outcome([], rest, Some(0), None)
      else
        var step := ParseOne(d, s, rest);
        if step.error.Some? then Outcome(step.sets, [], None, step.error)
        else After(step.sets, [], ParseAll(d, rest[step.used..]))
  }

  lemma AfterTwice(sets: seq<Assignment>, args: seq<string>, sets': seq<Assignment>, args': seq<string>, o: Outcome)
    ensures After(sets, args, After(sets', args', o)) == After(sets + sets', args + args', o)
  {
    assert sets + (sets' + o.sets) == sets + sets' + o.sets;
    assert args + (args' + o.args) == args + args' + o.args;
  }

  lemma NothingBefore(o: Outcome)
    ensures After([], [], o) == o
  {
  }

  lemma NothingLeft(d: Definitions, sets: seq<Assignment>, args: seq<string>)
    ensures After(sets, args, ParseAll(d, [])) == Outcome(sets, args, None, None)
  {
  }

  lemma OneIs(d: Definitions, s: string, rest: seq<string>)
    requires !IsPositional(s)
    ensures ParseOne(d, s, rest) == if s[1] == '-' then ParseLong(d, s, rest) else ParseShorts(d, s[1..], rest)
  {
  }

  lemma Regrouped<T>(a: seq<T>, b: seq<T>, c: seq<T>, d: seq<T>)
    ensures a + b + c + d == a + (b + c + d)
    ensures c == [] ==> a + b + d == a + (b + d)
  {
  }

  // One argument, and then the others.
  lemma AllStep(d: Definitions, argv: seq<string>, sets: seq<Assignment>, args: seq<string>)
    requires argv != []
    ensures var s, rest := argv[0], argv[1..];
            After(sets, args, ParseAll(d, argv)) ==
              if IsPositional(s) then
                if d.interspersed then After(sets, args + [s], ParseAll(d, rest)) else Outcome(sets, args + [s] + rest, None, None)
              else if s == "--" then Outcome(sets, args + rest, Some(|args|), None)
              else
                var step := ParseOne(d, s, rest);
                if step.error.Some? then Outcome(sets + step.sets, args, None, step.error)
                else After(sets + step.sets, args, ParseAll(d, rest[step.used..]))
  {
    hide ParseOne;
    var s, rest := argv[0], argv[1..];
    assert sets + [] == sets && args + [] == args;
    if IsPositional(s) {
      assert argv == [s] + rest;
      Regrouped(args, [s], [], rest);
      AfterTwice(sets, args, [], [s], ParseAll(d, rest));
    } else if s != "--" {
      StepAfter(d, argv, sets, args);
    }
  }

  lemma StepAfter(d: Definitions, argv: seq<string>, sets: seq<Assignment>, args: seq<string>)
    requires argv != [] && !IsPositional(argv[0]) && argv[0] != "--"
    ensures var step := ParseOne(d, argv[0], argv[1..]);
            After(sets, args, ParseAll(d, argv)) ==
              if step.error.Some? then Outcome(sets + step.sets, args, None, step.error)
              else After(sets + step.sets, args, ParseAll(d, argv[1..][step.used..]))
  {
    hide ParseOne;
    var step := ParseOne(d, argv[0], argv[1..]);
    assert args + [] == args;
    AfterTwice(sets, args, step.sets, [], ParseAll(d, argv[1..][step.used..]));
  }

  // ---- Command lines as they are written ----

  // How a cluster of shorthands ends: without a value, or with one attached, after
  // an equals sign, or in the next argument.
  datatype Tail = NoTail | Attached(c: char, value: string) | Equals(c: char, value: string) | Separate(c: char, value: string)

  // An assignment of one or more flags, or a positional argument among them.
  datatype Item =
    | Word(s: string)                         // s
    | LongEquals(name: string, value: string) // --name=value
    | LongSpace(name: string, value: string)  // --name value
    | LongBare(name: string)                  // --name
    | Short(letters: string, tail: Tail)      // -xyz, -xyzvalue, -xyz=value, -xyz value

  // What may follow all the flags.
  datatype Ending = End | Dash(args: seq<string>) | Stop(args: seq<string>)

  function TailText(tail: Tail): string {
    match tail
    case NoTail => ""
    case Attached(c, v) => [c] + v
    case Equals(c, v) => [c] + "=" + v
    case Separate(c, _) => [c]
  }

  // The item's arguments.
  function Tokens(item: Item): (ts: seq<string>)
    ensures 1 <= |ts| <= 2
  {
    match item
    case Word(s) => [s]
    case LongEquals(n, v) => ["--" + (n + ['='] + v)]
    case LongSpace(n, v) => ["--" + n, v]
    case LongBare(n) => ["--" + n]
    case Short(ls, tail) => ["-" + (ls + TailText(tail))] + if tail.Separate? then [tail.value] else []
  }

  function Render(items: seq<Item>, ending: Ending): seq<string> {
    if items == [] then
      match ending
      case End => []
      case Dash(args) => ["--"] + args
      case Stop(args) => args
    else Tokens(items[0]) + Render(items[1..], ending)
  }

  // ---- Which of them are in order ----

  predicate LongFits(d: Definitions, name: string) {
    name != "" && name[0] != '-' && '=' !in name && d.HasLong(name)
  }

  // Letters that need no value. None may be followed by "=" and more: that is a value.
  predicate LettersFit(d: Definitions, letters: string, text: string) {
    letters == "" ||
    (var flag, left := letters[0], letters[1..] + text;
     && flag in d.shorthands && d.shorthands[flag].noOptDefVal != "" && d.accepts(d.shorthands[flag], d.shorthands[flag].noOptDefVal)
     && !(|left| >= 2 && left[0] == '=')
     && LettersFit(d, letters[1..], text))
  }

  predicate TailFits(d: Definitions, tail: Tail) {
    tail.NoTail? ||
    (&& tail.c in d.shorthands && d.accepts(d.shorthands[tail.c], tail.value)
     && match tail
        case Attached(c, v) => d.shorthands[c].noOptDefVal == "" && v != "" && !(|v| >= 2 && v[0] == '=')
        case Equals(c, v) => v != ""
        case Separate(c, v) => d.shorthands[c].noOptDefVal == "")
  }

  predicate Fits(d: Definitions, item: Item) {
    match item
    case Word(s) => d.interspersed && IsPositional(s)
    case LongEquals(n, v) => LongFits(d, n) && d.accepts(d.Long(n), v)
    case LongSpace(n, v) => LongFits(d, n) && d.Long(n).noOptDefVal == "" && d.accepts(d.Long(n), v)
    case LongBare(n) => LongFits(d, n) && d.Long(n).noOptDefVal != "" && d.accepts(d.Long(n), d.Long(n).noOptDefVal)
    case Short(ls, tail) =>
      && LettersFit(d, ls, TailText(tail)) && TailFits(d, tail)
      && ls + TailText(tail) != "" && (ls + TailText(tail))[0] != '-'
  }

  predicate EndingFits(d: Definitions, ending: Ending) {
    ending.Stop? ==> !d.interspersed && ending.args != [] && IsPositional(ending.args[0])
  }

  // ---- And what they mean ----

  function LetterSets(d: Definitions, letters: string): seq<Assignment>
    requires forall c | c in letters :: c in d.shorthands
  {
    if letters == "" then []
    else [Assignment(d.shorthands[letters[0]], d.shorthands[letters[0]].noOptDefVal)] + LetterSets(d, letters[1..])
  }

  lemma {:induction false} FittingLettersAreDefined(d: Definitions, letters: string, text: string)
    requires LettersFit(d, letters, text)
    ensures forall c | c in letters :: c in d.shorthands
  {
    if letters != "" {
      FittingLettersAreDefined(d, letters[1..], text);
    }
  }

  function ItemSets(d: Definitions, item: Item): seq<Assignment>
    requires Fits(d, item)
  {
    match item
    case Word(_) => []
    case LongEquals(n, v) => [Assignment(d.Long(n), v)]
    case LongSpace(n, v) => [Assignment(d.Long(n), v)]
    case LongBare(n) => [Assignment(d.Long(n), d.Long(n).noOptDefVal)]
    case Short(ls, tail) =>
      FittingLettersAreDefined(d, ls, TailText(tail));
      LetterSets(d, ls) + if tail.NoTail? then [] else [Assignment(d.shorthands[tail.c], tail.value)]
  }

  // Exactly the assignments, in order, and exactly the positional arguments.
  function Meaning(d: Definitions, items: seq<Item>, ending: Ending): Outcome
    requires forall item | item in items :: Fits(d, item)
  {
    if items == [] then
      match ending
      case End => Outcome([], [], None, None)
      case Dash(args) => Outcome([], args, Some(0), None)
      case Stop(args) => Outcome([], args, None, None)
    else After(ItemSets(d, items[0]), if items[0].Word? then [items[0].s] else [], Meaning(d, items[1..], ending))
  }

  // ---- Parsing inverts rendering ----

  lemma ShortsTail(d: Definitions, tail: Tail, rest: seq<string>)
    requires TailFits(d, tail) && !tail.NoTail?
    requires tail.Separate? ==> rest != [] && rest[0] == tail.value
    ensures ParseShorts(d, TailText(tail), rest) == Step([Assignment(d.shorthands[tail.c], tail.value)], if tail.Separate? then 1 else 0, None)
  {
    var text := TailText(tail);
    if tail.Equals? {
      assert text[2..] == tail.value;
    } else if tail.Attached? {
      assert text[1..] == tail.value;
      assert text[2..] == tail.value[1..];
    }
    assert ParseShorts(d, "", rest) == Step([], 0, None);
  }

  // A letter that fits is its own Set call.
  lemma ShortsLetter(d: Definitions, ls: string, text: string, rest: seq<string>)
    requires ls != "" && LettersFit(d, ls, text)
    ensures ParseSingle(d, ls + text, rest) ==
              (Step([Assignment(d.shorthands[ls[0]], d.shorthands[ls[0]].noOptDefVal)], 0, None), ls[1..] + text)
  {
    assert (ls + text)[1..] == ls[1..] + text;
  }

  lemma {:induction false} ShortsOfItem(d: Definitions, ls: string, tail: Tail, rest: seq<string>)
    requires LettersFit(d, ls, TailText(tail)) && TailFits(d, tail)
    requires tail.Separate? ==> rest != [] && rest[0] == tail.value
    requires forall c | c in ls :: c in d.shorthands
    ensures ParseShorts(d, ls + TailText(tail), rest) ==
              Step(LetterSets(d, ls) + if tail.NoTail? then [] else [Assignment(d.shorthands[tail.c], tail.value)], if tail.Separate? then 1 else 0, None)
  {
    if ls == "" {
      assert ls + TailText(tail) == TailText(tail);
      if !tail.NoTail? {
        ShortsTail(d, tail, rest);
      }
    } else {
      ShortsLetter(d, ls, TailText(tail), rest);
      ShortsOfItem(d, ls[1..], tail, rest);
    }
  }

  // One item is one argument's step.
  lemma OneItem(d: Definitions, item: Item, rest: seq<string>)
    requires Fits(d, item) && !item.Word?
    ensures var s, after := Tokens(item)[0], Tokens(item)[1..] + rest;
            && !IsPositional(s) && s != "--"
            && ParseOne(d, s, after) == Step(ItemSets(d, item), |Tokens(item)| - 1, None)
  {
    var s, after := Tokens(item)[0], Tokens(item)[1..] + rest;
    match item {
      case LongEquals(n, v) =>
        assert s[2..] == n + ['='] + v;
        IndexOfSeparator(n, '=', v);
        assert s[2..][..|n|] == n && s[2..][|n| + 1..] == v;
      case LongSpace(n, v) =>
        assert s[2..] == n && n[..|n|] == n && after == [v] + rest;
        IndexOfAbsent(n, '=');
      case LongBare(n) =>
        assert s[2..] == n && n[..|n|] == n;
        IndexOfAbsent(n, '=');
      case Short(ls, tail) =>
        assert s[1..] == ls + TailText(tail);
        FittingLettersAreDefined(d, ls, TailText(tail));
        ShortsOfItem(d, ls, tail, after);
    }
  }

  // The parser on one item, whatever follows it.
  lemma ItemStep(d: Definitions, item: Item, rest: seq<string>)
    requires Fits(d, item)
    ensures ParseAll(d, Tokens(item) + rest) == After(ItemSets(d, item), if item.Word? then [item.s] else [], ParseAll(d, rest))
  {
    hide ParseAll, ParseOne, Tokens, ItemSets;
    var argv := Tokens(item) + rest;
    AllStep(d, argv, [], []);
    NothingBefore(ParseAll(d, argv));
    assert argv[1..] == Tokens(item)[1..] + rest;
    if item.Word? {
      WordTokens(d, item);
      assert argv[1..] == rest;
      assert [] + [item.s] == [item.s];
    } else {
      OneItem(d, item, rest);
      assert argv[1..][|Tokens(item)| - 1..] == rest;
      assert [] + ItemSets(d, item) == ItemSets(d, item);
    }
  }

  lemma WordTokens(d: Definitions, item: Item)
    requires Fits(d, item) && item.Word?
    ensures Tokens(item) == [item.s] && ItemSets(d, item) == []
  {
  }

  // Whatever is written in order is parsed as what it means.
  lemma {:induction false} ParsesRendered(d: Definitions, items: seq<Item>, ending: Ending)
    requires (forall item | item in items :: Fits(d, item)) && EndingFits(d, ending)
    ensures ParseAll(d, Render(items, ending)) == Meaning(d, items, ending)
  {
    if items == [] {
      EndingParses(d, ending);
    } else {
      hide Fits, ItemSets, ParseAll, Tokens;
      ParsesRendered(d, items[1..], ending);
      ItemStep(d, items[0], Render(items[1..], ending));
    }
  }

  lemma EndingParses(d: Definitions, ending: Ending)
    requires EndingFits(d, ending)
    ensures ParseAll(d, Render([], ending)) == Meaning(d, [], ending)
  {
    match ending {
      case End =>
      case Dash(args) => assert (["--"] + args)[1..] == args;
      case Stop(args) =>
    }
  }

  // ---- And conversely: what is parsed was written in order ----

  lemma {:induction false} ReadShorts(d: Definitions, shorts: string, rest: seq<string>) returns (letters: string, tail: Tail)
    requires shorts != "" && ParseShorts(d, shorts, rest).error.None?
    ensures shorts == letters + TailText(tail) && LettersFit(d, letters, TailText(tail)) && TailFits(d, tail)
    ensures rest[..ParseShorts(d, shorts, rest).used] == if tail.Separate? then [tail.value] else []
    decreases |shorts|
  {
    var c, left := shorts[0], shorts[1..];
    letters := "";
    assert shorts == [c] + left;
    if |shorts| > 2 && shorts[1] == '=' {
      tail := Equals(c, shorts[2..]);
      assert shorts == [c] + "=" + shorts[2..];
    } else if d.shorthands[c].noOptDefVal != "" {
      if left == "" {
        letters, tail := [c], NoTail;
        LetterAdded(d, c, "", "");
      } else {
        var more;
        more, tail := ReadShorts(d, left, rest);
        letters := [c] + more;
        LetterAdded(d, c, more, TailText(tail));
      }
    } else if |shorts| > 1 {
      tail := Attached(c, left);
    } else {
      tail := Separate(c, rest[0]);
      assert shorts == [c];
    }
  }

  lemma LetterAdded(d: Definitions, c: char, letters: string, text: string)
    requires LettersFit(d, letters, text)
    requires c in d.shorthands && d.shorthands[c].noOptDefVal != "" && d.accepts(d.shorthands[c], d.shorthands[c].noOptDefVal)
    requires !(|letters + text| >= 2 && (letters + text)[0] == '=')
    ensures LettersFit(d, [c] + letters, text) && [c] + letters + text == [c] + (letters + text)
  {
    var all := [c] + letters;
    assert all[0] == c && all[1..] == letters && all != "";
  }

  lemma ReadLong(d: Definitions, s: string, rest: seq<string>) returns (item: Item)
    requires |s| >= 2 && s[..2] == "--" && ParseLong(d, s, rest).error.None?
    ensures !item.Word? && Fits(d, item) && Tokens(item) == [s] + rest[..ParseLong(d, s, rest).used]
  {
    var body := s[2..];
    var i := IndexOf(body, '=');
    NoneBeforeIndex(body, '=');
    assert s == "--" + body;
    if i < |body| {
      item := LongEquals(body[..i], body[i + 1..]);
      assert body == body[..i] + ['='] + body[i + 1..];
    } else {
      assert body[..i] == body;
      item := if d.Long(body).noOptDefVal != "" then LongBare(body) else LongSpace(body, rest[0]);
    }
  }

  lemma ReadItem(d: Definitions, s: string, rest: seq<string>) returns (item: Item)
    requires !IsPositional(s) && s != "--" && ParseOne(d, s, rest).error.None?
    ensures !item.Word? && Fits(d, item) && Tokens(item) == [s] + rest[..ParseOne(d, s, rest).used]
  {
    if s[1] == '-' {
      item := ReadLong(d, s, rest);
    } else {
      var letters, tail := ReadShorts(d, s[1..], rest);
      item := Short(letters, tail);
      assert s == "-" + s[1..];
    }
  }

  ghost predicate IsRendering(d: Definitions, argv: seq<string>, items: seq<Item>, ending: Ending) {
    (forall item | item in items :: Fits(d, item)) && EndingFits(d, ending) && Render(items, ending) == argv
  }

  // Every argument of a command line that parses is accounted for.
  lemma {:induction false} ReadAll(d: Definitions, argv: seq<string>) returns (items: seq<Item>, ending: Ending)
    requires ParseAll(d, argv).error.None?
    ensures IsRendering(d, argv, items, ending)
    decreases |argv|
  {
    hide ParseOne, Fits, Tokens;
    if argv == [] {
      items, ending := [], End;
      return;
    }
    var s, rest := argv[0], argv[1..];
    if IsPositional(s) && !d.interspersed {
      items, ending := [], Stop(argv);
    } else if s == "--" {
      items, ending := [], Dash(rest);
      assert argv == ["--"] + rest;
    } else if IsPositional(s) {
      items, ending := ReadAll(d, rest);
      WordFits(d, s);
      items := [Word(s)] + items;
      assert items[1..] + [] == items[1..];
    } else {
      var used := ParseOne(d, s, rest).used;
      items, ending := ReadAll(d, rest[used..]);
      var item := ReadItem(d, s, rest);
      assert argv == [s] + rest[..used] + rest[used..];
      items := [item] + items;
    }
  }

  lemma WordFits(d: Definitions, s: string)
    requires d.interspersed && IsPositional(s)
    ensures Fits(d, Word(s)) && Tokens(Word(s)) == [s]
  {
  }

  // Parsing succeeds on exactly the command lines that are written in order.
  lemma ParsesExactlyRendered(d: Definitions, argv: seq<string>)
    ensures ParseAll(d, argv).error.None? <==> exists items, ending :: IsRendering(d, argv, items, ending)
  {
    if ParseAll(d, argv).error.None? {
      var items, ending := ReadAll(d, argv);
    }
    forall items, ending | IsRendering(d, argv, items, ending) ensures ParseAll(d, argv).error.None? {
      ParsesRendered(d, items, ending);
      NoErrorMeant(d, items, ending);
    }
  }

  lemma {:induction false} NoErrorMeant(d: Definitions, items: seq<Item>, ending: Ending)
    requires forall item | item in items :: Fits(d, item)
    ensures Meaning(d, items, ending).error.None?
  {
    if items != [] {
      NoErrorMeant(d, items[1..], ending);
    }
  }

  class FlagSet {
    const d: Definitions
    // The calls of Set on the flags' values, in order.
    var sets: seq<Assignment>
    // The flags set so far, by normalised name.
    var actual: map<string, Flag>
    var args: seq<string>
    var argsLenAtDash: int

    constructor (d: Definitions)
      ensures this.d == d && sets == [] && actual == map[] && args == [] && argsLenAtDash == -1
    {
      this.d := d;
      sets, actual, args, argsLenAtDash := [], map[], [], -1;
    }

    // The flags in `actual` are those of the Set calls.
    ghost predicate Visited()
      reads this`sets, this`actual
    {
      && (forall a | a in sets :: d.normalize(a.flag.name) in actual)
      && forall n | n in actual :: exists a :: a in sets && a.flag == actual[n] && d.normalize(a.flag.name) == n
    }

    method SetFlag(flag: Flag, value: string) returns (error: Option<Error>)
      requires Visited()
      modifies this`sets, this`actual
      ensures Visited()
      ensures error == if d.accepts(flag, value) then None else Some(InvalidArgument)
      ensures sets == if error.None? then old(sets) + [Assignment(flag, value)] else old(sets)
    {
      if !d.accepts(flag, value) {
        return Some(InvalidArgument);
      }
      ghost var before := sets;
      sets := sets + [Assignment(flag, value)];
      actual := actual[d.normalize(flag.name) := flag];
      assert Assignment(flag, value) in sets;
      forall n | n in actual ensures exists a :: a in sets && a.flag == actual[n] && d.normalize(a.flag.name) == n {
        if n == d.normalize(flag.name) {
          assert Assignment(flag, value).flag == actual[n];
        } else {
          var a :| a in before && a.flag == actual[n] && d.normalize(a.flag.name) == n;
          assert a in sets;
        }
      }
      return None;
    }

    method ParseLongArg(s: string, args: seq<string>) returns (a: seq<string>, error: Option<Error>)
      requires Visited() && |s| >= 2
      modifies this`sets, this`actual
      ensures Visited()
      ensures var step := ParseLong(d, s, args);
              sets == old(sets) + step.sets && error == step.error && a == args[step.used..]
    {
      a := args;
      var name := s[2..];
      if |name| == 0 || name[0] == '-' || name[0] == '=' {
        return a, Some(BadSyntax);
      }
      var i := IndexOf(name, '=');
      var body := name;
      name := name[..i];
      if !d.HasLong(name) {
        return a, Some(if name == "help" then Help else UnknownFlag);
      }
      var flag, value := d.Long(name), "";
      if i < |body| {
        value := body[i + 1..];
      } else if flag.noOptDefVal != "" {
        value := flag.noOptDefVal;
      } else if |a| > 0 {
        value := a[0];
        a := a[1..];
      } else {
        return a, Some(NeedsArgument);
      }
      error := SetFlag(flag, value);
    }

    method ParseSingleShortArg(shorthands: string, args: seq<string>) returns (outShorts: string, outArgs: seq<string>, error: Option<Error>)
      requires Visited() && |shorthands| > 0
      modifies this`sets, this`actual
      ensures Visited()
      ensures var (step, left) := ParseSingle(d, shorthands, args);
              sets == old(sets) + step.sets && error == step.error && outShorts == left && outArgs == args[step.used..]
    {
      outArgs := args;
      outShorts := shorthands[1..];
      var c := shorthands[0];
      if c !in d.shorthands {
        return outShorts, outArgs, Some(if c == 'h' then Help else UnknownFlag);
      }
      var flag, value := d.shorthands[c], "";
      if |shorthands| > 2 && shorthands[1] == '=' {
        value := shorthands[2..];
        outShorts := "";
      } else if flag.noOptDefVal != "" {
        value := flag.noOptDefVal;
      } else if |shorthands| > 1 {
        value := shorthands[1..];
        outShorts := "";
      } else if |args| > 0 {
        value := args[0];
        outArgs := args[1..];
      } else {
        return outShorts, outArgs, Some(NeedsArgument);
      }
      error := SetFlag(flag, value);
    }

    // Every shorthand is given the arguments from the start; only the last can use one.
    method ParseShortArg(s: string, args: seq<string>) returns (a: seq<string>, error: Option<Error>)
      requires Visited() && |s| >= 1
      modifies this`sets, this`actual
      ensures Visited()
      ensures var step := ParseShorts(d, s[1..], args);
              sets == old(sets) + step.sets && error == step.error && a == args[step.used..]
    {
      hide ParseShorts, ParseSingle, Visited;
      a, error := args, None;
      var shorthands := s[1..];
      ghost var spec := ParseShorts(d, shorthands, args);
      ghost var done: seq<Assignment>, used: nat := [], 0;
      NoShorts(d, args);
      while |shorthands| > 0
        invariant Visited() && error == None && sets == old(sets) + done && used <= |args| && a == args[used..]
        invariant spec == if shorthands == "" then Step(done, used, None) else Resumed(done, ParseShorts(d, shorthands, args))
      {
        ShortsStep(d, shorthands, args, done);
        ghost var step := ParseSingle(d, shorthands, args).0;
        shorthands, a, error := ParseSingleShortArg(shorthands, args);
        if error.Some? {
          return;
        }
        done, used := done + step.sets, step.used;
      }
    }

    method ParseArgs(arguments: seq<string>) returns (error: Option<Error>)
      requires Visited()
      modifies this
      ensures Visited()
      ensures var o := ParseAll(d, arguments);
              && sets == old(sets) + o.sets && args == old(args) + o.args && error == o.error
              && argsLenAtDash == if o.dash.None? then old(argsLenAtDash) else |old(args)| + o.dash.value
    {
      hide ParseAll, ParseOne, Visited;
      var argv := arguments;
      ghost var spec := ParseAll(d, arguments);
      ghost var doneSets: seq<Assignment>, doneArgs: seq<string> := [], [];
      NothingBefore(ParseAll(d, argv));
      while |argv| > 0
        invariant Visited() && sets == old(sets) + doneSets && args == old(args) + doneArgs && argsLenAtDash == old(argsLenAtDash)
        invariant spec == After(doneSets, doneArgs, ParseAll(d, argv))
        decreases |argv|
      {
        AllStep(d, argv, doneSets, doneArgs);
        var s := argv[0];
        argv := argv[1..];
        if |s| == 0 || s[0] != '-' || |s| == 1 {
          if !d.interspersed {
            args := args + [s];
            args := args + argv;
            Regrouped(old(args), doneArgs, [s], argv);
            return None;
          }
          args := args + [s];
          doneArgs := doneArgs + [s];
          continue;
        }
        if s[1] == '-' {
          if |s| == 2 {
            assert s == "--";
            argsLenAtDash := |args|;
            args := args + argv;
            Regrouped(old(args), doneArgs, [], argv);
            return None;
          }
          OneIs(d, s, argv);
          ghost var step := ParseLong(d, s, argv);
          argv, error := ParseLongArg(s, argv);
          Regrouped(old(sets), doneSets, [], step.sets);
          doneSets := doneSets + step.sets;
        } else {
          OneIs(d, s, argv);
          ghost var step := ParseShorts(d, s[1..], argv);
          argv, error := ParseShortArg(s, argv);
          Regrouped(old(sets), doneSets, [], step.sets);
          doneSets := doneSets + step.sets;
        }
        if error.Some? {
          return;
        }
      }
      NothingLeft(d, doneSets, doneArgs);
      return None;
    }

    // Parse, but for what it does with an error.
    method Parse(arguments: seq<string>) returns (error: Option<Error>)
      requires Visited()
      modifies this
      ensures Visited()
      ensures var o := ParseAll(d, arguments);
              && sets == old(sets) + o.sets && args == o.args && error == o.error
              && argsLenAtDash == if o.dash.None? then old(argsLenAtDash) else o.dash.value
    {
      args := [];
      error := ParseArgs(arguments);
    }
  }
}
