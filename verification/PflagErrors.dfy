// Which command lines fail, with which error, and what was set before
// (spf13/pflag/flag.go).
module PflagErrors {
  import opened Options
  import opened Strings
  import opened Pflags

  // What is wrong with one shorthand of a cluster.
  datatype BadShort =
    | UnknownShort(c: char, text: string)  // not defined, whatever follows
    | RefusedLetter(c: char, text: string) // its default is refused, whatever follows
    | RefusedTail(tail: Tail)              // its value is refused
    | NoValueShort(c: char)                // its value is missing

  // What is wrong with an argument.
  datatype Bad =
    | BadBody(body: string)                            // --body, which begins with "-" or "="
    | UnknownLong(name: string, value: Option<string>) // --name or --name=value, not defined
    | RefusedLong(item: Item)                          // its value is refused
    | NoValueLong(name: string)                        // --name, its value is missing
    | BadCluster(letters: string, short: BadShort)     // letters in order, and then a bad one

  function BadText(short: BadShort): string {
    match short
    case UnknownShort(c, text) => [c] + text
    case RefusedLetter(c, text) => [c] + text
    case RefusedTail(tail) => TailText(tail)
    case NoValueShort(c) => [c]
  }

  function BadTokens(bad: Bad): (ts: seq<string>)
    ensures 1 <= |ts| <= 2
  {
    match bad
    case BadBody(body) => ["--" + body]
    case UnknownLong(n, None) => ["--" + n]
    case UnknownLong(n, Some(v)) => ["--" + (n + ['='] + v)]
    case RefusedLong(item) => Tokens(item)
    case NoValueLong(n) => ["--" + n]
    case BadCluster(ls, short) =>
      ["-" + (ls + BadText(short))] + if short.RefusedTail? && short.tail.Separate? then [short.tail.value] else []
  }

  // Nothing follows an argument whose value is missing.
  predicate MissesValue(bad: Bad) {
    bad.NoValueLong? || (bad.BadCluster? && bad.short.NoValueShort?)
  }

  predicate ShortIsBad(d: Definitions, short: BadShort) {
    match short
    case UnknownShort(c, _) => c !in d.shorthands
    case RefusedLetter(c, text) =>
      && c in d.shorthands && d.shorthands[c].noOptDefVal != "" && !d.accepts(d.shorthands[c], d.shorthands[c].noOptDefVal)
      && !(|text| >= 2 && text[0] == '=')
    case RefusedTail(tail) =>
      && !tail.NoTail? && tail.c in d.shorthands && !d.accepts(d.shorthands[tail.c], tail.value)
      && (match tail
          case Attached(c, v) => d.shorthands[c].noOptDefVal == "" && v != "" && !(|v| >= 2 && v[0] == '=')
          case Equals(c, v) => v != ""
          case Separate(c, v) => d.shorthands[c].noOptDefVal == "")
    case NoValueShort(c) => c in d.shorthands && d.shorthands[c].noOptDefVal == ""
  }

  predicate IsBad(d: Definitions, bad: Bad) {
    match bad
    case BadBody(body) => body != "" && (body[0] == '-' || body[0] == '=')
    case UnknownLong(n, _) => n != "" && n[0] != '-' && '=' !in n && !d.HasLong(n)
    case RefusedLong(item) =>
      (match item
       case LongEquals(n, v) => LongFits(d, n) && !d.accepts(d.Long(n), v)
       case LongSpace(n, v) => LongFits(d, n) && d.Long(n).noOptDefVal == "" && !d.accepts(d.Long(n), v)
       case LongBare(n) => LongFits(d, n) && d.Long(n).noOptDefVal != "" && !d.accepts(d.Long(n), d.Long(n).noOptDefVal)
       case _ => false)
    case NoValueLong(n) => LongFits(d, n) && d.Long(n).noOptDefVal == ""
    case BadCluster(ls, short) =>
      && LettersFit(d, ls, BadText(short)) && ShortIsBad(d, short)
      && ls + BadText(short) != "" && (ls + BadText(short))[0] != '-'
  }

  function ErrorOf(bad: Bad): Error {
    match bad
    case BadBody(_) => BadSyntax
    case UnknownLong(n, _) => if n == "help" then Help else UnknownFlag
    case RefusedLong(_) => InvalidArgument
    case NoValueLong(_) => NeedsArgument
    case BadCluster(_, UnknownShort(c, _)) => if c == 'h' then Help else UnknownFlag
    case BadCluster(_, NoValueShort(_)) => NeedsArgument
    case BadCluster(_, _) => InvalidArgument
  }

  // The letters before the bad one are set.
  function SetsBefore(d: Definitions, bad: Bad): seq<Assignment>
    requires IsBad(d, bad)
  {
    if !bad.BadCluster? then []
    else
      FittingLettersAreDefined(d, bad.letters, BadText(bad.short));
      LetterSets(d, bad.letters)
  }

  // ---- Such command lines fail so ----

  lemma BadShortFails(d: Definitions, short: BadShort, rest: seq<string>)
    requires ShortIsBad(d, short)
    requires short.RefusedTail? && short.tail.Separate? ==> rest != [] && rest[0] == short.tail.value
    requires short.NoValueShort? ==> rest == []
    ensures var step := ParseShorts(d, BadText(short), rest);
            step.sets == [] && step.error == Some(ErrorOf(BadCluster("", short)))
  {
    var text := BadText(short);
    match short {
      case UnknownShort(c, more) => assert text[0] == c;
      case RefusedLetter(c, more) => assert text[0] == c && text[1..] == more;
      case RefusedTail(tail) =>
        if tail.Equals? {
          assert text[2..] == tail.value;
        } else if tail.Attached? {
          assert text[1..] == tail.value;
        }
      case NoValueShort(c) => assert text[0] == c;
    }
  }

  lemma {:induction false} BadClusterFails(d: Definitions, ls: string, short: BadShort, rest: seq<string>)
    requires LettersFit(d, ls, BadText(short)) && ShortIsBad(d, short) && forall c | c in ls :: c in d.shorthands
    requires short.RefusedTail? && short.tail.Separate? ==> rest != [] && rest[0] == short.tail.value
    requires short.NoValueShort? ==> rest == []
    ensures var step := ParseShorts(d, ls + BadText(short), rest);
            step.sets == LetterSets(d, ls) && step.error == Some(ErrorOf(BadCluster(ls, short)))
  {
    var text := BadText(short);
    if ls == "" {
      assert ls + text == text;
      hide ParseShorts, BadText, ShortIsBad;
      BadShortFails(d, short, rest);
    } else {
      ShortsLetter(d, ls, text, rest);
      hide ParseSingle, BadText, ShortIsBad;
      BadClusterFails(d, ls[1..], short, rest);
    }
  }

  lemma RefusedLongFails(d: Definitions, item: Item, rest: seq<string>)
    requires IsBad(d, RefusedLong(item))
    ensures var s, after := Tokens(item)[0], Tokens(item)[1..] + rest;
            && |s| > 2 && s[..2] == "--"
            && ParseLong(d, s, after).sets == [] && ParseLong(d, s, after).error == Some(InvalidArgument)
  {
    hide IndexOf;
    var s := Tokens(item)[0];
    LongName(item.name, if item.LongEquals? then item.value else "");
    assert s[2..] == if item.LongEquals? then item.name + ['='] + item.value else item.name;
  }

  lemma BadLongFails(d: Definitions, bad: Bad, rest: seq<string>)
    requires IsBad(d, bad) && !bad.BadCluster? && (MissesValue(bad) ==> rest == [])
    ensures var s, after := BadTokens(bad)[0], BadTokens(bad)[1..] + rest;
            && |s| > 2 && s[..2] == "--"
            && ParseLong(d, s, after).sets == [] && ParseLong(d, s, after).error == Some(ErrorOf(bad))
  {
    hide IndexOf;
    var s, after := BadTokens(bad)[0], BadTokens(bad)[1..] + rest;
    match bad {
      case BadBody(body) => assert s[2..] == body;
      case UnknownLong(n, v) =>
        LongName(n, if v.Some? then v.value else "");
        assert s[2..] == if v.Some? then n + ['='] + v.value else n;
      case RefusedLong(item) => RefusedLongFails(d, item, rest);
      case NoValueLong(n) =>
        LongName(n, "");
        assert s[2..] == n && after == [];
    }
  }

  lemma LongName(name: string, value: string)
    requires '=' !in name
    ensures IndexOf(name, '=') == |name| && name[..|name|] == name
    ensures var s := name + ['='] + value;
            IndexOf(s, '=') == |name| && s[..|name|] == name && s[|name| + 1..] == value
  {
    IndexOfAbsent(name, '=');
    IndexOfSeparator(name, '=', value);
  }

  lemma BadFails(d: Definitions, bad: Bad, rest: seq<string>)
    requires IsBad(d, bad) && (MissesValue(bad) ==> rest == [])
    ensures var s, after := BadTokens(bad)[0], BadTokens(bad)[1..] + rest;
            && !IsPositional(s) && s != "--"
            && ParseOne(d, s, after).sets == SetsBefore(d, bad) && ParseOne(d, s, after).error == Some(ErrorOf(bad))
  {
    hide ParseLong, ParseShorts;
    var s, after := BadTokens(bad)[0], BadTokens(bad)[1..] + rest;
    if bad.BadCluster? {
      assert s[1..] == bad.letters + BadText(bad.short);
      FittingLettersAreDefined(d, bad.letters, BadText(bad.short));
      BadClusterFails(d, bad.letters, bad.short, after);
    } else {
      BadLongFails(d, bad, rest);
    }
  }

  // Items in order, a bad argument, and anything.
  ghost predicate FailsAt(d: Definitions, argv: seq<string>, items: seq<Item>, bad: Bad, rest: seq<string>) {
    && (forall item | item in items :: Fits(d, item)) && IsBad(d, bad) && (MissesValue(bad) ==> rest == [])
    && argv == Render(items, Stop(BadTokens(bad) + rest))
  }

  // The items before are set, and of the bad argument what comes before the fault.
  lemma {:induction false} FailsSo(d: Definitions, argv: seq<string>, items: seq<Item>, bad: Bad, rest: seq<string>)
    requires FailsAt(d, argv, items, bad, rest)
    ensures var m := Meaning(d, items, End);
            ParseAll(d, argv) == Outcome(m.sets + SetsBefore(d, bad), m.args, None, Some(ErrorOf(bad)))
    decreases |items|
  {
    hide Fits, ItemSets, ParseAll, ParseOne, Tokens, SetsBefore, BadTokens, IsBad;
    if items == [] {
      AllStep(d, argv, [], []);
      NothingBefore(ParseAll(d, argv));
      BadFails(d, bad, rest);
      assert argv[1..] == BadTokens(bad)[1..] + rest;
    } else {
      var after := Render(items[1..], Stop(BadTokens(bad) + rest));
      FailsSo(d, after, items[1..], bad, rest);
      ItemStep(d, items[0], after);
      var m := Meaning(d, items[1..], End);
      assert ItemSets(d, items[0]) + (m.sets + SetsBefore(d, bad)) == ItemSets(d, items[0]) + m.sets + SetsBefore(d, bad);
    }
  }

  // ---- And no others ----

  lemma ReadBadLong(d: Definitions, s: string, rest: seq<string>) returns (bad: Bad)
    requires |s| > 2 && s[..2] == "--" && ParseLong(d, s, rest).error.Some?
    ensures IsBad(d, bad) && BadTokens(bad) <= [s] + rest && (MissesValue(bad) ==> rest == [])
  {
    var body := s[2..];
    var i := IndexOf(body, '=');
    var name := body[..i];
    NoneBeforeIndex(body, '=');
    assert s == "--" + body;
    if body[0] == '-' || body[0] == '=' {
      bad := BadBody(body);
    } else if i < |body| {
      var value := body[i + 1..];
      assert body == name + ['='] + value;
      bad := if d.HasLong(name) then RefusedLong(LongEquals(name, value)) else UnknownLong(name, Some(value));
    } else {
      assert name == body;
      bad := if !d.HasLong(name) then UnknownLong(name, None)
             else if d.Long(name).noOptDefVal != "" then RefusedLong(LongBare(name))
             else if rest != [] then RefusedLong(LongSpace(name, rest[0]))
             else NoValueLong(name);
    }
  }

  lemma {:induction false} ReadBadShorts(d: Definitions, shorts: string, rest: seq<string>) returns (letters: string, short: BadShort)
    requires shorts != "" && ParseShorts(d, shorts, rest).error.Some?
    ensures shorts == letters + BadText(short) && LettersFit(d, letters, BadText(short)) && ShortIsBad(d, short)
    ensures short.RefusedTail? && short.tail.Separate? ==> rest != [] && rest[0] == short.tail.value
    ensures short.NoValueShort? ==> rest == []
    decreases |shorts|
  {
    var c, left := shorts[0], shorts[1..];
    letters := "";
    assert shorts == [c] + left;
    if c !in d.shorthands {
      short := UnknownShort(c, left);
    } else if |shorts| > 2 && shorts[1] == '=' {
      short := RefusedTail(Equals(c, shorts[2..]));
      assert shorts == [c] + "=" + shorts[2..];
    } else if d.shorthands[c].noOptDefVal != "" {
      if !d.accepts(d.shorthands[c], d.shorthands[c].noOptDefVal) {
        short := RefusedLetter(c, left);
      } else {
        var more;
        more, short := ReadBadShorts(d, left, rest);
        letters := [c] + more;
        LetterAdded(d, c, more, BadText(short));
      }
    } else if |shorts| > 1 {
      short := RefusedTail(Attached(c, left));
    } else if rest != [] {
      short := RefusedTail(Separate(c, rest[0]));
      assert shorts == [c];
    } else {
      short := NoValueShort(c);
      assert shorts == [c];
    }
  }

  lemma ReadBad(d: Definitions, s: string, rest: seq<string>) returns (bad: Bad, after: seq<string>)
    requires !IsPositional(s) && s != "--" && ParseOne(d, s, rest).error.Some?
    ensures IsBad(d, bad) && BadTokens(bad) + after == [s] + rest && (MissesValue(bad) ==> after == [])
  {
    OneIs(d, s, rest);
    hide ParseOne, ParseLong, ParseShorts, LettersFit, ShortIsBad, IsBad, BadTokens, BadText;
    if s[1] == '-' {
      bad := ReadBadLong(d, s, rest);
      after := ([s] + rest)[|BadTokens(bad)|..];
    } else {
      var letters, short := ReadBadShorts(d, s[1..], rest);
      bad := BadCluster(letters, short);
      after := ClusterTokens(d, s, letters, short, rest);
    }
  }

  lemma ClusterTokens(d: Definitions, s: string, letters: string, short: BadShort, rest: seq<string>) returns (after: seq<string>)
    requires s != "" && s[0] == '-' && s[1..] == letters + BadText(short) && s[1..] != "" && s[1] != '-'
    requires LettersFit(d, letters, BadText(short)) && ShortIsBad(d, short)
    requires short.RefusedTail? && short.tail.Separate? ==> rest != [] && rest[0] == short.tail.value
    requires short.NoValueShort? ==> rest == []
    ensures var bad := BadCluster(letters, short);
            IsBad(d, bad) && BadTokens(bad) + after == [s] + rest && (MissesValue(bad) ==> after == [])
  {
    hide LettersFit, ShortIsBad, BadText;
    assert s == "-" + s[1..];
    after := if short.RefusedTail? && short.tail.Separate? then rest[1..] else rest;
  }

  lemma {:induction false} ReadFailure(d: Definitions, argv: seq<string>) returns (items: seq<Item>, bad: Bad, after: seq<string>)
    requires ParseAll(d, argv).error.Some?
    ensures FailsAt(d, argv, items, bad, after)
    decreases |argv|
  {
    hide ParseAll, ParseOne, Fits, Tokens, IsBad, BadTokens, MissesValue;
    NothingLeft(d, [], []);
    NothingBefore(ParseAll(d, []));
    AllStep(d, argv, [], []);
    var s, rest := argv[0], argv[1..];
    if IsPositional(s) {
      items, bad, after := ReadFailure(d, rest);
      WordFits(d, s);
      items := [Word(s)] + items;
      assert argv == [s] + rest;
    } else if ParseOne(d, s, rest).error.Some? {
      items := [];
      bad, after := ReadBad(d, s, rest);
    } else {
      var used := ParseOne(d, s, rest).used;
      items, bad, after := ReadFailure(d, rest[used..]);
      var item := ReadItem(d, s, rest);
      assert argv == [s] + rest[..used] + rest[used..];
      items := [item] + items;
    }
  }

  // A command line fails with an error exactly if it is items in order, then an
  // argument with that fault, and then anything.
  lemma FailsExactly(d: Definitions, argv: seq<string>, e: Error)
    ensures ParseAll(d, argv).error == Some(e) <==> exists items, bad, rest :: FailsAt(d, argv, items, bad, rest) && ErrorOf(bad) == e
  {
    if ParseAll(d, argv).error == Some(e) {
      var items, bad, rest := ReadFailure(d, argv);
      FailsSo(d, argv, items, bad, rest);
    }
    forall items, bad, rest | FailsAt(d, argv, items, bad, rest) ensures ParseAll(d, argv).error == Some(ErrorOf(bad)) {
      FailsSo(d, argv, items, bad, rest);
    }
  }
}
