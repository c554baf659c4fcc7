/** What a successful parse says about its arguments: which lines of the log each of them gave, and which
    arguments are dropped without one. */
module OptionAccounts {
  import opened Sequences
  import opened IntegerParser
  import opened OptionTable
  import opened OptionParser

  // ----- the lines of one argument

  /** The value an option gets that has none of its own: its implicit one, or the next argument. */
  function ValueOf(d: OptionDef, next: Option<string>): string {
    if d.implicitValue.Some? then d.implicitValue.value else if next.Some? then next.value else ""
  }

  function Line(cfg: Config, id: nat, value: string): Entry
    requires id < |cfg.options.defs|
  {
    Entry(id, cfg.options.defs[id].long, value, false)
  }

  /** One line for each declared letter from i on. */
  function LinesOfLetters(cfg: Config, letters: string, i: nat, next: Option<string>): seq<Entry>
    requires Valid(cfg) && i <= |letters|
    decreases |letters| - i
  {
    if i == |letters| then []
    else
      var name := [letters[i]];
      if name !in cfg.options.names then LinesOfLetters(cfg, letters, i + 1, next)
      else
        var id := cfg.options.names[name];
        [Line(cfg, id, ValueOf(cfg.options.defs[id], next))] + LinesOfLetters(cfg, letters, i + 1, next)
  }

  /** The lines of an option argument; `next` is the argument it takes as its value. */
  function LinesOf(cfg: Config, arg: string, next: Option<string>): seq<Entry>
    requires Valid(cfg)
  {
    match Classify(arg)
    case NonOption => []
    case Short(letters) => LinesOfLetters(cfg, letters, 0, next)
    case Long(name, value) =>
      if name !in cfg.options.names then []
      else
        var id := cfg.options.names[name];
        [Line(cfg, id, if value.Some? then value.value else ValueOf(cfg.options.defs[id], next))]
  }

  predicate NeedsValue(cfg: Config, name: string)
    requires Valid(cfg)
  {
    name in cfg.options.names && cfg.options.defs[cfg.options.names[name]].implicitValue.None?
  }

  /** The argument takes the next one as its value. */
  predicate TakesNext(cfg: Config, arg: string)
    requires Valid(cfg)
  {
    match Classify(arg)
    case NonOption => false
    case Short(letters) => letters != "" && NeedsValue(cfg, [letters[|letters| - 1]])
    case Long(name, value) => value.None? && NeedsValue(cfg, name)
  }

  predicate IsPositionalLine(cfg: Config, e: Entry, arg: string)
    requires Valid(cfg)
  {
    && e.positional && e.value == arg && e.option < |cfg.options.defs| && e.key == cfg.options.defs[e.option].long
    && exists k: nat :: k < |cfg.positional| && cfg.positional[k] in cfg.options.names
                        && cfg.options.names[cfg.positional[k]] == e.option
  }

  /** The log consists of the lines of the arguments, in their order: one for a positional, those of its
      options and their value for an option argument, and none for the rest. */
  ghost predicate Accounts(cfg: Config, args: seq<string>, fates: seq<Fate>, log: seq<Entry>)
    requires Valid(cfg) && |fates| <= |args|
    decreases |fates|
  {
    if fates == [] then log == []
    else
      var n := |fates| - 1;
      match fates[n]
      case AsPositional =>
        log != [] && IsPositionalLine(cfg, log[|log| - 1], args[n]) && Accounts(cfg, args, fates[..n], log[..|log| - 1])
      case AsOption =>
        && !TakesNext(cfg, args[n])
        && Ends(log, LinesOf(cfg, args[n], None))
        && Accounts(cfg, args, fates[..n], Front(log, LinesOf(cfg, args[n], None)))
      case AsValue =>
        && n > 0 && fates[n - 1] == AsOption && TakesNext(cfg, args[n - 1])
        && Ends(log, LinesOf(cfg, args[n - 1], Some(args[n])))
        && Accounts(cfg, args, fates[..n - 1], Front(log, LinesOf(cfg, args[n - 1], Some(args[n]))))
      case _ => Accounts(cfg, args, fates[..n], log)
  }

  predicate Ends(log: seq<Entry>, lines: seq<Entry>) {
    |lines| <= |log| && log[|log| - |lines|..] == lines
  }

  function Front(log: seq<Entry>, lines: seq<Entry>): seq<Entry>
    requires |lines| <= |log|
  {
    log[..|log| - |lines|]
  }

  lemma FrontOfConcat(log: seq<Entry>, lines: seq<Entry>)
    ensures Ends(log + lines, lines) && Front(log + lines, lines) == log
  {
  }

  // ----- what the parser adds to the log

  lemma CheckedAdds(cfg: Config, st: St, id: nat, name: string, nextArg: Option<string>)
    requires id < |cfg.options.defs| && CheckedParseArg(cfg, st, id, name, nextArg).Ok?
    ensures var c := CheckedParseArg(cfg, st, id, name, nextArg).value;
            var d := cfg.options.defs[id];
            && (c.taken <==> d.implicitValue.None?) && (c.taken ==> nextArg.Some?) && c.st.next == st.next
            && c.st.log == st.log + [Line(cfg, id, ValueOf(d, if c.taken then nextArg else None))]
  {
  }

  lemma {:induction false} ShortAdds(cfg: Config, st: St, letters: string, i: nat, nextArg: Option<string>)
    requires Valid(cfg) && i <= |letters| && ShortFrom(cfg, st, letters, i, nextArg).Ok?
    ensures var c := ShortFrom(cfg, st, letters, i, nextArg).value;
            && (c.taken <==> i < |letters| && NeedsValue(cfg, [letters[|letters| - 1]]))
            && (c.taken ==> nextArg.Some?) && c.st.next == st.next
            && c.st.log == st.log + LinesOfLetters(cfg, letters, i, if c.taken then nextArg else None)
    decreases |letters| - i
  {
    if i < |letters| {
      var name := [letters[i]];
      var c := ShortFrom(cfg, st, letters, i, nextArg).value;
      var next := if c.taken then nextArg else None;
      if name !in cfg.options.names {
        ShortAdds(cfg, st, letters, i + 1, nextArg);
      } else {
        var id := cfg.options.names[name];
        if i + 1 == |letters| {
          CheckedAdds(cfg, st, id, name, nextArg);
          assert LinesOfLetters(cfg, letters, i + 1, next) == [];
        } else {
          var st' := ParseOption(cfg, st, id, cfg.options.defs[id].implicitValue.value, false).value;
          ShortAdds(cfg, st', letters, i + 1, nextArg);
          var line := Line(cfg, id, ValueOf(cfg.options.defs[id], next));
          assert st'.log == st.log + [line];
          OneLineMore(st.log, line, LinesOfLetters(cfg, letters, i + 1, next));
        }
      }
    }
  }

  lemma OneLineMore(log: seq<Entry>, line: Entry, lines: seq<Entry>)
    ensures (log + [line]) + lines == log + ([line] + lines)
  {
  }

  lemma {:induction false} ConsumeAdds(cfg: Config, st: St, a: string)
    requires Valid(cfg) && Consume(cfg, st, a).Ok?
    ensures var c := Consume(cfg, st, a).value;
            if c.taken then
              && |c.st.log| == |st.log| + 1 && c.st.log[..|st.log|] == st.log
              && IsPositionalLine(cfg, c.st.log[|st.log|], a)
            else c.st.log == st.log
    decreases |cfg.positional| - st.next
  {
    if st.next < |cfg.positional| {
      var id := cfg.options.names[cfg.positional[st.next]];
      if !IsContainer(cfg.options.defs[id]) && Count(st, id) != 0 {
        ConsumeAdds(cfg, st.(next := st.next + 1), a);
      }
    }
  }

  // ----- every step keeps the account

  ghost predicate Accounted(cfg: Config, args: seq<string>, p: Progress)
    requires Valid(cfg)
  {
    |p.fates| <= |args| && Accounts(cfg, args, p.fates, p.st.log)
  }

  lemma AccountOption(cfg: Config, args: seq<string>, p: Progress, c: Consumed)
    requires Valid(cfg) && Accounted(cfg, args, p) && |p.fates| < |args|
    requires c.taken <==> TakesNext(cfg, args[|p.fates|])
    requires c.taken ==> At(args, |p.fates| + 1).Some?
    requires c.st.log == p.st.log + LinesOf(cfg, args[|p.fates|], if c.taken then At(args, |p.fates| + 1) else None)
    ensures Accounted(cfg, args, AfterOption(Ok(c), p).value)
  {
    var i := |p.fates|;
    var fates := p.fates + if c.taken then [AsOption, AsValue] else [AsOption];
    assert fates[..i] == p.fates && fates[i] == AsOption;
    FrontOfConcat(p.st.log, LinesOf(cfg, args[i], if c.taken then At(args, i + 1) else None));
  }

  lemma AccountArgument(cfg: Config, args: seq<string>, p: Progress, st: St, f: Fate)
    requires Valid(cfg) && Accounted(cfg, args, p) && |p.fates| < |args| && f in {Kept, Separator, AsPositional}
    requires if f == AsPositional
             then |st.log| == |p.st.log| + 1 && st.log[..|p.st.log|] == p.st.log
                  && IsPositionalLine(cfg, st.log[|p.st.log|], args[|p.fates|])
             else st.log == p.st.log
    ensures Accounted(cfg, args, Progress(st, p.fates + [f]))
  {
    assert (p.fates + [f])[..|p.fates|] == p.fates;
  }

  lemma ParseOneAccounts(cfg: Config, args: seq<string>, p: Progress)
    requires Valid(cfg) && Accounted(cfg, args, p) && |p.fates| < |args| && ParseOne(cfg, args, p).Ok?
    ensures Accounted(cfg, args, ParseOne(cfg, args, p).value)
  {
    var i := |p.fates|;
    match Classify(args[i])
    case NonOption =>
      ConsumeAdds(cfg, p.st, args[i]);
      var c := Consume(cfg, p.st, args[i]).value;
      AccountArgument(cfg, args, p, c.st, if c.taken then AsPositional else Kept);
    case Short(letters) =>
      ShortAdds(cfg, p.st, letters, 0, At(args, i + 1));
      AccountOption(cfg, args, p, ShortFrom(cfg, p.st, letters, 0, At(args, i + 1)).value);
    case Long(name, value) =>
      if name !in cfg.options.names {
        AccountArgument(cfg, args, p, p.st, Kept);
      } else {
        var id := cfg.options.names[name];
        if value.Some? {
          AccountOption(cfg, args, p, Consumed(ParseOption(cfg, p.st, id, value.value, false).value, false));
        } else {
          CheckedAdds(cfg, p.st, id, name, At(args, i + 1));
          AccountOption(cfg, args, p, CheckedParseArg(cfg, p.st, id, name, At(args, i + 1)).value);
        }
      }
  }

  // ----- list options among the positional ones

  /** The cursor stands on option id. */
  predicate CursorOn(cfg: Config, st: St, id: nat)
    requires Valid(cfg)
  {
    && st.next < |cfg.positional| && cfg.positional[st.next] in cfg.options.names
    && cfg.options.names[cfg.positional[st.next]] == id
  }

  /** A positional line of a list option. */
  predicate IsListLine(cfg: Config, e: Entry) {
    e.positional && e.option < |cfg.options.defs| && IsContainer(cfg.options.defs[e.option])
  }

  /** From the first positional line of a list option on, every positional line is that option's. */
  ghost predicate ListsTakeAll(cfg: Config, log: seq<Entry>) {
    forall a, b | 0 <= a < b < |log| && IsListLine(cfg, log[a]) && log[b].positional :: log[b].option == log[a].option
  }

  ghost predicate ListInv(cfg: Config, st: St)
    requires Valid(cfg)
  {
    ListsTakeAll(cfg, st.log) && forall e | e in st.log && IsListLine(cfg, e) :: CursorOn(cfg, st, e.option)
  }

  lemma {:induction false} ConsumeKeepsLists(cfg: Config, st: St, a: string)
    requires Valid(cfg) && ListInv(cfg, st) && Consume(cfg, st, a).Ok?
    ensures ListInv(cfg, Consume(cfg, st, a).value.st)
    decreases |cfg.positional| - st.next
  {
    if st.next < |cfg.positional| {
      var id := cfg.options.names[cfg.positional[st.next]];
      if !IsContainer(cfg.options.defs[id]) && Count(st, id) != 0 {
        ConsumeKeepsLists(cfg, st.(next := st.next + 1), a);
      }
    }
  }

  lemma LinesKeepLists(cfg: Config, st: St, st': St, lines: seq<Entry>)
    requires Valid(cfg) && ListInv(cfg, st) && st'.next == st.next && st'.log == st.log + lines
    requires forall e | e in lines :: !e.positional
    ensures ListInv(cfg, st')
  {
  }

  lemma {:induction false} LettersGiveNoPositionals(cfg: Config, letters: string, i: nat, next: Option<string>)
    requires Valid(cfg) && i <= |letters|
    ensures forall e | e in LinesOfLetters(cfg, letters, i, next) :: !e.positional
    decreases |letters| - i
  {
    if i < |letters| {
      LettersGiveNoPositionals(cfg, letters, i + 1, next);
    }
  }

  lemma ParseOneKeepsLists(cfg: Config, args: seq<string>, p: Progress)
    requires Valid(cfg) && ListInv(cfg, p.st) && |p.fates| < |args| && ParseOne(cfg, args, p).Ok?
    ensures ListInv(cfg, ParseOne(cfg, args, p).value.st)
  {
    var i := |p.fates|;
    var st' := ParseOne(cfg, args, p).value.st;
    match Classify(args[i])
    case NonOption => ConsumeKeepsLists(cfg, p.st, args[i]);
    case Short(letters) =>
      var c := ShortFrom(cfg, p.st, letters, 0, At(args, i + 1)).value;
      ShortAdds(cfg, p.st, letters, 0, At(args, i + 1));
      var next := if c.taken then At(args, i + 1) else None;
      LettersGiveNoPositionals(cfg, letters, 0, next);
      LinesKeepLists(cfg, p.st, st', LinesOfLetters(cfg, letters, 0, next));
    case Long(name, value) =>
      if name in cfg.options.names {
        var id := cfg.options.names[name];
        if value.None? {
          CheckedAdds(cfg, p.st, id, name, At(args, i + 1));
        }
        LinesKeepLists(cfg, p.st, st', st'.log[|p.st.log|..]);
      }
  }

  // ----- whole parses

  ghost predicate Told(cfg: Config, args: seq<string>, p: Progress)
    requires Valid(cfg)
  {
    Accounted(cfg, args, p) && ListInv(cfg, p.st)
  }

  lemma {:induction false} ScanTells(cfg: Config, args: seq<string>, p: Progress)
    requires Valid(cfg) && Told(cfg, args, p) && Scan(cfg, args, p).Ok?
    ensures Told(cfg, args, Scan(cfg, args, p).value)
    decreases |args| - |p.fates|
  {
    if |p.fates| < |args| {
      if args[|p.fates|] == "--" {
        AccountArgument(cfg, args, p, p.st, Separator);
      } else {
        ParseOneAdvances(cfg, args, p);
        ParseOneAccounts(cfg, args, p);
        ParseOneKeepsLists(cfg, args, p);
        ScanTells(cfg, args, ParseOne(cfg, args, p).value);
      }
    }
  }

  lemma {:induction false} RestAccounts(cfg: Config, args: seq<string>, p: Progress, n: nat)
    requires Valid(cfg) && Accounted(cfg, args, p) && |p.fates| + n <= |args|
    ensures Accounted(cfg, args, Progress(p.st, p.fates + AllKept(n)))
    decreases n
  {
    if n == 0 {
      assert p.fates + AllKept(0) == p.fates;
    } else {
      AccountArgument(cfg, args, p, p.st, Kept);
      RestAccounts(cfg, args, Progress(p.st, p.fates + [Kept]), n - 1);
      assert p.fates + AllKept(n) == (p.fates + [Kept]) + AllKept(n - 1);
    }
  }

  lemma {:induction false} SwallowTells(cfg: Config, args: seq<string>, p: Progress)
    requires Valid(cfg) && Told(cfg, args, p) && Swallow(cfg, args, p).Ok?
    ensures Told(cfg, args, Swallow(cfg, args, p).value)
    decreases |args| - |p.fates|
  {
    if |p.fates| < |args| {
      ConsumeAdds(cfg, p.st, args[|p.fates|]);
      ConsumeKeepsLists(cfg, p.st, args[|p.fates|]);
      var c := Consume(cfg, p.st, args[|p.fates|]).value;
      if c.taken {
        AccountArgument(cfg, args, p, c.st, AsPositional);
        SwallowTells(cfg, args, Progress(c.st, p.fates + [AsPositional]));
      } else {
        RestAccounts(cfg, args, Progress(c.st, p.fates), |args| - |p.fates|);
      }
    }
  }

  lemma ParseTells(cfg: Config, args: seq<string>)
    requires Valid(cfg) && ParseAll(cfg, args).Ok?
    ensures Told(cfg, args, ParseAll(cfg, args).value)
  {
    var start := Progress(FRESH, []);
    ScanTells(cfg, args, start);
    ScanStays(cfg, args, start);
    var p := Scan(cfg, args, start).value;
    if p.fates != [] && p.fates[|p.fates| - 1] == Separator {
      SwallowTells(cfg, args, p);
    }
  }

  /** Once a list option has got a positional argument, it gets all later ones. */
  lemma ListsTakeAllPositionals(cfg: Config, args: seq<string>)
    requires Valid(cfg) && ParseAll(cfg, args).Ok?
    ensures ListsTakeAll(cfg, ParseAll(cfg, args).value.st.log)
  {
    ParseTells(cfg, args);
  }

  // ----- dropped arguments

  /** A group of short options none of which is declared. */
  predicate UndeclaredGroup(cfg: Config, arg: string) {
    match Classify(arg)
    case Short(letters) => forall k :: 0 <= k < |letters| ==> [letters[k]] !in cfg.options.names
    case _ => false
  }

  lemma {:induction false} NoLinesIffUndeclared(cfg: Config, letters: string, i: nat, next: Option<string>)
    requires Valid(cfg) && i <= |letters|
    ensures LinesOfLetters(cfg, letters, i, next) == [] <==>
            forall k :: i <= k < |letters| ==> [letters[k]] !in cfg.options.names
    decreases |letters| - i
  {
    if i < |letters| {
      NoLinesIffUndeclared(cfg, letters, i + 1, next);
    }
  }

  /** An option argument leaves no trace, neither in the log nor in argv. */
  predicate Dropped(cfg: Config, args: seq<string>, fates: seq<Fate>, i: nat)
    requires Valid(cfg) && i < |fates| == |args|
  {
    && fates[i] == AsOption
    && LinesOf(cfg, args[i], if i + 1 < |args| && fates[i + 1] == AsValue then Some(args[i + 1]) else None) == []
  }

  lemma DroppedIffUndeclaredGroup(cfg: Config, args: seq<string>, fates: seq<Fate>, i: nat)
    requires Valid(cfg) && i < |fates| == |args| && FateFits(cfg, args, fates, i) && fates[i] == AsOption
    ensures Dropped(cfg, args, fates, i) <==> cfg.allowUnrecognised && UndeclaredGroup(cfg, args[i])
  {
    match Classify(args[i])
    case Short(letters) =>
      var next := if i + 1 < |args| && fates[i + 1] == AsValue then Some(args[i + 1]) else None;
      NoLinesIffUndeclared(cfg, letters, 0, next);
    case _ =>
  }

  /** Every argument of a successful parse has a fate that fits it; the kept ones are an order-preserving
      subsequence; the log consists of the lines of the arguments, in order; and an option argument leaves
      no trace exactly when unrecognised options are allowed and it is a group of undeclared letters. */
  lemma ParsingAccountsForAll(cfg: Config, args: seq<string>)
    requires Valid(cfg) && ParseAll(cfg, args).Ok?
    ensures var p := ParseAll(cfg, args).value;
            && |p.fates| == |args|
            && Subsequence(Select(args, p.fates, Kept), args)
            && Accounts(cfg, args, p.fates, p.st.log)
            && PositionalValues(p.st.log) == Select(args, p.fates, AsPositional)
            && forall i: nat | i < |args| ::
                 && FateFits(cfg, args, p.fates, i)
                 && (Dropped(cfg, args, p.fates, i) <==>
                     p.fates[i] == AsOption && cfg.allowUnrecognised && UndeclaredGroup(cfg, args[i]))
  {
    ParsedIsConsistent(cfg, args);
    ParseTells(cfg, args);
    var fates := ParseAll(cfg, args).value.fates;
    SelectIsSubsequence(args, fates, Kept, |args|);
    assert args[..|args|] == args;
    forall i: nat | i < |args| && fates[i] == AsOption
      ensures Dropped(cfg, args, fates, i) <==> cfg.allowUnrecognised && UndeclaredGroup(cfg, args[i])
    {
      assert FateFits(cfg, args, fates, i);
      DroppedIffUndeclaredGroup(cfg, args, fates, i);
    }
  }

  /** No positional is lost: whatever follows "--", and whatever is no option before it, is kept, taken as
      positional, or taken as the value of the option before it. */
  lemma PositionalsAreKeptOrTaken(cfg: Config, args: seq<string>, i: nat)
    requires Valid(cfg) && ParseAll(cfg, args).Ok? && i < |args|
    ensures |ParseAll(cfg, args).value.fates| == |args|
    ensures var fates := ParseAll(cfg, args).value.fates;
            && (AfterSeparator(fates, i) ==> fates[i] in {Kept, AsPositional})
            && (!AfterSeparator(fates, i) && Classify(args[i]) == NonOption && args[i] != "--" ==>
                  fates[i] in {Kept, AsPositional}
                  || (fates[i] == AsValue && i > 0 && fates[i - 1] == AsOption && TakesNext(cfg, args[i - 1])))
  {
    ParsedIsConsistent(cfg, args);
    ParseTells(cfg, args);
    var p := ParseAll(cfg, args).value;
    assert FateFits(cfg, args, p.fates, i);
    if p.fates[i] == AsValue {
      ValuesAreNeeded(cfg, args, p.fates, p.st.log, i);
    }
  }

  lemma {:induction false} ValuesAreNeeded(cfg: Config, args: seq<string>, fates: seq<Fate>, log: seq<Entry>, i: nat)
    requires Valid(cfg) && |fates| <= |args| && Accounts(cfg, args, fates, log)
    requires 0 < i < |fates| && fates[i] == AsValue
    ensures TakesNext(cfg, args[i - 1])
    decreases |fates|
  {
    var n := |fates| - 1;
    if i < n {
      match fates[n]
      case AsPositional => ValuesAreNeeded(cfg, args, fates[..n], log[..|log| - 1], i);
      case AsOption => ValuesAreNeeded(cfg, args, fates[..n], Front(log, LinesOf(cfg, args[n], None)), i);
      case AsValue =>
        ValuesAreNeeded(cfg, args, fates[..n - 1], Front(log, LinesOf(cfg, args[n - 1], Some(args[n]))), i);
      case _ => ValuesAreNeeded(cfg, args, fates[..n], log, i);
    }
  }

  /** Where unrecognised options are allowed, an undeclared short option is neither kept nor logged. */
  lemma UndeclaredShortOptionIsDropped(cfg: Config, letter: char)
    requires Valid(cfg) && cfg.allowUnrecognised && DefaultsAccepted(cfg, FRESH)
    requires IsAlnum(letter) && [letter] !in cfg.options.names
    ensures ParseAll(cfg, ["-" + [letter]]) == Ok(Progress(FRESH, [AsOption]))
  {
    var arg := "-" + [letter];
    assert arg[1..] == [letter] && letter != '-';
    assert Classify(arg) == Short([letter]);
    assert [letter][0] == letter;
    assert ShortFrom(cfg, FRESH, [letter], 1, None) == Ok(Consumed(FRESH, false));
    assert ShortFrom(cfg, FRESH, [letter], 0, None) == Ok(Consumed(FRESH, false));
    assert At([arg], 1) == None && [] + [AsOption] == [AsOption];
    assert ParseOne(cfg, [arg], Progress(FRESH, [])) == Ok(Progress(FRESH, [AsOption]));
    assert Scan(cfg, [arg], Progress(FRESH, [AsOption])) == Ok(Progress(FRESH, [AsOption]));
    assert arg != "--";
  }
}
