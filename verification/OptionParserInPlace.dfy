/** The `ParseResult` object: the same parse, done step by step over argv, whose consumed cells are
    overwritten by the kept ones that follow. */
module OptionParserInPlace {
  import opened Sequences
  import opened OptionTable
  import opened OptionParser

  lemma SelectNoMore(args: seq<string>, fates: seq<Fate>, f: Fate, g: Fate)
    requires |fates| < |args| && f != g
    ensures Select(args, fates + [f], g) == Select(args, fates, g)
  {
    SelectSnoc(args, fates, f, g);
  }

  /** argv while argument |fates| is next: the kept arguments stand in front, those to come are intact. */
  ghost predicate Compacting(argv: array<string>, argc: nat, args: seq<string>, fates: seq<Fate>, nextKeep: nat)
    reads argv
  {
    && argc <= argv.Length && |args| + 1 == argc && |fates| <= |args|
    && nextKeep == 1 + |Select(args, fates, Kept)| && nextKeep <= 1 + |fates|
    && argv[1..nextKeep] == Select(args, fates, Kept)
    && (forall k :: 1 + |fates| <= k < argc ==> argv[k] == args[k - 1])
  }

  lemma CompactingSkips(argv: array<string>, argc: nat, args: seq<string>, fates: seq<Fate>, nextKeep: nat, f: Fate)
    requires Compacting(argv, argc, args, fates, nextKeep) && |fates| < |args| && f != Kept
    ensures Compacting(argv, argc, args, fates + [f], nextKeep)
  {
    SelectNoMore(args, fates, f, Kept);
  }

  method Keep(argv: array<string>, argc: nat, nextKeep: nat, current: nat,
              ghost args: seq<string>, ghost fates: seq<Fate>)
    requires Compacting(argv, argc, args, fates, nextKeep) && current == 1 + |fates| < argc
    modifies argv
    ensures Compacting(argv, argc, args, fates + [Kept], nextKeep + 1)
    ensures forall k :: 0 <= k < argv.Length && k != nextKeep ==> argv[k] == old(argv[k])
  {
    SelectSnoc(args, fates, Kept, Kept);
    ghost var kept := argv[1..nextKeep];
    assert argv[current] == args[|fates|];
    argv[nextKeep] := argv[current];
    assert argv[1..nextKeep + 1] == kept + [args[|fates|]];
  }

  class ParseResult {
    const cfg: Config
    var counts: map<nat, nat>
    var next: nat
    var log: seq<Entry>

    constructor (cfg: Config)
      ensures this.cfg == cfg && State() == FRESH
    {
      this.cfg := cfg;
      counts, next, log := map[], 0, [];
    }

    function State(): St
      reads this
    {
      St(counts, next, log)
    }

    method ParseOption(id: nat, arg: string, positional: bool) returns (e: Option<ParseError>)
      requires id < |cfg.options.defs|
      modifies this
      ensures match OptionParser.ParseOption(cfg, old(State()), id, arg, positional)
              case Err(x) => e == Some(x) && State() == old(State())
              case Ok(st) => e == None && State() == st
    {
      var d := cfg.options.defs[id];
      if !Accepts(d.kind, arg) {
        return Some(IncorrectType(arg));
      }
      counts := counts[id := (if id in counts then counts[id] else 0) + 1];
      log := log + [Entry(id, d.long, arg, positional)];
      e := None;
    }

    method ConsumePositional(a: string) returns (taken: bool, e: Option<ParseError>)
      requires Valid(cfg)
      modifies this
      ensures match Consume(cfg, old(State()), a)
              case Err(x) => e == Some(x)
              case Ok(c) => e == None && taken == c.taken && State() == c.st
    {
      while next < |cfg.positional|
        invariant Consume(cfg, State(), a) == Consume(cfg, old(State()), a)
        decreases |cfg.positional| - next
      {
        var name := cfg.positional[next];
        if name !in cfg.options.names {
          return false, Some(OptionNotExists(name));
        }
        var id := cfg.options.names[name];
        if !IsContainer(cfg.options.defs[id]) {
          if id !in counts || counts[id] == 0 {
            e := ParseOption(id, a, true);
            if e.None? {
              next := next + 1;
            }
            return true, e;
          }
          next := next + 1;
        } else {
          e := ParseOption(id, a, true);
          return true, e;
        }
      }
      return false, None;
    }

    method CheckedParseArg(argc: nat, argv: array<string>, current: nat, id: nat, name: string)
        returns (current': nat, e: Option<ParseError>)
      requires id < |cfg.options.defs| && current < argc <= argv.Length
      modifies this
      ensures match OptionParser.CheckedParseArg(cfg, old(State()), id, name, At(argv[..argc], current + 1))
              case Err(x) => e == Some(x)
              case Ok(c) => e == None && State() == c.st && current' == current + if c.taken then 1 else 0
    {
      current' := current;
      var implicitValue := cfg.options.defs[id].implicitValue;
      if current + 1 >= argc {
        if implicitValue.Some? {
          e := ParseOption(id, implicitValue.value, false);
        } else {
          e := Some(MissingArgument(name));
        }
      } else {
        if implicitValue.Some? {
          e := ParseOption(id, implicitValue.value, false);
        } else {
          e := ParseOption(id, argv[current + 1], false);
          current' := current + 1;
        }
      }
    }

    method ParseShortGroup(argc: nat, argv: array<string>, current: nat, letters: string)
        returns (current': nat, e: Option<ParseError>)
      requires Valid(cfg) && current < argc <= argv.Length
      modifies this
      ensures match ShortFrom(cfg, old(State()), letters, 0, At(argv[..argc], current + 1))
              case Err(x) => e == Some(x)
              case Ok(c) => e == None && State() == c.st && current' == current + if c.taken then 1 else 0
    {
      current' := current;
      ghost var nextArg := At(argv[..argc], current + 1);
      var i := 0;
      while i != |letters|
        invariant i <= |letters| && current' == current
        invariant ShortFrom(cfg, State(), letters, i, nextArg) == ShortFrom(cfg, old(State()), letters, 0, nextArg)
      {
        var name := [letters[i]];
        if name !in cfg.options.names {
          if !cfg.allowUnrecognised {
            return current, Some(OptionNotExists(name));
          }
          i := i + 1;
          continue;
        }
        var id := cfg.options.names[name];
        if i + 1 == |letters| {
          current', e := CheckedParseArg(argc, argv, current, id, name);
          return;
        } else if cfg.options.defs[id].implicitValue.Some? {
          e := ParseOption(id, cfg.options.defs[id].implicitValue.value, false);
          if e.Some? {
            return current, e;
          }
        } else {
          return current, Some(RequiresArgument(name));
        }
        i := i + 1;
      }
      e := None;
    }

    /** An argument that is no flag. */
    method OfferArgument(argc: nat, argv: array<string>, current: nat, nextKeep: nat,
                         ghost args: seq<string>, ghost fates: seq<Fate>)
        returns (nextKeep': nat, e: Option<ParseError>, ghost fates': seq<Fate>)
      requires Valid(cfg) && current == 1 + |fates| < argc && Compacting(argv, argc, args, fates, nextKeep)
      modifies this, argv
      ensures match Consume(cfg, old(State()), args[|fates|])
              case Err(x) => e == Some(x)
              case Ok(c) => e == None && State() == c.st && fates' == fates + [if c.taken then AsPositional else Kept]
                            && Compacting(argv, argc, args, fates', nextKeep')
      ensures argv[0] == old(argv[0]) && forall k :: argc <= k < argv.Length ==> argv[k] == old(argv[k])
    {
      nextKeep', fates' := nextKeep, fates;
      var taken;
      taken, e := ConsumePositional(argv[current]);
      if e.Some? {
        return;
      }
      if taken {
        CompactingSkips(argv, argc, args, fates, nextKeep, AsPositional);
        fates' := fates + [AsPositional];
      } else {
        Keep(argv, argc, nextKeep, current, args, fates);
        nextKeep' := nextKeep + 1;
        fates' := fates + [Kept];
      }
    }

    /** A long option that is declared. */
    method ParseLong(argc: nat, argv: array<string>, current: nat, nextKeep: nat, name: string, value: Option<string>,
                     ghost args: seq<string>, ghost fates: seq<Fate>)
        returns (current': nat, e: Option<ParseError>, ghost fates': seq<Fate>)
      requires Valid(cfg) && current == 1 + |fates| < argc && Compacting(argv, argc, args, fates, nextKeep)
      requires Classify(args[|fates|]) == Long(name, value) && name in cfg.options.names
      modifies this
      ensures match ParseOne(cfg, args, Progress(old(State()), fates))
              case Err(x) => e == Some(x)
              case Ok(p) => e == None && p == Progress(State(), fates') && current' == 1 + |fates'|
                            && Compacting(argv, argc, args, fates', nextKeep)
    {
      current', fates' := current, fates;
      var id := cfg.options.names[name];
      assert At(argv[..argc], current + 1) == At(args, |fates| + 1);
      if value.Some? {
        e := ParseOption(id, value.value, false);
      } else {
        current', e := CheckedParseArg(argc, argv, current, id, name);
      }
      if e.Some? {
        return;
      }
      fates' := OptionFates(argc, argv, nextKeep, args, fates, current' > current);
      current' := current' + 1;
    }

    method ParseShort(argc: nat, argv: array<string>, current: nat, nextKeep: nat, letters: string,
                      ghost args: seq<string>, ghost fates: seq<Fate>)
        returns (current': nat, e: Option<ParseError>, ghost fates': seq<Fate>)
      requires Valid(cfg) && current == 1 + |fates| < argc && Compacting(argv, argc, args, fates, nextKeep)
      requires Classify(args[|fates|]) == Short(letters)
      modifies this
      ensures match ParseOne(cfg, args, Progress(old(State()), fates))
              case Err(x) => e == Some(x)
              case Ok(p) => e == None && p == Progress(State(), fates') && current' == 1 + |fates'|
                            && Compacting(argv, argc, args, fates', nextKeep)
    {
      fates' := fates;
      assert At(argv[..argc], current + 1) == At(args, |fates| + 1);
      current', e := ParseShortGroup(argc, argv, current, letters);
      if e.Some? {
        return;
      }
      ShortTakesOnlyWhatIsThere(cfg, old(State()), letters, 0, At(args, |fates| + 1));
      fates' := OptionFates(argc, argv, nextKeep, args, fates, current' > current);
      current' := current' + 1;
    }

    /** One turn of the loop on an argument other than "--". */
    method ParseArgument(argc: nat, argv: array<string>, current: nat, nextKeep: nat,
                         ghost args: seq<string>, ghost fates: seq<Fate>)
        returns (current': nat, nextKeep': nat, e: Option<ParseError>, ghost fates': seq<Fate>)
      requires Valid(cfg) && current == 1 + |fates| < argc && Compacting(argv, argc, args, fates, nextKeep)
      modifies this, argv
      ensures match ParseOne(cfg, args, Progress(old(State()), fates))
              case Err(x) => e == Some(x)
              case Ok(p) => e == None && p == Progress(State(), fates') && current' == 1 + |fates'|
                            && Compacting(argv, argc, args, fates', nextKeep')
      ensures argv[0] == old(argv[0]) && forall k :: argc <= k < argv.Length ==> argv[k] == old(argv[k])
    {
      current', nextKeep', fates' := current, nextKeep, fates;
      var text := argv[current];
      assert text == args[|fates|];
      match Classify(text) {
        case NonOption =>
          if LooksLikeOption(text) && !cfg.allowUnrecognised {
            e := Some(OptionSyntax(text));
            return;
          }
          nextKeep', e, fates' := OfferArgument(argc, argv, current, nextKeep, args, fates);
          current' := current + 1;
        case Short(letters) =>
          current', e, fates' := ParseShort(argc, argv, current, nextKeep, letters, args, fates);
        case Long(name, value) =>
          if name !in cfg.options.names {
            if !cfg.allowUnrecognised {
              e := Some(OptionNotExists(name));
              return;
            }
            Keep(argv, argc, nextKeep, current, args, fates);
            nextKeep' := nextKeep + 1;
            current' := current + 1;
            fates' := fates + [Kept];
            e := None;
          } else {
            current', e, fates' := ParseLong(argc, argv, current, nextKeep, name, value, args, fates);
          }
      }
    }

    /** After "--": positionals until one is refused; the rest is moved down. */
    method SwallowRest(argc: nat, argv: array<string>, current: nat, nextKeep: nat,
                       ghost args: seq<string>, ghost fates: seq<Fate>)
        returns (nextKeep': nat, e: Option<ParseError>, ghost fates': seq<Fate>)
      requires Valid(cfg) && current == 1 + |fates| <= argc && Compacting(argv, argc, args, fates, nextKeep)
      modifies this, argv
      ensures match Swallow(cfg, args, Progress(old(State()), fates))
              case Err(x) => e == Some(x)
              case Ok(p) => e == None && p == Progress(State(), fates') && |fates'| == |args|
                            && Compacting(argv, argc, args, fates', nextKeep')
      ensures argv[0] == old(argv[0]) && forall k :: argc <= k < argv.Length ==> argv[k] == old(argv[k])
    {
      nextKeep', fates' := nextKeep, fates;
      var c := current;
      ghost var start := Progress(State(), fates);
      var refused := false;
      while c < argc && !refused
        invariant c == 1 + |fates'| <= argc && Compacting(argv, argc, args, fates', nextKeep')
        invariant nextKeep' == nextKeep && forall k :: 0 <= k < argv.Length ==> argv[k] == old(argv[k])
        invariant !refused ==> Swallow(cfg, args, Progress(State(), fates')) == Swallow(cfg, args, start)
        invariant refused ==> |fates'| < |args| && Swallow(cfg, args, start)
                              == Ok(Progress(State(), fates' + AllKept(|args| - |fates'|)))
        decreases argc - c, !refused
      {
        var taken;
        SwallowUnfolds(cfg, args, State(), fates');
        taken, e := ConsumePositional(argv[c]);
        if e.Some? {
          return;
        }
        if !taken {
          refused := true;
        } else {
          CompactingSkips(argv, argc, args, fates', nextKeep', AsPositional);
          fates' := fates' + [AsPositional];
          c := c + 1;
        }
      }
      e := None;
      nextKeep', fates' := MoveRest(argc, argv, c, nextKeep', args, fates');
    }

    /** The arguments that could not be swallowed. */
    method MoveRest(argc: nat, argv: array<string>, current: nat, nextKeep: nat,
                    ghost args: seq<string>, ghost fates: seq<Fate>)
        returns (nextKeep': nat, ghost fates': seq<Fate>)
      requires current == 1 + |fates| <= argc && Compacting(argv, argc, args, fates, nextKeep)
      modifies argv
      ensures fates' == fates + AllKept(|args| - |fates|) && |fates'| == |args|
      ensures Compacting(argv, argc, args, fates', nextKeep')
      ensures argv[0] == old(argv[0]) && forall k :: argc <= k < argv.Length ==> argv[k] == old(argv[k])
    {
      nextKeep', fates' := nextKeep, fates;
      var c := current;
      while c != argc
        invariant c == 1 + |fates'| <= argc && Compacting(argv, argc, args, fates', nextKeep')
        invariant |fates| <= |fates'| && fates' == fates + AllKept(|fates'| - |fates|)
        invariant argv[0] == old(argv[0]) && forall k :: argc <= k < argv.Length ==> argv[k] == old(argv[k])
        decreases argc - c
      {
        Keep(argv, argc, nextKeep', c, args, fates');
        nextKeep' := nextKeep' + 1;
        fates' := fates' + [Kept];
        c := c + 1;
      }
    }

    /** The main loop; `separated` is `consume_remaining`. */
    method ScanArguments(argc: nat, argv: array<string>, ghost args: seq<string>)
        returns (current: nat, nextKeep: nat, separated: bool, e: Option<ParseError>, ghost fates: seq<Fate>)
      requires Valid(cfg) && State() == FRESH && Compacting(argv, argc, args, [], 1)
      modifies this, argv
      ensures match Scan(cfg, args, Progress(FRESH, []))
              case Err(x) => e == Some(x)
              case Ok(p) => e == None && p == Progress(State(), fates) && current == 1 + |fates|
                            && Compacting(argv, argc, args, fates, nextKeep)
                            && (separated <==> fates != [] && fates[|fates| - 1] == Separator)
                            && (!separated ==> current == argc)
      ensures argv[0] == old(argv[0]) && forall k :: argc <= k < argv.Length ==> argv[k] == old(argv[k])
    {
      current, nextKeep, separated, e, fates := 1, 1, false, None, [];
      while current != argc
        invariant current == 1 + |fates| <= argc && Compacting(argv, argc, args, fates, nextKeep)
        invariant argv[0] == old(argv[0]) && forall k :: argc <= k < argv.Length ==> argv[k] == old(argv[k])
        invariant Separator !in fates && !separated && e == None
        invariant Scan(cfg, args, Progress(State(), fates)) == Scan(cfg, args, Progress(FRESH, []))
        decreases argc - current
      {
        if argv[current] == "--" {
          separated := true;
          CompactingSkips(argv, argc, args, fates, nextKeep, Separator);
          fates := fates + [Separator];
          current := current + 1;
          return;
        }
        ghost var p := Progress(State(), fates);
        current, nextKeep, e, fates := ParseArgument(argc, argv, current, nextKeep, args, fates);
        if e.Some? {
          return;
        }
        ParseOneAdvances(cfg, args, p);
        NoSeparatorYet(cfg, args, p);
      }
    }

    /** The whole parse. On success argv holds its first cell and the kept arguments, and what lies
        beyond the original count is untouched; every read was of an argument not yet overwritten. */
    method Parse(argc: nat, argv: array<string>) returns (kept: nat, e: Option<ParseError>, ghost fates: seq<Fate>)
      requires Valid(cfg) && State() == FRESH && 1 <= argc <= argv.Length
      modifies this, argv
      ensures match ParseAll(cfg, old(argv[1..argc]))
              case Err(x) => e == Some(x)
              case Ok(p) =>
                && e == None && p == Progress(State(), fates) && |fates| == argc - 1
                && 1 <= kept <= argc
                && argv[..kept] == [old(argv[0])] + Select(old(argv[1..argc]), fates, Kept)
      ensures forall k :: argc <= k < argv.Length ==> argv[k] == old(argv[k])
    {
      ghost var args := argv[1..argc];
      assert Compacting(argv, argc, args, [], 1);
      var current, nextKeep, separated;
      current, nextKeep, separated, e, fates := ScanArguments(argc, argv, args);
      kept := 0;
      ParseAllByParts(cfg, args);
      if e.Some? {
        return;
      }
      if !DefaultsAccepted(cfg, State()) {
        return 0, Some(DefaultOfWrongType), fates;
      }
      if separated {
        nextKeep, e, fates := SwallowRest(argc, argv, current, nextKeep, args, fates);
        if e.Some? {
          return;
        }
      }
      kept := nextKeep;
      CompactedFront(argv, argc, args, fates, kept);
    }
  }

  lemma ParseAllByParts(cfg: Config, args: seq<string>)
    requires Valid(cfg)
    ensures var r := Scan(cfg, args, Progress(FRESH, []));
            && (r.Err? ==> ParseAll(cfg, args) == r)
            && (r.Ok? ==>
                  && |r.value.fates| <= |args|
                  && ParseAll(cfg, args) ==
                     if !DefaultsAccepted(cfg, r.value.st) then Err(DefaultOfWrongType)
                     else if r.value.fates != [] && r.value.fates[|r.value.fates| - 1] == Separator
                     then Swallow(cfg, args, r.value)
                     else r)
  {
    if Scan(cfg, args, Progress(FRESH, [])).Ok? {
      ScanStays(cfg, args, Progress(FRESH, []));
    }
  }

  lemma CompactedFront(argv: array<string>, argc: nat, args: seq<string>, fates: seq<Fate>, kept: nat)
    requires Compacting(argv, argc, args, fates, kept)
    ensures argv[..kept] == [argv[0]] + Select(args, fates, Kept)
  {
    assert argv[..kept] == [argv[0]] + argv[1..kept];
  }

  lemma SwallowUnfolds(cfg: Config, args: seq<string>, st: St, fates: seq<Fate>)
    requires Valid(cfg) && |fates| < |args|
    ensures var r := Consume(cfg, st, args[|fates|]);
            var all := Swallow(cfg, args, Progress(st, fates));
            && (r.Err? ==> all == Err(r.error))
            && (r.Ok? && r.value.taken ==> all == Swallow(cfg, args, Progress(r.value.st, fates + [AsPositional])))
            && (r.Ok? && !r.value.taken ==> all == Ok(Progress(r.value.st, fates + AllKept(|args| - |fates|))))
  {
  }

  lemma NoSeparatorYet(cfg: Config, args: seq<string>, p: Progress)
    requires Valid(cfg) && |p.fates| < |args| && ParseOne(cfg, args, p).Ok? && Separator !in p.fates
    ensures Separator !in ParseOne(cfg, args, p).value.fates
  {
  }

  /** The fates an option argument adds, which leave argv as it is. */
  ghost method OptionFates(argc: nat, argv: array<string>, nextKeep: nat,
                           args: seq<string>, fates: seq<Fate>, taken: bool)
      returns (fates': seq<Fate>)
    requires Compacting(argv, argc, args, fates, nextKeep) && |fates| < |args|
    requires taken ==> |fates| + 1 < |args|
    ensures fates' == fates + if taken then [AsOption, AsValue] else [AsOption]
    ensures Compacting(argv, argc, args, fates', nextKeep)
  {
    CompactingSkips(argv, argc, args, fates, nextKeep, AsOption);
    fates' := fates + [AsOption];
    if taken {
      CompactingSkips(argv, argc, args, fates', nextKeep, AsValue);
      fates' := fates' + [AsValue];
      assert fates' == fates + [AsOption, AsValue];
    }
  }
}
