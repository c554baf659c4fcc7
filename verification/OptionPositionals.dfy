/** Which positional option gets which argument, when positional arguments are refused, and when the parser
    throws. */
module OptionPositionals {
  import opened Sequences
  import opened OptionTable
  import opened OptionParser
  import opened OptionAccounts

  // ----- one offered argument

  predicate IsDeclared(cfg: Config, k: nat) { k < |cfg.positional| && cfg.positional[k] in cfg.options.names }

  function OptionAt(cfg: Config, k: nat): (id: nat)
    requires Valid(cfg) && IsDeclared(cfg, k)
    ensures id < |cfg.options.defs|
  {
    cfg.options.names[cfg.positional[k]]
  }

  /** The k-th positional option is no list and has been counted. */
  predicate IsFull(cfg: Config, st: St, k: nat)
    requires Valid(cfg)
  {
    IsDeclared(cfg, k) && !cfg.options.defs[OptionAt(cfg, k)].kind.TextList? && Count(st, OptionAt(cfg, k)) > 0
  }

  /** The first positional option from k on that is not full, or the end. */
  function FirstOpen(cfg: Config, st: St, k: nat): (f: nat)
    requires Valid(cfg) && k <= |cfg.positional|
    ensures k <= f <= |cfg.positional|
    ensures forall j :: k <= j < f ==> IsFull(cfg, st, j)
    ensures f < |cfg.positional| ==> !IsFull(cfg, st, f)
    decreases |cfg.positional| - k
  {
    if k < |cfg.positional| && IsFull(cfg, st, k) then FirstOpen(cfg, st, k + 1) else k
  }

  /** An offered argument goes to the first positional option from the cursor on that is a list or has count
      0. It is refused exactly if there is none, and an error exactly if that option is not declared or does
      not accept it. */
  lemma {:induction false} OfferedToTheFirstOpen(cfg: Config, st: St, a: string, f: nat)
    requires Valid(cfg) && st.next <= f <= |cfg.positional|
    requires forall j :: st.next <= j < f ==> IsFull(cfg, st, j)
    requires f < |cfg.positional| ==> !IsFull(cfg, st, f)
    ensures f == |cfg.positional| ==> Consume(cfg, st, a) == Ok(Consumed(st.(next := f), false))
    ensures f < |cfg.positional| && !IsDeclared(cfg, f) ==>
              Consume(cfg, st, a) == Err(OptionNotExists(cfg.positional[f]))
    ensures IsDeclared(cfg, f) ==>
              var id := OptionAt(cfg, f);
              var d := cfg.options.defs[id];
              Consume(cfg, st, a) ==
              if !Accepts(d.kind, a) then Err(IncorrectType(a))
              else Ok(Consumed(St(st.counts[id := Count(st, id) + 1], if d.kind.TextList? then f else f + 1,
                                  st.log + [Entry(id, d.long, a, true)]), true))
    decreases f - st.next
  {
    if st.next < f {
      assert IsFull(cfg, st, st.next);
      var st' := st.(next := st.next + 1);
      assert forall j :: IsFull(cfg, st', j) <==> IsFull(cfg, st, j);
      OfferedToTheFirstOpen(cfg, st', a, f);
    }
  }

  // ----- whole parses

  /** With these lines in the log, the k-th positional option is e's, is a list or has no line, and all
      before it are no lists and have one. */
  predicate IsOpenAt(cfg: Config, log: seq<Entry>, e: Entry, k: nat)
    requires Valid(cfg)
  {
    && IsDeclared(cfg, k) && OptionAt(cfg, k) == e.option
    && (cfg.options.defs[e.option].kind.TextList? || CountIn(log, e.option) == 0)
    && forall j: nat | j < k ::
         && IsDeclared(cfg, j) && !cfg.options.defs[OptionAt(cfg, j)].kind.TextList?
         && CountIn(log, OptionAt(cfg, j)) > 0
  }

  ghost predicate IsFirstOpen(cfg: Config, log: seq<Entry>, e: Entry)
    requires Valid(cfg)
  {
    exists k: nat :: IsOpenAt(cfg, log, e, k)
  }

  /** Every positional line is of the option that was the first open one then. */
  ghost predicate LogPlaces(cfg: Config, log: seq<Entry>)
    requires Valid(cfg)
  {
    forall a: nat | a < |log| && log[a].positional :: IsFirstOpen(cfg, log[..a], log[a])
  }

  /** The cursor has passed full options only. */
  predicate PassedAreFull(cfg: Config, st: St)
    requires Valid(cfg)
  {
    st.next <= |cfg.positional| && forall j: nat | j < st.next :: IsFull(cfg, st, j)
  }

  ghost predicate PlacesInv(cfg: Config, st: St)
    requires Valid(cfg)
  {
    PassedAreFull(cfg, st) && LogPlaces(cfg, st.log)
  }

  lemma AppendedPlaces(cfg: Config, log: seq<Entry>, more: seq<Entry>)
    requires Valid(cfg) && LogPlaces(cfg, log)
    requires (forall e | e in more :: !e.positional) || (|more| == 1 && IsFirstOpen(cfg, log, more[0]))
    ensures LogPlaces(cfg, log + more)
  {
    var all := log + more;
    forall a: nat | a < |all| && all[a].positional
      ensures IsFirstOpen(cfg, all[..a], all[a])
    {
      if a < |log| {
        assert all[..a] == log[..a] && all[a] == log[a];
      } else {
        assert all[a] == more[a - |log|] && more[a - |log|] in more;
        assert all[..|log|] == log;
      }
    }
  }

  lemma {:induction false} CountInGrows(log: seq<Entry>, more: seq<Entry>, id: nat)
    ensures CountIn(log, id) <= CountIn(log + more, id)
    decreases |more|
  {
    if more == [] {
      assert log + more == log;
    } else {
      var n := |more| - 1;
      CountInGrows(log, more[..n], id);
      AppendSnoc(log, more);
      LogSnoc(log + more[..n], more[n], id);
    }
  }

  lemma FullStaysFull(cfg: Config, st: St, st': St, more: seq<Entry>, j: nat)
    requires Valid(cfg) && LogInv(cfg, st) && LogInv(cfg, st') && st'.log == st.log + more && IsFull(cfg, st, j)
    ensures IsFull(cfg, st', j)
  {
    CountInGrows(st.log, more, OptionAt(cfg, j));
    assert Count(st', OptionAt(cfg, j)) == CountIn(st'.log, OptionAt(cfg, j));
    assert Count(st, OptionAt(cfg, j)) == CountIn(st.log, OptionAt(cfg, j));
  }

  lemma LinesKeepPlaces(cfg: Config, st: St, st': St, lines: seq<Entry>)
    requires Valid(cfg) && LogInv(cfg, st) && LogInv(cfg, st') && PlacesInv(cfg, st)
    requires st'.log == st.log + lines && st'.next == st.next && forall e | e in lines :: !e.positional
    ensures PlacesInv(cfg, st')
  {
    AppendedPlaces(cfg, st.log, lines);
    forall j: nat | j < st.next
      ensures IsFull(cfg, st', j)
    {
      FullStaysFull(cfg, st, st', lines, j);
    }
  }

  lemma FirstOpenIsOpen(cfg: Config, st: St, e: Entry, f: nat)
    requires Valid(cfg) && LogInv(cfg, st) && IsDeclared(cfg, f) && OptionAt(cfg, f) == e.option
    requires !IsFull(cfg, st, f) && forall j: nat | j < f :: IsFull(cfg, st, j)
    ensures IsOpenAt(cfg, st.log, e, f)
  {
    assert Count(st, e.option) == CountIn(st.log, e.option);
    forall j: nat | j < f
      ensures IsFull(cfg, st, j) && CountIn(st.log, OptionAt(cfg, j)) > 0
    {
      assert IsFull(cfg, st, j);
      assert Count(st, OptionAt(cfg, j)) == CountIn(st.log, OptionAt(cfg, j));
    }
  }

  /** The argument e has gone to the f-th positional option. */
  lemma TakenKeepsPlaces(cfg: Config, st: St, st': St, e: Entry, f: nat)
    requires Valid(cfg) && LogInv(cfg, st) && PlacesInv(cfg, st) && LogInv(cfg, st')
    requires st.next <= f < |cfg.positional| && IsDeclared(cfg, f) && OptionAt(cfg, f) == e.option && e.positional
    requires !IsFull(cfg, st, f) && forall j :: st.next <= j < f ==> IsFull(cfg, st, j)
    requires st'.log == st.log + [e] && st'.next == if cfg.options.defs[e.option].kind.TextList? then f else f + 1
    ensures PlacesInv(cfg, st')
  {
    FirstOpenIsOpen(cfg, st, e, f);
    AppendedPlaces(cfg, st.log, [e]);
    forall j: nat | j < st'.next
      ensures IsFull(cfg, st', j)
    {
      if j < f {
        FullStaysFull(cfg, st, st', [e], j);
      } else {
        LogSnoc(st.log, e, e.option);
        assert Count(st', e.option) == CountIn(st'.log, e.option);
      }
    }
  }

  lemma ConsumeKeepsPlaces(cfg: Config, st: St, a: string)
    requires Valid(cfg) && LogInv(cfg, st) && PlacesInv(cfg, st) && Consume(cfg, st, a).Ok?
    ensures LogInv(cfg, Consume(cfg, st, a).value.st) && PlacesInv(cfg, Consume(cfg, st, a).value.st)
    ensures st.log <= Consume(cfg, st, a).value.st.log
  {
    ConsumeKeepsLog(cfg, st, a);
    var f := FirstOpen(cfg, st, st.next);
    OfferedToTheFirstOpen(cfg, st, a, f);
    var st' := Consume(cfg, st, a).value.st;
    if f < |cfg.positional| {
      var id := OptionAt(cfg, f);
      TakenKeepsPlaces(cfg, st, st', Entry(id, cfg.options.defs[id].long, a, true), f);
    } else {
      assert forall j: nat :: IsFull(cfg, st', j) <==> IsFull(cfg, st, j);
    }
  }

  lemma ParseOneKeepsPlaces(cfg: Config, args: seq<string>, p: Progress)
    requires Valid(cfg) && LogInv(cfg, p.st) && PlacesInv(cfg, p.st)
    requires |p.fates| < |args| && ParseOne(cfg, args, p).Ok?
    ensures LogInv(cfg, ParseOne(cfg, args, p).value.st) && PlacesInv(cfg, ParseOne(cfg, args, p).value.st)
  {
    var i := |p.fates|;
    var st' := ParseOne(cfg, args, p).value.st;
    match Classify(args[i])
    case NonOption => ConsumeKeepsPlaces(cfg, p.st, args[i]);
    case Short(letters) =>
      ShortKeepsLog(cfg, p.st, letters, 0, At(args, i + 1));
      LinesKeepPlaces(cfg, p.st, st', st'.log[|p.st.log|..]);
    case Long(name, value) =>
      if name in cfg.options.names {
        LongKeepsPlaces(cfg, args, p, name, value);
      }
  }

  lemma LongKeepsPlaces(cfg: Config, args: seq<string>, p: Progress, name: string, value: Option<string>)
    requires Valid(cfg) && LogInv(cfg, p.st) && PlacesInv(cfg, p.st)
    requires |p.fates| < |args| && ParseOne(cfg, args, p).Ok?
    requires Classify(args[|p.fates|]) == Long(name, value) && name in cfg.options.names
    ensures LogInv(cfg, ParseOne(cfg, args, p).value.st) && PlacesInv(cfg, ParseOne(cfg, args, p).value.st)
  {
    var id := cfg.options.names[name];
    var st' := ParseOne(cfg, args, p).value.st;
    if value.Some? {
      ParseOptionKeepsLog(cfg, p.st, id, value.value, false);
    } else {
      CheckedKeepsLog(cfg, p.st, id, name, At(args, |p.fates| + 1));
    }
    LinesKeepPlaces(cfg, p.st, st', st'.log[|p.st.log|..]);
  }

  lemma {:induction false} ScanKeepsPlaces(cfg: Config, args: seq<string>, p: Progress)
    requires Valid(cfg) && LogInv(cfg, p.st) && PlacesInv(cfg, p.st)
    requires |p.fates| <= |args| && Scan(cfg, args, p).Ok?
    ensures LogInv(cfg, Scan(cfg, args, p).value.st) && PlacesInv(cfg, Scan(cfg, args, p).value.st)
    decreases |args| - |p.fates|
  {
    if |p.fates| < |args| && args[|p.fates|] != "--" {
      ScanUnfolds(cfg, args, p);
      ParseOneKeepsPlaces(cfg, args, p);
      ScanKeepsPlaces(cfg, args, ParseOne(cfg, args, p).value);
    }
  }

  lemma {:induction false} SwallowKeepsPlaces(cfg: Config, args: seq<string>, p: Progress)
    requires Valid(cfg) && LogInv(cfg, p.st) && PlacesInv(cfg, p.st)
    requires |p.fates| <= |args| && Swallow(cfg, args, p).Ok?
    ensures LogInv(cfg, Swallow(cfg, args, p).value.st) && PlacesInv(cfg, Swallow(cfg, args, p).value.st)
    ensures p.st.log <= Swallow(cfg, args, p).value.st.log
    decreases |args| - |p.fates|
  {
    if |p.fates| < |args| {
      ConsumeKeepsPlaces(cfg, p.st, args[|p.fates|]);
      var c := Consume(cfg, p.st, args[|p.fates|]).value;
      if c.taken {
        SwallowKeepsPlaces(cfg, args, Progress(c.st, p.fates + [AsPositional]));
      }
    }
  }

  lemma ParseKeepsPlaces(cfg: Config, args: seq<string>)
    requires Valid(cfg) && ParseAll(cfg, args).Ok?
    ensures PlacesInv(cfg, ParseAll(cfg, args).value.st)
    ensures forall id: nat | id < |cfg.options.defs| && Count(ParseAll(cfg, args).value.st, id) == 0 ::
              DefaultIsAccepted(cfg.options.defs[id])
  {
    var start := Progress(FRESH, []);
    ScanKeepsPlaces(cfg, args, start);
    ScanStays(cfg, args, start);
    var p := Scan(cfg, args, start).value;
    var last := ParseAll(cfg, args).value;
    if p.fates != [] && p.fates[|p.fates| - 1] == Separator {
      SwallowKeepsPlaces(cfg, args, p);
      assert last.st.log == p.st.log + last.st.log[|p.st.log|..];
      forall id: nat
        ensures Count(p.st, id) <= Count(last.st, id)
      {
        CountInGrows(p.st.log, last.st.log[|p.st.log|..], id);
      }
    }
  }

  predicate DefaultIsAccepted(d: OptionDef) { d.defaultValue.Some? ==> Accepts(d.kind, d.defaultValue.value) }

  /** Over a whole parse every positional argument goes to the first positional option that is a list or has
      no line in the log so far. */
  lemma PositionalsGoToTheFirstOpen(cfg: Config, args: seq<string>, a: nat)
    requires Valid(cfg) && ParseAll(cfg, args).Ok? && a < |ParseAll(cfg, args).value.st.log|
    requires ParseAll(cfg, args).value.st.log[a].positional
    ensures var log := ParseAll(cfg, args).value.st.log;
            IsFirstOpen(cfg, log[..a], log[a])
  {
    ParseKeepsPlaces(cfg, args);
  }

  /** If a positional argument was refused, every positional option is declared, no list, and counted. */
  lemma RefusedMeansAllCounted(cfg: Config, args: seq<string>, i: nat, k: nat)
    requires Valid(cfg) && ParseAll(cfg, args).Ok? && i < |args| && k < |cfg.positional|
    requires |ParseAll(cfg, args).value.fates| == |args| && Refused(args, ParseAll(cfg, args).value.fates, i)
    ensures IsDeclared(cfg, k)
    ensures !cfg.options.defs[OptionAt(cfg, k)].kind.TextList?
    ensures Count(ParseAll(cfg, args).value.st, OptionAt(cfg, k)) > 0
  {
    ParseKeepsPlaces(cfg, args);
    ParsedIsConsistent(cfg, args);
    assert IsFull(cfg, ParseAll(cfg, args).value.st, k);
  }

  /** After a parse, the default of every option that was not given is one that the option accepts. */
  lemma DefaultsWereAccepted(cfg: Config, args: seq<string>, id: nat)
    requires Valid(cfg) && ParseAll(cfg, args).Ok? && id < |cfg.options.defs|
    requires Count(ParseAll(cfg, args).value.st, id) == 0 && cfg.options.defs[id].defaultValue.Some?
    ensures Accepts(cfg.options.defs[id].kind, cfg.options.defs[id].defaultValue.value)
  {
    ParseKeepsPlaces(cfg, args);
  }

  // ----- when a turn of the loop throws

  predicate LinesAccepted(cfg: Config, lines: seq<Entry>) {
    forall e | e in lines :: e.option < |cfg.options.defs| && Accepts(cfg.options.defs[e.option].kind, e.value)
  }

  predicate LastNeedsValue(cfg: Config, letters: string)
    requires Valid(cfg)
  {
    letters != "" && NeedsValue(cfg, [letters[|letters| - 1]])
  }

  /** A short group parses exactly if its letters are declared or need not be, none but the last needs a
      value, the last one's value is there, and every value is accepted. */
  lemma {:induction false} ShortGroupSucceeds(cfg: Config, st: St, letters: string, i: nat, nextArg: Option<string>)
    requires Valid(cfg) && i < |letters|
    ensures ShortFrom(cfg, st, letters, i, nextArg).Ok? <==>
            && (cfg.allowUnrecognised || AllDeclared(cfg, letters, i))
            && (forall k :: i <= k < |letters| - 1 ==> !NeedsValue(cfg, [letters[k]]))
            && (LastNeedsValue(cfg, letters) ==> nextArg.Some?)
            && var next := if LastNeedsValue(cfg, letters) then nextArg else None;
            LinesAccepted(cfg, LinesOfLetters(cfg, letters, i, next))
    decreases |letters| - i
  {
    var next := if LastNeedsValue(cfg, letters) then nextArg else None;
    var name := [letters[i]];
    if i + 1 == |letters| {
      assert LinesOfLetters(cfg, letters, i + 1, next) == [];
      assert name in cfg.options.names ==>
          LinesOfLetters(cfg, letters, i, next)
          == [Line(cfg, cfg.options.names[name], ValueOf(cfg.options.defs[cfg.options.names[name]], next))];
    } else if name !in cfg.options.names {
      ShortGroupSucceeds(cfg, st, letters, i + 1, nextArg);
    } else {
      var id := cfg.options.names[name];
      var d := cfg.options.defs[id];
      if d.implicitValue.Some? {
        var r := ParseOption(cfg, st, id, d.implicitValue.value, false);
        if r.Ok? {
          ShortGroupSucceeds(cfg, r.value, letters, i + 1, nextArg);
        }
        OneMoreAccepted(cfg, Line(cfg, id, ValueOf(d, next)), LinesOfLetters(cfg, letters, i + 1, next));
      }
    }
  }

  lemma OneMoreAccepted(cfg: Config, e: Entry, lines: seq<Entry>)
    ensures LinesAccepted(cfg, [e] + lines) <==> LinesAccepted(cfg, [e]) && LinesAccepted(cfg, lines)
    ensures LinesAccepted(cfg, [e]) <==>
            e.option < |cfg.options.defs| && Accepts(cfg.options.defs[e.option].kind, e.value)
  {
    assert e in [e];
    assert forall x :: x in [e] + lines <==> x == e || x in lines;
  }

  /** An option must be declared or need not be, have the value it needs, and accept what it gets; anything
      else must not look like an option, unless that is allowed, and the first positional option that is not
      full must be declared and accept it. */
  predicate Acceptable(cfg: Config, st: St, arg: string, nextArg: Option<string>)
    requires Valid(cfg) && st.next <= |cfg.positional|
  {
    var next := if TakesNext(cfg, arg) then nextArg else None;
    match Classify(arg)
    case NonOption =>
      var f := FirstOpen(cfg, st, st.next);
      && (cfg.allowUnrecognised || !(|arg| >= 2 && arg[0] == '-'))
      && (f < |cfg.positional| ==> IsDeclared(cfg, f) && Accepts(cfg.options.defs[OptionAt(cfg, f)].kind, arg))
    case Short(letters) =>
      && (cfg.allowUnrecognised || AllDeclared(cfg, letters, 0))
      && (forall k :: 0 <= k < |letters| - 1 ==> !NeedsValue(cfg, [letters[k]]))
      && (TakesNext(cfg, arg) ==> next.Some?) && LinesAccepted(cfg, LinesOf(cfg, arg, next))
    case Long(name, _) =>
      if name !in cfg.options.names then cfg.allowUnrecognised
      else (TakesNext(cfg, arg) ==> next.Some?) && LinesAccepted(cfg, LinesOf(cfg, arg, next))
  }

  /** Exactly when a turn of the main loop does not throw. */
  lemma TurnSucceeds(cfg: Config, args: seq<string>, p: Progress)
    requires Valid(cfg) && |p.fates| < |args| && p.st.next <= |cfg.positional|
    ensures ParseOne(cfg, args, p).Ok? <==> Acceptable(cfg, p.st, args[|p.fates|], At(args, |p.fates| + 1))
  {
    var arg := args[|p.fates|];
    match Classify(arg)
    case NonOption => OfferedToTheFirstOpen(cfg, p.st, arg, FirstOpen(cfg, p.st, p.st.next));
    case Short(letters) =>
      ShortTokensHaveLetters(arg);
      ShortGroupSucceeds(cfg, p.st, letters, 0, At(args, |p.fates| + 1));
    case Long(name, value) =>
      if name in cfg.options.names {
        LongSucceeds(cfg, args, p, name, value);
      }
  }

  lemma LongSucceeds(cfg: Config, args: seq<string>, p: Progress, name: string, value: Option<string>)
    requires Valid(cfg) && |p.fates| < |args| && p.st.next <= |cfg.positional|
    requires Classify(args[|p.fates|]) == Long(name, value) && name in cfg.options.names
    ensures ParseOne(cfg, args, p).Ok? <==> Acceptable(cfg, p.st, args[|p.fates|], At(args, |p.fates| + 1))
  {
    var arg := args[|p.fates|];
    var id := cfg.options.names[name];
    var next := if TakesNext(cfg, arg) then At(args, |p.fates| + 1) else None;
    var line := Line(cfg, id, if value.Some? then value.value else ValueOf(cfg.options.defs[id], next));
    assert LinesOf(cfg, arg, next) == [line];
    OneMoreAccepted(cfg, line, []);
  }

  lemma ShortTokensHaveLetters(s: string)
    ensures Classify(s).Short? ==> Classify(s).letters != ""
  {
  }
}
