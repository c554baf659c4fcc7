/** `ParseResult` of cxxopts: the argument loop, the positional cursor and the in-place removal of
    consumed arguments. */
module OptionParser {
  import opened Sequences
  import opened OptionTable

  datatype Config = Config(options: Table, positional: seq<string>, allowUnrecognised: bool)

  predicate Valid(cfg: Config) { ValidTable(cfg.options) }

  /** A line of `m_sequential`, with the option it belongs to and whether a positional argument gave it. */
  datatype Entry = Entry(option: nat, key: string, value: string, positional: bool)

  /** The counts in `m_results`, `m_next_positional`, and the log. */
  datatype St = St(counts: map<nat, nat>, next: nat, log: seq<Entry>)

  const FRESH: St := St(map[], 0, [])

  function Count(st: St, id: nat): nat { if id in st.counts then st.counts[id] else 0 }

  function ParseOption(cfg: Config, st: St, id: nat, arg: string, positional: bool): Result<St>
    requires id < |cfg.options.defs|
  {
    var d := cfg.options.defs[id];
    if !Accepts(d.kind, arg) then Err(IncorrectType(arg))
    else Ok(st.(counts := st.counts[id := Count(st, id) + 1], log := st.log + [Entry(id, d.long, arg, positional)]))
  }

  datatype Consumed = Consumed(st: St, taken: bool)

  function Consume(cfg: Config, st: St, a: string): Result<Consumed>
    requires Valid(cfg)
    decreases |cfg.positional| - st.next
  {
    if st.next >= |cfg.positional| then Ok(Consumed(st, false))
    else
      var name := cfg.positional[st.next];
      if name !in cfg.options.names then Err(OptionNotExists(name))
      else
        var id := cfg.options.names[name];
        if IsContainer(cfg.options.defs[id]) then
          match ParseOption(cfg, st, id, a, true)
          case Err(e) => Err(e)
          case Ok(st') => Ok(Consumed(st', true))
        else if Count(st, id) == 0 then
          match ParseOption(cfg, st, id, a, true)
          case Err(e) => Err(e)
          case Ok(st') => Ok(Consumed(st'.(next := st.next + 1), true))
        else Consume(cfg, st.(next := st.next + 1), a)
  }

  /** `checked_parse_arg`; `taken` is whether the next argument was used up. */
  function CheckedParseArg(cfg: Config, st: St, id: nat, name: string, nextArg: Option<string>): Result<Consumed>
    requires id < |cfg.options.defs|
  {
    var implicitValue := cfg.options.defs[id].implicitValue;
    if implicitValue.Some? then
      match ParseOption(cfg, st, id, implicitValue.value, false)
      case Err(e) => Err(e)
      case Ok(st') => Ok(Consumed(st', false))
    else if nextArg.None? then Err(MissingArgument(name))
    else
      match ParseOption(cfg, st, id, nextArg.value, false)
      case Err(e) => Err(e)
      case Ok(st') => Ok(Consumed(st', true))
  }

  /** The letters of a short group from position i. */
  function ShortFrom(cfg: Config, st: St, letters: string, i: nat, nextArg: Option<string>): Result<Consumed>
    requires Valid(cfg) && i <= |letters|
    decreases |letters| - i
  {
    if i == |letters| then Ok(Consumed(st, false))
    else
      var name := [letters[i]];
      if name !in cfg.options.names then
        if cfg.allowUnrecognised then ShortFrom(cfg, st, letters, i + 1, nextArg) else Err(OptionNotExists(name))
      else
        var id := cfg.options.names[name];
        if i + 1 == |letters| then CheckedParseArg(cfg, st, id, name, nextArg)
        else if cfg.options.defs[id].implicitValue.Some? then
          match ParseOption(cfg, st, id, cfg.options.defs[id].implicitValue.value, false)
          case Err(e) => Err(e)
          case Ok(st') => ShortFrom(cfg, st', letters, i + 1, nextArg)
        else Err(RequiresArgument(name))
  }

  // ----- one pass over the arguments

  /** What became of an argument. */
  datatype Fate = Kept | AsPositional | AsOption | AsValue | Separator

  /** The parse after some arguments, with the fate of each of them. */
  datatype Progress = Progress(st: St, fates: seq<Fate>)

  function At(args: seq<string>, i: nat): Option<string> { if i < |args| then Some(args[i]) else None }

  /** One turn of the loop on an argument other than "--". */
  function ParseOne(cfg: Config, args: seq<string>, p: Progress): Result<Progress>
    requires Valid(cfg) && |p.fates| < |args|
  {
    var i := |p.fates|;
    match Classify(args[i])
    case NonOption =>
      if LooksLikeOption(args[i]) && !cfg.allowUnrecognised then Err(OptionSyntax(args[i]))
      else
        (match Consume(cfg, p.st, args[i])
         case Err(e) => Err(e)
         case Ok(c) => Ok(Progress(c.st, p.fates + [if c.taken then AsPositional else Kept])))
    case Short(letters) => AfterOption(ShortFrom(cfg, p.st, letters, 0, At(args, i + 1)), p)
    case Long(name, value) =>
      if name !in cfg.options.names then
        if cfg.allowUnrecognised then Ok(Progress(p.st, p.fates + [Kept])) else Err(OptionNotExists(name))
      else
        var id := cfg.options.names[name];
        if value.Some? then
          match ParseOption(cfg, p.st, id, value.value, false)
          case Err(e) => Err(e)
          case Ok(st') => Ok(Progress(st', p.fates + [AsOption]))
        else AfterOption(CheckedParseArg(cfg, p.st, id, name, At(args, i + 1)), p)
  }

  function AfterOption(r: Result<Consumed>, p: Progress): Result<Progress> {
    match r
    case Err(e) => Err(e)
    case Ok(c) => Ok(Progress(c.st, p.fates + if c.taken then [AsOption, AsValue] else [AsOption]))
  }

  /** A default that its own option does not accept is an error, once the option was not given. */
  predicate DefaultsAccepted(cfg: Config, st: St) {
    forall id: nat | id < |cfg.options.defs| && Count(st, id) == 0 && cfg.options.defs[id].defaultValue.Some? ::
      Accepts(cfg.options.defs[id].kind, cfg.options.defs[id].defaultValue.value)
  }

  function AllKept(n: nat): seq<Fate> { seq(n, _ => Kept) }

  /** After "--": positionals until one is refused, then everything is kept. */
  function Swallow(cfg: Config, args: seq<string>, p: Progress): Result<Progress>
    requires Valid(cfg) && |p.fates| <= |args|
    decreases |args| - |p.fates|
  {
    if |p.fates| == |args| then Ok(p)
    else
      match Consume(cfg, p.st, args[|p.fates|])
      case Err(e) => Err(e)
      case Ok(c) =>
        if c.taken then Swallow(cfg, args, Progress(c.st, p.fates + [AsPositional]))
        else Ok(Progress(c.st, p.fates + AllKept(|args| - |p.fates|)))
  }

  lemma ParseOneAdvances(cfg: Config, args: seq<string>, p: Progress)
    requires Valid(cfg) && |p.fates| < |args| && ParseOne(cfg, args, p).Ok?
    ensures |p.fates| < |ParseOne(cfg, args, p).value.fates| <= |args|
    ensures p.fates <= ParseOne(cfg, args, p).value.fates
  {
    var i := |p.fates|;
    if Classify(args[i]).Short? {
      ShortTakesOnlyWhatIsThere(cfg, p.st, Classify(args[i]).letters, 0, At(args, i + 1));
    }
  }

  lemma {:induction false} ShortTakesOnlyWhatIsThere(cfg: Config, st: St, letters: string, i: nat,
                                                     nextArg: Option<string>)
    requires Valid(cfg) && i <= |letters| && ShortFrom(cfg, st, letters, i, nextArg).Ok?
    ensures ShortFrom(cfg, st, letters, i, nextArg).value.taken ==> nextArg.Some?
    decreases |letters| - i
  {
    if i < |letters| {
      var name := [letters[i]];
      if name !in cfg.options.names {
        ShortTakesOnlyWhatIsThere(cfg, st, letters, i + 1, nextArg);
      } else if i + 1 < |letters| {
        var id := cfg.options.names[name];
        var st' := ParseOption(cfg, st, id, cfg.options.defs[id].implicitValue.value, false).value;
        ShortTakesOnlyWhatIsThere(cfg, st', letters, i + 1, nextArg);
      }
    }
  }

  /** The main loop up to its end or to "--". */
  function Scan(cfg: Config, args: seq<string>, p: Progress): Result<Progress>
    requires Valid(cfg) && |p.fates| <= |args|
    decreases |args| - |p.fates|
  {
    if |p.fates| == |args| then Ok(p)
    else if args[|p.fates|] == "--" then Ok(Progress(p.st, p.fates + [Separator]))
    else
      match ParseOne(cfg, args, p)
      case Err(e) => Err(e)
      case Ok(p') =>
        ParseOneAdvances(cfg, args, p);
        Scan(cfg, args, p')
  }

  /** The whole of `ParseResult::parse` on the arguments after the program name. */
  function ParseAll(cfg: Config, args: seq<string>): Result<Progress>
    requires Valid(cfg)
  {
    match Scan(cfg, args, Progress(FRESH, []))
    case Err(e) => Err(e)
    case Ok(p) =>
      if !DefaultsAccepted(cfg, p.st) then Err(DefaultOfWrongType)
      else
        ScanStays(cfg, args, Progress(FRESH, []));
        if p.fates != [] && p.fates[|p.fates| - 1] == Separator then Swallow(cfg, args, p) else Ok(p)
  }

  lemma {:induction false} ScanStays(cfg: Config, args: seq<string>, p: Progress)
    requires Valid(cfg) && |p.fates| <= |args| && Scan(cfg, args, p).Ok?
    ensures p.fates <= Scan(cfg, args, p).value.fates && |Scan(cfg, args, p).value.fates| <= |args|
    decreases |args| - |p.fates|
  {
    if |p.fates| < |args| && args[|p.fates|] != "--" {
      ParseOneAdvances(cfg, args, p);
      ScanStays(cfg, args, ParseOne(cfg, args, p).value);
    }
  }

  // ----- the log and the positional cursor

  function CountIn(log: seq<Entry>, id: nat): nat {
    if log == [] then 0
    else CountIn(log[..|log| - 1], id) + if log[|log| - 1].option == id then 1 else 0
  }

  /** Lines of the log under a name. */
  function CountKey(log: seq<Entry>, key: string): nat {
    if log == [] then 0
    else CountKey(log[..|log| - 1], key) + if log[|log| - 1].key == key then 1 else 0
  }

  /** Positional arguments an option got. */
  function PositionalsOf(log: seq<Entry>, id: nat): nat {
    if log == [] then 0
    else
      var e := log[|log| - 1];
      PositionalsOf(log[..|log| - 1], id) + if e.option == id && e.positional then 1 else 0
  }

  lemma LogSnoc(log: seq<Entry>, e: Entry, id: nat)
    ensures CountIn(log + [e], id) == CountIn(log, id) + (if e.option == id then 1 else 0)
    ensures PositionalsOf(log + [e], id) == PositionalsOf(log, id) + (if e.option == id && e.positional then 1 else 0)
  {
    assert (log + [e])[..|log|] == log;
  }

  lemma {:induction false} PositionalsAreCounted(log: seq<Entry>, id: nat)
    ensures PositionalsOf(log, id) <= CountIn(log, id)
  {
    if log != [] {
      PositionalsAreCounted(log[..|log| - 1], id);
    }
  }

  ghost predicate LogInv(cfg: Config, st: St) {
    && (forall id: nat :: Count(st, id) == CountIn(st.log, id))
    && (forall id: nat | id < |cfg.options.defs| && !IsContainer(cfg.options.defs[id]) ::
          PositionalsOf(st.log, id) <= 1)
    && (forall e | e in st.log :: e.option < |cfg.options.defs| && e.key == cfg.options.defs[e.option].long)
  }

  lemma ParseOptionKeepsLog(cfg: Config, st: St, id: nat, arg: string, positional: bool)
    requires id < |cfg.options.defs| && LogInv(cfg, st) && ParseOption(cfg, st, id, arg, positional).Ok?
    requires positional && !IsContainer(cfg.options.defs[id]) ==> Count(st, id) == 0
    ensures LogInv(cfg, ParseOption(cfg, st, id, arg, positional).value)
  {
    var e := Entry(id, cfg.options.defs[id].long, arg, positional);
    var st' := ParseOption(cfg, st, id, arg, positional).value;
    forall k: nat
      ensures Count(st', k) == CountIn(st'.log, k)
      ensures k < |cfg.options.defs| && !IsContainer(cfg.options.defs[k]) ==> PositionalsOf(st'.log, k) <= 1
    {
      LogSnoc(st.log, e, k);
      PositionalsAreCounted(st.log, k);
    }
  }

  /** The cursor only moves forward, and the log keeps its meaning. */
  lemma {:induction false} ConsumeKeepsLog(cfg: Config, st: St, a: string)
    requires Valid(cfg) && LogInv(cfg, st) && Consume(cfg, st, a).Ok?
    ensures var c := Consume(cfg, st, a).value;
            && LogInv(cfg, c.st) && st.next <= c.st.next && st.log <= c.st.log
            && (if c.taken
                then exists id: nat, key :: c.st.log == st.log + [Entry(id, key, a, true)]
                else c.st.log == st.log && c.st.next >= |cfg.positional|)
    decreases |cfg.positional| - st.next
  {
    if st.next < |cfg.positional| {
      var id := cfg.options.names[cfg.positional[st.next]];
      var d := cfg.options.defs[id];
      if IsContainer(d) || Count(st, id) == 0 {
        ParseOptionKeepsLog(cfg, st, id, a, true);
        assert Consume(cfg, st, a).value.st.log == st.log + [Entry(id, d.long, a, true)];
      } else {
        ConsumeKeepsLog(cfg, st.(next := st.next + 1), a);
      }
    }
  }

  lemma CheckedKeepsLog(cfg: Config, st: St, id: nat, name: string, nextArg: Option<string>)
    requires id < |cfg.options.defs| && LogInv(cfg, st) && CheckedParseArg(cfg, st, id, name, nextArg).Ok?
    ensures var c := CheckedParseArg(cfg, st, id, name, nextArg).value;
            && LogInv(cfg, c.st) && st.next == c.st.next
            && (exists e: Entry :: c.st.log == st.log + [e] && !e.positional && (c.taken ==> nextArg == Some(e.value)))
  {
    var d := cfg.options.defs[id];
    var arg := if d.implicitValue.Some? then d.implicitValue.value else nextArg.value;
    ParseOptionKeepsLog(cfg, st, id, arg, false);
    var e := Entry(id, d.long, arg, false);
    assert CheckedParseArg(cfg, st, id, name, nextArg).value.st.log == st.log + [e];
  }

  /** What an option argument adds to the log: lines of options, the last one being the value if the
      next argument was taken. */
  ghost predicate OptionLines(added: seq<Entry>, taken: bool, nextArg: Option<string>) {
    && (forall e | e in added :: !e.positional)
    && (taken ==> added != [] && nextArg == Some(added[|added| - 1].value))
  }

  lemma LinesCompose(log: seq<Entry>, more: seq<Entry>, c: Consumed, nextArg: Option<string>)
    requires |more| == |log| + 1 && log <= more <= c.st.log && !more[|log|].positional
    requires OptionLines(c.st.log[|more|..], c.taken, nextArg)
    ensures log <= c.st.log && OptionLines(c.st.log[|log|..], c.taken, nextArg)
  {
    assert c.st.log[|log|..] == [more[|log|]] + c.st.log[|more|..];
  }

  lemma {:induction false} ShortKeepsLog(cfg: Config, st: St, letters: string, i: nat, nextArg: Option<string>)
    requires Valid(cfg) && i <= |letters| && LogInv(cfg, st) && ShortFrom(cfg, st, letters, i, nextArg).Ok?
    ensures var c := ShortFrom(cfg, st, letters, i, nextArg).value;
            && LogInv(cfg, c.st) && st.next == c.st.next && st.log <= c.st.log
            && OptionLines(c.st.log[|st.log|..], c.taken, nextArg)
    decreases |letters| - i
  {
    if i < |letters| {
      var name := [letters[i]];
      if name !in cfg.options.names {
        ShortKeepsLog(cfg, st, letters, i + 1, nextArg);
      } else {
        var id := cfg.options.names[name];
        if i + 1 == |letters| {
          CheckedKeepsLog(cfg, st, id, name, nextArg);
        } else {
          var arg := cfg.options.defs[id].implicitValue.value;
          ParseOptionKeepsLog(cfg, st, id, arg, false);
          var st' := ParseOption(cfg, st, id, arg, false).value;
          ShortKeepsLog(cfg, st', letters, i + 1, nextArg);
          LinesCompose(st.log, st'.log, ShortFrom(cfg, st, letters, i, nextArg).value, nextArg);
        }
      }
    }
  }

  /** Once the cursor is past the end, every argument is refused. */
  lemma RefusedForGood(cfg: Config, st: St, a: string)
    requires Valid(cfg) && LogInv(cfg, st) && Consume(cfg, st, a).Ok? && !Consume(cfg, st, a).value.taken
    ensures var st' := Consume(cfg, st, a).value.st;
            forall b :: Consume(cfg, st', b) == Ok(Consumed(st', false))
  {
    ConsumeKeepsLog(cfg, st, a);
  }

  /** An option with a long name is counted as often as its name stands in the log. */
  lemma {:induction false} CountByName(cfg: Config, log: seq<Entry>, id: nat)
    requires Valid(cfg) && id < |cfg.options.defs| && cfg.options.defs[id].long != ""
    requires forall e | e in log :: e.option < |cfg.options.defs| && e.key == cfg.options.defs[e.option].long
    ensures CountKey(log, cfg.options.defs[id].long) == CountIn(log, id)
  {
    if log != [] {
      var e := log[|log| - 1];
      assert e in log;
      CountByName(cfg, log[..|log| - 1], id);
    }
  }

  // ----- fates

  /** The arguments with a given fate, in order. */
  function Select(args: seq<string>, fates: seq<Fate>, f: Fate): seq<string>
    requires |fates| <= |args|
  {
    if fates == [] then []
    else
      var k := |fates| - 1;
      Select(args, fates[..k], f) + if fates[k] == f then [args[k]] else []
  }

  lemma SelectSnoc(args: seq<string>, fates: seq<Fate>, f: Fate, g: Fate)
    requires |fates| < |args|
    ensures Select(args, fates + [f], g) == Select(args, fates, g) + (if f == g then [args[|fates|]] else [])
  {
    assert (fates + [f])[..|fates|] == fates;
  }

  function PositionalValues(log: seq<Entry>): seq<string> {
    if log == [] then []
    else
      var k := |log| - 1;
      PositionalValues(log[..k]) + if log[k].positional then [log[k].value] else []
  }

  ghost predicate AfterSeparator(fates: seq<Fate>, i: nat) {
    exists j: nat :: j < i && j < |fates| && fates[j] == Separator
  }

  /** No option, and nothing that only looks like one, unless that is allowed. */
  predicate IsPlain(cfg: Config, arg: string) {
    Classify(arg) == NonOption && (cfg.allowUnrecognised || !(|arg| >= 2 && arg[0] == '-'))
  }

  /** A declared long option, or a group of short options that are declared or need not be. */
  predicate IsOption(cfg: Config, arg: string) {
    match Classify(arg)
    case NonOption => false
    case Short(letters) => cfg.allowUnrecognised || AllDeclared(cfg, letters, 0)
    case Long(name, _) => name in cfg.options.names
  }

  predicate AllDeclared(cfg: Config, letters: string, i: nat) {
    forall k :: i <= k < |letters| ==> [letters[k]] in cfg.options.names
  }

  lemma {:induction false} AcceptedLettersAreDeclared(cfg: Config, st: St, letters: string, i: nat,
                                                      nextArg: Option<string>)
    requires Valid(cfg) && i <= |letters| && ShortFrom(cfg, st, letters, i, nextArg).Ok?
    ensures cfg.allowUnrecognised || AllDeclared(cfg, letters, i)
    decreases |letters| - i
  {
    if i + 1 < |letters| && !cfg.allowUnrecognised {
      var id := cfg.options.names[[letters[i]]];
      var st' := ParseOption(cfg, st, id, cfg.options.defs[id].implicitValue.value, false).value;
      AcceptedLettersAreDeclared(cfg, st', letters, i + 1, nextArg);
    }
  }

  /** What the fate of an argument says about it. */
  ghost predicate FateFits(cfg: Config, args: seq<string>, fates: seq<Fate>, i: nat)
    requires i < |fates| <= |args|
  {
    match fates[i]
    case Kept =>
      || AfterSeparator(fates, i)
      || IsPlain(cfg, args[i])
      || (cfg.allowUnrecognised && Classify(args[i]).Long? && Classify(args[i]).name !in cfg.options.names)
    case AsPositional => AfterSeparator(fates, i) || IsPlain(cfg, args[i])
    case AsOption => IsOption(cfg, args[i]) && !AfterSeparator(fates, i)
    case AsValue => i > 0 && fates[i - 1] == AsOption && !AfterSeparator(fates, i)
    case Separator => args[i] == "--" && !AfterSeparator(fates, i)
  }

  /** Argument i was offered to the positional options and refused. */
  ghost predicate Refused(args: seq<string>, fates: seq<Fate>, i: nat)
    requires i < |fates| <= |args|
  {
    fates[i] == Kept && (AfterSeparator(fates, i) || Classify(args[i]) == NonOption)
  }

  ghost predicate AllFit(cfg: Config, args: seq<string>, fates: seq<Fate>)
    requires |fates| <= |args|
  {
    forall i: nat | i < |fates| :: FateFits(cfg, args, fates, i)
  }

  /** After a refusal the cursor is past the end, and nothing is taken as positional any more. */
  ghost predicate RefusalsHold(cfg: Config, args: seq<string>, fates: seq<Fate>, next: nat)
    requires |fates| <= |args|
  {
    && (forall i: nat | i < |fates| && Refused(args, fates, i) :: next >= |cfg.positional|)
    && (forall i: nat, j: nat | i < j < |fates| && Refused(args, fates, i) :: fates[j] != AsPositional)
  }

  ghost predicate ProgressInv(cfg: Config, args: seq<string>, p: Progress) {
    && |p.fates| <= |args|
    && LogInv(cfg, p.st)
    && AllFit(cfg, args, p.fates)
    && PositionalValues(p.st.log) == Select(args, p.fates, AsPositional)
    && RefusalsHold(cfg, args, p.fates, p.st.next)
  }

  lemma AppendFate(cfg: Config, args: seq<string>, p: Progress, st: St, f: Fate)
    requires ProgressInv(cfg, args, p) && |p.fates| < |args|
    requires LogInv(cfg, st) && p.st.next <= st.next
    requires FateFits(cfg, args, p.fates + [f], |p.fates|)
    requires PositionalValues(st.log) ==
             PositionalValues(p.st.log) + (if f == AsPositional then [args[|p.fates|]] else [])
    requires f == AsPositional ==> p.st.next < |cfg.positional|
    requires Refused(args, p.fates + [f], |p.fates|) ==> st.next >= |cfg.positional|
    ensures ProgressInv(cfg, args, Progress(st, p.fates + [f]))
  {
    SelectSnoc(args, p.fates, f, AsPositional);
    AppendFits(cfg, args, p.fates, f);
    AppendRefusal(cfg, args, p.fates, f, p.st.next, st.next);
  }

  lemma AppendFits(cfg: Config, args: seq<string>, fates: seq<Fate>, f: Fate)
    requires |fates| < |args| && AllFit(cfg, args, fates) && FateFits(cfg, args, fates + [f], |fates|)
    ensures AllFit(cfg, args, fates + [f])
  {
    forall i: nat | i < |fates|
      ensures FateFits(cfg, args, fates + [f], i)
    {
      EarlierFatesStand(cfg, args, fates, f, i);
    }
  }

  lemma AppendRefusal(cfg: Config, args: seq<string>, fates: seq<Fate>, f: Fate, next: nat, next': nat)
    requires |fates| < |args| && AllFit(cfg, args, fates) && RefusalsHold(cfg, args, fates, next) && next <= next'
    requires f == AsPositional ==> next < |cfg.positional|
    requires Refused(args, fates + [f], |fates|) ==> next' >= |cfg.positional|
    ensures RefusalsHold(cfg, args, fates + [f], next')
  {
    forall i: nat | i < |fates|
      ensures Refused(args, fates + [f], i) <==> Refused(args, fates, i)
    {
      EarlierFatesStand(cfg, args, fates, f, i);
    }
  }

  lemma EarlierFatesStand(cfg: Config, args: seq<string>, fates: seq<Fate>, f: Fate, i: nat)
    requires i < |fates| < |args| && FateFits(cfg, args, fates, i)
    ensures FateFits(cfg, args, fates + [f], i)
    ensures Refused(args, fates + [f], i) <==> Refused(args, fates, i)
  {
    SameSeparators(fates, f, i);
  }

  lemma SameSeparators(fates: seq<Fate>, f: Fate, i: nat)
    requires i <= |fates|
    ensures AfterSeparator(fates + [f], i) <==> AfterSeparator(fates, i)
  {
    if AfterSeparator(fates, i) {
      var j: nat :| j < i && j < |fates| && fates[j] == Separator;
      assert (fates + [f])[j] == Separator;
    }
  }

  lemma PositionalSnoc(log: seq<Entry>, e: Entry)
    ensures PositionalValues(log + [e]) == PositionalValues(log) + if e.positional then [e.value] else []
  {
    assert (log + [e])[..|log|] == log;
  }

  lemma {:induction false} OptionLinesAddNoPositional(log: seq<Entry>, added: seq<Entry>)
    requires forall e | e in added :: !e.positional
    ensures PositionalValues(log + added) == PositionalValues(log)
    decreases |added|
  {
    if added == [] {
      assert log + added == log;
    } else {
      var k := |added| - 1;
      assert log + added == (log + added[..k]) + [added[k]];
      PositionalSnoc(log + added[..k], added[k]);
      OptionLinesAddNoPositional(log, added[..k]);
    }
  }

  lemma TakenOnlyBeforeTheEnd(cfg: Config, st: St, a: string)
    requires Valid(cfg) && Consume(cfg, st, a).Ok? && Consume(cfg, st, a).value.taken
    ensures st.next < |cfg.positional|
  {
  }

  /** Offering one argument to the positional options. */
  lemma OfferKeepsInv(cfg: Config, args: seq<string>, p: Progress)
    requires Valid(cfg) && ProgressInv(cfg, args, p) && |p.fates| < |args|
    requires AfterSeparator(p.fates, |p.fates|) || IsPlain(cfg, args[|p.fates|])
    requires Consume(cfg, p.st, args[|p.fates|]).Ok?
    ensures var c := Consume(cfg, p.st, args[|p.fates|]).value;
            && ProgressInv(cfg, args, Progress(c.st, p.fates + [if c.taken then AsPositional else Kept]))
            && (!c.taken ==> c.st.next >= |cfg.positional|)
  {
    var i := |p.fates|;
    var c := Consume(cfg, p.st, args[i]).value;
    var f := if c.taken then AsPositional else Kept;
    ConsumeKeepsLog(cfg, p.st, args[i]);
    SameSeparators(p.fates, f, i);
    if c.taken {
      TakenOnlyBeforeTheEnd(cfg, p.st, args[i]);
      var id: nat, key :| c.st.log == p.st.log + [Entry(id, key, args[i], true)];
      PositionalSnoc(p.st.log, Entry(id, key, args[i], true));
    }
    AppendFate(cfg, args, p, c.st, f);
  }

  /** An option argument, with the value it may have taken. */
  lemma OptionKeepsInv(cfg: Config, args: seq<string>, p: Progress, c: Consumed, added: seq<Entry>)
    requires ProgressInv(cfg, args, p) && |p.fates| < |args|
    requires IsOption(cfg, args[|p.fates|]) && Separator !in p.fates
    requires LogInv(cfg, c.st) && c.st.next == p.st.next && c.st.log == p.st.log + added
    requires OptionLines(added, c.taken, At(args, |p.fates| + 1))
    ensures ProgressInv(cfg, args, Progress(c.st, p.fates + if c.taken then [AsOption, AsValue] else [AsOption]))
  {
    OptionLinesAddNoPositional(p.st.log, added);
    AppendFate(cfg, args, p, c.st, AsOption);
    if c.taken {
      var p' := Progress(c.st, p.fates + [AsOption]);
      assert Separator !in p'.fates;
      assert (p'.fates + [AsValue])[|p.fates|] == AsOption;
      AppendFate(cfg, args, p', c.st, AsValue);
      assert p'.fates + [AsValue] == p.fates + [AsOption, AsValue];
    }
  }

  lemma CheckedKeepsInv(cfg: Config, args: seq<string>, p: Progress, id: nat, name: string)
    requires ProgressInv(cfg, args, p) && |p.fates| < |args| && id < |cfg.options.defs| && Separator !in p.fates
    requires Classify(args[|p.fates|]).Long? && Classify(args[|p.fates|]).name in cfg.options.names
    requires CheckedParseArg(cfg, p.st, id, name, At(args, |p.fates| + 1)).Ok?
    ensures ProgressInv(cfg, args, AfterOption(CheckedParseArg(cfg, p.st, id, name, At(args, |p.fates| + 1)), p).value)
  {
    var nextArg := At(args, |p.fates| + 1);
    var c := CheckedParseArg(cfg, p.st, id, name, nextArg).value;
    CheckedKeepsLog(cfg, p.st, id, name, nextArg);
    var e: Entry :| c.st.log == p.st.log + [e] && !e.positional && (c.taken ==> nextArg == Some(e.value));
    OptionKeepsInv(cfg, args, p, c, [e]);
  }

  lemma ShortKeepsInv(cfg: Config, args: seq<string>, p: Progress, letters: string)
    requires Valid(cfg) && ProgressInv(cfg, args, p) && |p.fates| < |args| && Separator !in p.fates
    requires Classify(args[|p.fates|]) == Short(letters)
    requires ShortFrom(cfg, p.st, letters, 0, At(args, |p.fates| + 1)).Ok?
    ensures ProgressInv(cfg, args, AfterOption(ShortFrom(cfg, p.st, letters, 0, At(args, |p.fates| + 1)), p).value)
  {
    var nextArg := At(args, |p.fates| + 1);
    var c := ShortFrom(cfg, p.st, letters, 0, nextArg).value;
    ShortKeepsLog(cfg, p.st, letters, 0, nextArg);
    AcceptedLettersAreDeclared(cfg, p.st, letters, 0, nextArg);
    OptionKeepsInv(cfg, args, p, c, c.st.log[|p.st.log|..]);
  }

  lemma ParseOneKeepsInv(cfg: Config, args: seq<string>, p: Progress)
    requires Valid(cfg) && ProgressInv(cfg, args, p) && |p.fates| < |args| && ParseOne(cfg, args, p).Ok?
    requires Separator !in p.fates
    ensures ProgressInv(cfg, args, ParseOne(cfg, args, p).value)
    ensures Separator !in ParseOne(cfg, args, p).value.fates
  {
    var i := |p.fates|;
    match Classify(args[i])
    case NonOption => OfferKeepsInv(cfg, args, p);
    case Short(letters) => ShortKeepsInv(cfg, args, p, letters);
    case Long(name, value) => LongKeepsInv(cfg, args, p, name, value);
  }

  lemma LongKeepsInv(cfg: Config, args: seq<string>, p: Progress, name: string, value: Option<string>)
    requires Valid(cfg) && ProgressInv(cfg, args, p) && |p.fates| < |args| && ParseOne(cfg, args, p).Ok?
    requires Separator !in p.fates && Classify(args[|p.fates|]) == Long(name, value)
    ensures ProgressInv(cfg, args, ParseOne(cfg, args, p).value)
  {
    if name !in cfg.options.names {
      UnrecognisedKeepsInv(cfg, args, p);
    } else if value.Some? {
      GivenValueKeepsInv(cfg, args, p, name, value.value);
    } else {
      CheckedKeepsInv(cfg, args, p, cfg.options.names[name], name);
    }
  }

  /** A declared long option with its value behind an equals sign. */
  lemma GivenValueKeepsInv(cfg: Config, args: seq<string>, p: Progress, name: string, value: string)
    requires Valid(cfg) && ProgressInv(cfg, args, p) && |p.fates| < |args| && Separator !in p.fates
    requires Classify(args[|p.fates|]) == Long(name, Some(value)) && name in cfg.options.names
    requires ParseOption(cfg, p.st, cfg.options.names[name], value, false).Ok?
    ensures var st' := ParseOption(cfg, p.st, cfg.options.names[name], value, false).value;
            ProgressInv(cfg, args, Progress(st', p.fates + [AsOption]))
  {
    var id := cfg.options.names[name];
    var st' := ParseOption(cfg, p.st, id, value, false).value;
    ParseOptionKeepsLog(cfg, p.st, id, value, false);
    OptionKeepsInv(cfg, args, p, Consumed(st', false), [Entry(id, cfg.options.defs[id].long, value, false)]);
  }

  lemma UnrecognisedKeepsInv(cfg: Config, args: seq<string>, p: Progress)
    requires ProgressInv(cfg, args, p) && |p.fates| < |args| && cfg.allowUnrecognised && Separator !in p.fates
    requires Classify(args[|p.fates|]).Long? && Classify(args[|p.fates|]).name !in cfg.options.names
    ensures ProgressInv(cfg, args, Progress(p.st, p.fates + [Kept]))
  {
    SameSeparators(p.fates, Kept, |p.fates|);
    AppendFate(cfg, args, p, p.st, Kept);
  }

  lemma SeparatorKeepsInv(cfg: Config, args: seq<string>, p: Progress)
    requires ProgressInv(cfg, args, p) && |p.fates| < |args| && Separator !in p.fates && args[|p.fates|] == "--"
    ensures ProgressInv(cfg, args, Progress(p.st, p.fates + [Separator]))
  {
    SameSeparators(p.fates, Separator, |p.fates|);
    AppendFate(cfg, args, p, p.st, Separator);
  }

  lemma ScanUnfolds(cfg: Config, args: seq<string>, p: Progress)
    requires Valid(cfg) && |p.fates| < |args| && args[|p.fates|] != "--" && Scan(cfg, args, p).Ok?
    ensures ParseOne(cfg, args, p).Ok?
    ensures var p' := ParseOne(cfg, args, p).value;
            |p.fates| < |p'.fates| <= |args| && Scan(cfg, args, p) == Scan(cfg, args, p')
  {
    ParseOneAdvances(cfg, args, p);
  }

  lemma {:induction false} ScanKeepsInv(cfg: Config, args: seq<string>, p: Progress)
    requires Valid(cfg) && ProgressInv(cfg, args, p) && Separator !in p.fates && Scan(cfg, args, p).Ok?
    ensures ProgressInv(cfg, args, Scan(cfg, args, p).value)
    ensures var fates := Scan(cfg, args, p).value.fates;
            |fates| == |args| || (fates != [] && fates[|fates| - 1] == Separator)
    decreases |args| - |p.fates|
  {
    if |p.fates| < |args| {
      if args[|p.fates|] == "--" {
        SeparatorKeepsInv(cfg, args, p);
      } else {
        ScanUnfolds(cfg, args, p);
        ParseOneKeepsInv(cfg, args, p);
        ScanKeepsInv(cfg, args, ParseOne(cfg, args, p).value);
      }
    }
  }

  lemma {:induction false} KeepingTheRest(cfg: Config, args: seq<string>, p: Progress, n: nat)
    requires ProgressInv(cfg, args, p) && |p.fates| + n <= |args|
    requires AfterSeparator(p.fates, |p.fates|) && p.st.next >= |cfg.positional|
    ensures ProgressInv(cfg, args, Progress(p.st, p.fates + AllKept(n)))
    decreases n
  {
    if n == 0 {
      assert p.fates + AllKept(0) == p.fates;
    } else {
      SameSeparators(p.fates, Kept, |p.fates|);
      AppendFate(cfg, args, p, p.st, Kept);
      var p' := Progress(p.st, p.fates + [Kept]);
      var j: nat :| j < |p.fates| && p.fates[j] == Separator;
      assert p'.fates[j] == Separator;
      KeepingTheRest(cfg, args, p', n - 1);
      assert p'.fates + AllKept(n - 1) == p.fates + AllKept(n);
    }
  }

  lemma {:induction false} SwallowKeepsInv(cfg: Config, args: seq<string>, p: Progress)
    requires Valid(cfg) && ProgressInv(cfg, args, p) && Swallow(cfg, args, p).Ok?
    requires AfterSeparator(p.fates, |p.fates|)
    ensures ProgressInv(cfg, args, Swallow(cfg, args, p).value)
    ensures |Swallow(cfg, args, p).value.fates| == |args|
    decreases |args| - |p.fates|
  {
    if |p.fates| < |args| {
      var c := Consume(cfg, p.st, args[|p.fates|]).value;
      OfferKeepsInv(cfg, args, p);
      if c.taken {
        var p' := Progress(c.st, p.fates + [AsPositional]);
        var j: nat :| j < |p.fates| && p.fates[j] == Separator;
        assert p'.fates[j] == Separator;
        SwallowKeepsInv(cfg, args, p');
      } else {
        var p' := Progress(c.st, p.fates + [Kept]);
        var j: nat :| j < |p.fates| && p.fates[j] == Separator;
        assert p'.fates[j] == Separator;
        var n := |args| - |p.fates|;
        KeepingTheRest(cfg, args, p', n - 1);
        assert p'.fates + AllKept(n - 1) == p.fates + AllKept(n);
      }
    }
  }

  lemma StartingInv(cfg: Config, args: seq<string>)
    ensures ProgressInv(cfg, args, Progress(FRESH, []))
  {
  }

  // ----- main results

  lemma ParsedIsConsistent(cfg: Config, args: seq<string>)
    requires Valid(cfg) && ParseAll(cfg, args).Ok?
    ensures ProgressInv(cfg, args, ParseAll(cfg, args).value)
    ensures |ParseAll(cfg, args).value.fates| == |args|
  {
    var start := Progress(FRESH, []);
    StartingInv(cfg, args);
    ScanKeepsInv(cfg, args, start);
    ScanStays(cfg, args, start);
    var p := Scan(cfg, args, start).value;
    if p.fates != [] && p.fates[|p.fates| - 1] == Separator {
      SwallowKeepsInv(cfg, args, p);
    }
  }

  lemma {:induction false} SelectIsSubsequence(args: seq<string>, fates: seq<Fate>, f: Fate, n: nat)
    requires |fates| <= |args| && n == |fates|
    ensures Subsequence(Select(args, fates, f), args[..n])
  {
    if fates != [] {
      var k := n - 1;
      SelectIsSubsequence(args, fates[..k], f, k);
      assert args[..n] == args[..k] + [args[k]];
      if fates[k] == f {
        SubsequenceSnoc(Select(args, fates[..k], f), args[..k], args[k]);
      } else {
        SubsequenceWeaken(Select(args, fates[..k], f), args[..k], args[k]);
        assert Select(args, fates, f) == Select(args, fates[..k], f);
      }
    }
  }

  /** An unrecognised long option before "--" is kept, unless the option before it took it as its value. */
  lemma UnrecognisedLongOptionsAreKept(cfg: Config, args: seq<string>, i: nat)
    requires Valid(cfg) && ParseAll(cfg, args).Ok? && i < |args|
    requires Classify(args[i]).Long? && Classify(args[i]).name !in cfg.options.names
    requires !AfterSeparator(ParseAll(cfg, args).value.fates, i)
    ensures |ParseAll(cfg, args).value.fates| == |args|
    ensures var f := ParseAll(cfg, args).value.fates[i];
            f == Kept || (f == AsValue && i > 0 && ParseAll(cfg, args).value.fates[i - 1] == AsOption)
  {
    ParsedIsConsistent(cfg, args);
    assert FateFits(cfg, args, ParseAll(cfg, args).value.fates, i);
    SeparatorIsNoLongOption(args[i]);
  }

  lemma SeparatorIsNoLongOption(s: string)
    ensures s == "--" ==> Classify(s) == NonOption
  {
    if s == "--" {
      assert NameLength(s[2..]) == 0;
    }
  }

  /** Once a positional argument was refused, no later argument is taken as a positional one. */
  lemma RefusalIsFinal(cfg: Config, args: seq<string>, i: nat, j: nat)
    requires Valid(cfg) && ParseAll(cfg, args).Ok? && i < j < |args|
    requires |ParseAll(cfg, args).value.fates| == |args|
    requires Refused(args, ParseAll(cfg, args).value.fates, i)
    ensures ParseAll(cfg, args).value.fates[j] != AsPositional
  {
    ParsedIsConsistent(cfg, args);
  }

  /** Every option's count is its number of log lines, also by name for options with a long name; and a
      positional option that is no list got at most one positional argument. */
  lemma CountsMatchTheLog(cfg: Config, args: seq<string>, id: nat)
    requires Valid(cfg) && ParseAll(cfg, args).Ok? && id < |cfg.options.defs|
    ensures var st := ParseAll(cfg, args).value.st;
            && Count(st, id) == CountIn(st.log, id)
            && (cfg.options.defs[id].long != "" ==> Count(st, id) == CountKey(st.log, cfg.options.defs[id].long))
            && (!IsContainer(cfg.options.defs[id]) ==> PositionalsOf(st.log, id) <= 1)
  {
    ParsedIsConsistent(cfg, args);
    var st := ParseAll(cfg, args).value.st;
    if cfg.options.defs[id].long != "" {
      CountByName(cfg, st.log, id);
    }
  }

  // ----- list options

  /** The k-th positional option is declared and a list. */
  predicate ListAt(cfg: Config, k: nat)
    requires Valid(cfg)
  {
    && k < |cfg.positional| && cfg.positional[k] in cfg.options.names
    && IsContainer(cfg.options.defs[cfg.options.names[cfg.positional[k]]])
  }

  lemma {:induction false} ConsumeStopsAtList(cfg: Config, st: St, a: string, k: nat)
    requires Valid(cfg) && ListAt(cfg, k) && st.next <= k && Consume(cfg, st, a).Ok?
    ensures Consume(cfg, st, a).value.taken && Consume(cfg, st, a).value.st.next <= k
    decreases |cfg.positional| - st.next
  {
    var id := cfg.options.names[cfg.positional[st.next]];
    if st.next < k && !IsContainer(cfg.options.defs[id]) && Count(st, id) != 0 {
      ConsumeStopsAtList(cfg, st.(next := st.next + 1), a, k);
    }
  }

  lemma ParseOneStopsAtList(cfg: Config, args: seq<string>, p: Progress, k: nat)
    requires Valid(cfg) && ProgressInv(cfg, args, p) && |p.fates| < |args| && ParseOne(cfg, args, p).Ok?
    requires ListAt(cfg, k) && p.st.next <= k
    ensures ParseOne(cfg, args, p).value.st.next <= k
  {
    var i := |p.fates|;
    match Classify(args[i])
    case NonOption => ConsumeStopsAtList(cfg, p.st, args[i], k);
    case Short(letters) => ShortKeepsLog(cfg, p.st, letters, 0, At(args, i + 1));
    case Long(name, value) =>
      if name in cfg.options.names && value.None? {
        CheckedKeepsLog(cfg, p.st, cfg.options.names[name], name, At(args, i + 1));
      }
  }

  lemma {:induction false} ScanStopsAtList(cfg: Config, args: seq<string>, p: Progress, k: nat)
    requires Valid(cfg) && ProgressInv(cfg, args, p) && Separator !in p.fates && Scan(cfg, args, p).Ok?
    requires ListAt(cfg, k) && p.st.next <= k
    ensures Scan(cfg, args, p).value.st.next <= k
    decreases |args| - |p.fates|
  {
    if |p.fates| < |args| && args[|p.fates|] != "--" {
      ParseOneAdvances(cfg, args, p);
      ParseOneKeepsInv(cfg, args, p);
      ParseOneStopsAtList(cfg, args, p, k);
      ScanStopsAtList(cfg, args, ParseOne(cfg, args, p).value, k);
    }
  }

  lemma {:induction false} SwallowStopsAtList(cfg: Config, args: seq<string>, p: Progress, k: nat)
    requires Valid(cfg) && |p.fates| <= |args| && Swallow(cfg, args, p).Ok?
    requires ListAt(cfg, k) && p.st.next <= k
    ensures Swallow(cfg, args, p).value.st.next <= k
    decreases |args| - |p.fates|
  {
    if |p.fates| < |args| {
      ConsumeStopsAtList(cfg, p.st, args[|p.fates|], k);
      var c := Consume(cfg, p.st, args[|p.fates|]).value;
      SwallowStopsAtList(cfg, args, Progress(c.st, p.fates + [AsPositional]), k);
    }
  }

  /** With a list among the positional options the cursor never gets past it, so no argument is ever
      refused. */
  lemma ListOptionRefusesNothing(cfg: Config, args: seq<string>, k: nat)
    requires Valid(cfg) && ParseAll(cfg, args).Ok? && ListAt(cfg, k)
    ensures |ParseAll(cfg, args).value.fates| == |args| && ParseAll(cfg, args).value.st.next <= k
    ensures forall i: nat | i < |args| :: !Refused(args, ParseAll(cfg, args).value.fates, i)
  {
    ParsedIsConsistent(cfg, args);
    var start := Progress(FRESH, []);
    StartingInv(cfg, args);
    ScanStays(cfg, args, start);
    ScanStopsAtList(cfg, args, start, k);
    var p := Scan(cfg, args, start).value;
    if p.fates != [] && p.fates[|p.fates| - 1] == Separator {
      SwallowStopsAtList(cfg, args, p, k);
    }
  }
}
