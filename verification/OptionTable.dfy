/** Declared options of cxxopts, the classes of command-line tokens, and the values options accept. */
module OptionTable {
  import opened Sequences
  import opened IntegerParser
  import IntegerLiterals

  datatype Result<+T> = Ok(value: T) | Err(error: ParseError)

  datatype ParseError =
    | OptionExists(name: string)
    | OptionNotExists(name: string)
    | OptionSyntax(text: string)
    | MissingArgument(name: string)
    | RequiresArgument(name: string)
    | IncorrectType(text: string)
    | DefaultOfWrongType

  datatype ValueKind = Text | Flag | Number(width: nat, signed: bool) | TextList

  /** A declared option; flags come with implicit value "true" and default "false". */
  datatype OptionDef = OptionDef(short: string, long: string, kind: ValueKind,
                                 implicitValue: Option<string>, defaultValue: Option<string>)

  /** Whether the value's `parse` takes the text without throwing. */
  predicate Accepts(kind: ValueKind, text: string) {
    match kind
    case Text => true
    case TextList => true
    case Flag => text in {"1", "t", "T", "true", "True", "0", "f", "F", "false", "False"}
    case Number(w, signed) => w >= 8 && ParseInt(text, w, signed).Some?
  }

  predicate IsContainer(d: OptionDef) { d.kind.TextList? }

  /** `m_options`: names to declarations, which short and long names share. */
  datatype Table = Table(names: map<string, nat>, defs: seq<OptionDef>)

  const NO_OPTIONS: Table := Table(map[], [])

  /** `add_option`. */
  function AddOption(t: Table, d: OptionDef): Result<Table> {
    var id := |t.defs|;
    if d.short != "" && d.short in t.names then Err(OptionExists(d.short))
    else
      var names := if d.short != "" then t.names[d.short := id] else t.names;
      if d.long != "" && d.long in names then Err(OptionExists(d.long))
      else Ok(Table(if d.long != "" then names[d.long := id] else names, t.defs + [d]))
  }

  /** A table made by successful calls of `add_option`. */
  ghost predicate Declared(t: Table, ds: seq<OptionDef>)
    decreases |ds|
  {
    if ds == [] then t == NO_OPTIONS
    else
      var k := |ds| - 1;
      exists t0 :: Declared(t0, ds[..k]) && AddOption(t0, ds[k]) == Ok(t)
  }

  predicate ValidTable(t: Table) {
    && (forall n | n in t.names :: t.names[n] < |t.defs|)
    && (forall i: nat | i < |t.defs| && t.defs[i].long != "" ::
          t.defs[i].long in t.names && t.names[t.defs[i].long] == i)
  }

  lemma AddKeepsValid(t: Table, d: OptionDef)
    requires ValidTable(t) && AddOption(t, d).Ok?
    ensures ValidTable(AddOption(t, d).value) && AddOption(t, d).value.defs == t.defs + [d]
  {
  }

  lemma {:induction false} DeclaredTablesAreValid(t: Table, ds: seq<OptionDef>)
    requires Declared(t, ds)
    ensures ValidTable(t) && t.defs == ds
    decreases |ds|
  {
    if ds != [] {
      var k := |ds| - 1;
      var t0 :| Declared(t0, ds[..k]) && AddOption(t0, ds[k]) == Ok(t);
      DeclaredTablesAreValid(t0, ds[..k]);
      AddKeepsValid(t0, ds[k]);
      assert ds == ds[..k] + [ds[k]];
    }
  }

  // ----- tokens

  datatype Token = NonOption | Short(letters: string) | Long(name: string, value: Option<string>)

  predicate IsNameChar(c: char) { IsAlnum(c) || c == '-' || c == '_' }

  /** The length of the longest prefix of name characters. */
  function NameLength(s: string): (n: nat)
    ensures n <= |s|
    ensures forall k :: 0 <= k < n ==> IsNameChar(s[k])
    ensures n < |s| ==> !IsNameChar(s[n])
  {
    if s != "" && IsNameChar(s[0]) then 1 + NameLength(s[1..]) else 0
  }

  /** What `option_matcher` makes of an argument. */
  function Classify(s: string): Token {
    if |s| >= 2 && s[0] == '-' && s[1] == '-' then
      var rest := s[2..];
      var n := NameLength(rest);
      if n < 2 || !IsAlnum(rest[0]) then NonOption
      else if n == |rest| then Long(rest, None)
      else if rest[n] == '=' && '\n' !in rest[n + 1..] && '\r' !in rest[n + 1..]
      then Long(rest[..n], Some(rest[n + 1..]))
      else NonOption
    else if |s| >= 2 && s[0] == '-' && AllAlnum(s[1..]) then Short(s[1..])
    else NonOption
  }

  predicate LooksLikeOption(s: string) { |s| >= 2 && s[0] == '-' }

  // ----- what the classes of tokens look like

  predicate IsName(s: string) { |s| >= 2 && IsAlnum(s[0]) && forall k :: 0 <= k < |s| ==> IsNameChar(s[k]) }

  /** No line terminator, which `.` does not match. */
  predicate OneLine(s: string) { '\n' !in s && '\r' !in s }

  /** The token that this text stands for. */
  predicate Stands(s: string, t: Token) {
    match t
    case NonOption => false
    case Short(letters) => letters != "" && AllAlnum(letters) && s == "-" + letters
    case Long(name, value) =>
      && IsName(name)
      && if value.Some? then OneLine(value.value) && s == "--" + name + "=" + value.value else s == "--" + name
  }

  lemma {:induction false} NameEnds(name: string, rest: string)
    requires (forall k :: 0 <= k < |name| ==> IsNameChar(name[k])) && (rest == "" || !IsNameChar(rest[0]))
    ensures NameLength(name + rest) == |name|
  {
    if name == "" {
      assert name + rest == rest;
    } else {
      NameEnds(name[1..], rest);
      assert (name + rest)[1..] == name[1..] + rest;
    }
  }

  /** An argument is an option exactly when it is spelt like one, and as that one. */
  lemma ClassifiedAsSpelt(s: string, t: Token)
    requires t != NonOption
    ensures Classify(s) == t <==> Stands(s, t)
  {
    if Classify(s) == t {
      ClassifiedIsSpelt(s);
    }
    if Stands(s, t) {
      SpeltIsClassified(s, t);
    }
  }

  lemma ClassifiedIsSpelt(s: string)
    requires Classify(s) != NonOption
    ensures Stands(s, Classify(s))
  {
    if s[1] == '-' {
      var rest := s[2..];
      assert s == "--" + rest;
      var n := NameLength(rest);
      if n < |rest| {
        assert rest == rest[..n] + "=" + rest[n + 1..];
        assert s == "--" + rest[..n] + "=" + rest[n + 1..];
      }
    } else {
      assert s == "-" + s[1..];
    }
  }

  lemma SpeltIsClassified(s: string, t: Token)
    requires t != NonOption && Stands(s, t)
    ensures Classify(s) == t
  {
    match t
    case Short(letters) =>
      assert s[1..] == letters && s[1] == letters[0];
    case Long(name, value) =>
      var tail := if value.Some? then "=" + value.value else "";
      assert s == "--" + (name + tail);
      assert s[2..] == name + tail;
      NameEnds(name, tail);
      assert (name + tail)[..|name|] == name;
      if value.Some? {
        assert (name + tail)[|name|] == '=' && (name + tail)[|name| + 1..] == value.value;
      }
  }

  // ----- the names of a table

  predicate IsNameOf(d: OptionDef, n: string) { n != "" && (n == d.short || n == d.long) }

  /** The names of a declared table are those of its options, and each belongs to one. */
  ghost predicate NamesAreDeclared(t: Table) {
    && (forall n | n in t.names :: t.names[n] < |t.defs| && IsNameOf(t.defs[t.names[n]], n))
    && (forall i, n | 0 <= i < |t.defs| && IsNameOf(t.defs[i], n) :: n in t.names && t.names[n] == i)
  }

  /** A declaration is refused exactly when one of its names is taken, or it names itself twice. */
  lemma AddRefusesTakenNames(t: Table, d: OptionDef)
    ensures AddOption(t, d).Ok? <==>
            && !(d.short != "" && d.short in t.names) && !(d.long != "" && d.long in t.names)
            && !(d.short != "" && d.short == d.long)
    ensures AddOption(t, d).Err? ==> AddOption(t, d).error.OptionExists? && IsNameOf(d, AddOption(t, d).error.name)
  {
  }

  lemma AddedNames(t: Table, d: OptionDef, n: string)
    requires AddOption(t, d).Ok?
    ensures var names := AddOption(t, d).value.names;
            && (n in names <==> n in t.names || IsNameOf(d, n))
            && (IsNameOf(d, n) ==> n !in t.names && names[n] == |t.defs|)
            && (n in t.names ==> names[n] == t.names[n])
  {
  }

  lemma AddDeclaresNames(t: Table, d: OptionDef)
    requires NamesAreDeclared(t) && AddOption(t, d).Ok?
    ensures NamesAreDeclared(AddOption(t, d).value)
  {
    var t' := AddOption(t, d).value;
    assert t'.defs == t.defs + [d];
    forall n | n in t'.names
      ensures t'.names[n] < |t'.defs| && IsNameOf(t'.defs[t'.names[n]], n)
    {
      AddedNames(t, d, n);
    }
    forall i, n | 0 <= i < |t'.defs| && IsNameOf(t'.defs[i], n)
      ensures n in t'.names && t'.names[n] == i
    {
      AddedNames(t, d, n);
      assert i < |t.defs| ==> t'.defs[i] == t.defs[i];
    }
  }

  /** Every name of a declared option, short or long, leads to it, and no other name to anything. */
  lemma {:induction false} DeclaredNamesLead(t: Table, ds: seq<OptionDef>)
    requires Declared(t, ds)
    ensures NamesAreDeclared(t)
    decreases |ds|
  {
    if ds != [] {
      var k := |ds| - 1;
      var t0 :| Declared(t0, ds[..k]) && AddOption(t0, ds[k]) == Ok(t);
      DeclaredNamesLead(t0, ds[..k]);
      AddDeclaresNames(t0, ds[k]);
    }
  }

  /** A number option takes every representable number, in decimal and in hexadecimal, and of other texts
      only such that spell a literal; text options take anything. */
  lemma NumberTexts(w: nat, signed: bool, text: string, v: int, base: nat)
    requires w >= 8 && base in {10, 16}
    ensures Representable(v, w, signed) ==> Accepts(Number(w, signed), IntegerLiterals.Written(v, base))
    ensures Accepts(Number(w, signed), text) ==> exists l :: IntegerLiterals.Spells(text, l) && (l.negative ==> signed)
    ensures Accepts(Text, text) && Accepts(TextList, text)
  {
    if Representable(v, w, signed) {
      IntegerLiterals.WrittenIsRead(v, base, w, signed);
    }
    if ParseInt(text, w, signed).Some? {
      var l := Match(text).value;
      AcceptedExactly(text, w, signed);
      IntegerLiterals.MatchesExactly(text, l);
    }
  }

  /** The texts a flag takes: one of the two digits, or the first letter of a truth value in either case, or
      the whole word so begun. */
  lemma FlagTexts(text: string)
    ensures Accepts(Flag, text) <==>
            || text in {"0", "1"}
            || (text != "" && text[0] in {'t', 'T'} && text[1..] in {"", "rue"})
            || (text != "" && text[0] in {'f', 'F'} && text[1..] in {"", "alse"})
  {
    if text != "" {
      assert text == [text[0]] + text[1..];
    }
    assert "t"[1..] == "" && "T"[1..] == "" && "f"[1..] == "" && "F"[1..] == "";
    assert "true"[1..] == "rue" && "True"[1..] == "rue" && "false"[1..] == "alse" && "False"[1..] == "alse";
    assert ['t'] + "rue" == "true" && ['T'] + "rue" == "True" && ['f'] + "alse" == "false" && ['F'] + "alse" == "False";
    assert ['t'] + "" == "t" && ['T'] + "" == "T" && ['f'] + "" == "f" && ['F'] + "" == "F";
  }
}
