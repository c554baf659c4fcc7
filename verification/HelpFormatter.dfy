/** The word wrapper of cxxopts' help output, `format_description`. */
module HelpFormatter {
  import opened Sequences

  datatype HelpOption = HelpOption(desc: string, hasDefault: bool, defaultValue: string, isBoolean: bool)

  function FullDescription(o: HelpOption): string {
    if o.hasDefault && (!o.isBoolean || o.defaultValue != "false")
    then o.desc + " (default: " + o.defaultValue + ")"
    else o.desc
  }

  /** A line break and the indent of the next line. */
  function Break(start: nat): string { "\n" + seq(start, _ => ' ') }

  /** The default is told of, except for a flag whose default is false. */
  lemma DescriptionTellsTheDefault(o: HelpOption)
    ensures o.hasDefault && !(o.isBoolean && o.defaultValue == "false") ==>
              FullDescription(o) == o.desc + " (default: " + o.defaultValue + ")"
    ensures !o.hasDefault || (o.isBoolean && o.defaultValue == "false") ==> FullDescription(o) == o.desc
  {
  }

  /** A break is one newline, followed by exactly as many spaces as the indent. */
  lemma BreakIsNewlineAndIndent(start: nat)
    ensures |Break(start)| == start + 1 && Break(start)[0] == '\n'
    ensures forall i :: 1 <= i <= start ==> Break(start)[i] == ' '
  {
  }

  /** The iterators and the counter of the loop, as positions in the description. */
  datatype Cursor = Cursor(current: nat, startLine: nat, lastSpace: nat, size: nat, result: string)

  predicate InText(c: Cursor, desc: string) {
    c.current <= |desc| && c.startLine <= c.current && c.lastSpace <= c.current
  }

  /** One turn of the loop. None: the range handed to `stringAppend` is reversed. */
  function Advance(desc: string, brk: string, width: nat, c: Cursor): (r: Option<Cursor>)
    requires InText(c, desc) && c.current < |desc|
    ensures r.Some? ==> InText(r.value, desc) && r.value.current == c.current + 1
  {
    var ch := desc[c.current];
    var lastSpace := if ch == ' ' then c.current else c.lastSpace;
    var next := c.current + 1;
    if ch == '\n' then Some(Cursor(next, next, next, c.size, c.result))
    else if c.size > width then
      if lastSpace == c.startLine then
        Some(Cursor(next, next, next, 0, c.result + desc[c.startLine..next] + brk))
      else if lastSpace < c.startLine then None
      else Some(Cursor(next, lastSpace + 1, lastSpace, 0, c.result + desc[c.startLine..lastSpace] + brk))
    else Some(Cursor(next, c.startLine, lastSpace, c.size + 1, c.result))
  }

  function WrapFrom(desc: string, brk: string, width: nat, c: Cursor): Option<string>
    requires InText(c, desc)
    decreases |desc| - c.current
  {
    if c.current == |desc| then Some(c.result + desc[c.startLine..])
    else
      match Advance(desc, brk, width, c)
      case None => None
      case Some(c') => WrapFrom(desc, brk, width, c')
  }

  function Wrap(desc: string, start: nat, width: nat): Option<string> {
    WrapFrom(desc, Break(start), width, Cursor(0, 0, 0, 0, ""))
  }

  lemma WrapUnfolds(desc: string, brk: string, width: nat, c: Cursor)
    requires InText(c, desc) && c.current < |desc|
    ensures var next := Advance(desc, brk, width, c);
            WrapFrom(desc, brk, width, c) == if next.None? then None else WrapFrom(desc, brk, width, next.value)
  {
  }

  method FormatDescription(o: HelpOption, start: nat, width: nat) returns (result: Option<string>)
    ensures result == Wrap(FullDescription(o), start, width)
  {
    var desc := o.desc;
    if o.hasDefault && (!o.isBoolean || o.defaultValue != "false") {
      desc := desc + " (default: " + o.defaultValue + ")";
    }
    result := WrapText(desc, Break(start), width);
  }

  /** The loop over the description. */
  method WrapText(desc: string, brk: string, width: nat) returns (result: Option<string>)
    ensures result == WrapFrom(desc, brk, width, Cursor(0, 0, 0, 0, ""))
  {
    var text := "";
    var current, startLine, lastSpace, size := 0, 0, 0, 0;
    ghost var c := Cursor(0, 0, 0, 0, "");
    while current != |desc|
      invariant c == Cursor(current, startLine, lastSpace, size, text) && InText(c, desc)
      invariant WrapFrom(desc, brk, width, c) == WrapFrom(desc, brk, width, Cursor(0, 0, 0, 0, ""))
      decreases |desc| - current
    {
      ghost var next := Advance(desc, brk, width, c);
      WrapUnfolds(desc, brk, width, c);
      if desc[current] == ' ' {
        lastSpace := current;
      }
      if desc[current] == '\n' {
        startLine := current + 1;
        lastSpace := startLine;
      } else if size > width {
        if lastSpace == startLine {
          text := text + desc[startLine..current + 1] + brk;
          startLine := current + 1;
          lastSpace := startLine;
        } else {
          if lastSpace < startLine {
            return None;
          }
          text := text + desc[startLine..lastSpace] + brk;
          startLine := lastSpace + 1;
        }
        size := 0;
      } else {
        size := size + 1;
      }
      current := current + 1;
      c := Cursor(current, startLine, lastSpace, size, text);
      assert next == Some(c);
    }
    result := Some(text + desc[startLine..]);
  }

  // ----- what wrapping means

  /** The first n characters of the description with those at the cuts replaced by line breaks. */
  function Replaced(desc: string, cuts: set<nat>, brk: string, n: nat): string
    requires n <= |desc|
  {
    if n == 0 then ""
    else Replaced(desc, cuts, brk, n - 1) + if n - 1 in cuts then brk else [desc[n - 1]]
  }

  predicate NoSpaceIn(desc: string, i: nat, j: nat)
    requires i <= j <= |desc|
  {
    forall k :: i <= k < j ==> desc[k] != ' '
  }

  /** Every space-separated word has at most width characters. */
  ghost predicate WordsFit(desc: string, width: nat) {
    forall i: nat, j: nat | i <= j <= |desc| && NoSpaceIn(desc, i, j) :: j - i <= width
  }

  ghost predicate OnlySpaces(desc: string, cuts: set<nat>) {
    forall k | k in cuts :: k < |desc| && desc[k] == ' '
  }

  predicate NoCutIn(cuts: set<nat>, i: nat, j: nat) { forall k :: i <= k < j ==> k !in cuts }

  /** No output line has more than `most` characters of the description. */
  ghost predicate LinesAtMost(desc: string, cuts: set<nat>, most: nat) {
    forall i: nat, j: nat | i <= j <= |desc| && NoCutIn(cuts, i, j) :: j - i <= most
  }

  lemma {:induction false} ReplacedFrame(desc: string, cuts: set<nat>, cuts': set<nat>, brk: string, n: nat)
    requires n <= |desc| && forall k | 0 <= k < n :: k in cuts <==> k in cuts'
    ensures Replaced(desc, cuts, brk, n) == Replaced(desc, cuts', brk, n)
  {
    if n > 0 {
      ReplacedFrame(desc, cuts, cuts', brk, n - 1);
    }
  }

  lemma {:induction false} ReplacedRun(desc: string, cuts: set<nat>, brk: string, i: nat, j: nat)
    requires i <= j <= |desc| && NoCutIn(cuts, i, j)
    ensures Replaced(desc, cuts, brk, j) == Replaced(desc, cuts, brk, i) + desc[i..j]
    decreases j
  {
    if i < j {
      ReplacedRun(desc, cuts, brk, i, j - 1);
      assert desc[i..j] == desc[i..j - 1] + [desc[j - 1]];
    }
  }

  /** While no word is too long: `broke` is where the last break was made (one past it), the counter
      counts from there, the cuts are spaces before the current line, and lines are short. */
  ghost predicate WrapInv(desc: string, brk: string, width: nat, c: Cursor, cuts: set<nat>) {
    var broke := c.current - c.size;
    && InText(c, desc)
    && 0 <= broke && c.size <= width + 1
    && c.startLine <= broke <= c.startLine + width
    && c.result == Replaced(desc, cuts, brk, c.startLine)
    && OnlySpaces(desc, cuts)
    && (forall k | k in cuts :: k < c.startLine)
    && (c.startLine > 0 ==> c.startLine - 1 in cuts)
    && ShortBefore(cuts, c.startLine, 2 * width + 1)
    && LastSpaceInv(desc, c)
  }

  /** All lines finished before `end` are short. */
  ghost predicate ShortBefore(cuts: set<nat>, end: nat, most: nat) {
    forall i: nat, j: nat | i <= j <= end && NoCutIn(cuts, i, j) :: j - i <= most
  }

  /** `lastSpace` is the last space before `current`, or the line start when there was none since. */
  ghost predicate LastSpaceInv(desc: string, c: Cursor)
    requires InText(c, desc)
  {
    if c.startLine <= c.lastSpace && c.lastSpace < c.current && desc[c.lastSpace] == ' '
    then NoSpaceIn(desc, c.lastSpace + 1, c.current)
    else NoSpaceIn(desc, c.startLine, c.current) && (c.lastSpace == c.startLine || c.lastSpace + 1 == c.startLine)
  }

  lemma BreakKeepsShort(cuts: set<nat>, startLine: nat, cut: nat, most: nat)
    requires ShortBefore(cuts, startLine, most) && startLine <= cut <= startLine + most
    requires startLine > 0 ==> startLine - 1 in cuts
    requires forall k | k in cuts :: k < startLine
    ensures ShortBefore(cuts + {cut}, cut + 1, most)
  {
    forall i: nat, j: nat | i <= j <= cut + 1 && NoCutIn(cuts + {cut}, i, j)
      ensures j - i <= most
    {
      assert startLine > 0 ==> startLine - 1 in cuts + {cut};
      assert cut in cuts + {cut};
      if j <= startLine {
        assert NoCutIn(cuts, i, j);
      }
    }
  }

  /** At a break some space lies in the second half of the characters counted, beyond the line start. */
  lemma SpaceAtBreak(desc: string, width: nat, c: Cursor)
    requires InText(c, desc) && c.current < |desc| && c.size == width + 1
    requires WordsFit(desc, width) && LastSpaceInv(desc, c)
    requires c.startLine <= c.current - c.size
    ensures var last := if desc[c.current] == ' ' then c.current else c.lastSpace;
            && c.startLine < last <= c.current && desc[last] == ' '
            && c.current - last <= width && NoSpaceIn(desc, last + 1, c.current + 1)
  {
    assert !NoSpaceIn(desc, c.startLine, c.current);
    if desc[c.current] != ' ' {
      assert NoSpaceIn(desc, c.lastSpace + 1, c.current + 1);
    }
  }

  lemma ReplacedAtBreak(desc: string, cuts: set<nat>, brk: string, startLine: nat, cut: nat)
    requires startLine <= cut < |desc| && forall k | k in cuts :: k < startLine
    ensures Replaced(desc, cuts + {cut}, brk, cut + 1) ==
            Replaced(desc, cuts, brk, startLine) + desc[startLine..cut] + brk
  {
    ReplacedFrame(desc, cuts, cuts + {cut}, brk, startLine);
    ReplacedRun(desc, cuts + {cut}, brk, startLine, cut);
  }

  lemma BreakKeepsInv(desc: string, brk: string, width: nat, c: Cursor, cuts: set<nat>) returns (cuts': set<nat>)
    requires WrapInv(desc, brk, width, c, cuts) && c.current < |desc| && c.size > width
    requires WordsFit(desc, width) && desc[c.current] != '\n'
    ensures Advance(desc, brk, width, c).Some?
    ensures WrapInv(desc, brk, width, Advance(desc, brk, width, c).value, cuts')
  {
    SpaceAtBreak(desc, width, c);
    var last := if desc[c.current] == ' ' then c.current else c.lastSpace;
    cuts' := cuts + {last};
    var text := c.result + desc[c.startLine..last] + brk;
    ReplacedAtBreak(desc, cuts, brk, c.startLine, last);
    BreakKeepsShort(cuts, c.startLine, last, 2 * width + 1);
    assert Advance(desc, brk, width, c) == Some(Cursor(c.current + 1, last + 1, last, 0, text));
  }

  lemma AdvanceKeepsInv(desc: string, brk: string, width: nat, c: Cursor, cuts: set<nat>) returns (cuts': set<nat>)
    requires WrapInv(desc, brk, width, c, cuts) && c.current < |desc|
    requires WordsFit(desc, width) && '\n' !in desc
    ensures Advance(desc, brk, width, c).Some?
    ensures WrapInv(desc, brk, width, Advance(desc, brk, width, c).value, cuts')
  {
    assert desc[c.current] in desc;
    if c.size > width {
      cuts' := BreakKeepsInv(desc, brk, width, c, cuts);
    } else {
      cuts' := cuts;
    }
  }

  lemma {:induction false} WrapFromMeaning(desc: string, brk: string, width: nat, c: Cursor, cuts: set<nat>)
      returns (all: set<nat>)
    requires WrapInv(desc, brk, width, c, cuts)
    requires WordsFit(desc, width) && '\n' !in desc
    ensures OnlySpaces(desc, all) && LinesAtMost(desc, all, 2 * width + 1)
    ensures WrapFrom(desc, brk, width, c) == Some(Replaced(desc, all, brk, |desc|))
    decreases |desc| - c.current
  {
    if c.current == |desc| {
      all := cuts;
      ReplacedRun(desc, cuts, brk, c.startLine, |desc|);
      assert desc[c.startLine..|desc|] == desc[c.startLine..];
      forall i: nat, j: nat | i <= j <= |desc| && NoCutIn(cuts, i, j)
        ensures j - i <= 2 * width + 1
      {
        assert c.startLine > 0 ==> c.startLine - 1 in cuts;
      }
    } else {
      var cuts' := AdvanceKeepsInv(desc, brk, width, c, cuts);
      all := WrapFromMeaning(desc, brk, width, Advance(desc, brk, width, c).value, cuts');
    }
  }

  /** With words of at most width characters and no newline, no range is reversed, the output is the
      description with some single spaces replaced by a line break, and every line carries at most
      2 * width + 1 of its characters. */
  lemma WrappingReplacesSpaces(desc: string, start: nat, width: nat) returns (cuts: set<nat>)
    requires WordsFit(desc, width) && '\n' !in desc
    ensures OnlySpaces(desc, cuts) && LinesAtMost(desc, cuts, 2 * width + 1)
    ensures Wrap(desc, start, width) == Some(Replaced(desc, cuts, Break(start), |desc|))
  {
    cuts := WrapFromMeaning(desc, Break(start), width, Cursor(0, 0, 0, 0, ""), {});
  }
}
