/** Where `format_description` breaks lines, told from the text alone: exactly when a range is reversed, and
    exactly when text is lost. */
module HelpBreaks {
  import opened Sequences
  import opened HelpFormatter
  import opened Primitives

  /** The counter before character i: newlines do not count, and it starts again after a break. */
  function SizeAt(desc: string, width: nat, i: nat): nat
    requires i <= |desc|
  {
    if i == 0 then 0
    else
      var before := SizeAt(desc, width, i - 1);
      if desc[i - 1] == '\n' then before else if before > width then 0 else before + 1
  }

  predicate IsBreak(desc: string, width: nat, i: nat)
    requires i < |desc|
  {
    desc[i] != '\n' && SizeAt(desc, width, i) > width
  }

  /** The position after the last break or newline before i. */
  function Stretch(desc: string, width: nat, i: nat): (a: nat)
    requires i <= |desc|
    ensures a <= i
  {
    if i == 0 then 0
    else if desc[i - 1] == '\n' || IsBreak(desc, width, i - 1) then i
    else Stretch(desc, width, i - 1)
  }

  /** The break at i is made at a space: there is one in the stretch up to i, and the line did not start
      with it. A line starts with its stretch, or earlier, when the break before was made at a space. */
  predicate BreaksAtSpace(desc: string, width: nat, i: nat)
    requires i < |desc|
    decreases i, 1
  {
    var a := Stretch(desc, width, i);
    && IsBreak(desc, width, i)
    && (!NoSpaceIn(desc, a + 1, i + 1)
        || (desc[a] == ' ' && AfterSpaceBreak(desc, width, a) && desc[a - 1] != ' '))
  }

  predicate AfterSpaceBreak(desc: string, width: nat, a: nat)
    requires a <= |desc|
    decreases a, 0
  {
    a > 0 && BreaksAtSpace(desc, width, a - 1)
  }

  /** A break at j whose whole stretch has no space and directly follows a break made at a space. */
  predicate Reverses(desc: string, width: nat, j: nat)
    requires j < |desc|
  {
    var a := Stretch(desc, width, j);
    IsBreak(desc, width, j) && AfterSpaceBreak(desc, width, a) && NoSpaceIn(desc, a, j + 1)
  }

  /** One past the last space before a. */
  function AfterSpace(desc: string, a: nat): (b: nat)
    requires a <= |desc|
    ensures b <= a && NoSpaceIn(desc, b, a)
    ensures b > 0 ==> desc[b - 1] == ' '
  {
    if a == 0 || desc[a - 1] == ' ' then a else AfterSpace(desc, a - 1)
  }

  /** Where the line that holds position i starts. */
  function LineStart(desc: string, width: nat, i: nat): (b: nat)
    requires i <= |desc|
    ensures b <= i
  {
    var a := Stretch(desc, width, i);
    if AfterSpaceBreak(desc, width, a) then AfterSpace(desc, a) else a
  }

  // ----- the loop's variables are those of the text

  ghost predicate Matches(desc: string, width: nat, c: Cursor) {
    && InText(c, desc)
    && c.size == SizeAt(desc, width, c.current)
    && c.startLine == LineStart(desc, width, c.current)
    && var a := Stretch(desc, width, c.current);
    && if NoSpaceIn(desc, a, c.current)
       then c.lastSpace == if AfterSpaceBreak(desc, width, a) then c.startLine - 1 else a
       else a <= c.lastSpace < c.current && desc[c.lastSpace] == ' ' && NoSpaceIn(desc, c.lastSpace + 1, c.current)
  }

  lemma LastSpaceIsUnique(desc: string, a: nat, last: nat)
    requires last < a <= |desc| && desc[last] == ' ' && NoSpaceIn(desc, last + 1, a)
    ensures AfterSpace(desc, a) == last + 1
  {
    assert AfterSpace(desc, a) > last;
  }

  lemma SomeSpaceBefore(desc: string, width: nat, a: nat)
    requires a <= |desc| && AfterSpaceBreak(desc, width, a)
    ensures 0 < AfterSpace(desc, a)
  {
    var before := Stretch(desc, width, a - 1);
    assert desc[before] == ' ' || !NoSpaceIn(desc, before + 1, a);
    assert !NoSpaceIn(desc, 0, a);
  }

  /** A break where `last` is the stretch's last space. */
  lemma BreakWithSpace(desc: string, width: nat, i: nat, last: nat)
    requires i < |desc| && IsBreak(desc, width, i)
    requires Stretch(desc, width, i) <= last <= i && desc[last] == ' ' && NoSpaceIn(desc, last + 1, i + 1)
    ensures LineStart(desc, width, i) <= last
    ensures BreaksAtSpace(desc, width, i) <==> last != LineStart(desc, width, i)
    ensures LineStart(desc, width, i + 1) == if BreaksAtSpace(desc, width, i) then last + 1 else i + 1
  {
    var a := Stretch(desc, width, i);
    if a < last {
      assert !NoSpaceIn(desc, a + 1, i + 1);
    }
    LastSpaceIsUnique(desc, i + 1, last);
  }

  lemma BreakMatches(desc: string, brk: string, width: nat, c: Cursor)
    requires Matches(desc, width, c) && c.current < |desc| && IsBreak(desc, width, c.current)
    ensures Advance(desc, brk, width, c) == None <==> Reverses(desc, width, c.current)
    ensures Advance(desc, brk, width, c).Some? ==> Matches(desc, width, Advance(desc, brk, width, c).value)
  {
    var i := c.current;
    var a := Stretch(desc, width, i);
    var last := if desc[i] == ' ' then i else c.lastSpace;
    if NoSpaceIn(desc, a, i + 1) {
      assert !BreaksAtSpace(desc, width, i);
      if AfterSpaceBreak(desc, width, a) {
        SomeSpaceBefore(desc, width, a);
      }
    } else {
      assert NoSpaceIn(desc, a, i) ==> desc[i] == ' ';
      BreakWithSpace(desc, width, i, last);
    }
  }

  lemma OtherStepMatches(desc: string, brk: string, width: nat, c: Cursor)
    requires Matches(desc, width, c) && c.current < |desc| && !IsBreak(desc, width, c.current)
    ensures Advance(desc, brk, width, c).Some? && !Reverses(desc, width, c.current)
    ensures Matches(desc, width, Advance(desc, brk, width, c).value)
  {
    var i := c.current;
    if desc[i] == '\n' {
      assert Stretch(desc, width, i + 1) == i + 1 && !AfterSpaceBreak(desc, width, i + 1);
    } else {
      var a := Stretch(desc, width, i);
      assert Stretch(desc, width, i + 1) == a && LineStart(desc, width, i + 1) == c.startLine;
      assert NoSpaceIn(desc, a, i + 1) <==> NoSpaceIn(desc, a, i) && desc[i] != ' ';
    }
  }

  lemma AdvanceMatches(desc: string, brk: string, width: nat, c: Cursor)
    requires Matches(desc, width, c) && c.current < |desc|
    ensures Advance(desc, brk, width, c) == None <==> Reverses(desc, width, c.current)
    ensures Advance(desc, brk, width, c).Some? ==> Matches(desc, width, Advance(desc, brk, width, c).value)
  {
    if IsBreak(desc, width, c.current) {
      BreakMatches(desc, brk, width, c);
    } else {
      OtherStepMatches(desc, brk, width, c);
    }
  }

  lemma {:induction false} ReversedFrom(desc: string, brk: string, width: nat, c: Cursor)
    requires Matches(desc, width, c)
    ensures WrapFrom(desc, brk, width, c) == None <==>
            exists j: nat :: c.current <= j < |desc| && Reverses(desc, width, j)
    decreases |desc| - c.current
  {
    if c.current < |desc| {
      AdvanceMatches(desc, brk, width, c);
      var c' := Advance(desc, brk, width, c);
      if c'.Some? {
        ReversedFrom(desc, brk, width, c'.value);
      }
    }
  }

  /** For every text, a range is reversed exactly when a stretch without spaces is broken that directly
      follows a break made at a space. */
  lemma ReversedIffStretchWithoutSpace(desc: string, start: nat, width: nat)
    ensures Wrap(desc, start, width) == None <==> exists j: nat :: j < |desc| && Reverses(desc, width, j)
  {
    ReversedFrom(desc, Break(start), width, Cursor(0, 0, 0, 0, ""));
  }

  // ----- how long a stretch is

  lemma {:induction false} SizeGrows(desc: string, width: nat, a: nat, i: nat)
    requires a <= i <= |desc| && i - a <= width + 1
    requires SizeAt(desc, width, a) == 0 && forall k :: a <= k < i ==> desc[k] != '\n'
    ensures SizeAt(desc, width, i) == i - a && Stretch(desc, width, i) == Stretch(desc, width, a)
    decreases i
  {
    if a < i {
      SizeGrows(desc, width, a, i - 1);
    }
  }

  /** Without newlines the breaks are at width + 1 and then every width + 2 characters. */
  lemma {:induction false} BreaksWithoutNewlines(desc: string, width: nat, i: nat)
    requires i < |desc| && '\n' !in desc
    ensures SizeAt(desc, width, i) == i % (width + 2)
    ensures IsBreak(desc, width, i) <==> i % (width + 2) == width + 1
  {
    assert desc[i] in desc;
    if i == 0 {
      ModUnique(0, 0, width + 2, 0);
    } else {
      assert desc[i - 1] in desc;
      BreaksWithoutNewlines(desc, width, i - 1);
      NextRemainder(i - 1, width + 2);
    }
  }

  lemma NextRemainder(i: nat, m: nat)
    requires m > 1
    ensures (i + 1) % m == if i % m == m - 1 then 0 else i % m + 1
  {
    var q, r := i / m, i % m;
    assert i == q * m + r;
    if r == m - 1 {
      assert i + 1 == (q + 1) * m + 0;
      ModUnique(i + 1, q + 1, m, 0);
    } else {
      ModUnique(i + 1, q, m, r + 1);
    }
  }

  lemma {:induction false} StretchAfterBreak(desc: string, width: nat, j: nat)
    requires j <= |desc|
    ensures var a := Stretch(desc, width, j);
            a > 0 && IsBreak(desc, width, a - 1) ==> SizeAt(desc, width, j) == j - a
  {
    if j > 0 && Stretch(desc, width, j) != j {
      StretchAfterBreak(desc, width, j - 1);
    }
  }

  /** Words of at most width + 1 characters never reverse a range, newlines or not. */
  lemma ShortWordsReverseNothing(desc: string, start: nat, width: nat)
    requires WordsFit(desc, width + 1)
    ensures Wrap(desc, start, width).Some?
  {
    ReversedIffStretchWithoutSpace(desc, start, width);
    forall j: nat | j < |desc|
      ensures !Reverses(desc, width, j)
    {
      StretchAfterBreak(desc, width, j);
      var a := Stretch(desc, width, j);
      assert j - a <= width ==> !IsBreak(desc, width, j) || !AfterSpaceBreak(desc, width, a);
      assert j - a > width ==> !NoSpaceIn(desc, a, j + 1);
    }
  }

  /** At every width, a word of twice the width and two more characters after a short one reverses a range. */
  lemma LongWordReversesTheRange(word: string, start: nat, width: nat)
    requires ' ' !in word && '\n' !in word && |word| >= 2 * width + 2
    ensures Wrap("a " + word, start, width) == None
  {
    var desc := "a " + word;
    forall k | 0 <= k < |desc|
      ensures desc[k] != '\n' && (desc[k] == ' ' <==> k == 1)
    {
      assert k >= 2 ==> desc[k] == word[k - 2] && word[k - 2] in word;
    }
    var i, j := width + 1, 2 * width + 3;
    SizeGrows(desc, width, 0, i);
    assert desc[1] == ' ' && !NoSpaceIn(desc, 1, i + 1);
    assert BreaksAtSpace(desc, width, i);
    SizeGrows(desc, width, i + 1, j);
    assert Reverses(desc, width, j);
    ReversedIffStretchWithoutSpace(desc, start, width);
  }

  // ----- which text is lost

  predicate IsVisible(c: char) { c != ' ' && c != '\n' }

  /** The characters other than spaces and newlines. */
  function Visible(s: string): string {
    if s == "" then "" else (if IsVisible(s[0]) then [s[0]] else "") + Visible(s[1..])
  }

  lemma {:induction false} VisibleConcat(a: string, b: string)
    ensures Visible(a + b) == Visible(a) + Visible(b)
  {
    if a == "" {
      assert a + b == b;
    } else {
      VisibleConcat(a[1..], b);
      assert (a + b)[1..] == a[1..] + b;
      Associate(if IsVisible(a[0]) then [a[0]] else "", Visible(a[1..]), Visible(b));
    }
  }

  lemma {:induction false} BlanksAreInvisible(s: string)
    requires forall k :: 0 <= k < |s| ==> !IsVisible(s[k])
    ensures Visible(s) == ""
  {
    if s != "" {
      BlanksAreInvisible(s[1..]);
    }
  }

  /** A newline that is reached while its line holds visible text. */
  predicate Loses(desc: string, width: nat, j: nat)
    requires j < |desc|
  {
    desc[j] == '\n' && Visible(desc[LineStart(desc, width, j)..j]) != ""
  }

  /** What the loop has taken so far and not dropped. */
  function Held(desc: string, c: Cursor): string
    requires InText(c, desc)
  {
    Visible(c.result) + Visible(desc[c.startLine..c.current])
  }

  lemma VisibleSplit(desc: string, i: nat, k: nat, j: nat)
    requires i <= k <= j <= |desc|
    ensures Visible(desc[i..j]) == Visible(desc[i..k]) + Visible(desc[k..j])
  {
    assert desc[i..j] == desc[i..k] + desc[k..j];
    VisibleConcat(desc[i..k], desc[k..j]);
  }

  /** A part of the line goes to the result, followed by a line break. */
  lemma EmittedIsHeld(result: string, part: string, start: nat)
    ensures Visible(result + part + Break(start)) == Visible(result) + Visible(part)
  {
    VisibleConcat(result + part, Break(start));
    VisibleConcat(result, part);
    BlanksAreInvisible(Break(start));
  }

  lemma SpaceIsInvisible(desc: string, i: nat, k: nat, j: nat)
    requires i <= k < j <= |desc| && desc[k] == ' '
    ensures Visible(desc[i..j]) == Visible(desc[i..k]) + Visible(desc[k + 1..j])
  {
    VisibleSplit(desc, i, k, j);
    VisibleSplit(desc, k, k + 1, j);
    BlanksAreInvisible(desc[k..k + 1]);
  }

  /** What a break hands over and what it leaves in the line. */
  lemma BreakHoldsAll(desc: string, start: nat, c: Cursor, next: nat, last: nat)
    requires InText(c, desc) && next == c.current + 1 <= |desc| && c.startLine < last < next && desc[last] == ' '
    ensures Held(desc, Cursor(next, last + 1, last, 0, c.result + desc[c.startLine..last] + Break(start)))
            == Held(desc, c) + Visible(desc[c.current..next])
  {
    VisibleSplit(desc, c.startLine, c.current, next);
    EmittedIsHeld(c.result, desc[c.startLine..last], start);
    SpaceIsInvisible(desc, c.startLine, last, next);
    Associate(Visible(c.result), Visible(desc[c.startLine..last]), Visible(desc[last + 1..next]));
    Associate(Visible(c.result), Visible(desc[c.startLine..c.current]), Visible(desc[c.current..next]));
  }

  /** A break that ends the line here leaves none of it. */
  lemma WholeLineHoldsAll(desc: string, start: nat, c: Cursor, next: nat)
    requires InText(c, desc) && next == c.current + 1 <= |desc|
    ensures Held(desc, Cursor(next, next, next, 0, c.result + desc[c.startLine..next] + Break(start)))
            == Held(desc, c) + Visible(desc[c.current..next])
  {
    VisibleSplit(desc, c.startLine, c.current, next);
    EmittedIsHeld(c.result, desc[c.startLine..next], start);
    assert desc[next..next] == "";
  }

  lemma LastIsASpace(desc: string, width: nat, c: Cursor)
    requires Matches(desc, width, c) && c.startLine < c.lastSpace
    ensures c.lastSpace < c.current && desc[c.lastSpace] == ' '
  {
    var a := Stretch(desc, width, c.current);
    assert !AfterSpaceBreak(desc, width, a) ==> c.startLine == a;
    assert !NoSpaceIn(desc, a, c.current);
  }

  lemma BreakHolds(desc: string, start: nat, width: nat, c: Cursor)
    requires Matches(desc, width, c) && c.current < |desc| && IsBreak(desc, width, c.current)
    requires Advance(desc, Break(start), width, c).Some?
    ensures Held(desc, Advance(desc, Break(start), width, c).value)
            == Held(desc, c) + Visible(desc[c.current..c.current + 1])
  {
    var last := if desc[c.current] == ' ' then c.current else c.lastSpace;
    if last == c.startLine {
      WholeLineHoldsAll(desc, start, c, c.current + 1);
    } else {
      if desc[c.current] != ' ' {
        LastIsASpace(desc, width, c);
      }
      BreakHoldsAll(desc, start, c, c.current + 1, last);
    }
  }

  lemma StepHolds(desc: string, start: nat, width: nat, c: Cursor)
    requires Matches(desc, width, c) && c.current < |desc| && Advance(desc, Break(start), width, c).Some?
    ensures var held' := Held(desc, Advance(desc, Break(start), width, c).value);
            var all := Held(desc, c) + Visible(desc[c.current..c.current + 1]);
            if Loses(desc, width, c.current) then |held'| < |all| else held' == all
  {
    if IsBreak(desc, width, c.current) {
      BreakHolds(desc, start, width, c);
    } else if desc[c.current] == '\n' {
      NewlineDrops(desc, c);
    } else {
      PlainHolds(desc, c, if desc[c.current] == ' ' then c.current else c.lastSpace);
    }
  }

  lemma PlainHolds(desc: string, c: Cursor, last: nat)
    requires InText(c, desc) && c.current < |desc| && last <= c.current
    ensures Held(desc, Cursor(c.current + 1, c.startLine, last, c.size + 1, c.result))
            == Held(desc, c) + Visible(desc[c.current..c.current + 1])
  {
    VisibleSplit(desc, c.startLine, c.current, c.current + 1);
    Associate(Visible(c.result), Visible(desc[c.startLine..c.current]), Visible(desc[c.current..c.current + 1]));
  }

  lemma NewlineDrops(desc: string, c: Cursor)
    requires InText(c, desc) && c.current < |desc| && desc[c.current] == '\n'
    ensures var next := c.current + 1;
            var all := Held(desc, c) + Visible(desc[c.current..next]);
            && Held(desc, Cursor(next, next, next, c.size, c.result)) == Visible(c.result)
            && (if Visible(desc[c.startLine..c.current]) != ""
                then |Visible(c.result)| < |all| else Visible(c.result) == all)
  {
    var next := c.current + 1;
    BlanksAreInvisible(desc[c.current..next]);
    assert desc[next..next] == "";
  }

  /** Some newline from i on cuts a line with visible text. */
  ghost predicate LosesFrom(desc: string, width: nat, i: nat) {
    exists j: nat :: i <= j < |desc| && Loses(desc, width, j)
  }

  /** What comes out, compared to what was held and what is to come. */
  ghost predicate ComesOut(out: string, held: string, rest: string, loses: bool) {
    if loses then |out| < |held| + |rest| else out == held + rest
  }

  lemma OneMoreCharacter(out: string, held: string, held': string, ch: string, rest: string, here: bool, later: bool)
    requires ComesOut(out, held', rest, later)
    requires if here then |held'| < |held + ch| else held' == held + ch
    ensures ComesOut(out, held, ch + rest, here || later)
  {
    Associate(held, ch, rest);
  }

  lemma AtTheEnd(desc: string, c: Cursor)
    requires InText(c, desc) && c.current == |desc|
    ensures Visible(c.result + desc[c.startLine..]) == Held(desc, c) + Visible(desc[c.current..])
  {
    VisibleConcat(c.result, desc[c.startLine..]);
    assert desc[c.startLine..] == desc[c.startLine..c.current] && desc[c.current..] == "";
  }

  lemma {:induction false} HeldToTheEnd(desc: string, start: nat, width: nat, c: Cursor)
    requires Matches(desc, width, c) && WrapFrom(desc, Break(start), width, c).Some?
    ensures ComesOut(Visible(WrapFrom(desc, Break(start), width, c).value), Held(desc, c), Visible(desc[c.current..]),
                     LosesFrom(desc, width, c.current))
    decreases |desc| - c.current
  {
    var i := c.current;
    if i == |desc| {
      AtTheEnd(desc, c);
    } else {
      WrapUnfolds(desc, Break(start), width, c);
      AdvanceMatches(desc, Break(start), width, c);
      HeldToTheEnd(desc, start, width, Advance(desc, Break(start), width, c).value);
      HeldStep(desc, start, width, c, Visible(WrapFrom(desc, Break(start), width, c).value));
    }
  }

  lemma HeldStep(desc: string, start: nat, width: nat, c: Cursor, out: string)
    requires Matches(desc, width, c) && c.current < |desc| && Advance(desc, Break(start), width, c).Some?
    requires ComesOut(out, Held(desc, Advance(desc, Break(start), width, c).value), Visible(desc[c.current + 1..]),
                      LosesFrom(desc, width, c.current + 1))
    ensures ComesOut(out, Held(desc, c), Visible(desc[c.current..]), LosesFrom(desc, width, c.current))
  {
    var i := c.current;
    StepHolds(desc, start, width, c);
    TailSplits(desc, i);
    LosesHereOrLater(desc, width, i);
    OneMoreCharacter(out, Held(desc, c), Held(desc, Advance(desc, Break(start), width, c).value),
                     Visible(desc[i..i + 1]), Visible(desc[i + 1..]),
                     Loses(desc, width, i), LosesFrom(desc, width, i + 1));
  }

  lemma LosesHereOrLater(desc: string, width: nat, i: nat)
    requires i < |desc|
    ensures LosesFrom(desc, width, i) <==> Loses(desc, width, i) || LosesFrom(desc, width, i + 1)
  {
  }

  lemma TailSplits(desc: string, i: nat)
    requires i < |desc|
    ensures Visible(desc[i..]) == Visible(desc[i..i + 1]) + Visible(desc[i + 1..])
  {
    VisibleSplit(desc, i, i + 1, |desc|);
    assert desc[i..] == desc[i..|desc|] && desc[i + 1..] == desc[i + 1..|desc|];
  }

  /** For every text that is wrapped, all visible characters come out, in order, exactly when no newline is
      reached while its line holds some. */
  lemma TextIsKeptIffNoNewlineCutsALine(desc: string, start: nat, width: nat)
    requires Wrap(desc, start, width).Some?
    ensures Visible(Wrap(desc, start, width).value) == Visible(desc) <==> !LosesFrom(desc, width, 0)
  {
    HeldToTheEnd(desc, start, width, Cursor(0, 0, 0, 0, ""));
    assert desc[0..] == desc;
  }

  lemma {:induction false} FirstNewlineIsReached(line: string, rest: string, brk: string, width: nat, c: Cursor)
    requires InText(c, line) && c.startLine == 0 && c.size == c.current && c.result == ""
    requires '\n' !in line && |line| <= width + 1
    ensures var desc := line + "\n" + rest;
            var n := |line| + 1;
            WrapFrom(desc, brk, width, c) == WrapFrom(desc, brk, width, Cursor(n, n, n, |line|, ""))
    decreases |line| - c.current
  {
    var desc := line + "\n" + rest;
    if c.current < |line| {
      assert desc[c.current] == line[c.current] && line[c.current] in line;
      FirstNewlineIsReached(line, rest, brk, width, Advance(desc, brk, width, c).value);
    }
  }

  lemma {:induction false} OnlyTheRestMatters(d: string, d': string, brk: string, width: nat, c: Cursor)
    requires |d| == |d'| && InText(c, d)
    requires d[c.startLine..] == d'[c.startLine..]
    ensures WrapFrom(d, brk, width, c) == WrapFrom(d', brk, width, c)
    decreases |d| - c.current
  {
    if c.current < |d| {
      assert d[c.current] == d[c.startLine..][c.current - c.startLine] == d'[c.current];
      SamePart(d, d', c.startLine, c.current + 1);
      var last := if d[c.current] == ' ' then c.current else c.lastSpace;
      if c.startLine <= last {
        SamePart(d, d', c.startLine, last);
      }
      var c' := Advance(d, brk, width, c);
      assert Advance(d', brk, width, c) == c';
      if c'.Some? {
        SameTail(d, d', c.startLine, c'.value.startLine);
        OnlyTheRestMatters(d, d', brk, width, c'.value);
      }
    }
  }

  lemma SamePart(d: string, d': string, a: nat, b: nat)
    requires |d| == |d'| && a <= b <= |d| && d[a..] == d'[a..]
    ensures d[a..b] == d'[a..b]
  {
    assert d[a..b] == d[a..][..b - a];
  }

  lemma SameTail(d: string, d': string, a: nat, b: nat)
    requires |d| == |d'| && a <= b <= |d| && d[a..] == d'[a..]
    ensures d[b..] == d'[b..]
  {
    assert d[b..] == d[a..][b - a..];
  }

  /** A first line that is not broken leaves no trace but its length: any other text in its place gives the
      same output. */
  lemma NewlineDropsTheLine(line: string, other: string, rest: string, start: nat, width: nat)
    requires '\n' !in line && '\n' !in other && |line| == |other| <= width + 1
    ensures Wrap(line + "\n" + rest, start, width) == Wrap(other + "\n" + rest, start, width)
  {
    var brk, n := Break(start), |line| + 1;
    FirstNewlineIsReached(line, rest, brk, width, Cursor(0, 0, 0, 0, ""));
    FirstNewlineIsReached(other, rest, brk, width, Cursor(0, 0, 0, 0, ""));
    assert (line + "\n" + rest)[n..] == rest == (other + "\n" + rest)[n..];
    OnlyTheRestMatters(line + "\n" + rest, other + "\n" + rest, brk, width, Cursor(n, n, n, |line|, ""));
  }
}
