/** The heading outliner of pkg/obsidian2logseq/convert_markdown.go: the `chapterExpr`
    rewrite, modelled on the document's lines.

    chapterExpr is `(?m)^([ ]*)(#+) (.*)((\n[^#].+)*)`. Read on lines, a match starts at a
    heading line (spaces, one or more '#', a space, a title) and its body repeats
    `\n[^#].+` as often as it can. One repetition takes
      - the next line, when it has at least two characters and does not start with '#'; or
      - an empty next line together with the line after it, when that one is not empty:
        `[^#]` matches the line break itself, so the second line may even start with '#'.
    Every alternative the pattern could backtrack to fails, so the greedy reading is the
    match. Matches never overlap and the scan resumes at the line after a block. */
module Outline {
  import opened Text
  import opened Wrappers

  /** A heading level: the number of '#' characters, at least one. */
  type Level = n: nat | n >= 1 witness 1

  /** A heading line `<indent spaces><level '#'> <title>`. */
  datatype Heading = Heading(indent: nat, level: Level, title: String)

  function Hashes(n: nat): (r: String)
    ensures |r| == n && forall i :: 0 <= i < n ==> r[i] == '#'
  {
    seq(n, _ => '#')
  }

  /** The text of a heading line. */
  function HeadingLine(h: Heading): String {
    Spaces(h.indent) + Hashes(h.level) + " " + h.title
  }

  /** A heading line is its indent followed by the rest. */
  lemma {:induction false} HeadingLineSplit(h: Heading)
    ensures HeadingLine(h) == Spaces(h.indent) + (Hashes(h.level) + " " + h.title)
  {
    var a, b, c := Spaces(h.indent), Hashes(h.level), " " + h.title;
    assert a + b + " " + h.title == a + b + c;
    assert (a + b) + c == a + (b + c);
  }

  /** `^([ ]*)(#+) (.*)` on one line. */
  function ParseHeading(line: String): (h: Option<Heading>)
    ensures h.Some? ==> h.value.indent == Leading(line, ' ') && h.value.indent + h.value.level < |line|
  {
    var s := Leading(line, ' ');
    var n := Leading(line[s..], '#');
    if n >= 1 && s + n < |line| && line[s + n] == ' ' then Some(Heading(s, n, line[s + n + 1..]))
    else None
  }

  /** A parsed heading is the line it was parsed from. */
  lemma {:induction false} ParseHeadingSound(line: String)
    requires ParseHeading(line).Some?
    ensures HeadingLine(ParseHeading(line).value) == line
  {
    var s := Leading(line, ' ');
    var n := Leading(line[s..], '#');
    assert line == line[..s] + line[s..s + n] + [' '] + line[s + n + 1..];
    assert line[..s] == Spaces(s);
    assert line[s..s + n] == line[s..][..n] == Hashes(n);
  }

  /** Every heading line parses back to its parts. */
  lemma {:induction false} ParseHeadingLine(h: Heading)
    ensures ParseHeading(HeadingLine(h)) == Some(h)
  {
    HeadingLineSplit(h);
    ParseParts(Spaces(h.indent), Hashes(h.level) + " " + h.title, h);
  }

  /** The indent, then the marks, space and title. */
  lemma {:induction false} ParseParts(indent: String, tail: String, h: Heading)
    requires indent == Spaces(h.indent) && tail == Hashes(h.level) + " " + h.title
    ensures ParseHeading(indent + tail) == Some(h)
  {
    var line, s, n := indent + tail, h.indent, h.level;
    MarksParts(tail, h);
    LeadingOf(indent, tail, ' ');
    assert line[s..] == tail;
    assert line[s + n] == tail[n];
    assert line[s + n + 1..] == tail[n + 1..];
  }

  /** The marks, space and title of a heading line. */
  lemma {:induction false} MarksParts(tail: String, h: Heading)
    requires tail == Hashes(h.level) + " " + h.title
    ensures |tail| > h.level && tail[0] == '#' && Leading(tail, '#') == h.level
    ensures tail[h.level] == ' ' && tail[h.level + 1..] == h.title
  {
    var marks := Hashes(h.level);
    assert tail == marks + (" " + h.title);
    LeadingOf(marks, " " + h.title, '#');
    assert tail[h.level + 1..] == h.title;
  }

  /** The leading run of `c` in a run of `c` followed by something else. */
  lemma {:induction false} LeadingOf(run: String, rest: String, c: char)
    requires forall i :: 0 <= i < |run| ==> run[i] == c
    requires rest == [] || rest[0] != c
    ensures Leading(run + rest, c) == |run|
  {
    LeadingAppend(run, rest, c);
  }

  /** A run of `c` in front adds its length to the leading run. */
  lemma {:induction false} LeadingAppend(run: String, rest: String, c: char)
    requires forall i :: 0 <= i < |run| ==> run[i] == c
    ensures Leading(run + rest, c) == |run| + Leading(rest, c)
    decreases |run|
  {
    if run == [] {
      assert run + rest == rest;
    } else {
      assert (run + rest)[1..] == run[1..] + rest;
      LeadingAppend(run[1..], rest, c);
    }
  }

  /** One repetition of `\n[^#].+` that takes the single line `lines[i]`. */
  predicate ContinuesWithLine(lines: seq<String>, i: nat) {
    i < |lines| && |lines[i]| >= 2 && lines[i][0] != '#'
  }

  /** One repetition that takes the empty line `lines[i]` and the non-empty line after it. */
  predicate ContinuesWithBlank(lines: seq<String>, i: nat) {
    i + 1 < |lines| && lines[i] == [] && lines[i + 1] != []
  }

  /** The number of lines from `lines[i]` on that the body `((\n[^#].+)*)` takes. */
  function BodyLength(lines: seq<String>, i: nat): (k: nat)
    requires i <= |lines|
    ensures i + k <= |lines|
    decreases |lines| - i
  {
    if ContinuesWithLine(lines, i) then 1 + BodyLength(lines, i + 1)
    else if ContinuesWithBlank(lines, i) then 2 + BodyLength(lines, i + 2)
    else 0
  }

  /** The heading as the callback writes it: 2·(level-1) spaces replace its own indent. */
  function RenderHeading(h: Heading): String {
    HeadingLine(h.(indent := 2 * (h.level - 1)))
  }

  /** The body as the callback writes it: every line break followed by 2·level spaces. */
  function RenderBody(level: Level, body: seq<String>): (r: seq<String>)
    ensures |r| == |body|
  {
    seq(|body|, j requires 0 <= j < |body| => Spaces(2 * level) + body[j])
  }

  /** The block written for a heading and its body. */
  function Block(h: Heading, body: seq<String>): (r: seq<String>)
    ensures |r| == |body| + 1
  {
    [RenderHeading(h)] + RenderBody(h.level, body)
  }

  /** Where the scan resumes after the lines it takes at `lines[i]`: after a heading line
      and its body, or after any other line. */
  function Next(lines: seq<String>, i: nat): (j: nat)
    requires i < |lines|
    ensures i < j <= |lines|
  {
    match ParseHeading(lines[i])
    case Some(_) => i + 1 + BodyLength(lines, i + 1)
    case None => i + 1
  }

  /** What the scan writes for the lines it takes at `lines[i]`: the rendered block of a
      heading, or the line as it is. */
  function StepOutput(lines: seq<String>, i: nat): (r: seq<String>)
    requires i < |lines|
    ensures |r| == Next(lines, i) - i
  {
    StepFor(ParseHeading(lines[i]), lines, i)
  }

  /** The same, given how `lines[i]` parses. */
  function StepFor(p: Option<Heading>, lines: seq<String>, i: nat): (r: seq<String>)
    requires i < |lines|
  {
    match p
    case Some(h) => Block(h, lines[i + 1..i + 1 + BodyLength(lines, i + 1)])
    case None => [lines[i]]
  }

  /** The outlined lines from `lines[i]` on, `i` being a line the scan reaches. */
  function OutlineFrom(lines: seq<String>, i: nat): (r: seq<String>)
    requires i <= |lines|
    ensures |r| == |lines| - i
    decreases |lines| - i
  {
    if i == |lines| then [] else StepOutput(lines, i) + OutlineFrom(lines, Next(lines, i))
  }

  /** chapterExpr.ReplaceAllFunc on a document given as its lines. */
  function OutlineLines(lines: seq<String>): (r: seq<String>)
    ensures |r| == |lines|
  {
    OutlineFrom(lines, 0)
  }

  /** The callback of ReplaceAllFunc: the indent loop, the heading, then the body with each
      line break followed by the deeper indent. */
  method RenderBlock(h: Heading, body: seq<String>) returns (block: seq<String>)
    ensures |block| == |body| + 1
    ensures block[0] == Spaces(2 * (h.level - 1)) + Hashes(h.level) + " " + h.title
    ensures forall j :: 0 <= j < |body| ==> block[j + 1] == Spaces(2 * h.level) + body[j]
  {
    var indent: String := [];
    var i := 0;
    while i < h.level - 1
      invariant 0 <= i <= h.level - 1
      invariant indent == Spaces(2 * i)
    {
      indent := indent + "  ";
      i := i + 1;
    }
    var heading := indent + Hashes(h.level) + " " + h.title;
    indent := indent + "  ";
    var lines: seq<String> := [];
    var j := 0;
    while j < |body|
      invariant 0 <= j <= |body|
      invariant |lines| == j
      invariant forall m :: 0 <= m < j ==> lines[m] == indent + body[m]
    {
      lines := lines + [indent + body[j]];
      j := j + 1;
    }
    assert indent == Spaces(2 * h.level);
    block := [heading] + lines;
  }

  /** The scan of ReplaceAllFunc over the lines: a heading line starts a block that takes
      its body, any other line is passed through. */
  method OutlineHeadings(lines: seq<String>) returns (out: seq<String>)
    ensures out == OutlineLines(lines)
  {
    out := [];
    var i := 0;
    assert out + OutlineFrom(lines, i) == OutlineLines(lines);
    while i < |lines|
      invariant 0 <= i <= |lines|
      invariant out + OutlineFrom(lines, i) == OutlineLines(lines)
      decreases |lines| - i
    {
      var step := ScanAt(lines, i);
      ScanStep(out, lines, i, step);
      out := out + step;
      i := Next(lines, i);
    }
    ScanDone(out, lines);
  }

  /** What the scan writes at `lines[i]`: the callback's block at a heading line, the line
      itself otherwise. */
  method ScanAt(lines: seq<String>, i: nat) returns (step: seq<String>)
    requires i < |lines|
    ensures step == StepOutput(lines, i)
  {
    match ParseHeading(lines[i]) {
      case Some(h) =>
        var body := lines[i + 1..i + 1 + BodyLength(lines, i + 1)];
        step := RenderBlock(h, body);
        BlockRendered(h, body, step);
        HeadingOutput(lines, i, h);
      case None =>
        step := [lines[i]];
        PlainStep(lines, i);
    }
  }

  /** Once the scan reaches the end, what it wrote is the whole outline. */
  lemma {:induction false} ScanDone(out: seq<String>, lines: seq<String>)
    requires out + OutlineFrom(lines, |lines|) == OutlineLines(lines)
    ensures out == OutlineLines(lines)
  {
    assert out + OutlineFrom(lines, |lines|) == out + [];
  }

  /** The loop invariant of OutlineHeadings is kept by one step of the scan. */
  lemma {:induction false} ScanStep(out: seq<String>, lines: seq<String>, i: nat, step: seq<String>)
    requires i < |lines| && step == StepOutput(lines, i)
    requires out + OutlineFrom(lines, i) == OutlineLines(lines)
    ensures (out + step) + OutlineFrom(lines, Next(lines, i)) == OutlineLines(lines)
  {
    var rest := OutlineFrom(lines, Next(lines, i));
    OutlineStep(lines, i);
    assert out + (step + rest) == (out + step) + rest;
  }

  /** The scan from `lines[i]`: one step, then the scan from where it resumes. */
  lemma {:induction false} OutlineStep(lines: seq<String>, i: nat)
    requires i < |lines|
    ensures OutlineFrom(lines, i) == StepOutput(lines, i) + OutlineFrom(lines, Next(lines, i))
  {
  }

  /** A block with RenderBlock's contract is the heading and body as the outliner writes them. */
  lemma {:induction false} BlockRendered(h: Heading, body: seq<String>, block: seq<String>)
    requires |block| == |body| + 1
    requires block[0] == Spaces(2 * (h.level - 1)) + Hashes(h.level) + " " + h.title
    requires forall j :: 0 <= j < |body| ==> block[j + 1] == Spaces(2 * h.level) + body[j]
    ensures block == Block(h, body)
  {
    var r := [RenderHeading(h)] + RenderBody(h.level, body);
    assert block[0] == r[0];
    forall j | 1 <= j < |block| ensures block[j] == r[j] {
      assert r[j] == RenderBody(h.level, body)[j - 1];
    }
  }

  /** One step of the scan at a heading line: the heading's block, over the heading and its body. */
  lemma {:induction false} HeadingStep(lines: seq<String>, i: nat, h: Heading)
    requires i < |lines| && ParseHeading(lines[i]) == Some(h)
    ensures var k := BodyLength(lines, i + 1);
      && Next(lines, i) == i + 1 + k
      && StepOutput(lines, i) == Block(h, lines[i + 1..i + 1 + k])
  {
    HeadingNext(lines, i);
    HeadingOutput(lines, i, h);
  }

  lemma {:induction false} HeadingNext(lines: seq<String>, i: nat)
    requires i < |lines| && ParseHeading(lines[i]).Some?
    ensures Next(lines, i) == i + 1 + BodyLength(lines, i + 1)
  {
  }

  lemma {:induction false} HeadingOutput(lines: seq<String>, i: nat, h: Heading)
    requires i < |lines| && ParseHeading(lines[i]) == Some(h)
    ensures StepOutput(lines, i) == Block(h, lines[i + 1..i + 1 + BodyLength(lines, i + 1)])
  {
    assert StepOutput(lines, i) == StepFor(Some(h), lines, i);
  }

  /** One step of the scan at any other line: the line itself. */
  lemma {:induction false} PlainStep(lines: seq<String>, i: nat)
    requires i < |lines| && ParseHeading(lines[i]).None?
    ensures Next(lines, i) == i + 1 && StepOutput(lines, i) == [lines[i]]
  {
  }

  /** `s` without its leading spaces. */
  function Unindent(s: String): String {
    s[Leading(s, ' ')..]
  }

  /** Outlining a document keeps each line's text after its leading spaces. */
  lemma {:induction false} OutlineLinesKeepText(lines: seq<String>, j: nat)
    requires j < |lines|
    ensures Unindent(OutlineLines(lines)[j]) == Unindent(lines[j])
  {
    OutlineKeepsText(lines, 0, j);
  }

  /** Outlining only changes leading spaces: each output line, without its leading spaces,
      is the corresponding input line without its leading spaces. */
  lemma {:induction false} OutlineKeepsText(lines: seq<String>, i: nat, j: nat)
    requires i + j < |lines|
    ensures Unindent(OutlineFrom(lines, i)[j]) == Unindent(lines[i + j])
    decreases |lines| - i
  {
    var r := OutlineFrom(lines, i);
    var next := Next(lines, i);
    OutlineStep(lines, i);
    if i + j < next {
      StepKeepsText(lines, i, j);
    } else {
      assert r[j] == OutlineFrom(lines, next)[i + j - next];
      OutlineKeepsText(lines, next, i + j - next);
    }
  }

  /** The same within the lines one step of the scan takes. */
  lemma {:induction false} StepKeepsText(lines: seq<String>, i: nat, j: nat)
    requires i < |lines| && i + j < Next(lines, i)
    ensures Unindent(StepOutput(lines, i)[j]) == Unindent(lines[i + j])
  {
    var r := StepOutput(lines, i);
    if ParseHeading(lines[i]).Some? {
      var h := ParseHeading(lines[i]).value;
      HeadingStep(lines, i, h);
      if j == 0 {
        ParseHeadingSound(lines[i]);
        HeadingUnindent(h);
        HeadingUnindent(h.(indent := 2 * (h.level - 1)));
      } else {
        var body := lines[i + 1..i + 1 + BodyLength(lines, i + 1)];
        assert r[j] == RenderBody(h.level, body)[j - 1] == Spaces(2 * h.level) + lines[i + j];
        UnindentSpaces(2 * h.level, lines[i + j]);
      }
    }
  }

  /** A line that is not a heading is passed through and the scan goes on after it. */
  lemma {:induction false} PlainLineKept(lines: seq<String>, i: nat)
    requires i < |lines| && ParseHeading(lines[i]).None?
    ensures OutlineFrom(lines, i)[0] == lines[i]
    ensures OutlineFrom(lines, i)[1..] == OutlineFrom(lines, i + 1)
  {
    PlainStep(lines, i);
    SameStart(lines, Next(lines, i), i + 1);
    OutlineStep(lines, i);
  }

  lemma {:induction false} UnindentSpaces(m: nat, l: String)
    ensures Unindent(Spaces(m) + l) == Unindent(l)
  {
    LeadingAppend(Spaces(m), l, ' ');
    assert (Spaces(m) + l)[m + Leading(l, ' ')..] == l[Leading(l, ' ')..];
  }

  lemma {:induction false} UnindentSplit(s: String)
    ensures s == Spaces(Leading(s, ' ')) + Unindent(s)
  {
    assert s[..Leading(s, ' ')] == Spaces(Leading(s, ' '));
  }

  lemma {:induction false} HeadingUnindent(h: Heading)
    ensures Unindent(HeadingLine(h)) == Hashes(h.level) + " " + h.title
  {
    LeadingOf(Spaces(h.indent), Hashes(h.level) + " " + h.title, ' ');
    assert HeadingLine(h) == Spaces(h.indent) + (Hashes(h.level) + " " + h.title);
  }

  /** A heading line that the scan reaches comes out at 2·(level-1) spaces with its marks
      and title as they were, and its body lines come out 2·level spaces deeper. */
  lemma {:induction false} HeadingBlockRendered(lines: seq<String>, i: nat, h: Heading)
    requires i < |lines| && ParseHeading(lines[i]) == Some(h)
    ensures OutlineFrom(lines, i)[0] == Spaces(2 * (h.level - 1)) + Hashes(h.level) + " " + h.title
    ensures forall j :: 1 <= j <= BodyLength(lines, i + 1) ==> OutlineFrom(lines, i)[j] == Spaces(2 * h.level) + lines[i + j]
    ensures OutlineFrom(lines, i)[BodyLength(lines, i + 1) + 1..] == OutlineFrom(lines, i + 1 + BodyLength(lines, i + 1))
  {
    HeadingLayout(lines, i, h);
    ResumeAfterHeading(lines, i);
  }

  lemma {:induction false} ResumeAfterHeading(lines: seq<String>, i: nat)
    requires i < |lines| && ParseHeading(lines[i]).Some?
    ensures OutlineFrom(lines, Next(lines, i)) == OutlineFrom(lines, i + 1 + BodyLength(lines, i + 1))
  {
    HeadingNext(lines, i);
    SameStart(lines, Next(lines, i), i + 1 + BodyLength(lines, i + 1));
  }

  lemma {:induction false} SameStart(lines: seq<String>, a: nat, b: nat)
    requires a == b <= |lines|
    ensures OutlineFrom(lines, a) == OutlineFrom(lines, b)
  {
  }

  lemma {:induction false} HeadingLayout(lines: seq<String>, i: nat, h: Heading)
    requires i < |lines| && ParseHeading(lines[i]) == Some(h)
    ensures OutlineFrom(lines, i)[0] == Spaces(2 * (h.level - 1)) + Hashes(h.level) + " " + h.title
    ensures forall j :: 1 <= j <= BodyLength(lines, i + 1) ==> OutlineFrom(lines, i)[j] == Spaces(2 * h.level) + lines[i + j]
    ensures OutlineFrom(lines, i)[BodyLength(lines, i + 1) + 1..] == OutlineFrom(lines, Next(lines, i))
  {
    HeadingOutput(lines, i, h);
    OutlineStep(lines, i);
    BlockLayout(h, lines, i, BodyLength(lines, i + 1), StepOutput(lines, i), OutlineFrom(lines, Next(lines, i)), OutlineFrom(lines, i));
  }

  /** Where the heading, the body lines and what follows sit in a rendered block. */
  lemma {:induction false} BlockLayout(h: Heading, lines: seq<String>, i: nat, k: nat, step: seq<String>, rest: seq<String>, r: seq<String>)
    requires i + 1 + k <= |lines|
    requires step == Block(h, lines[i + 1..i + 1 + k])
    requires r == step + rest
    ensures r[0] == Spaces(2 * (h.level - 1)) + Hashes(h.level) + " " + h.title
    ensures forall j :: 1 <= j <= k ==> r[j] == Spaces(2 * h.level) + lines[i + j]
    ensures r[k + 1..] == rest
  {
    var body := lines[i + 1..i + 1 + k];
    forall j | 1 <= j <= k ensures r[j] == Spaces(2 * h.level) + lines[i + j] {
      assert r[j] == step[j] == RenderBody(h.level, body)[j - 1];
      assert body[j - 1] == lines[i + j];
    }
  }

  /** The heading's own indent does not matter: two documents that differ only in the
      leading spaces of a heading line the scan reaches outline alike. */
  lemma {:induction false} HeadingIndentIgnored(lines: seq<String>, i: nat, s1: nat, s2: nat, level: Level, title: String)
    requires i < |lines|
    requires lines[i] == HeadingLine(Heading(s1, level, title))
    ensures OutlineFrom(lines, i) == OutlineFrom(lines[i := HeadingLine(Heading(s2, level, title))], i)
  {
    var lines2 := lines[i := HeadingLine(Heading(s2, level, title))];
    ReindentedStep(lines, i, s1, s2, level, title);
    var next := Next(lines, i);
    assert lines[next..] == lines2[next..];
    OutlineOfSameTail(lines, lines2, next);
    SameSteps(lines, lines2, i);
  }

  /** Re-indenting a heading line changes neither the step of the scan there nor where it resumes. */
  lemma {:induction false} ReindentedStep(lines: seq<String>, i: nat, s1: nat, s2: nat, level: Level, title: String)
    requires i < |lines|
    requires lines[i] == HeadingLine(Heading(s1, level, title))
    ensures var lines2 := lines[i := HeadingLine(Heading(s2, level, title))];
      Next(lines, i) == Next(lines2, i) && StepOutput(lines, i) == StepOutput(lines2, i)
  {
    var h1, h2 := Heading(s1, level, title), Heading(s2, level, title);
    var lines2 := lines[i := HeadingLine(h2)];
    ParseHeadingLine(h1);
    ParseHeadingLine(h2);
    assert lines[i + 1..] == lines2[i + 1..];
    BodyLengthOfSameTail(lines, lines2, i + 1);
    HeadingNext(lines, i);
    HeadingNext(lines2, i);
    HeadingOutput(lines, i, h1);
    HeadingOutput(lines2, i, h2);
    assert RenderHeading(h1) == RenderHeading(h2);
    assert lines[i + 1..Next(lines, i)] == lines2[i + 1..Next(lines, i)];
  }

  /** Two documents outline alike from `i` when the step there and the scan after it agree. */
  lemma {:induction false} SameSteps(a: seq<String>, b: seq<String>, i: nat)
    requires i < |a| && i < |b|
    requires StepOutput(a, i) == StepOutput(b, i) && Next(a, i) == Next(b, i)
    requires OutlineFrom(a, Next(a, i)) == OutlineFrom(b, Next(a, i))
    ensures OutlineFrom(a, i) == OutlineFrom(b, i)
  {
    OutlineStep(a, i);
    OutlineStep(b, i);
  }

  lemma {:induction false} BodyLengthOfSameTail(a: seq<String>, b: seq<String>, i: nat)
    requires i <= |a| == |b| && a[i..] == b[i..]
    ensures BodyLength(a, i) == BodyLength(b, i)
    decreases |a| - i
  {
    if i < |a| {
      assert a[i] == a[i..][0] == b[i];
      assert a[i + 1..] == a[i..][1..];
      assert b[i + 1..] == b[i..][1..];
      if i + 1 < |a| {
        assert a[i + 1] == a[i..][1] == b[i + 1];
        assert a[i + 2..] == a[i..][2..];
        assert b[i + 2..] == b[i..][2..];
      }
      if ContinuesWithLine(a, i) {
        BodyLengthOfSameTail(a, b, i + 1);
      } else if ContinuesWithBlank(a, i) {
        BodyLengthOfSameTail(a, b, i + 2);
      }
    }
  }

  lemma {:induction false} OutlineOfSameTail(a: seq<String>, b: seq<String>, i: nat)
    requires i <= |a| == |b| && a[i..] == b[i..]
    ensures OutlineFrom(a, i) == OutlineFrom(b, i)
    decreases |a| - i
  {
    if i < |a| {
      StepOfSameTail(a, b, i);
      var next := Next(a, i);
      assert a[next..] == a[i..][next - i..];
      assert b[next..] == b[i..][next - i..];
      OutlineOfSameTail(a, b, next);
      OutlineStep(a, i);
      OutlineStep(b, i);
    }
  }

  /** One step of the scan only looks at the lines from `i` on. */
  lemma {:induction false} StepOfSameTail(a: seq<String>, b: seq<String>, i: nat)
    requires i < |a| == |b| && a[i..] == b[i..]
    ensures Next(a, i) == Next(b, i) && StepOutput(a, i) == StepOutput(b, i)
  {
    assert a[i] == a[i..][0] == b[i];
    assert a[i + 1..] == a[i..][1..];
    assert b[i + 1..] == b[i..][1..];
    BodyLengthOfSameTail(a, b, i + 1);
    var next := Next(a, i);
    assert a[i + 1..next] == a[i..][1..next - i] == b[i + 1..next];
  }

  /** A document without heading lines is left as it is. */
  lemma {:induction false} NoHeadingsUnchanged(lines: seq<String>, i: nat)
    requires i <= |lines|
    requires forall j :: i <= j < |lines| ==> ParseHeading(lines[j]).None?
    ensures OutlineFrom(lines, i) == lines[i..]
    decreases |lines| - i
  {
    if i < |lines| {
      NoHeadingsUnchanged(lines, i + 1);
      PlainStep(lines, i);
      SameStart(lines, Next(lines, i), i + 1);
      OutlineStep(lines, i);
      assert lines[i..] == [lines[i]] + lines[i + 1..];
    }
  }

  /** The body ends at a line that starts with '#' or has one character, and at two empty
      lines; an empty line followed by any non-empty line, even a heading, is taken, and so
      is any line of two or more characters that does not start with '#', even a heading
      indented by spaces. */
  lemma {:induction false} BodyExtent(lines: seq<String>, i: nat)
    requires i <= |lines|
    ensures i < |lines| && lines[i] != [] && lines[i][0] == '#' ==> BodyLength(lines, i) == 0
    ensures i < |lines| && |lines[i]| == 1 ==> BodyLength(lines, i) == 0
    ensures i + 1 < |lines| && lines[i] == [] && lines[i + 1] == [] ==> BodyLength(lines, i) == 0
    ensures i + 1 < |lines| && lines[i] == [] && lines[i + 1] != [] ==> BodyLength(lines, i) >= 2
    ensures i < |lines| && |lines[i]| >= 2 && lines[i][0] != '#' ==> BodyLength(lines, i) >= 1
  {
  }

  /** The outliner on text: split into lines, outline, join. */
  function OutlineText(t: String): String {
    Join(OutlineLines(Split(t, '\n')), "\n")
  }

  /** Outlining never puts a line break inside a line. */
  lemma {:induction false} OutlineLinesHaveNoBreaks(lines: seq<String>, i: nat)
    requires i <= |lines|
    requires forall j :: 0 <= j < |lines| ==> '\n' !in lines[j]
    ensures forall j :: 0 <= j < |lines| - i ==> '\n' !in OutlineFrom(lines, i)[j]
  {
    forall j | 0 <= j < |lines| - i ensures '\n' !in OutlineFrom(lines, i)[j] {
      var o := OutlineFrom(lines, i)[j];
      OutlineKeepsText(lines, i, j);
      UnindentSplit(o);
      UnindentSplit(lines[i + j]);
      assert o == Spaces(Leading(o, ' ')) + Unindent(lines[i + j]);
      assert lines[i + j] == Spaces(Leading(lines[i + j], ' ')) + Unindent(lines[i + j]);
    }
  }
}
