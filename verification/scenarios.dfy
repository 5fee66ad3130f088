/** A page through the whole of ConvertMarkdown: a level-1 heading with one body line, then a
    level-2 heading with one body line. */
module Scenarios {
  import opened Text
  import Assets
  import Outline
  import LineRules
  import Embeds
  import ConvertMarkdown

  /** A body line as the outliner takes it: at least two characters, and a first character
      that starts neither a heading, a numbered item nor an indent. */
  predicate PlainBodyLine(b: String) {
    |b| >= 2 && b[0] != ' ' && b[0] != '#' && !LineRules.IsDigit(b[0])
  }

  /** Text the stages can treat as one line free of tabs and embeds. */
  predicate PlainText(t: String) {
    '\t' !in t && '\n' !in t && '!' !in t
  }

  /** The page's lines: heading `h1` (level 1), body line `b1`, heading `h2` (level 2), body
      line `b2`. */
  function PageLines(h1: Outline.Heading, b1: String, h2: Outline.Heading, b2: String): seq<String> {
    [Outline.HeadingLine(h1), b1, Outline.HeadingLine(h2), b2]
  }

  /** What the converter makes of it: "- " before each heading, the second heading two
      spaces in, each body line two spaces deeper than its heading's level calls for
      (2·level), and the sentinel line "#" at the end. */
  function ConvertedLines(h1: Outline.Heading, b1: String, h2: Outline.Heading, b2: String): seq<String> {
    [ "- " + Outline.Hashes(1) + " " + h1.title,
      Spaces(2) + b1,
      Spaces(2) + "- " + Outline.Hashes(2) + " " + h2.title,
      Spaces(4) + b2,
      "#" ]
  }

  /** "# T1 / b1 / ## T2 / b2" becomes "- # T1 /   b1 /   - ## T2 /     b2 / #", whatever
      the first heading's indent. (An indented second heading would be taken into the first
      heading's body.) */
  lemma {:induction false} TwoHeadingsConverted(hash: Assets.Hasher, vaultName: String, relPath: String,
                             h1: Outline.Heading, b1: String, h2: Outline.Heading, b2: String)
    requires h1.level == 1 && h2.level == 2 && h2.indent == 0
    requires PlainText(h1.title) && PlainText(h2.title) && PlainText(b1) && PlainText(b2)
    requires PlainBodyLine(b1) && PlainBodyLine(b2)
    ensures ConvertMarkdown.ConvertText(hash, vaultName, relPath, Join(PageLines(h1, b1, h2, b2), "\n"))
         == Join(ConvertedLines(h1, b1, h2, b2), "\n")
  {
    var input := Join(PageLines(h1, b1, h2, b2), "\n");
    var converted := ConvertedLines(h1, b1, h2, b2);
    TwoHeadingsPrepared(h1, b1, h2, b2);
    var prepared := ConvertMarkdown.Prepared(input);
    ConvertedHasNoBang(h1, b1, h2, b2);
    assert '!' !in prepared by {
      if '!' in prepared { JoinChars(converted, "\n", '!'); }
    }
    Embeds.NoBangNoEmbed(prepared);
    ConvertMarkdown.NoEmbedsKept(hash, vaultName, relPath, input);
  }

  /** The stages before embed rewriting on the two-heading page. */
  lemma {:induction false} TwoHeadingsPrepared(h1: Outline.Heading, b1: String, h2: Outline.Heading, b2: String)
    requires h1.level == 1 && h2.level == 2 && h2.indent == 0
    requires PlainText(h1.title) && PlainText(h2.title) && PlainText(b1) && PlainText(b2)
    requires PlainBodyLine(b1) && PlainBodyLine(b2)
    ensures ConvertMarkdown.PreparedLines(Join(PageLines(h1, b1, h2, b2), "\n")) == ConvertedLines(h1, b1, h2, b2)
    ensures ConvertMarkdown.Prepared(Join(PageLines(h1, b1, h2, b2), "\n"))
         == Join(ConvertedLines(h1, b1, h2, b2), "\n")
  {
    var page := PageLines(h1, b1, h2, b2);
    var input := Join(page, "\n");
    PageHasNoTabsOrBreaks(h1, b1, h2, b2);
    assert '\t' !in input by {
      if '\t' in input { JoinChars(page, "\n", '\t'); }
    }
    SplitJoin(page, '\n');
    ConvertMarkdown.ExpandedLines(input);
    var out := TwoHeadingsOutlined(h1, b1, h2, b2);
    TwoHeadingsFixed(h1, b1, h2, b2, out);
    ConvertMarkdown.PreparedIsJoin(input);
  }

  lemma {:induction false} PageHasNoTabsOrBreaks(h1: Outline.Heading, b1: String, h2: Outline.Heading, b2: String)
    requires PlainText(h1.title) && PlainText(h2.title) && PlainText(b1) && PlainText(b2)
    ensures forall j | 0 <= j < 4 :: '\t' !in PageLines(h1, b1, h2, b2)[j] && '\n' !in PageLines(h1, b1, h2, b2)[j]
  {
    ConvertMarkdown.HeadingLineChars(h1, '\t');
    ConvertMarkdown.HeadingLineChars(h2, '\t');
    ConvertMarkdown.HeadingLineChars(h1, '\n');
    ConvertMarkdown.HeadingLineChars(h2, '\n');
  }

  lemma {:induction false} ConvertedHasNoBang(h1: Outline.Heading, b1: String, h2: Outline.Heading, b2: String)
    requires PlainText(h1.title) && PlainText(h2.title) && PlainText(b1) && PlainText(b2)
    ensures forall j | 0 <= j < 5 :: '!' !in ConvertedLines(h1, b1, h2, b2)[j]
  {
    ConvertMarkdown.BulletedHeadingChars(h1, '!');
    ConvertMarkdown.BulletedHeadingChars(h2, '!');
  }

  /** The outliner: `b1` is the body of the first heading, `b2` of the second, and the
      sentinel line "#" ends the second block. */
  lemma {:induction false} TwoHeadingsOutlined(h1: Outline.Heading, b1: String, h2: Outline.Heading, b2: String)
    returns (out: seq<String>)
    requires h1.level == 1 && h2.level == 2 && h2.indent == 0
    requires PlainBodyLine(b1) && PlainBodyLine(b2)
    ensures out == [Outline.HeadingLine(h1.(indent := 0)), Spaces(2) + b1,
                    Outline.HeadingLine(h2.(indent := 2)), Spaces(4) + b2, "#"]
    ensures Outline.OutlineLines(PageLines(h1, b1, h2, b2) + ["#"]) == out
  {
    var lines := PageLines(h1, b1, h2, b2) + ["#"];
    Outline.ParseHeadingLine(h1);
    Outline.ParseHeadingLine(h2);
    HeadingStartsWithMarks(h2);
    assert Outline.BodyLength(lines, 2) == 0;
    assert Outline.BodyLength(lines, 1) == 1;
    assert Outline.BodyLength(lines, 4) == 0;
    assert Outline.BodyLength(lines, 3) == 1;
    Outline.HeadingBlockRendered(lines, 0, h1);
    Outline.HeadingBlockRendered(lines, 2, h2);
    assert Outline.ParseHeading("#").None?;
    Outline.PlainLineKept(lines, 4);
    var r := Outline.OutlineLines(lines);
    var r2 := Outline.OutlineFrom(lines, 2);
    assert r[2..] == r2;
    assert r2[2..] == Outline.OutlineFrom(lines, 4);
    out := [Outline.HeadingLine(h1.(indent := 0)), Spaces(2) + b1,
            Outline.HeadingLine(h2.(indent := 2)), Spaces(4) + b2, "#"];
    assert r[2] == r2[0];
    assert r[3] == r2[1];
    assert r[4] == r2[2];
  }

  /** A heading line without indent starts with '#'. */
  lemma {:induction false} HeadingStartsWithMarks(h: Outline.Heading)
    requires h.indent == 0
    ensures Outline.HeadingLine(h) != [] && Outline.HeadingLine(h)[0] == '#'
  {
    assert Outline.HeadingLine(h) == Outline.Hashes(h.level) + (" " + h.title);
  }

  /** The fixes: the two heading lines get their bullet, the other lines match neither rule. */
  lemma {:induction false} TwoHeadingsFixed(h1: Outline.Heading, b1: String, h2: Outline.Heading, b2: String, out: seq<String>)
    requires h1.level == 1 && h2.level == 2
    requires PlainBodyLine(b1) && PlainBodyLine(b2)
    requires |out| == 5
    requires out[0] == Outline.HeadingLine(h1.(indent := 0)) && out[1] == Spaces(2) + b1
    requires out[2] == Outline.HeadingLine(h2.(indent := 2)) && out[3] == Spaces(4) + b2
    requires out[4] == "#"
    ensures LineRules.ApplyAllToLines(LineRules.Fixes, out) == ConvertedLines(h1, b1, h2, b2)
  {
    var g1, g2 := h1.(indent := 0), h2.(indent := 2);
    HeadingFixed(g1, out[0]);
    BodyLineFixed(2, b1);
    HeadingFixed(g2, out[2]);
    BodyLineFixed(4, b2);
    SentinelLineFixed();
    FixesOnFive(out,
      Spaces(g1.indent) + "- " + Outline.Hashes(g1.level) + " " + g1.title, Spaces(2) + b1,
      Spaces(g2.indent) + "- " + Outline.Hashes(g2.level) + " " + g2.title, Spaces(4) + b2, "#");
    NoIndentBullet();
  }

  /** No indent before the bullet. */
  lemma {:induction false} NoIndentBullet()
    ensures Spaces(0) + "- " == "- "
  {
    assert Spaces(0) == [];
  }

  /** The fixes on five lines whose fixed forms are known. */
  lemma {:induction false} FixesOnFive(out: seq<String>, e0: String, e1: String, e2: String, e3: String, e4: String)
    requires |out| == 5
    requires BothFixes(out[0]) == e0 && BothFixes(out[1]) == e1 && BothFixes(out[2]) == e2
    requires BothFixes(out[3]) == e3 && BothFixes(out[4]) == e4
    ensures LineRules.ApplyAllToLines(LineRules.Fixes, out) == [e0, e1, e2, e3, e4]
  {
    var fixed := LineRules.ApplyAllToLines(LineRules.Fixes, out);
    LineRules.FixesAt(out, 0);
    LineRules.FixesAt(out, 1);
    LineRules.FixesAt(out, 2);
    LineRules.FixesAt(out, 3);
    LineRules.FixesAt(out, 4);
    FiveElements(fixed);
  }

  lemma {:induction false} FiveElements<T>(s: seq<T>)
    requires |s| == 5
    ensures s == [s[0], s[1], s[2], s[3], s[4]]
  {
  }

  /** The two fixes in their order on one line. */
  function BothFixes(line: String): String {
    LineRules.ApplyToLine(LineRules.Title, LineRules.ApplyToLine(LineRules.NumberedList, line))
  }

  /** Both fixes leave the sentinel line "#" alone. */
  lemma {:induction false} SentinelLineFixed()
    ensures BothFixes("#") == "#"
  {
    assert "#" == Spaces(0) + Outline.Hashes(1) + [];
    LineRules.TagLinePasses(LineRules.NumberedList, 0, 1, []);
    LineRules.TagLinePasses(LineRules.Title, 0, 1, []);
  }


  /** Both fixes on a heading line: the title rule bullets it. */
  lemma {:induction false} HeadingFixed(h: Outline.Heading, line: String)
    requires line == Outline.HeadingLine(h)
    ensures BothFixes(line) == Spaces(h.indent) + "- " + Outline.Hashes(h.level) + " " + h.title
  {
    Outline.ParseHeadingLine(h);
    LineRules.RulesDisjoint(line);
    LineRules.TitleItem(h);
  }

  /** Both fixes on an indented body line: neither rule matches. */
  lemma {:induction false} BodyLineFixed(k: nat, text: String)
    requires PlainBodyLine(text)
    ensures BothFixes(Spaces(k) + text) == Spaces(k) + text
  {
    var line := Spaces(k) + text;
    Outline.LeadingOf(Spaces(k), text, ' ');
    assert line[k] == text[0];
    LineRules.NumberedNeedsDigit(line);
    LineRules.TitleNeedsHash(line);
  }
}
