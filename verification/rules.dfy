/** The `fixes` table of pkg/obsidian2logseq/convert_markdown.go: two multi-line regular
    expressions, each replacing its matches with `$1- $2`.

      numerated lists  `(?m)^([ ]*)([0-9]+\.)`
      titles           `(?m)^([ ]*)(#+ .*)`

    Neither pattern can match a line break, and `^` anchors each match at a line start, so a
    rule rewrites every line on its own: a matching line gets "- " inserted after its leading
    spaces, any other line is kept. Backtracking never helps either pattern (a shorter run of
    spaces, digits or '#' is followed by one more of the same), so a line matches exactly when
    its greedy runs are followed by '.' (numbered) or by ' ' (title). */
module LineRules {
  import opened Text
  import Outline

  /** One entry of the `fixes` table. */
  datatype Rule = NumberedList | Title

  /** The table in the order the fixes run. */
  const Fixes: seq<Rule> := [NumberedList, Title]

  predicate IsDigit(c: char) {
    '0' <= c <= '9'
  }

  /** The length of the run of decimal digits at the start of `s`. */
  function LeadingDigits(s: String): (k: nat)
    ensures k <= |s|
    ensures forall i :: 0 <= i < k ==> IsDigit(s[i])
    ensures k < |s| ==> !IsDigit(s[k])
  {
    if s != [] && IsDigit(s[0]) then 1 + LeadingDigits(s[1..]) else 0
  }

  /** The rule's pattern matches at the start of `line`. */
  predicate Matches(rule: Rule, line: String) {
    var s := Leading(line, ' ');
    match rule
    case NumberedList =>
      var d := LeadingDigits(line[s..]);
      d >= 1 && s + d < |line| && line[s + d] == '.'
    case Title =>
      Outline.ParseHeading(line).Some?
  }

  /** One rule on one line: "- " goes in after the leading spaces of a matching line. */
  function ApplyToLine(rule: Rule, line: String): (r: String)
    ensures Matches(rule, line) ==>
      Leading(r, ' ') == Leading(line, ' ') && Outline.Unindent(r) == "- " + Outline.Unindent(line)
    ensures !Matches(rule, line) ==> r == line
  {
    var s := Leading(line, ' ');
    if Matches(rule, line) then
      var r := Spaces(s) + ("- " + line[s..]);
      Outline.LeadingOf(Spaces(s), "- " + line[s..], ' ');
      r
    else line
  }

  /** One rule over the lines of a document. */
  function ApplyToLines(rule: Rule, lines: seq<String>): (r: seq<String>)
    ensures |r| == |lines|
    ensures forall j :: 0 <= j < |lines| ==> r[j] == ApplyToLine(rule, lines[j])
  {
    seq(|lines|, j requires 0 <= j < |lines| => ApplyToLine(rule, lines[j]))
  }

  /** fix.Expr.ReplaceAll on a document: the rule line by line. */
  function ApplyToText(rule: Rule, t: String): String {
    Join(ApplyToLines(rule, Split(t, '\n')), "\n")
  }

  /** The rules in order, on a document. */
  function ApplyAllToText(rules: seq<Rule>, t: String): String {
    if rules == [] then t
    else ApplyToText(rules[|rules| - 1], ApplyAllToText(rules[..|rules| - 1], t))
  }

  /** The rules in order, on the lines of a document. */
  function ApplyAllToLines(rules: seq<Rule>, lines: seq<String>): (r: seq<String>)
    ensures |r| == |lines|
  {
    if rules == [] then lines
    else ApplyToLines(rules[|rules| - 1], ApplyAllToLines(rules[..|rules| - 1], lines))
  }

  /** A line `<spaces><digits>.<rest>` keeps its indent and number and gets a bullet. */
  lemma {:induction false} NumberedItem(k: nat, digits: String, rest: String)
    requires digits != [] && forall i :: 0 <= i < |digits| ==> IsDigit(digits[i])
    ensures ApplyToLine(NumberedList, Spaces(k) + digits + "." + rest)
         == Spaces(k) + "- " + digits + "." + rest
  {
    var line := Spaces(k) + digits + "." + rest;
    var tail := digits + "." + rest;
    IndentAssoc(Spaces(k), digits, ".", rest);
    NumberedMatches(line, k, tail, digits, rest);
    MatchedLine(NumberedList, line);
    BulletAssoc(Spaces(k), digits, ".", rest);
  }

  /** The numbered pattern matches `<spaces><digits>.<rest>`, after the spaces. */
  lemma {:induction false} NumberedMatches(line: String, k: nat, tail: String, digits: String, rest: String)
    requires digits != [] && forall i :: 0 <= i < |digits| ==> IsDigit(digits[i])
    requires tail == digits + "." + rest && line == Spaces(k) + tail
    ensures Leading(line, ' ') == k && line[k..] == tail && Matches(NumberedList, line)
  {
    Outline.LeadingOf(Spaces(k), tail, ' ');
    assert line[k..] == tail;
    assert tail == digits + ("." + rest);
    DigitsOf(digits, "." + rest);
    assert line[k + |digits|] == tail[|digits|] == '.';
  }

  /** An indent in front of three parts, regrouped. */
  lemma {:induction false} IndentAssoc(indent: String, a: String, b: String, c: String)
    ensures indent + a + b + c == indent + (a + b + c)
  {
  }

  /** The digit run of `digits` followed by a non-digit. */
  lemma {:induction false} DigitsOf(digits: String, rest: String)
    requires forall i :: 0 <= i < |digits| ==> IsDigit(digits[i])
    requires rest == [] || !IsDigit(rest[0])
    ensures LeadingDigits(digits + rest) == |digits|
    decreases |digits|
  {
    if digits == [] {
      assert digits + rest == rest;
    } else {
      assert (digits + rest)[1..] == digits[1..] + rest;
      DigitsOf(digits[1..], rest);
    }
  }

  /** A heading line keeps its indent, marks and title and gets a bullet. */
  lemma {:induction false} TitleItem(h: Outline.Heading)
    ensures ApplyToLine(Title, Outline.HeadingLine(h))
         == Spaces(h.indent) + "- " + Outline.Hashes(h.level) + " " + h.title
  {
    var line := Outline.HeadingLine(h);
    var head := Outline.Hashes(h.level) + " " + h.title;
    Outline.ParseHeadingLine(h);
    Outline.HeadingLineSplit(h);
    Outline.LeadingOf(Spaces(h.indent), head, ' ');
    assert line[h.indent..] == head;
    MatchedLine(Title, line);
    BulletAssoc(Spaces(h.indent), Outline.Hashes(h.level), " ", h.title);
  }

  /** The bullet inserted into `<indent><marks><sep><rest>`, regrouped. */
  lemma {:induction false} BulletAssoc(indent: String, marks: String, sep: String, rest: String)
    ensures indent + ("- " + (marks + sep + rest)) == indent + "- " + marks + sep + rest
  {
  }

  /** What a matching line becomes. */
  lemma {:induction false} MatchedLine(rule: Rule, line: String)
    requires Matches(rule, line)
    ensures ApplyToLine(rule, line) == Spaces(Leading(line, ' ')) + ("- " + line[Leading(line, ' ')..])
  {
  }

  /** What follows the leading spaces decides a match: a digit for a numbered line, '#' for
      a title. */
  lemma {:induction false} MatchStarts(rule: Rule, line: String)
    requires Matches(rule, line)
    ensures var s := Leading(line, ' ');
      s < |line| && (if rule == NumberedList then IsDigit(line[s]) else line[s] == '#')
  {
    var s := Leading(line, ' ');
    if rule == Title {
      var h := Outline.ParseHeading(line).value;
      var n := Leading(line[s..], '#');
      assert line[s..][0] == line[s];
    } else {
      assert line[s..][0] == line[s];
    }
  }

  /** No line is both a numbered item and a title. */
  lemma {:induction false} RulesDisjoint(line: String)
    ensures !(Matches(NumberedList, line) && Matches(Title, line))
  {
    if Matches(NumberedList, line) {
      MatchStarts(NumberedList, line);
      var s := Leading(line, ' ');
      assert line[s] != '#';
      TitleNeedsHash(line);
    }
  }

  /** A title has '#' right after its leading spaces. */
  lemma {:induction false} TitleNeedsHash(line: String)
    requires Leading(line, ' ') < |line| && line[Leading(line, ' ')] != '#'
    ensures !Matches(Title, line)
  {
    var s := Leading(line, ' ');
    assert line[s..][0] == line[s];
  }

  /** A numbered item has a digit right after its leading spaces. */
  lemma {:induction false} NumberedNeedsDigit(line: String)
    requires Leading(line, ' ') < |line| && !IsDigit(line[Leading(line, ' ')])
    ensures !Matches(NumberedList, line)
  {
    var s := Leading(line, ' ');
    assert line[s..][0] == line[s];
  }

  /** A line with "- " after its leading spaces matches neither rule. */
  lemma {:induction false} BulletedLinePasses(rule: Rule, k: nat, rest: String)
    ensures !Matches(rule, Spaces(k) + ("- " + rest))
  {
    var line := Spaces(k) + ("- " + rest);
    Outline.LeadingOf(Spaces(k), "- " + rest, ' ');
    assert line[k] == '-';
    TitleNeedsHash(line);
    NumberedNeedsDigit(line);
  }

  /** The fix a rule makes is not undone or redone by either rule: a rewritten line matches
      neither. */
  lemma {:induction false} RewrittenLinePasses(rule: Rule, other: Rule, line: String)
    requires Matches(rule, line)
    ensures !Matches(other, ApplyToLine(rule, line))
  {
    var s := Leading(line, ' ');
    MatchedLine(rule, line);
    BulletedLinePasses(other, s, line[s..]);
  }

  /** Each rule is idempotent. */
  lemma {:induction false} RuleIdempotent(rule: Rule, line: String)
    ensures ApplyToLine(rule, ApplyToLine(rule, line)) == ApplyToLine(rule, line)
  {
    if Matches(rule, line) {
      RewrittenLinePasses(rule, rule, line);
    }
  }

  /** Neither rule creates or destroys a match of the other, so the two commute. */
  lemma {:induction false} RulesIndependent(line: String)
    ensures Matches(Title, ApplyToLine(NumberedList, line)) <==> Matches(Title, line)
    ensures Matches(NumberedList, ApplyToLine(Title, line)) <==> Matches(NumberedList, line)
    ensures ApplyToLine(Title, ApplyToLine(NumberedList, line))
         == ApplyToLine(NumberedList, ApplyToLine(Title, line))
  {
    RulesDisjoint(line);
    if Matches(NumberedList, line) {
      RewrittenLinePasses(NumberedList, Title, line);
    }
    if Matches(Title, line) {
      RewrittenLinePasses(Title, NumberedList, line);
    }
  }

  /** A line whose '#' run after the indent is not followed by a space (a tag such as
      `#tag`, or a bare `#`) is left alone by both rules. */
  lemma {:induction false} TagLinePasses(rule: Rule, k: nat, n: nat, rest: String)
    requires n >= 1
    requires rest == [] || (rest[0] != ' ' && rest[0] != '#')
    ensures ApplyToLine(rule, Spaces(k) + Outline.Hashes(n) + rest) == Spaces(k) + Outline.Hashes(n) + rest
  {
    var line := Spaces(k) + Outline.Hashes(n) + rest;
    var tail := Outline.Hashes(n) + rest;
    assert line == Spaces(k) + tail;
    Outline.LeadingOf(Spaces(k), tail, ' ');
    if rule == NumberedList {
      assert line[k] == tail[0];
      NumberedNeedsDigit(line);
    } else {
      TagNotTitle(line, k, tail, n, rest);
    }
  }

  /** The title case of the above: the '#' run is not followed by a space. */
  lemma {:induction false} TagNotTitle(line: String, k: nat, tail: String, n: nat, rest: String)
    requires n >= 1
    requires rest == [] || (rest[0] != ' ' && rest[0] != '#')
    requires tail == Outline.Hashes(n) + rest && line == Spaces(k) + tail
    requires Leading(line, ' ') == k
    ensures !Matches(Title, line)
  {
    assert line[k..] == tail;
    Outline.LeadingOf(Outline.Hashes(n), rest, '#');
    assert k + n == |line| || line[k + n] == rest[0];
  }

  /** The table run over lines: numbered items first, then titles, on every line. */
  lemma {:induction false} FixesAt(lines: seq<String>, j: nat)
    requires j < |lines|
    ensures ApplyAllToLines(Fixes, lines)[j] == ApplyToLine(Title, ApplyToLine(NumberedList, lines[j]))
  {
    var first: seq<Rule> := [NumberedList];
    assert first[..0] == [];
    assert ApplyAllToLines(first[..0], lines) == lines;
    var once := ApplyAllToLines(first, lines);
    assert once == ApplyToLines(NumberedList, lines);
    assert Fixes[..1] == first;
    assert ApplyAllToLines(Fixes, lines) == ApplyToLines(Title, once);
  }

  /** A rule never puts a line break inside a line. */
  lemma {:induction false} ApplyToLineHasNoBreaks(rule: Rule, line: String)
    requires '\n' !in line
    ensures '\n' !in ApplyToLine(rule, line)
  {
    var s := Leading(line, ' ');
    if Matches(rule, line) {
      assert ApplyToLine(rule, line) == Spaces(s) + "- " + line[s..];
      assert '\n' !in line[s..];
    }
  }

  /** Applying the fixes to a document is applying them to its lines, provided the lines
      hold no line breaks (which splitting guarantees). */
  lemma {:induction false} FixesOnText(rules: seq<Rule>, lines: seq<String>)
    requires |lines| >= 1
    requires forall j :: 0 <= j < |lines| ==> '\n' !in lines[j]
    ensures ApplyAllToText(rules, Join(lines, "\n")) == Join(ApplyAllToLines(rules, lines), "\n")
    ensures forall j :: 0 <= j < |lines| ==> '\n' !in ApplyAllToLines(rules, lines)[j]
    decreases |rules|
  {
    if rules != [] {
      var init := rules[..|rules| - 1];
      FixesOnText(init, lines);
      var before := ApplyAllToLines(init, lines);
      SplitJoin(before, '\n');
      forall j | 0 <= j < |lines| ensures '\n' !in ApplyAllToLines(rules, lines)[j] {
        ApplyToLineHasNoBreaks(rules[|rules| - 1], before[j]);
      }
    }
  }
}
