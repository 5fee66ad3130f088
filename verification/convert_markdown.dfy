/** ConvertMarkdown and its helpers (pkg/obsidian2logseq/convert_markdown.go): one Obsidian
    page turned into a Logseq page in four stages — tabs expanded and the sentinel "\n#"
    appended, headings outlined, the `fixes` applied, embeds rewritten into asset links. */
module ConvertMarkdown {
  import opened Text
  import opened Wrappers
  import Paths
  import Assets
  import Options
  import Outline
  import LineRules
  import Embeds

  /** getVaultName: "unknown" when the vault directory is the pages directory itself,
      otherwise the directory's own name. */
  function GetVaultName(cfg: Options.Config, vaultPath: String): (name: String)
    ensures cfg.obsidianDirIsPages ==> name == "unknown"
    ensures name != []
    ensures Paths.Separator in name ==> name == "/"
  {
    if cfg.obsidianDirIsPages then "unknown"
    else
      Paths.BaseHasNoSeparator(vaultPath);
      Paths.Base(vaultPath)
  }

  /** Without the flag, the vault name is the last element of the vault path. */
  lemma {:induction false} VaultNameOfChild(cfg: Options.Config, parent: String, name: String)
    requires !cfg.obsidianDirIsPages
    requires name != [] && Paths.Separator !in name
    ensures GetVaultName(cfg, parent + [Paths.Separator] + name) == name
    ensures GetVaultName(cfg, name) == name
  {
    Paths.BaseOfChild(parent, name);
    Paths.BaseOfName(name);
  }

  const PagesDir: String := "pages"

  /** getObsidianPagesPath: the vault path itself with the flag, its "pages" child without. */
  function GetObsidianPagesPath(cfg: Options.Config, vaultPath: String): (p: String)
    ensures cfg.obsidianDirIsPages ==> p == vaultPath
    ensures !cfg.obsidianDirIsPages ==> Paths.Base(p) == PagesDir
    ensures var v := Paths.DropTrailingSeparators(vaultPath);
      && (!cfg.obsidianDirIsPages && vaultPath != [] ==> Paths.Dir(p) == v)
      && (!cfg.obsidianDirIsPages && (v == [] || v == ".") ==> p == PagesDir)
      && (!cfg.obsidianDirIsPages && v == "/" ==> p == "/pages")
      && (!cfg.obsidianDirIsPages && v !in {[], ".", "/"} ==> p == v + "/pages")
  {
    if cfg.obsidianDirIsPages then vaultPath
    else
      PagesChild(vaultPath);
      Paths.Join(vaultPath, PagesDir)
  }

  lemma {:induction false} PagesChild(vaultPath: String)
    ensures Paths.Base(Paths.Join(vaultPath, PagesDir)) == PagesDir
    ensures vaultPath != [] ==> Paths.Dir(Paths.Join(vaultPath, PagesDir)) == Paths.DropTrailingSeparators(vaultPath)
    ensures vaultPath == [] || Paths.DropTrailingSeparators(vaultPath) == "." ==> Paths.Join(vaultPath, PagesDir) == PagesDir
    ensures Paths.DropTrailingSeparators(vaultPath) == "/" ==> Paths.Join(vaultPath, PagesDir) == "/pages"
    ensures Paths.DropTrailingSeparators(vaultPath) !in {[], ".", "/"}
            ==> Paths.Join(vaultPath, PagesDir) == Paths.DropTrailingSeparators(vaultPath) + "/pages"
  {
    assert Paths.Separator !in PagesDir && PagesDir[0] in PagesDir;
    if vaultPath == [] {
      Paths.BaseOfName(PagesDir);
    } else {
      Paths.JoinOfChild(vaultPath, PagesDir);
    }
    PagesChildPath(vaultPath);
  }

  /** The pages path spelled out: "pages" below nothing or ".", "/pages" below the root. */
  lemma {:induction false} PagesChildPath(vaultPath: String)
    ensures vaultPath == [] || Paths.DropTrailingSeparators(vaultPath) == "." ==> Paths.Join(vaultPath, PagesDir) == PagesDir
    ensures Paths.DropTrailingSeparators(vaultPath) == "/" ==> Paths.Join(vaultPath, PagesDir) == "/pages"
    ensures Paths.DropTrailingSeparators(vaultPath) !in {[], ".", "/"}
            ==> Paths.Join(vaultPath, PagesDir) == Paths.DropTrailingSeparators(vaultPath) + "/pages"
  {
    var v := Paths.DropTrailingSeparators(vaultPath);
    if v !in {[], "."} {
      Paths.JoinChild(vaultPath, PagesDir);
    }
  }

  /** getRelativePath: a path that does not start with the root is refused; any other is
      made relative to the root by filepath.Rel. */
  function GetRelativePath(root: String, file: String): (r: Result<String>)
    ensures !HasPrefix(file, root) ==> r == Err(PathOutsideVault)
    ensures HasPrefix(file, root) ==> r == Paths.Rel(root, file)
  {
    if !HasPrefix(file, root) then Err(PathOutsideVault) else Paths.Rel(root, file)
  }

  /** A file joined below the root gets the name it was joined with, without trailing
      separators. The root may end in one separator; one that ends in two is no prefix of
      the joined path (RootWithDoubledSeparator). */
  lemma {:induction false} RelativePathOfChild(root: String, rel: String)
    requires root != [] && Paths.DropTrailingSeparators(root) != "." && !HasSuffix(root, "//")
    requires rel != [] && rel != "." && rel[0] != Paths.Separator
    ensures GetRelativePath(root, Paths.Join(root, rel)) == Ok(Paths.DropTrailingSeparators(rel))
    ensures rel[|rel| - 1] != Paths.Separator ==> GetRelativePath(root, Paths.Join(root, rel)) == Ok(rel)
  {
    var file := Paths.Join(root, rel);
    var d := Paths.DropTrailingSeparators(root);
    assert |root| <= |d| + 1;
    Paths.JoinChild(root, rel);
    if d == [Paths.Separator] {
      assert root == d;
      assert file[..|root|] == root;
    } else {
      assert file == d + [Paths.Separator] + rel;
      assert file[..|root|] == root by {
        if |root| == |d| + 1 {
          assert root == d + [root[|d|]];
        }
      }
    }
    Paths.RelOfChild(root, rel);
  }

  /** A vault argument that ends in a separator, as shell completion writes it: its pages
      path is "MyVault/pages", and a file below it gets its name relative to "MyVault". */
  lemma {:induction false} VaultWithTrailingSeparator()
    ensures GetObsidianPagesPath(Options.Config(false), "MyVault/") == "MyVault/pages"
    ensures GetRelativePath("MyVault/", "MyVault/x.md") == Ok("x.md")
  {
    var v, x := "MyVault/", "x.md";
    Paths.MyVaultTrimmed();
    Paths.TrailingSeparatorJoin();
    Paths.JoinChild(v, x);
    assert Paths.Join(v, x) == "MyVault/x.md";
    RelativePathOfChild(v, x);
    assert x[|x| - 1] != Paths.Separator;
  }

  /** A root that ends in two separators is refused, like any path it is not a prefix of:
      the joined path has only one separator after "MyVault". */
  lemma {:induction false} RootWithDoubledSeparator()
    ensures GetRelativePath("MyVault//", Paths.Join("MyVault//", "x.md")) == Err(PathOutsideVault)
  {
    var root, rel := "MyVault//", "x.md";
    assert Paths.DropTrailingSeparators(root) == "MyVault" by {
      assert root[..8] == "MyVault/" && root[..7] == "MyVault";
      assert Paths.TrimTrailingSeparators(root) == Paths.TrimTrailingSeparators(root[..8]);
      assert Paths.TrimTrailingSeparators(root[..8]) == Paths.TrimTrailingSeparators(root[..7]);
    }
    Paths.JoinChild(root, rel);
    var file := Paths.Join(root, rel);
    assert file[8] == 'x';
  }

  /** The text appended before conversion so that the last heading's body is closed. */
  const Sentinel: String := "\n#"

  /** Step one: the sentinel appended and every tab replaced by two spaces. */
  function ExpandTabs(input: String): (t: String)
    ensures t == ReplaceChar(input, '\t', "  ") + Sentinel
    ensures '\t' !in t
  {
    var t := ReplaceChar(input + Sentinel, '\t', "  ");
    ReplaceCharAppend(input, Sentinel, '\t', "  ");
    assert '\t' !in t by {
      if '\t' in t { ReplaceCharChars(input + Sentinel, '\t', "  ", '\t'); }
    }
    t
  }

  /** The lines the outliner and the fixes produce, before embeds are rewritten. */
  function PreparedLines(input: String): (lines: seq<String>) {
    LineRules.ApplyAllToLines(LineRules.Fixes, Outline.OutlineLines(Split(ExpandTabs(input), '\n')))
  }

  /** The text after tabs, outlining and fixes, stage by stage. */
  function Prepared(input: String): String {
    LineRules.ApplyAllToText(LineRules.Fixes, Outline.OutlineText(ExpandTabs(input)))
  }

  /** The whole conversion of a page's text, for a given vault name and page path. */
  function ConvertText(hash: Assets.Hasher, vaultName: String, relPath: String, input: String): String {
    Embeds.RewriteLinks(Embeds.Page(hash, vaultName, relPath), Prepared(input))
  }

  /** ConvertMarkdown with its configuration folded: an error for a file outside the vault
      directory, before any text is looked at; the converted text otherwise. */
  function Convert(hash: Assets.Hasher, cfg: Options.Config, vaultDir: String, filePath: String, input: String)
    : (r: Result<String>)
    ensures !HasPrefix(filePath, vaultDir) ==> r == Err(PathOutsideVault)
    ensures r.Err? <==> GetRelativePath(vaultDir, filePath).Err?
  {
    match GetRelativePath(vaultDir, filePath)
    case Err(e) => Err(e)
    case Ok(rel) => Ok(ConvertText(hash, GetVaultName(cfg, vaultDir), rel, input))
  }

  /** ConvertMarkdown: the stages run one after the other on `result`. */
  method ConvertMarkdown(hash: Assets.Hasher, vaultDir: String, filePath: String, input: String,
                         opts: seq<Options.Option>)
    returns (r: Result<String>)
    ensures r == Convert(hash, Options.ConfigOf(opts), vaultDir, filePath, input)
  {
    var cfg := Options.MakeConfig(opts);
    var relPath := GetRelativePath(vaultDir, filePath);
    if relPath.Err? {
      return Err(relPath.error);
    }
    var vaultName := GetVaultName(cfg, vaultDir);
    var result := ReplaceChar(input + Sentinel, '\t', "  ");
    var lines := Outline.OutlineHeadings(Split(result, '\n'));
    result := Join(lines, "\n");
    result := ApplyFixes(result);
    result := Embeds.RewriteEmbeds(Embeds.Page(hash, vaultName, relPath.value), result);
    r := Ok(result);
  }

  /** The loop over the `fixes` table, each rule rewriting the whole text. */
  method ApplyFixes(t: String) returns (r: String)
    ensures r == LineRules.ApplyAllToText(LineRules.Fixes, t)
  {
    r := t;
    for i := 0 to |LineRules.Fixes|
      invariant r == LineRules.ApplyAllToText(LineRules.Fixes[..i], t)
    {
      assert LineRules.Fixes[..i + 1][..i] == LineRules.Fixes[..i];
      r := LineRules.ApplyToText(LineRules.Fixes[i], r);
    }
    assert LineRules.Fixes[..|LineRules.Fixes|] == LineRules.Fixes;
  }

  /** The document before embed rewriting is the join of its prepared lines, none of which
      holds a line break, and there is one line per line of the tab-expanded input. */
  lemma {:induction false} PreparedIsJoin(input: String)
    ensures Prepared(input) == Join(PreparedLines(input), "\n")
    ensures |PreparedLines(input)| == |Split(ExpandTabs(input), '\n')|
    ensures forall j :: 0 <= j < |PreparedLines(input)| ==> '\n' !in PreparedLines(input)[j]
  {
    var lines := Split(ExpandTabs(input), '\n');
    var outlined := Outline.OutlineLines(lines);
    Outline.OutlineLinesHaveNoBreaks(lines, 0);
    LineRules.FixesOnText(LineRules.Fixes, outlined);
  }

  /** The lines of the expanded text: the input's lines, then the sentinel line "#". */
  lemma {:induction false} ExpandedLines(input: String)
    requires '\t' !in input
    ensures Split(ExpandTabs(input), '\n') == Split(input, '\n') + ["#"]
  {
    assert ExpandTabs(input) == input + ['\n'] + "#";
    SplitAppend(input, '\n', "#");
    SplitNoSep("#", '\n');
  }

  /** The sentinel survives the outliner and the fixes: the last prepared line is "#" behind
      leading spaces (spaces appear when the sentinel is taken into a heading's body). */
  lemma {:induction false} SentinelKept(input: String)
    ensures |PreparedLines(input)| >= 1
    ensures Outline.Unindent(PreparedLines(input)[|PreparedLines(input)| - 1]) == "#"
  {
    SentinelLine(input);
    SentinelLineKept(Split(ExpandTabs(input), '\n'));
  }

  /** The sentinel is never removed: a converted page ends with a line break and its last
      prepared line, which is "#" behind spaces at most. */
  lemma {:induction false} SentinelSurvives(hash: Assets.Hasher, vaultName: String, relPath: String, input: String)
    ensures |PreparedLines(input)| >= 2
    ensures Outline.Unindent(PreparedLines(input)[|PreparedLines(input)| - 1]) == "#"
    ensures HasSuffix(ConvertText(hash, vaultName, relPath, input),
                      "\n" + PreparedLines(input)[|PreparedLines(input)| - 1])
  {
    var lines := PreparedLines(input);
    SentinelKept(input);
    PreparedIsJoin(input);
    ExpandedHasTwoLines(input);
    var n := |lines|;
    var last := lines[n - 1];
    var front := Join(lines[..n - 1], "\n");
    JoinLast(lines, "\n");
    var tail := "\n" + last;
    assert Prepared(input) == front + tail;
    SentinelTailChars(last);
    Embeds.PlainTailKept(Embeds.LinkTo(Embeds.Page(hash, vaultName, relPath)), front, tail);
    var out := ConvertText(hash, vaultName, relPath, input);
    assert out[|out| - |tail|..] == tail;
  }

  /** The expanded text has at least two lines: the sentinel adds one. */
  lemma {:induction false} ExpandedHasTwoLines(input: String)
    ensures |Split(ExpandTabs(input), '\n')| >= 2
  {
    var t := ReplaceChar(input, '\t', "  ");
    assert ExpandTabs(input) == t + ['\n'] + "#";
    SplitAppend(t, '\n', "#");
  }

  /** A line break and a line that is "#" behind spaces open and close no embed. */
  lemma {:induction false} SentinelTailChars(last: String)
    requires Outline.Unindent(last) == "#"
    ensures '!' !in "\n" + last && '[' !in "\n" + last && ']' !in "\n" + last
  {
    Outline.UnindentSplit(last);
    var k := Leading(last, ' ');
    assert "\n" + last == "\n" + Spaces(k) + "#";
  }

  /** A last line "#" comes out of the outliner and the fixes as "#" behind spaces. */
  lemma {:induction false} SentinelLineKept(lines: seq<String>)
    requires |lines| >= 1 && lines[|lines| - 1] == "#"
    ensures |LineRules.ApplyAllToLines(LineRules.Fixes, Outline.OutlineLines(lines))| == |lines|
    ensures Outline.Unindent(LineRules.ApplyAllToLines(LineRules.Fixes, Outline.OutlineLines(lines))[|lines| - 1]) == "#"
  {
    var j := |lines| - 1;
    var outlined := Outline.OutlineLines(lines);
    Outline.OutlineLinesKeepText(lines, j);
    SentinelUnindented();
    SentinelPassesFixes(outlined[j]);
    LineRules.FixesAt(outlined, j);
  }

  /** The last line of the expanded text is the sentinel's "#". */
  lemma {:induction false} SentinelLine(input: String)
    ensures |Split(ExpandTabs(input), '\n')| >= 1
    ensures Split(ExpandTabs(input), '\n')[|Split(ExpandTabs(input), '\n')| - 1] == "#"
  {
    var t := ReplaceChar(input, '\t', "  ");
    assert ExpandTabs(input) == t + ['\n'] + "#";
    SplitAppend(t, '\n', "#");
    SplitNoSep("#", '\n');
  }

  lemma {:induction false} SentinelUnindented()
    ensures Outline.Unindent("#") == "#"
  {
    assert Leading("#", ' ') == 0;
  }

  /** A line that is "#" behind spaces is left alone by both fixes. */
  lemma {:induction false} SentinelPassesFixes(line: String)
    requires Outline.Unindent(line) == "#"
    ensures LineRules.ApplyToLine(LineRules.Title, LineRules.ApplyToLine(LineRules.NumberedList, line)) == line
  {
    Outline.UnindentSplit(line);
    var k := Leading(line, ' ');
    assert line == Spaces(k) + Outline.Hashes(1) + [];
    LineRules.TagLinePasses(LineRules.NumberedList, k, 1, []);
    LineRules.TagLinePasses(LineRules.Title, k, 1, []);
  }

  /** A line that does not contain '#' is not a heading. */
  lemma {:induction false} HeadingHasHash(line: String)
    requires '#' !in line
    ensures Outline.ParseHeading(line).None?
  {
    var s := Leading(line, ' ');
    if s < |line| {
      assert line[s..][0] == line[s];
      assert line[s] in line;
    }
  }

  /** A tab-free document without '#', without "![[" and without numbered items comes back
      as it was, followed by the sentinel. */
  lemma {:induction false} PlainDocumentUnchanged(hash: Assets.Hasher, vaultName: String, relPath: String, input: String)
    requires '\t' !in input && '#' !in input && !Contains(input, Embeds.EmbedOpen)
    requires forall l | l in Split(input, '\n') :: !LineRules.Matches(LineRules.NumberedList, l)
    ensures ConvertText(hash, vaultName, relPath, input) == input + Sentinel
  {
    PlainPrepared(input);
    Embeds.NotContainedAppend(input, Sentinel, Embeds.EmbedOpen);
    NoEmbedsKept(hash, vaultName, relPath, input);
  }

  /** The outliner and the fixes leave a plain document as it is. */
  lemma {:induction false} PlainPrepared(input: String)
    requires '\t' !in input && '#' !in input
    requires forall l | l in Split(input, '\n') :: !LineRules.Matches(LineRules.NumberedList, l)
    ensures Prepared(input) == input + Sentinel
  {
    var doc := input + Sentinel;
    var lines := Split(input, '\n') + ["#"];
    ExpandedLines(input);
    assert ExpandTabs(input) == doc;
    PlainLines(input, lines);
    Outline.NoHeadingsUnchanged(lines, 0);
    assert lines[0..] == lines;
    PlainFixed(lines);
    PreparedIsJoin(input);
    JoinSplit(doc, '\n');
  }

  lemma {:induction false} PlainLines(input: String, lines: seq<String>)
    requires '#' !in input
    requires forall l | l in Split(input, '\n') :: !LineRules.Matches(LineRules.NumberedList, l)
    requires lines == Split(input, '\n') + ["#"]
    ensures forall j :: 0 <= j < |lines| ==> Outline.ParseHeading(lines[j]).None?
    ensures forall j :: 0 <= j < |lines| ==> !LineRules.Matches(LineRules.NumberedList, lines[j])
  {
    forall j | 0 <= j < |lines|
      ensures Outline.ParseHeading(lines[j]).None?
      ensures !LineRules.Matches(LineRules.NumberedList, lines[j])
    {
      if j < |lines| - 1 {
        assert lines[j] == Split(input, '\n')[j];
        assert '#' !in lines[j] by {
          if '#' in lines[j] { SplitPieceChars(input, '\n', j, '#'); }
        }
        HeadingHasHash(lines[j]);
      } else {
        assert lines[j] == Spaces(0) + Outline.Hashes(1) + [];
        LineRules.TagLinePasses(LineRules.NumberedList, 0, 1, []);
      }
    }
  }

  /** Lines that are neither numbered items nor titles are kept by the fixes. */
  lemma {:induction false} PlainFixed(lines: seq<String>)
    requires forall j :: 0 <= j < |lines| ==> Outline.ParseHeading(lines[j]).None?
    requires forall j :: 0 <= j < |lines| ==> !LineRules.Matches(LineRules.NumberedList, lines[j])
    ensures LineRules.ApplyAllToLines(LineRules.Fixes, lines) == lines
  {
    var fixed := LineRules.ApplyAllToLines(LineRules.Fixes, lines);
    forall j | 0 <= j < |lines| ensures fixed[j] == lines[j] {
      LineRules.FixesAt(lines, j);
    }
  }

  /** The characters of a heading line: spaces, '#', and the title's. */
  lemma {:induction false} HeadingLineChars(h: Outline.Heading, c: char)
    requires c != ' ' && c != '#' && c !in h.title
    ensures c !in Outline.HeadingLine(h)
  {
  }

  /** A one-line document that is a heading comes out at 2·(level-1) spaces, bulleted, with
      its marks and title as they were; its own indent is gone. */
  lemma {:induction false} HeadingDocument(hash: Assets.Hasher, vaultName: String, relPath: String, h: Outline.Heading)
    requires '\t' !in h.title && '\n' !in h.title && '!' !in h.title
    ensures ConvertText(hash, vaultName, relPath, Outline.HeadingLine(h))
         == Spaces(2 * (h.level - 1)) + "- " + Outline.Hashes(h.level) + " " + h.title + Sentinel
  {
    var doc := HeadingPrepared(h);
    BulletedHeadingChars(h, '!');
    Embeds.NoBangNoEmbed(doc);
    NoEmbedsKept(hash, vaultName, relPath, Outline.HeadingLine(h));
  }

  lemma {:induction false} BulletedHeadingChars(h: Outline.Heading, c: char)
    requires c !in h.title && c !in " -#\n"
    ensures c !in Spaces(2 * (h.level - 1)) + "- " + Outline.Hashes(h.level) + " " + h.title + Sentinel
  {
  }

  /** A prepared document without embeds is the result. */
  lemma {:induction false} NoEmbedsKept(hash: Assets.Hasher, vaultName: String, relPath: String, input: String)
    requires !Contains(Prepared(input), Embeds.EmbedOpen)
    ensures ConvertText(hash, vaultName, relPath, input) == Prepared(input)
  {
    Embeds.NoEmbedsUnchanged(Embeds.LinkTo(Embeds.Page(hash, vaultName, relPath)), Prepared(input));
  }

  /** The outliner and the fixes on a one-line heading document. */
  lemma {:induction false} HeadingPrepared(h: Outline.Heading) returns (doc: String)
    requires '\t' !in h.title && '\n' !in h.title
    ensures doc == Spaces(2 * (h.level - 1)) + "- " + Outline.Hashes(h.level) + " " + h.title + Sentinel
    ensures Prepared(Outline.HeadingLine(h)) == doc
  {
    var line := Outline.HeadingLine(h);
    HeadingLineChars(h, '\t');
    HeadingLineChars(h, '\n');
    ExpandedLines(line);
    SplitNoSep(line, '\n');
    var lines := [line, "#"];
    assert Split(ExpandTabs(line), '\n') == lines;
    var rendered := HeadingOutlined(h);
    var out := Outline.OutlineLines(lines);
    var bulleted := Spaces(2 * (h.level - 1)) + "- " + Outline.Hashes(h.level) + " " + h.title;
    FixesOnHeadingDocument(rendered, out);
    PreparedIsJoin(line);
    assert PreparedLines(line) == [bulleted, "#"];
    doc := bulleted + Sentinel;
    JoinWithSentinel(bulleted);
  }

  /** A line and the sentinel line, joined. */
  lemma {:induction false} JoinWithSentinel(line: String)
    ensures Join([line, "#"], "\n") == line + Sentinel
  {
    assert [line, "#"][1..] == ["#"];
  }

  /** The outliner on a heading followed by the sentinel line. */
  lemma {:induction false} HeadingOutlined(h: Outline.Heading) returns (rendered: Outline.Heading)
    ensures rendered == h.(indent := 2 * (h.level - 1))
    ensures Outline.OutlineLines([Outline.HeadingLine(h), "#"]) == [Outline.HeadingLine(rendered), "#"]
  {
    rendered := h.(indent := 2 * (h.level - 1));
    var lines := [Outline.HeadingLine(h), "#"];
    Outline.ParseHeadingLine(h);
    assert Outline.BodyLength(lines, 1) == 0;
    Outline.HeadingBlockRendered(lines, 0, h);
    assert Outline.ParseHeading("#").None?;
    Outline.PlainLineKept(lines, 1);
    var out := Outline.OutlineLines(lines);
    assert out[0] == Outline.HeadingLine(rendered);
    assert out[1] == out[1..][0] == "#";
  }

  /** The fixes on an outlined heading and the sentinel line. */
  lemma {:induction false} FixesOnHeadingDocument(rendered: Outline.Heading, out: seq<String>)
    requires out == [Outline.HeadingLine(rendered), "#"]
    ensures LineRules.ApplyAllToLines(LineRules.Fixes, out)
         == [Spaces(rendered.indent) + "- " + Outline.Hashes(rendered.level) + " " + rendered.title, "#"]
  {
    var line := Outline.HeadingLine(rendered);
    Outline.ParseHeadingLine(rendered);
    LineRules.RulesDisjoint(line);
    LineRules.TitleItem(rendered);
    LineRules.FixesAt(out, 0);
    assert out[1] == Spaces(0) + Outline.Hashes(1) + [];
    LineRules.TagLinePasses(LineRules.NumberedList, 0, 1, []);
    LineRules.TagLinePasses(LineRules.Title, 0, 1, []);
    LineRules.FixesAt(out, 1);
  }
}
