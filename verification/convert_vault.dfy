/** The decisions ConvertVault (pkg/obsidian2logseq/convert_vault.go) takes for every entry
    of the vault walk, and the names it gives what it writes. The walk itself and the file
    operations are not modelled: an entry's visit yields the action the callback performs. */
module ConvertVault {
  import opened Text
  import opened Wrappers
  import Paths
  import Assets
  import Options
  import Embeds
  import ConvertMarkdown

  const GitDir: String := ".git"
  const PageSuffix: String := ".md"
  const AssetsDir: String := "assets"
  const GraphPagesDir: String := "pages"

  /** What replaces the separator in a page's destination file name. */
  const FlatSeparator: String := "___"

  /** The paths fixed before the walk starts. */
  datatype Layout = Layout(vaultName: String, pagesPath: String, assetsPath: String, logseqPagesPath: String)

  function LayoutOf(cfg: Options.Config, vaultPath: String, graphPath: String): Layout {
    Layout(
      ConvertMarkdown.GetVaultName(cfg, vaultPath),
      ConvertMarkdown.GetObsidianPagesPath(cfg, vaultPath),
      Paths.Join(graphPath, AssetsDir),
      Paths.Join(graphPath, GraphPagesDir))
  }

  /** The assets and the pages of the graph are the "assets" and "pages" children of the
      graph directory. */
  lemma {:induction false} LayoutOfGraph(cfg: Options.Config, vaultPath: String, graphPath: String)
    requires graphPath != []
    ensures var l := LayoutOf(cfg, vaultPath, graphPath);
      && Paths.Dir(l.assetsPath) == Paths.DropTrailingSeparators(graphPath) && Paths.Base(l.assetsPath) == AssetsDir
      && Paths.Dir(l.logseqPagesPath) == Paths.DropTrailingSeparators(graphPath) && Paths.Base(l.logseqPagesPath) == GraphPagesDir
  {
    GraphChild(graphPath, AssetsDir);
    GraphChild(graphPath, GraphPagesDir);
  }

  lemma {:induction false} GraphChild(graphPath: String, name: String)
    requires graphPath != [] && name != [] && name != "." && Paths.Separator !in name
    ensures Paths.Dir(Paths.Join(graphPath, name)) == Paths.DropTrailingSeparators(graphPath)
    ensures Paths.Base(Paths.Join(graphPath, name)) == name
  {
    Paths.JoinOfChild(graphPath, name);
  }

  /** One entry the walk hands to the callback. */
  datatype Entry = Entry(path: String, isDir: bool)

  /** What the callback does with an entry. */
  datatype Action =
    | Continue                                              // go on with the walk
    | SkipDir                                               // do not descend into this directory
    | WritePage(dir: String, path: String, content: String) // create `dir`, write the page
    | CopyAsset(from: String, to: String)                   // copy the file into the assets
    | Fail(error: Error)                                    // stop the walk with an error

  /** A page's destination directory below the graph's pages: its own directory with every
      space turned into '_'. */
  function DestinationDir(relPath: String): (d: String)
    ensures ' ' !in d
    ensures Paths.Separator !in relPath ==> d == "."
  {
    var d := ReplaceChar(Paths.Dir(relPath), ' ', "_");
    assert ' ' !in d by {
      if ' ' in d { ReplaceCharChars(Paths.Dir(relPath), ' ', "_", ' '); }
    }
    assert Paths.Separator !in relPath ==> d == "." by {
      if Paths.Separator !in relPath {
        assert ReplaceChar(".", ' ', "_") == "." by {
          assert ReplaceChar(".", ' ', "_") == ['.'] + ReplaceChar([], ' ', "_");
        }
      }
    }
    d
  }

  /** A page in a sub-directory lands in that directory, spaces turned into '_'. */
  lemma {:induction false} DestinationDirOfChild(dir: String, name: String)
    requires dir != [] && Paths.Separator !in name
    ensures DestinationDir(dir + [Paths.Separator] + name) == ReplaceChar(dir, ' ', "_")
  {
    Paths.DirOfChild(dir, name);
  }

  /** A page's destination file name: its relative path with every separator replaced by
      "___". */
  function DestinationFilename(relPath: String): (name: String)
    ensures Paths.Separator !in name
    ensures HasSuffix(relPath, PageSuffix) ==> HasSuffix(name, PageSuffix)
  {
    var name := Join(Split(relPath, Paths.Separator), FlatSeparator);
    FlattenedName(relPath);
    name
  }

  lemma {:induction false} FlattenedName(relPath: String)
    ensures var name := Join(Split(relPath, Paths.Separator), FlatSeparator);
      && name == ReplaceChar(relPath, Paths.Separator, FlatSeparator)
      && Paths.Separator !in name
      && (HasSuffix(relPath, PageSuffix) ==> HasSuffix(name, PageSuffix))
  {
    var name := Join(Split(relPath, Paths.Separator), FlatSeparator);
    JoinSplitReplaces(relPath, Paths.Separator, FlatSeparator);
    assert Paths.Separator !in name by {
      if Paths.Separator in name {
        ReplaceCharChars(relPath, Paths.Separator, FlatSeparator, Paths.Separator);
      }
    }
    if HasSuffix(relPath, PageSuffix) {
      var stem := relPath[..|relPath| - |PageSuffix|];
      assert relPath == stem + PageSuffix;
      ReplaceCharAppend(stem, PageSuffix, Paths.Separator, FlatSeparator);
      assert Paths.Separator !in PageSuffix;
    }
  }

  /** A nested page and a top-level page whose name spells the separator as "___" get the
      same destination file name. */
  lemma {:induction false} FlattenedNamesCollide(dir: String, name: String)
    requires Paths.Separator !in dir
    ensures DestinationFilename(dir + "/" + name) == DestinationFilename(dir + FlatSeparator + name)
  {
    var c, f := Paths.Separator, FlatSeparator;
    var nested, flat := dir + "/" + name, dir + f + name;
    FlattenedName(nested);
    FlattenedName(flat);
    var tail := ReplaceChar(name, c, f);
    assert ReplaceChar(dir, c, f) == dir;
    assert ReplaceChar("/", c, f) == f by {
      assert ReplaceChar("/", c, f) == f + ReplaceChar([], c, f);
    }
    assert ReplaceChar(f, c, f) == f by {
      assert c !in f;
    }
    assert ReplaceChar(nested, c, f) == dir + f + tail by {
      ReplaceCharAppend(dir + "/", name, c, f);
      ReplaceCharAppend(dir, "/", c, f);
    }
    assert ReplaceChar(flat, c, f) == dir + f + tail by {
      ReplaceCharAppend(dir + f, name, c, f);
      ReplaceCharAppend(dir, f, c, f);
    }
  }

  /** The page branch: the destination directory and path of a converted page. */
  function PageAction(layout: Layout, relPath: String, converted: String): Action {
    var dir := Paths.Join(layout.logseqPagesPath, DestinationDir(relPath));
    WritePage(dir, Paths.Join(dir, DestinationFilename(relPath)), converted)
  }

  /** The asset branch: the file is copied under its asset name. */
  function AssetAction(hash: Assets.Hasher, layout: Layout, entry: Entry, relPath: String): Action {
    CopyAsset(entry.path, Paths.Join(layout.assetsPath, Assets.AssetFilename(hash, layout.vaultName, relPath)))
  }

  /** The walk callback as written: `.git` directories are skipped, other directories passed,
      files outside the pages path refused; a ".md" file is converted by ConvertMarkdown,
      which is given the pages path as its vault directory; any other file is an asset. The
      file's content is a parameter. */
  function Visit(hash: Assets.Hasher, cfg: Options.Config, layout: Layout, entry: Entry, content: String)
    : (r: Action)
    ensures entry.isDir ==> (r == SkipDir <==> Paths.Base(entry.path) == GitDir)
    ensures entry.isDir ==> r == SkipDir || r == Continue
    ensures var rel := ConvertMarkdown.GetRelativePath(layout.pagesPath, entry.path);
      && (r.Fail? <==> !entry.isDir && rel.Err?)
      && (r.WritePage? <==> !entry.isDir && rel.Ok? && HasSuffix(rel.value, PageSuffix))
      && (r.CopyAsset? <==> !entry.isDir && rel.Ok? && !HasSuffix(rel.value, PageSuffix))
  {
    if entry.isDir then
      if Paths.Base(entry.path) == GitDir then SkipDir else Continue
    else match ConvertMarkdown.GetRelativePath(layout.pagesPath, entry.path)
      case Err(e) => Fail(e)
      case Ok(rel) =>
        if HasSuffix(rel, PageSuffix) then
          match ConvertMarkdown.Convert(hash, cfg, layout.pagesPath, entry.path, content)
          case Err(e) => Fail(e)
          case Ok(converted) => PageAction(layout, rel, converted)
        else AssetAction(hash, layout, entry, rel)
  }

  /** The vault name the pages' links are built with, as written: ConvertMarkdown derives it
      from the pages path it is given. */
  function LinkVaultName(cfg: Options.Config, vaultPath: String): String {
    ConvertMarkdown.GetVaultName(cfg, ConvertMarkdown.GetObsidianPagesPath(cfg, vaultPath))
  }

  /** A page written by Visit holds the conversion of its content with the links built from
      LinkVaultName. */
  lemma {:induction false} VisitPageContent(hash: Assets.Hasher, cfg: Options.Config, vaultPath: String, graphPath: String,
                         entry: Entry, content: String)
    requires Visit(hash, cfg, LayoutOf(cfg, vaultPath, graphPath), entry, content).WritePage?
    ensures var layout := LayoutOf(cfg, vaultPath, graphPath);
      var rel := ConvertMarkdown.GetRelativePath(layout.pagesPath, entry.path).value;
      Visit(hash, cfg, layout, entry, content).content
        == ConvertMarkdown.ConvertText(hash, LinkVaultName(cfg, vaultPath), rel, content)
  {
  }

  /** The links of the pages name the assets as they are stored exactly when the vault
      directory is the pages directory or is itself called "pages". */
  lemma {:induction false} LinkNamesAgreeIff(cfg: Options.Config, vaultPath: String)
    ensures LinkVaultName(cfg, vaultPath) == ConvertMarkdown.GetVaultName(cfg, vaultPath)
      <==> cfg.obsidianDirIsPages || Paths.Base(vaultPath) == GraphPagesDir
  {
  }

  /** For any embed, the asset name in the link agrees with the stored asset's name exactly
      in those cases. */
  lemma {:induction false} LinkedAssetNameAgreesIff(hash: Assets.Hasher, cfg: Options.Config, vaultPath: String,
                                 relPath: String, target: String)
    ensures var stored := ConvertMarkdown.GetVaultName(cfg, vaultPath);
      Embeds.AssetName(Embeds.Page(hash, LinkVaultName(cfg, vaultPath), relPath), target)
        == Embeds.AssetName(Embeds.Page(hash, stored, relPath), target)
      <==> cfg.obsidianDirIsPages || Paths.Base(vaultPath) == GraphPagesDir
  {
    LinkNamesAgreeIff(cfg, vaultPath);
    Assets.NamesEqualIffVaults(hash, LinkVaultName(cfg, vaultPath), ConvertMarkdown.GetVaultName(cfg, vaultPath),
      Paths.Join(Paths.Dir(relPath), target));
  }

  /** The vault "/home/me/MyVault" without the flag: links say "pages", assets "MyVault". */
  lemma {:induction false} LinkNameMismatchExample()
    ensures LinkVaultName(Options.Config(false), "/home/me/MyVault") == "pages"
    ensures ConvertMarkdown.GetVaultName(Options.Config(false), "/home/me/MyVault") == "MyVault"
  {
    var cfg := Options.Config(false);
    var parent, name: String := "/home/me", "MyVault";
    assert "/home/me/MyVault" == parent + [Paths.Separator] + name;
    assert Paths.Separator !in name;
    ConvertMarkdown.VaultNameOfChild(cfg, parent, name);
    ConvertMarkdown.PagesChild("/home/me/MyVault");
    assert Paths.Separator !in GraphPagesDir;
    ConvertMarkdown.VaultNameOfChild(cfg, "/home/me/MyVault", GraphPagesDir);
  }

  /** The walk callback with the links built from the vault's own name, the name the assets
      are stored under. */
  function VisitFixed(hash: Assets.Hasher, cfg: Options.Config, layout: Layout, entry: Entry, content: String)
    : (r: Action)
    ensures entry.isDir ==> r == Visit(hash, cfg, layout, entry, content)
    ensures r.WritePage? <==> Visit(hash, cfg, layout, entry, content).WritePage?
  {
    if entry.isDir then
      if Paths.Base(entry.path) == GitDir then SkipDir else Continue
    else match ConvertMarkdown.GetRelativePath(layout.pagesPath, entry.path)
      case Err(e) => Fail(e)
      case Ok(rel) =>
        if HasSuffix(rel, PageSuffix) then
          PageAction(layout, rel, ConvertMarkdown.ConvertText(hash, layout.vaultName, rel, content))
        else AssetAction(hash, layout, entry, rel)
  }

  /** Where the two callbacks agree: with the flag, or for a vault called "pages". */
  lemma {:induction false} VisitFixedAgrees(hash: Assets.Hasher, cfg: Options.Config, vaultPath: String, graphPath: String,
                         entry: Entry, content: String)
    requires cfg.obsidianDirIsPages || Paths.Base(vaultPath) == GraphPagesDir
    ensures var layout := LayoutOf(cfg, vaultPath, graphPath);
      VisitFixed(hash, cfg, layout, entry, content) == Visit(hash, cfg, layout, entry, content)
  {
    LinkNamesAgreeIff(cfg, vaultPath);
  }

  /** With the fixed callback, the asset that a page's embed refers to is copied to the
      very name its link points at. */
  lemma {:induction false} LinkedAssetStored(hash: Assets.Hasher, cfg: Options.Config, vaultPath: String, graphPath: String,
                          relPath: String, target: String, content: String)
    requires LayoutOf(cfg, vaultPath, graphPath).pagesPath != []
    requires Paths.DropTrailingSeparators(LayoutOf(cfg, vaultPath, graphPath).pagesPath) != "."
    requires !HasSuffix(LayoutOf(cfg, vaultPath, graphPath).pagesPath, "//")
    requires Paths.Join(Paths.Dir(relPath), target) != []
    requires Paths.Join(Paths.Dir(relPath), target) != "."
    requires Paths.Join(Paths.Dir(relPath), target)[0] != Paths.Separator
    requires Paths.Join(Paths.Dir(relPath), target)[|Paths.Join(Paths.Dir(relPath), target)| - 1] != Paths.Separator
    requires !HasSuffix(Paths.Join(Paths.Dir(relPath), target), PageSuffix)
    ensures var layout := LayoutOf(cfg, vaultPath, graphPath);
      var assetPath := Paths.Join(layout.pagesPath, Paths.Join(Paths.Dir(relPath), target));
      VisitFixed(hash, cfg, layout, Entry(assetPath, false), content)
        == CopyAsset(assetPath,
             Paths.Join(layout.assetsPath, Embeds.AssetName(Embeds.Page(hash, layout.vaultName, relPath), target)))
  {
    var layout := LayoutOf(cfg, vaultPath, graphPath);
    ConvertMarkdown.RelativePathOfChild(layout.pagesPath, Paths.Join(Paths.Dir(relPath), target));
  }
}
