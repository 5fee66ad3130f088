# obsidian2logseq in Dafny

A model of the text-conversion core of obsidian2logseq, which turns an Obsidian vault into a
Logseq graph. The model covers:

- `ConvertMarkdown`, which rewrites one page in four stages:
  1. the sentinel line `#` is appended and tabs are expanded;
  2. the `chapterExpr` heading outliner re-indents every heading and its body by heading
     level;
  3. the `fixes` table puts a bullet `- ` in front of numbered items and headings;
  4. every embed `![[T]]` becomes a Markdown image link into the graph's `assets` directory.
- The helpers `getVaultName`, `getObsidianPagesPath` and `getRelativePath`.
- `assetFilename`, the flat name under which a vault file is stored as an asset.
- The options (`Options.Config`, `apply`).
- The decisions of the `ConvertVault` walk callback, and the names it gives the pages and
  assets it writes.

Modules:

| module | file | models |
|---|---|---|
| `Text` | `text.dfy` | `strings.Split`, `Join`, `ReplaceAll` as the converter uses them |
| `Paths` | `paths.dfy` | `path.Dir`, `Base`, `Join`, `filepath.Rel` on `/`-separated paths |
| `Assets` | `assets.dfy` | `assetFilename`; SHA-1 is an arbitrary function to 40 lowercase hex digits |
| `Options` | `options.dfy` | the configuration and its one option |
| `Outline` | `outline.dfy` | the `chapterExpr` rewrite, read line by line |
| `LineRules` | `rules.dfy` | the `fixes` table |
| `Embeds` | `embeds.dfy` | the `contentLinkExpr` rewrite and the link it builds |
| `ConvertMarkdown` | `convert_markdown.dfy` | the pipeline and its path helpers |
| `ConvertVault` | `convert_vault.dfy` | the walk callback, as a function from an entry to an action |
| `Scenarios` | `scenarios.dfy` | a worked two-heading page through the whole pipeline |

Each regular expression is modelled by what it matches. The modules' doc comments explain how.

- `chapterExpr` takes a heading line and then, as often as it can, either one following
  line, or an empty line together with the non-empty line after it. A following line
  qualifies when it has two or more characters and does not start with `#`.
- The `fixes` patterns cannot cross a line break. Each one therefore rewrites every line on
  its own.
- `contentLinkExpr` is scanned character by character, so an embed may span lines.

Some behaviour of the code is easy to misread; the model follows the code:

- A heading's body does not simply run "until the next heading". It stops at any line that
  starts with `#`, including a tag such as `#tag` (`Outline.BodyExtent`). It also stops at a
  one-character line, and at two empty lines in a row. An empty line followed by a heading
  takes that heading into the body, and so does a heading indented by spaces.
- The walk skips only directories named `.git`. Other hidden files are copied as assets.
- The sentinel `#` that is appended before outlining is never removed. It stays as the last
  line of every converted page, behind a line break and spaces at most
  (`ConvertMarkdown.SentinelSurvives`).

## Model

| member | source | states |
|---|---|---|
| Text.Split | pkg/obsidian2logseq/convert_vault.go:85 | one piece more than there are separators, and no piece contains the separator |
| Text.JoinSplit | pkg/obsidian2logseq/convert_markdown.go:68 | joining the lines of a text with the line break gives back the text |
| Text.SplitJoin | pkg/obsidian2logseq/convert_markdown.go:68 | splitting a join of separator-free pieces gives back the pieces |
| Text.SplitAppend | pkg/obsidian2logseq/convert_markdown.go:66 | splitting `a + sep + b` splits `a` and `b` separately |
| Text.JoinSplitReplaces | pkg/obsidian2logseq/convert_vault.go:85 | Join(Split(s, "/"), "___") replaces every `/` with `___` |
| Text.ReplaceCharAppend | pkg/obsidian2logseq/convert_markdown.go:66 | replacing a character distributes over concatenation |
| Text.ReplaceCharChars | pkg/obsidian2logseq/assets.go:20 | every character of the result comes from the replacement or is a kept, different character |
| Text.RemoveAll | pkg/obsidian2logseq/assets.go:16 | deleting occurrences never lengthens the text |
| Text.RemoveAllAppend | pkg/obsidian2logseq/assets.go:16 | when the text is cut after the pattern's last character, and that character occurs only at the end of the pattern, the deletion splits at the cut |
| Text.RemoveAllAbsent | pkg/obsidian2logseq/assets.go:16 | text without the pattern is unchanged |
| Paths.LastIndexOf | pkg/obsidian2logseq/assets.go:17 | None exactly when the character is absent; otherwise an index holding it with none after it |
| Paths.DropTrailingSeparators | pkg/obsidian2logseq/convert_markdown.go:136 | the path without its trailing separators, the root for a path of separators only, and the path itself when it does not end in one |
| Paths.Join | pkg/obsidian2logseq/convert_markdown.go:108 | definition of path.Join: the first part loses its trailing separators and the second its leading ones; the result is empty only for two empty parts and ends with the second part; JoinChild, JoinOfChild, RootCases, AbsoluteSecondPart and TrailingSeparatorJoin give its values |
| Paths.Rel | pkg/obsidian2logseq/convert_markdown.go:147 | definition of filepath.Rel: "." for paths that are equal up to trailing separators, an error for an absolute and a relative path; RelOfChild, RootCases and TrailingSeparatorRel give its values |
| Paths.Dir | pkg/obsidian2logseq/convert_markdown.go:108 | a path without a separator has directory "." |
| Paths.Base | pkg/obsidian2logseq/convert_markdown.go:125 | the base is never empty |
| Paths.BaseOfChild | pkg/obsidian2logseq/convert_markdown.go:125 | the base of `d/name` is `name` |
| Paths.DirOfChild | pkg/obsidian2logseq/convert_markdown.go:136 | the directory of `d/name` is `d` |
| Paths.BaseHasNoSeparator | pkg/obsidian2logseq/assets.go:20 | a base contains a separator only when it is the root "/" |
| Paths.RelOfChild | pkg/obsidian2logseq/convert_markdown.go:147 | the path of Join(base, r) relative to `base` is `r` without trailing separators, for the root "/" and for a `base` ending in separators too |
| Paths.JoinOfChild | pkg/obsidian2logseq/convert_markdown.go:136 | a name joined below a directory, including "." and the root, has that directory without trailing separators as directory and that name as base |
| Paths.RootCases | pkg/obsidian2logseq/convert_markdown.go:136 | joining "pages" to the root gives "/pages", and "/a.md" relative to the root is "a.md" |
| Paths.TrailingSeparatorJoin | pkg/obsidian2logseq/convert_markdown.go:136 | "MyVault/" and "pages" give "MyVault/pages"; "//" and "pages" give "/pages" |
| Paths.TrailingSeparatorRel | pkg/obsidian2logseq/convert_markdown.go:147 | "MyVault/x.md" relative to "MyVault/" is "x.md" |
| Paths.AbsoluteSecondPart | pkg/obsidian2logseq/convert_markdown.go:108 | a second part with a leading separator loses it: "notes" and "/x.png" give "notes/x.png" |
| Paths.AbsoluteBelowDot | pkg/obsidian2logseq/convert_markdown.go:108 | "." and "/x.png" give "x.png" |
| Paths.DirElements | pkg/obsidian2logseq/convert_markdown.go:102 | a nested relative path's directory has one element per separator in the path |
| Assets.Fingerprint | pkg/obsidian2logseq/assets.go:17 | eight lowercase hex digits |
| Assets.SanitizedBase | pkg/obsidian2logseq/assets.go:20 | a non-empty last element without spaces |
| Assets.AssetFilename | pkg/obsidian2logseq/assets.go:12-22 | the name is "obsidian_", the vault name and "_", then eight hex digits, "_", and a space-free base |
| Assets.NamesEqualIff | pkg/obsidian2logseq/assets.go:18-21 | within one vault, two names are equal iff their fingerprints and sanitised bases are |
| Assets.ComposeEqualIff | pkg/obsidian2logseq/assets.go:19 | the format is injective in the fingerprint and base, for a fixed-width fingerprint |
| Assets.NamesEqualIffVaults | pkg/obsidian2logseq/assets.go:20 | for one path, two vault names give equal names iff they are equal |
| Assets.FingerprintOfSameDir | pkg/obsidian2logseq/assets.go:17 | the fingerprint depends only on the stripped path's directory |
| Assets.ImagesDirIgnored | pkg/obsidian2logseq/assets.go:16 | `d/Images/x` and `d/x` are stored under one name |
| Assets.LongerImagesElementIgnored | pkg/obsidian2logseq/assets.go:16 | "d/MyImages/x.png" and "d/Myx.png" collide, because the deletion is not limited to whole elements |
| Assets.PlainPathName | pkg/obsidian2logseq/assets.go:12-22 | for Join(d, n) in which "Images/" does not occur, the name is built from the hash of `d` without trailing separators and `n` with spaces as `_` |
| Assets.ImagesChildStripped | pkg/obsidian2logseq/assets.go:16 | Join(d, "Images/" + x) is stripped to what Join(d, x) is stripped to, for `d` the root or "." too |
| Assets.SpacesAndUnderscoresCollide | pkg/obsidian2logseq/assets.go:20 | names in one directory that differ only in spaces versus underscores collide |
| Options.Option.Apply | pkg/obsidian2logseq/convert_vault.go:22-24 | the flag takes the option's value |
| Options.ConfigOf | pkg/obsidian2logseq/convert_vault.go:28-34 | false with no options; otherwise the last option's value |
| Options.MakeConfig | pkg/obsidian2logseq/convert_vault.go:28-34 | the loop yields ConfigOf; the flag is set iff the last option sets it |
| Options.LastOptionWins | pkg/obsidian2logseq/convert_vault.go:30-32 | earlier options are overridden by the last |
| Outline.ParseHeading | pkg/obsidian2logseq/convert_markdown.go:50 | a parsed heading's indent is the line's leading spaces, and the line is longer than indent plus level |
| Outline.ParseHeadingSound | pkg/obsidian2logseq/convert_markdown.go:50 | a parsed heading renders back to the very line |
| Outline.ParseHeadingLine | pkg/obsidian2logseq/convert_markdown.go:50 | every heading line parses back to its indent, level and title |
| Outline.BodyLength | pkg/obsidian2logseq/convert_markdown.go:50 | the body never runs past the document |
| Outline.OutlineLines | pkg/obsidian2logseq/convert_markdown.go:68-93 | definition of the chapterExpr rewrite on lines, one output line per input line; OutlineHeadings, HeadingBlockRendered, PlainLineKept and OutlineLinesKeepText state what it does |
| Outline.BodyExtent | pkg/obsidian2logseq/convert_markdown.go:50 | which following lines end a body (a `#` line, a one-character line, two empty lines) and which are taken (any other line, and an empty line with any non-empty line after it, a heading included) |
| Outline.RenderBlock | pkg/obsidian2logseq/convert_markdown.go:77-92 | the heading at 2·(level-1) spaces, then each body line at 2·level spaces |
| Outline.OutlineHeadings | pkg/obsidian2logseq/convert_markdown.go:68-93 | the scan's output equals the outline function OutlineLines |
| Outline.ScanAt | pkg/obsidian2logseq/convert_markdown.go:68-93 | one scan step: the rendered block at a heading, the line itself elsewhere |
| Outline.HeadingBlockRendered | pkg/obsidian2logseq/convert_markdown.go:77-87 | a reached heading and its body lines come out re-indented, and the scan resumes after the body |
| Outline.PlainLineKept | pkg/obsidian2logseq/convert_markdown.go:68 | a non-heading line is passed through, and the scan goes on after it |
| Outline.OutlineLinesKeepText | pkg/obsidian2logseq/convert_markdown.go:68-93 | outlining keeps the line count and changes only leading spaces |
| Outline.OutlineKeepsText | pkg/obsidian2logseq/convert_markdown.go:68-93 | the same, from any point the scan reaches |
| Outline.HeadingIndentIgnored | pkg/obsidian2logseq/convert_markdown.go:70-71 | at a heading the scan reaches, the heading's own indent does not affect the output (whether an indented heading is reached at all is BodyExtent's matter) |
| Outline.NoHeadingsUnchanged | pkg/obsidian2logseq/convert_markdown.go:68 | a document without heading lines is unchanged |
| Outline.OutlineLinesHaveNoBreaks | pkg/obsidian2logseq/convert_markdown.go:86-87 | re-indenting never puts a line break inside a line |
| LineRules.Matches | pkg/obsidian2logseq/convert_markdown.go:18-28 | definition of the two `fixes` patterns on one line; RulesDisjoint, RewrittenLinePasses and TagLinePasses state its properties |
| LineRules.ApplyToText | pkg/obsidian2logseq/convert_markdown.go:95-97 | definition of one `fixes` entry on a text, line by line; FixesOnText and ApplyToLines state its properties |
| LineRules.ApplyToLine | pkg/obsidian2logseq/convert_markdown.go:18-28 | a matching line gets "- " after its leading spaces; any other line is kept |
| LineRules.ApplyToLines | pkg/obsidian2logseq/convert_markdown.go:96 | a rule acts on every line independently |
| LineRules.NumberedItem | pkg/obsidian2logseq/convert_markdown.go:21 | `<spaces><digits>.<rest>` becomes `<spaces>- <digits>.<rest>` |
| LineRules.TitleItem | pkg/obsidian2logseq/convert_markdown.go:26 | a heading line keeps its indent, marks and title, and gets a bullet |
| LineRules.RulesDisjoint | pkg/obsidian2logseq/convert_markdown.go:18-28 | no line matches both rules |
| LineRules.RewrittenLinePasses | pkg/obsidian2logseq/convert_markdown.go:22 | a rewritten line matches neither rule |
| LineRules.RuleIdempotent | pkg/obsidian2logseq/convert_markdown.go:18-28 | applying a rule twice is applying it once |
| LineRules.RulesIndependent | pkg/obsidian2logseq/convert_markdown.go:95-97 | neither rule creates or removes a match of the other, so their order does not matter |
| LineRules.TagLinePasses | pkg/obsidian2logseq/convert_markdown.go:26 | a tag `#tag` or a bare `#` after the indent is left alone |
| LineRules.FixesAt | pkg/obsidian2logseq/convert_markdown.go:95-97 | the table applies the numbered rule and then the title rule to each line |
| LineRules.FixesOnText | pkg/obsidian2logseq/convert_markdown.go:96 | the fixes on a text are the fixes on its lines, and no line break is created |
| Embeds.EmbedAt | pkg/obsidian2logseq/convert_markdown.go:51 | a recognised embed is "![[", a non-empty target without `]`, then "]]" |
| Embeds.EmbedAtEmbed | pkg/obsidian2logseq/convert_markdown.go:51 | every such embed is recognised, whatever follows it |
| Embeds.UpCount | pkg/obsidian2logseq/convert_markdown.go:101-105 | a link always climbs at least two levels |
| Embeds.TopLevelUpCount | pkg/obsidian2logseq/convert_markdown.go:102 | a top-level page's link climbs exactly two levels |
| Embeds.NestedUpCount | pkg/obsidian2logseq/convert_markdown.go:102 | a nested page climbs one level more than its path has separators |
| Embeds.LinkShape | pkg/obsidian2logseq/convert_markdown.go:106-111 | the link is `![T](` followed by the climb, "assets/", the asset name and `)` |
| Embeds.RewriteLinks | pkg/obsidian2logseq/convert_markdown.go:99-112 | definition of the contentLinkExpr rewrite; RewriteEmbeds, EmbedRewritten, NoEmbedsUnchanged and PlainTailKept state what it does |
| Embeds.RewriteEmbeds | pkg/obsidian2logseq/convert_markdown.go:99-112 | the scan yields the rewrite function RewriteLinks |
| Embeds.ScanEmbed | pkg/obsidian2logseq/convert_markdown.go:99-112 | one scan step: the link for an embed starting there, or the character |
| Embeds.EmbedLink | pkg/obsidian2logseq/convert_markdown.go:100-111 | the callback's loop builds exactly Link |
| Embeds.NoEmbedsUnchanged | pkg/obsidian2logseq/convert_markdown.go:99 | text without "![[" is unchanged |
| Embeds.EmbedRewritten | pkg/obsidian2logseq/convert_markdown.go:99-112 | plain text before an embed is kept, the embed is replaced, and the scan resumes after it |
| Embeds.NestedPageExample | pkg/obsidian2logseq/convert_markdown.go:101-111 | "notes/a.md" embedding "Images/diagram.png" links to "../../assets/" and the name from the hash of "notes" and "diagram.png" |
| Embeds.ImagesChildName | pkg/obsidian2logseq/convert_markdown.go:108-109 | the asset `Images/x` embedded from directory `d` is named after the hash of `d` without trailing separators and `x`, whenever Join(d, x) holds no "Images/" |
| Embeds.PlainTailKept | pkg/obsidian2logseq/convert_markdown.go:99-112 | text without `!`, `[` or `]` appended to a page is passed through the rewrite unchanged |
| ConvertMarkdown.GetVaultName | pkg/obsidian2logseq/convert_markdown.go:117-126 | "unknown" with the flag; never empty; contains `/` only as the root |
| ConvertMarkdown.VaultNameOfChild | pkg/obsidian2logseq/convert_markdown.go:125 | without the flag, the vault name is the path's last element |
| ConvertMarkdown.GetObsidianPagesPath | pkg/obsidian2logseq/convert_markdown.go:128-137 | the vault path with the flag; otherwise its child "pages", with `v` the vault path without trailing separators: "pages" for `v` empty or ".", "/pages" for the root, `v + "/pages"` for any other `v` |
| ConvertMarkdown.GetRelativePath | pkg/obsidian2logseq/convert_markdown.go:139-148 | error for a path without the root prefix; filepath.Rel otherwise, which ignores trailing separators of the root and keeps the name below "/" (RelativePathOfChild, VaultWithTrailingSeparator) |
| ConvertMarkdown.RelativePathOfChild | pkg/obsidian2logseq/convert_markdown.go:139-148 | a file Join(root, rel) gets `rel` without trailing separators, for the root "/" and a root ending in one separator too |
| ConvertMarkdown.VaultWithTrailingSeparator | pkg/obsidian2logseq/convert_markdown.go:128-148 | for the vault argument "MyVault/" the pages path is "MyVault/pages" and "MyVault/x.md" is "x.md" |
| ConvertMarkdown.RootWithDoubledSeparator | pkg/obsidian2logseq/convert_markdown.go:143-145 | a root "MyVault//" is no prefix of the file joined below it, which is refused |
| ConvertMarkdown.ConvertText | pkg/obsidian2logseq/convert_markdown.go:66-114 | definition of the four stages after the paths are known; PreparedIsJoin, SentinelSurvives, PlainDocumentUnchanged and Scenarios.TwoHeadingsConverted state what it does |
| ConvertMarkdown.ExpandTabs | pkg/obsidian2logseq/convert_markdown.go:66 | the sentinel is appended, tabs become two spaces, and no tab remains |
| ConvertMarkdown.Convert | pkg/obsidian2logseq/convert_markdown.go:59-64 | fails exactly when the relative path fails, including every file outside the vault directory |
| ConvertMarkdown.ConvertMarkdown | pkg/obsidian2logseq/convert_markdown.go:53-115 | the staged method computes Convert under the folded options |
| ConvertMarkdown.ApplyFixes | pkg/obsidian2logseq/convert_markdown.go:95-97 | the loop applies the table in order |
| ConvertMarkdown.PreparedIsJoin | pkg/obsidian2logseq/convert_markdown.go:66-97 | before embed rewriting, the page is one line per line of the expanded input, with no line break inside a line |
| ConvertMarkdown.SentinelKept | pkg/obsidian2logseq/convert_markdown.go:66 | the last line stays "#", behind spaces at most |
| ConvertMarkdown.SentinelSurvives | pkg/obsidian2logseq/convert_markdown.go:66-115 | the converted page ends with a line break and that last line: the sentinel is never removed |
| ConvertMarkdown.PlainDocumentUnchanged | pkg/obsidian2logseq/convert_markdown.go:53-115 | a page without tabs, `#`, embeds or numbered items comes back followed by the sentinel |
| ConvertMarkdown.HeadingDocument | pkg/obsidian2logseq/convert_markdown.go:53-115 | a one-heading page becomes a bullet at 2·(level-1) spaces with its marks and title |
| ConvertMarkdown.HeadingPrepared | pkg/obsidian2logseq/convert_markdown.go:66-97 | the same page after outlining and the fixes |
| ConvertVault.LayoutOfGraph | pkg/obsidian2logseq/convert_vault.go:46-47 | the assets and pages directories are the "assets" and "pages" children of the graph directory without trailing separators |
| ConvertVault.DestinationDir | pkg/obsidian2logseq/convert_vault.go:79 | the page's destination directory has no spaces, and is "." for a top-level page |
| ConvertVault.DestinationDirOfChild | pkg/obsidian2logseq/convert_vault.go:79 | a page `dir/n` goes to `dir` with every space turned into `_` |
| ConvertVault.DestinationFilename | pkg/obsidian2logseq/convert_vault.go:85 | the flat file name has no separator and keeps the ".md" suffix |
| ConvertVault.FlattenedName | pkg/obsidian2logseq/convert_vault.go:85 | the flat name is the relative path with every `/` replaced by `___` |
| ConvertVault.FlattenedNamesCollide | pkg/obsidian2logseq/convert_vault.go:85 | `d/n.md` and `d___n.md` get the same file name |
| ConvertVault.PageAction | pkg/obsidian2logseq/convert_vault.go:79-87 | definition of the page branch: create the destination directory, write the flat file name in it; DestinationDir, DestinationFilename and VisitPageContent state its parts |
| ConvertVault.AssetAction | pkg/obsidian2logseq/convert_vault.go:103-106 | definition of the asset branch: copy under the asset name into the graph's assets; Visit and LinkedAssetStored state it |
| ConvertVault.Visit | pkg/obsidian2logseq/convert_vault.go:55-119 | `.git` directories skipped; other directories passed; failure iff the relative path fails; a page iff ".md"; otherwise an asset copy |
| ConvertVault.VisitPageContent | pkg/obsidian2logseq/convert_vault.go:75 | a written page holds the conversion with links built from the pages path's name |
| ConvertVault.LinkNamesAgreeIff | pkg/obsidian2logseq/convert_vault.go:43 | link and asset vault names agree iff the flag is set or the vault is called "pages" |
| ConvertVault.LinkedAssetNameAgreesIff | pkg/obsidian2logseq/convert_vault.go:103-106 | the linked asset name equals the stored name in exactly those cases |
| ConvertVault.LinkNameMismatchExample | pkg/obsidian2logseq/convert_vault.go:75 | for "/home/me/MyVault" without the flag, links say "pages" and assets "MyVault" |
| ConvertVault.VisitFixed | pkg/obsidian2logseq/convert_vault.go:55-119 | the corrected callback: the same decisions, with links built from the vault's own name |
| ConvertVault.VisitFixedAgrees | pkg/obsidian2logseq/convert_vault.go:75 | where the names agree, the corrected callback is the original |
| ConvertVault.LinkedAssetStored | pkg/obsidian2logseq/convert_vault.go:103-106 | with the correction, an embedded asset is copied to the very name its link points at, its path being Join(pages path, Join(page's directory, target)) |
| Scenarios.TwoHeadingsConverted | pkg/obsidian2logseq/convert_markdown.go:53-115 | "# T1 / b1 / ## T2 / b2" becomes "- # T1 / b1 at 2 spaces / - ## T2 at 2 spaces / b2 at 4 spaces / #" |
| Scenarios.TwoHeadingsPrepared | pkg/obsidian2logseq/convert_markdown.go:66-97 | the same page after outlining and the fixes |
| Scenarios.TwoHeadingsOutlined | pkg/obsidian2logseq/convert_markdown.go:68-93 | each body line belongs to its heading, and the sentinel ends the second block |
| Scenarios.TwoHeadingsFixed | pkg/obsidian2logseq/convert_markdown.go:95-97 | the heading lines get bullets; the body and sentinel lines match neither rule |

## Left out

- The file system: walking the vault, reading, creating directories, writing and copying
  files (convert_vault.go:49-122). Each visit yields the action it would perform, and the
  file's content is a parameter. Walk errors passed to the callback are not modelled.
- The command-line entry point: `cmd/obsidian2logseq/main.go` is not part of this model.
- SHA-1 and hex encoding: modelled as an arbitrary function to 40 lowercase hex digits.
- `path.Clean` beyond separators at the ends: `Paths.Join` drops the first part's trailing
  separators and the second part's leading ones, and `Paths.Rel` drops both arguments'
  trailing separators, as Go does. Not modelled: "." and ".." elements, doubled
  separators inside a path, and a second part of `path.Join` that ends in a separator (Go
  drops it, the model keeps it). Embed targets come from the page's text, so targets such
  as "./x.png", "../x.png", "a//b.png" or "x.png/" can occur, and so can a vault argument
  such as "./MyVault"; for those the model's paths differ from Go's.
- ConvertVault.LinkedAssetStored: stated only for a pages path that does not end in two
  separators and an embed path that does not end in one; for the first Go refuses every
  file (RootWithDoubledSeparator), the second falls under the `path.Clean` line above.
- The in-place reuse of the input slice by `append(in, ...)` at convert_markdown.go:66:
  aliasing is not modelled, only the values.
- The regular-expression engine in general: each of the four patterns is modelled by what
  it matches.
- The text of error messages and their wrapping: errors are the datatype `Error`.
- The commented-out fixes (convert_markdown.go:29-47) and debug code (75, 88-90): they have
  no effect.
- Scenarios.TwoHeadingsConverted: covers one page shape (level-1 and level-2 headings,
  one plain body line each, no tabs or embeds, second heading unindented), not the whole
  conversion; the whole conversion is stated stage by stage by the other members.
- ConvertMarkdown.HeadingDocument: covers a one-heading page whose title has no tab, line
  break or `!`.
- ConvertMarkdown.PlainDocumentUnchanged: covers only pages that none of the stages touch.

## Findings

| source | as written | input that shows it | evidently intended | confidence | as-written member | corrected member |
|---|---|---|---|---|---|---|
| pkg/obsidian2logseq/convert_vault.go:75 | The walk passes the pages path to ConvertMarkdown, which derives the vault name in its links from that path (convert_markdown.go:64). Without the flag that name is "pages". Assets are stored under the vault's own name (convert_vault.go:43, 105). | vault "/home/me/MyVault" without the flag: links point at "obsidian_pages_…", files are stored as "obsidian_MyVault_…" | links name the asset under the name it is stored with | not executed | ConvertVault.LinkNameMismatchExample | ConvertVault.VisitFixed |
