/** The embed rewriter of pkg/obsidian2logseq/convert_markdown.go: `contentLinkExpr`,
    `!\[\[([^\]]+)\]\]`, with ReplaceAllFunc turning every embed `![[T]]` into a Markdown
    image link into the graph's asset directory.

    At a position, the pattern matches when "![[" is followed by a non-empty run of
    characters other than ']' (line breaks included) and then by "]]"; a shorter run would be
    followed by a character other than ']', so the greedy run is the only candidate. The scan
    tries positions left to right and resumes after each match. */
module Embeds {
  import opened Text
  import opened Wrappers
  import Paths
  import Assets

  const EmbedOpen: String := "![["
  const EmbedClose: String := "]]"

  /** What the links of one page depend on: the hash behind asset names, the vault name the
      converter was given, and the page's path relative to the pages directory. */
  datatype Page = Page(hash: Assets.Hasher, vaultName: String, relPath: String)

  /** The length of the run of characters other than ']' at the start of `s`. */
  function TargetRun(s: String): (k: nat)
    ensures k <= |s|
    ensures ']' !in s[..k]
    ensures k < |s| ==> s[k] == ']'
  {
    if s != [] && s[0] != ']' then
      var k := 1 + TargetRun(s[1..]);
      assert s[..k] == [s[0]] + s[1..][..k - 1];
      k
    else 0
  }

  /** The length of the embedded target when `t` starts with an embed. */
  function EmbedAt(t: String): (m: Option<nat>)
    ensures m.Some? ==> var n := m.value;
      && 1 <= n && n + 5 <= |t| && ']' !in t[3..3 + n]
      && t[..n + 5] == EmbedOpen + t[3..3 + n] + EmbedClose
  {
    if !HasPrefix(t, EmbedOpen) then None
    else
      var n := TargetRun(t[3..]);
      if n >= 1 && n + 5 <= |t| && t[3 + n] == ']' && t[4 + n] == ']' then
        assert t[3..][..n] == t[3..3 + n];
        assert t[..n + 5] == t[..3] + t[3..3 + n] + t[3 + n..n + 5];
        Some(n)
      else None
  }

  /** An embed of a non-empty target without ']' is recognised, whatever follows it. */
  lemma {:induction false} EmbedAtEmbed(target: String, rest: String)
    requires target != [] && ']' !in target
    ensures EmbedAt(EmbedOpen + target + EmbedClose + rest) == Some(|target|)
  {
    var t := EmbedOpen + target + EmbedClose + rest;
    assert t[..3] == EmbedOpen;
    assert t[3..] == target + (EmbedClose + rest);
    RunOf(target, EmbedClose + rest);
    assert t[3 + |target|] == ']' && t[4 + |target|] == ']';
  }

  lemma {:induction false} RunOf(target: String, rest: String)
    requires ']' !in target && rest != [] && rest[0] == ']'
    ensures TargetRun(target + rest) == |target|
    decreases |target|
  {
    if target == [] {
      assert target + rest == rest;
    } else {
      assert (target + rest)[0] == target[0];
      assert (target + rest)[1..] == target[1..] + rest;
      RunOf(target[1..], rest);
    }
  }

  /** The number of ".." in front of "assets": one for the pages directory plus one per
      piece of the page's directory when split at '/' (a top-level page's directory "." is
      one piece). */
  function UpCount(relPath: String): (k: nat)
    ensures k >= 2
  {
    1 + |Split(Paths.Dir(relPath), Paths.Separator)|
  }

  /** The asset directory as the link reaches it: `..` repeated, then "assets". */
  function AssetDir(relPath: String): String {
    Join(Paths.Parents(UpCount(relPath)) + ["assets"], [Paths.Separator])
  }

  /** The name the asset of `target` gets: its path is the target taken relative to the
      page's directory. */
  function AssetName(page: Page, target: String): String {
    Assets.AssetFilename(page.hash, page.vaultName, Paths.Join(Paths.Dir(page.relPath), target))
  }

  /** The Markdown image link that replaces `![[target]]`. */
  function Link(page: Page, target: String): String {
    "![" + target + "](" + Paths.Join(AssetDir(page.relPath), AssetName(page, target)) + ")"
  }

  /** `k` times "../". */
  function Climb(k: nat): (r: String)
    ensures |r| == 3 * k
  {
    if k == 0 then [] else "../" + Climb(k - 1)
  }

  /** The link climbs UpCount levels and descends into "assets" to the asset's name. */
  lemma {:induction false} LinkShape(page: Page, target: String)
    ensures Link(page, target)
         == "![" + target + "](" + Climb(UpCount(page.relPath)) + "assets/" + AssetName(page, target) + ")"
  {
    var name := AssetName(page, target);
    assert name[..|Assets.NamePrefix| + |page.vaultName| + 1][0] == 'o';
    LinkPath(page.relPath, name);
    SpliceAssoc("![" + target + "](", Climb(UpCount(page.relPath)), "assets/", name, ")");
  }

  /** A path spliced into a link, regrouped. */
  lemma {:induction false} SpliceAssoc(front: String, climb: String, dir: String, name: String, back: String)
    ensures front + (climb + dir + name) + back == front + climb + dir + name + back
  {
  }

  lemma {:induction false} LinkPath(relPath: String, name: String)
    requires name != [] && name != "." && name[0] != Paths.Separator
    ensures Paths.Join(AssetDir(relPath), name) == Climb(UpCount(relPath)) + "assets/" + name
  {
    var k := UpCount(relPath);
    JoinParents(k, "assets");
    var dir := AssetDir(relPath);
    assert dir == Climb(k) + "assets";
    assert |dir| >= 6;
    Paths.JoinChild(dir, name);
  }

  lemma {:induction false} JoinParents(k: nat, last: String)
    ensures Join(Paths.Parents(k) + [last], [Paths.Separator]) == Climb(k) + last
  {
    if k > 0 {
      JoinParents(k - 1, last);
      var ps := Paths.Parents(k) + [last];
      assert ps[1..] == Paths.Parents(k - 1) + [last];
      assert ps[0] == "..";
    } else {
      assert Paths.Parents(0) + [last] == [last];
    }
  }

  /** A top-level page, whose directory is ".", climbs two levels. */
  lemma {:induction false} TopLevelUpCount(relPath: String)
    requires Paths.Separator !in relPath
    ensures UpCount(relPath) == 2
  {
    assert '.' != Paths.Separator;
    SplitNoSep(".", Paths.Separator);
  }

  /** A page in a subdirectory climbs one level more than it has separators. */
  lemma {:induction false} NestedUpCount(relPath: String)
    requires relPath != [] && relPath[0] != Paths.Separator && Paths.Separator in relPath
    ensures UpCount(relPath) == 1 + Count(relPath, Paths.Separator)
  {
    Paths.DirElements(relPath);
  }

  /** contentLinkExpr.ReplaceAllFunc with a callback `repl` from the embedded target to
      its replacement: every embed replaced, everything else kept. */
  function ReplaceEmbeds(repl: String -> String, t: String): String
    decreases |t|
  {
    if t == [] then [] else EmbedStep(repl, t) + ReplaceEmbeds(repl, t[EmbedSkip(t)..])
  }

  /** What the scan writes at the front of `t`: the replacement of an embed, or the first
      character. */
  function EmbedStep(repl: String -> String, t: String): String
    requires t != []
  {
    match EmbedAt(t)
    case Some(n) => repl(t[3..3 + n])
    case None => [t[0]]
  }

  /** How far the scan moves on: past the embed, or one character. */
  function EmbedSkip(t: String): (k: nat)
    requires t != []
    ensures 1 <= k <= |t|
  {
    match EmbedAt(t)
    case Some(n) => n + 5
    case None => 1
  }

  /** The link callback of a page. */
  function LinkTo(page: Page): String -> String {
    target => Link(page, target)
  }

  /** The rewriter on a page: every embed becomes the page's link to it. */
  function RewriteLinks(page: Page, t: String): String {
    ReplaceEmbeds(LinkTo(page), t)
  }

  /** The rewriting scan, calling the link callback at every embed. */
  method RewriteEmbeds(page: Page, t: String) returns (r: String)
    ensures r == RewriteLinks(page, t)
  {
    r := [];
    var i := 0;
    assert t[i..] == t;
    while i < |t|
      invariant 0 <= i <= |t|
      invariant r + ReplaceEmbeds(LinkTo(page), t[i..]) == RewriteLinks(page, t)
      decreases |t| - i
    {
      var step, next := ScanEmbed(page, t, i);
      ScanEmbedStep(r, LinkTo(page), t, i, RewriteLinks(page, t));
      r := r + step;
      i := next;
    }
    ScanEmbedDone(r, LinkTo(page), t, RewriteLinks(page, t));
  }

  /** One position of the scan: the link for an embed starting there, or the character. */
  method ScanEmbed(page: Page, t: String, i: nat) returns (step: String, next: nat)
    requires i < |t|
    ensures step == EmbedStep(LinkTo(page), t[i..])
    ensures next == i + EmbedSkip(t[i..])
  {
    var rest := t[i..];
    match EmbedAt(rest) {
      case Some(n) =>
        step := EmbedLink(page, rest[3..3 + n]);
        next := i + n + 5;
      case None =>
        step := [t[i]];
        next := i + 1;
    }
  }

  lemma {:induction false} ScanEmbedStep(r: String, repl: String -> String, t: String, i: nat, all: String)
    requires i < |t|
    requires r + ReplaceEmbeds(repl, t[i..]) == all
    ensures (r + EmbedStep(repl, t[i..])) + ReplaceEmbeds(repl, t[i + EmbedSkip(t[i..])..]) == all
  {
    var rest := t[i..];
    var k := EmbedSkip(rest);
    assert rest[k..] == t[i + k..];
    Assoc(r, EmbedStep(repl, rest), ReplaceEmbeds(repl, rest[k..]));
  }

  lemma {:induction false} ScanEmbedDone(r: String, repl: String -> String, t: String, all: String)
    requires r + ReplaceEmbeds(repl, t[|t|..]) == all
    ensures r == all
  {
    assert t[|t|..] == [];
    assert r + [] == r;
  }

  /** The link callback: ".." once, once more per piece of the page's directory, then
      "assets" and the asset's name. */
  method EmbedLink(page: Page, target: String) returns (link: String)
    ensures link == Link(page, target)
  {
    var pathPaths: seq<String> := [".."];
    var depth := |Split(Paths.Dir(page.relPath), Paths.Separator)|;
    for i := 0 to depth
      invariant pathPaths == Paths.Parents(i + 1)
    {
      pathPaths := pathPaths + [".."];
    }
    pathPaths := pathPaths + ["assets"];
    var assetDir := Join(pathPaths, [Paths.Separator]);
    assert assetDir == AssetDir(page.relPath);
    var assetRelSrcPath := Paths.Join(Paths.Dir(page.relPath), target);
    var name := Assets.AssetFilename(page.hash, page.vaultName, assetRelSrcPath);
    var resultPath := Paths.Join(assetDir, name);
    link := "![" + target + "](" + resultPath + ")";
  }

  /** Text in which "![[" never occurs is left as it is. */
  lemma {:induction false} NoEmbedsUnchanged(repl: String -> String, t: String)
    requires !Contains(t, EmbedOpen)
    ensures ReplaceEmbeds(repl, t) == t
    decreases |t|
  {
    if t != [] {
      assert !OccursAt(t, EmbedOpen, 0);
      assert EmbedAt(t).None?;
      NotContainedTail(t);
      NoEmbedsUnchanged(repl, t[1..]);
      PlainStep(repl, t);
      assert [t[0]] + t[1..] == t;
    }
  }

  /** Text without "![[" in front of an embed is kept, the embed is replaced, and the scan
      goes on after it. */
  lemma {:induction false} EmbedRewritten(repl: String -> String, a: String, target: String, b: String)
    requires !Contains(a, EmbedOpen)
    requires target != [] && ']' !in target
    ensures ReplaceEmbeds(repl, a + EmbedOpen + target + EmbedClose + b)
         == a + repl(target) + ReplaceEmbeds(repl, b)
  {
    var e := EmbedOpen + target + EmbedClose + b;
    assert a + EmbedOpen + target + EmbedClose + b == a + e;
    PrefixKept(repl, a, e);
    EmbedStepAt(repl, target, b);
    Assoc(a, repl(target), ReplaceEmbeds(repl, b));
  }

  /** The scan replaces an embed at the front and resumes right after it. */
  lemma {:induction false} EmbedStepAt(repl: String -> String, target: String, b: String)
    requires target != [] && ']' !in target
    ensures ReplaceEmbeds(repl, EmbedOpen + target + EmbedClose + b) == repl(target) + ReplaceEmbeds(repl, b)
  {
    var e := EmbedOpen + target + EmbedClose + b;
    EmbedAtEmbed(target, b);
    assert e[3..3 + |target|] == target;
    assert e[|target| + 5..] == b;
    assert EmbedStep(repl, e) == repl(target);
    assert EmbedSkip(e) == |target| + 5;
  }

  /** Text without "![[" stays as it is in front of text that does not start with '['. */
  lemma {:induction false} PrefixKept(repl: String -> String, a: String, b: String)
    requires !Contains(a, EmbedOpen)
    requires b == [] || b[0] != '['
    ensures ReplaceEmbeds(repl, a + b) == a + ReplaceEmbeds(repl, b)
    decreases |a|
  {
    if a == [] {
      assert a + b == b;
    } else {
      var t := a + b;
      assert t[0] == a[0] && t[1..] == a[1..] + b;
      NoEmbedInFront(a, b);
      NotContainedTail(a);
      PrefixKept(repl, a[1..], b);
      PlainStep(repl, t);
      Assoc([a[0]], a[1..], ReplaceEmbeds(repl, b));
      assert [a[0]] + a[1..] == a;
    }
  }

  /** Where no embed starts, the scan keeps one character and moves on. */
  lemma {:induction false} PlainStep(repl: String -> String, t: String)
    requires t != [] && EmbedAt(t).None?
    ensures ReplaceEmbeds(repl, t) == [t[0]] + ReplaceEmbeds(repl, t[1..])
  {
    assert EmbedStep(repl, t) == [t[0]] && EmbedSkip(t) == 1;
  }

  /** No embed starts at the front of `a + b`. */
  lemma {:induction false} NoEmbedInFront(a: String, b: String)
    requires a != [] && !Contains(a, EmbedOpen)
    requires b == [] || b[0] != '['
    ensures EmbedAt(a + b).None?
  {
    var t := a + b;
    if |a| >= 3 {
      assert t[..3] == a[..3];
      assert !OccursAt(a, EmbedOpen, 0);
    } else if |t| >= 3 {
      assert t[..3][|a|] == t[|a|] == b[0];
    }
  }

  /** Dropping the first character keeps "![[" out. */
  lemma {:induction false} NotContainedTail(a: String)
    requires a != [] && !Contains(a, EmbedOpen)
    ensures !Contains(a[1..], EmbedOpen)
  {
    forall i | 0 <= i <= |a[1..]| ensures !OccursAt(a[1..], EmbedOpen, i) {
      if i + 3 <= |a[1..]| {
        assert a[1..][i..i + 3] == a[i + 1..i + 4];
        assert !OccursAt(a, EmbedOpen, i + 1);
      }
    }
  }

  /** `pat` does not occur in `a + b` when it does not occur in `a` and `b` lacks its last
      character. */
  lemma {:induction false} NotContainedAppend(a: String, b: String, pat: String)
    requires pat != [] && !Contains(a, pat) && pat[|pat| - 1] !in b
    ensures !Contains(a + b, pat)
  {
    var n := |pat|;
    forall i | 0 <= i <= |a + b| ensures !OccursAt(a + b, pat, i) {
      if i + n <= |a| {
        assert (a + b)[i..i + n] == a[i..i + n];
        assert !OccursAt(a, pat, i);
      } else if i + n <= |a + b| {
        assert (a + b)[i + n - 1] == b[i + n - 1 - |a|];
        assert (a + b)[i..i + n][n - 1] == (a + b)[i + n - 1];
      }
    }
  }

  /** A tail without '!', '[' or ']' opens and closes no embed: the scan of `f + s` is the
      scan of `f` followed by `s` as it is. */
  lemma {:induction false} PlainTailKept(repl: String -> String, f: String, s: String)
    requires '!' !in s && '[' !in s && ']' !in s
    ensures ReplaceEmbeds(repl, f + s) == ReplaceEmbeds(repl, f) + s
    decreases |f|
  {
    if f == [] {
      assert f + s == s;
      NoBangNoEmbed(s);
      NoEmbedsUnchanged(repl, s);
    } else {
      var t := f + s;
      EmbedAtFront(f, s);
      var k := EmbedSkip(f);
      assert EmbedSkip(t) == k;
      assert EmbedStep(repl, t) == EmbedStep(repl, f) by {
        match EmbedAt(f)
        case Some(n) => assert t[3..3 + n] == f[3..3 + n];
        case None => assert t[0] == f[0];
      }
      assert t[k..] == f[k..] + s;
      PlainTailKept(repl, f[k..], s);
      Assoc(EmbedStep(repl, f), ReplaceEmbeds(repl, f[k..]), s);
    }
  }

  /** An embed at the front of `f + s` lies within `f`, for a tail as above. */
  lemma {:induction false} EmbedAtFront(f: String, s: String)
    requires f != [] && '!' !in s && '[' !in s && ']' !in s
    ensures EmbedAt(f + s) == EmbedAt(f)
    ensures EmbedAt(f).Some? ==> EmbedAt(f).value + 5 <= |f|
  {
    var t := f + s;
    if |f| < 3 {
      if |t| >= 3 {
        assert t[..3][|f|] == s[0];
        assert s[0] in s;
      }
    } else {
      assert t[..3] == f[..3];
      if HasPrefix(f, EmbedOpen) {
        var x := f[3..];
        assert t[3..] == x + s;
        TargetRunAppend(x, s);
        var m := TargetRun(x);
        if m < |x| && m + 5 > |f| && |t| >= m + 5 {
          assert t[4 + m] == s[0];
          assert s[0] in s;
        }
      }
    }
  }

  /** A tail without ']' extends the run only when the run reached the end. */
  lemma {:induction false} TargetRunAppend(x: String, s: String)
    requires ']' !in s
    ensures TargetRun(x) < |x| ==> TargetRun(x + s) == TargetRun(x)
    ensures TargetRun(x) == |x| ==> TargetRun(x + s) == |x + s|
    decreases |x|
  {
    if x == [] {
      assert x + s == s;
      RunWithoutClose(s);
    } else {
      assert (x + s)[1..] == x[1..] + s;
      if x[0] != ']' {
        TargetRunAppend(x[1..], s);
      }
    }
  }

  /** Text without ']' is one run. */
  lemma {:induction false} RunWithoutClose(s: String)
    requires ']' !in s
    ensures TargetRun(s) == |s|
    decreases |s|
  {
    if s != [] {
      assert s[0] in s;
      assert forall c | c in s[1..] :: c in s;
      RunWithoutClose(s[1..]);
    }
  }

  /** Text without '!' holds no embed. */
  lemma {:induction false} NoBangNoEmbed(t: String)
    requires '!' !in t
    ensures !Contains(t, EmbedOpen)
  {
    forall i | 0 <= i <= |t| ensures !OccursAt(t, EmbedOpen, i) {
      if i + 3 <= |t| {
        assert t[i..i + 3][0] == t[i];
      }
    }
  }

  /** The page "notes/a.md" embeds "Images/diagram.png": two levels up, into "assets", to
      the name built from the vault name, the hash of "notes" and "diagram.png". */
  lemma {:induction false} NestedPageExample(hash: Assets.Hasher)
    ensures Link(Page(hash, "MyVault", "notes/a.md"), "Images/diagram.png")
         == "![" + "Images/diagram.png" + "](" + "../../" + "assets/"
            + Assets.Compose("MyVault", hash("notes")[..8], "diagram.png") + ")"
  {
    var page := Page(hash, "MyVault", "notes/a.md");
    var target: String := "Images/diagram.png";
    ExampleUpCount();
    ExampleName(hash);
    LinkShape(page, target);
    ClimbTwo();
  }

  lemma {:induction false} ClimbTwo()
    ensures Climb(2) == "../../"
  {
    assert Climb(1) == "../" + [];
  }

  lemma {:induction false} ExampleUpCount()
    ensures Paths.Dir("notes/a.md") == "notes"
    ensures UpCount("notes/a.md") == 2
  {
    var d: String := "notes";
    assert "notes/a.md" == d + [Paths.Separator] + "a.md";
    Paths.DirOfChild(d, "a.md");
    assert Paths.Separator !in d;
    SplitNoSep(d, Paths.Separator);
  }

  lemma {:induction false} ExampleName(hash: Assets.Hasher)
    requires Paths.Dir("notes/a.md") == "notes"
    ensures AssetName(Page(hash, "MyVault", "notes/a.md"), "Images/diagram.png")
         == Assets.Compose("MyVault", hash("notes")[..8], "diagram.png")
  {
    var d, x: String := "notes", "diagram.png";
    ExampleTarget();
    ExampleChars();
    ImagesChildName(hash, "MyVault", d, x);
  }

  lemma {:induction false} ExampleTarget()
    ensures "Images/diagram.png" == Assets.ImagesDir + "diagram.png"
  {
  }

  lemma {:induction false} ExampleChars()
    ensures Paths.Join("notes", "diagram.png") == "notes/diagram.png"
    ensures !Contains("notes/diagram.png", Assets.ImagesDir)
    ensures Paths.Separator !in "diagram.png" && ReplaceChar("diagram.png", ' ', "_") == "diagram.png"
  {
    var d, n := "notes", "diagram.png";
    assert ' ' !in n;
    assert Paths.DropTrailingSeparators(d) == d;
    Paths.JoinChild(d, n);
    Assets.NoImagesWithoutI("notes/diagram.png");
  }

  /** The asset `Images/x` embedded from a page in directory `d` is named after the hash of
      `d` (without trailing separators) and `x` with its spaces turned into '_', when
      "Images/" does not occur in `d/x`. */
  lemma {:induction false} ImagesChildName(hash: Assets.Hasher, v: String, d: String, x: String)
    requires d != [] && x != [] && x != "." && Paths.Separator !in x
    requires !Contains(Paths.Join(d, x), Assets.ImagesDir)
    ensures Assets.AssetFilename(hash, v, Paths.Join(d, Assets.ImagesDir + x))
         == Assets.Compose(v, hash(Paths.DropTrailingSeparators(d))[..Assets.FingerprintWidth], ReplaceChar(x, ' ', "_"))
  {
    Assets.ImagesChildStripped(d, x);
    Assets.PlainPathName(hash, v, d, x);
  }
}
