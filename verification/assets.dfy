/** The asset naming scheme of pkg/obsidian2logseq/assets.go: the flat file name under which
    a vault file is stored in the graph's `assets` directory, and to which rewritten links
    point. */
module Assets {
  import opened Text
  import Paths
  import Wrappers

  predicate IsLowerHex(c: char) {
    '0' <= c <= '9' || 'a' <= c <= 'f'
  }

  /** hex.EncodeToString of a SHA-1 sum: 40 lowercase hexadecimal digits. */
  type HexDigest = d: String | |d| == 40 && forall i | 0 <= i < |d| :: IsLowerHex(d[i])
    witness "0000000000000000000000000000000000000000"

  /** SHA-1 followed by hex encoding; the model treats it as an arbitrary function. */
  type Hasher = String -> HexDigest

  /** The conventional image folder element, "Images" followed by the separator. */
  const ImagesDir: String := "Images/"

  const NamePrefix: String := "obsidian_"

  /** The width of the directory fingerprint. */
  const FingerprintWidth: nat := 8

  /** The path with every "Images/" deleted in one left-to-right pass. */
  function StripImages(relPath: String): String {
    RemoveAll(relPath, ImagesDir)
  }

  /** The first eight hex digits of the hash of the stripped path's directory. */
  function Fingerprint(hash: Hasher, relPath: String): (f: String)
    ensures |f| == FingerprintWidth
    ensures forall i :: 0 <= i < |f| ==> IsLowerHex(f[i])
  {
    hash(Paths.Dir(StripImages(relPath)))[..FingerprintWidth]
  }

  /** The stripped path's last element with every space turned into '_'. */
  function SanitizedBase(relPath: String): (b: String)
    ensures b != []
    ensures ' ' !in b
    ensures Paths.Separator in b ==> b == "/"
  {
    var base := Paths.Base(StripImages(relPath));
    var b := ReplaceChar(base, ' ', "_");
    assert ' ' !in b by {
      if ' ' in b { ReplaceCharChars(base, ' ', "_", ' '); }
    }
    assert Paths.Separator in b ==> Paths.Separator in base by {
      if Paths.Separator in b { ReplaceCharChars(base, ' ', "_", Paths.Separator); }
    }
    Paths.BaseHasNoSeparator(StripImages(relPath));
    assert b != [] by {
      assert base[0] == ' ' ==> b[..1] == "_";
    }
    b
  }

  /** assetFilename: "obsidian_<vault>_<8 hex digits>_<sanitised base>". */
  function AssetFilename(hash: Hasher, vaultName: String, relPath: String): (name: String)
    ensures var p := |NamePrefix| + |vaultName| + 1;
      && |name| > p + FingerprintWidth + 1
      && name[..p] == NamePrefix + vaultName + "_"
      && (forall i :: p <= i < p + FingerprintWidth ==> IsLowerHex(name[i]))
      && name[p + FingerprintWidth] == '_'
      && ' ' !in name[p + FingerprintWidth + 1..]
  {
    var f, b := Fingerprint(hash, relPath), SanitizedBase(relPath);
    ComposeShape(vaultName, f, b);
    Compose(vaultName, f, b)
  }

  /** The Sprintf format "obsidian_%s_%s_%s". */
  function Compose(vaultName: String, f: String, b: String): String {
    NamePrefix + vaultName + "_" + f + "_" + b
  }

  lemma {:induction false} ComposeShape(vaultName: String, f: String, b: String)
    requires |f| == FingerprintWidth && forall i :: 0 <= i < |f| ==> IsLowerHex(f[i])
    requires b != [] && ' ' !in b
    ensures var name, p := Compose(vaultName, f, b), |NamePrefix| + |vaultName| + 1;
      && |name| > p + FingerprintWidth + 1
      && name[..p] == NamePrefix + vaultName + "_"
      && (forall i :: p <= i < p + FingerprintWidth ==> IsLowerHex(name[i]))
      && name[p + FingerprintWidth] == '_'
      && ' ' !in name[p + FingerprintWidth + 1..]
  {
    var name, p := Compose(vaultName, f, b), |NamePrefix| + |vaultName| + 1;
    assert name[p + FingerprintWidth + 1..] == b;
    assert forall i :: p <= i < p + FingerprintWidth ==> name[i] == f[i - p];
  }

  /** For one vault, two names are equal exactly when their fingerprints and sanitised
      bases are: the fingerprint has a fixed width, so the parts cannot shift. */
  lemma {:induction false} NamesEqualIff(hash: Hasher, vaultName: String, p1: String, p2: String)
    ensures AssetFilename(hash, vaultName, p1) == AssetFilename(hash, vaultName, p2)
      <==> Fingerprint(hash, p1) == Fingerprint(hash, p2) && SanitizedBase(p1) == SanitizedBase(p2)
  {
    var f1, f2 := Fingerprint(hash, p1), Fingerprint(hash, p2);
    var b1, b2 := SanitizedBase(p1), SanitizedBase(p2);
    ComposeEqualIff(vaultName, f1, b1, f2, b2);
  }

  lemma {:induction false} ComposeEqualIff(v: String, f1: String, b1: String, f2: String, b2: String)
    requires |f1| == |f2|
    ensures Compose(v, f1, b1) == Compose(v, f2, b2) <==> f1 == f2 && b1 == b2
  {
    var n1, n2 := Compose(v, f1, b1), Compose(v, f2, b2);
    var k := |NamePrefix| + |v| + 1;
    if n1 == n2 {
      assert f1 == n1[k..k + |f1|] == f2;
      assert b1 == n1[k + |f1| + 1..] == b2;
    }
  }

  /** For one stored path, names from two vault names are equal exactly when the vault
      names are. */
  lemma {:induction false} NamesEqualIffVaults(hash: Hasher, v1: String, v2: String, relPath: String)
    ensures AssetFilename(hash, v1, relPath) == AssetFilename(hash, v2, relPath) <==> v1 == v2
  {
    var f, b := Fingerprint(hash, relPath), SanitizedBase(relPath);
    if Compose(v1, f, b) == Compose(v2, f, b) {
      ComposeVaultCancels(v1, v2, f, b);
    }
  }

  /** The vault name sits at a fixed offset and the rest of the name is the same, so equal
      names have equal vault names. */
  lemma {:induction false} ComposeVaultCancels(v1: String, v2: String, f: String, b: String)
    requires Compose(v1, f, b) == Compose(v2, f, b)
    ensures v1 == v2
  {
    var k := |NamePrefix|;
    assert |v1| == |v2|;
    assert Compose(v1, f, b)[k..k + |v1|] == v1;
    assert Compose(v2, f, b)[k..k + |v2|] == v2;
  }

  /** The fingerprint depends on the stripped path's directory only. */
  lemma {:induction false} FingerprintOfSameDir(hash: Hasher, p1: String, p2: String)
    requires Paths.Dir(StripImages(p1)) == Paths.Dir(StripImages(p2))
    ensures Fingerprint(hash, p1) == Fingerprint(hash, p2)
  {
  }

  /** An "Images/" element right after a directory is dropped: `d/Images/x` is stored under
      the same name as `d/x`. */
  lemma {:induction false} ImagesDirIgnored(hash: Hasher, vaultName: String, d: String, x: String)
    ensures AssetFilename(hash, vaultName, d + "/" + ImagesDir + x)
         == AssetFilename(hash, vaultName, d + "/" + x)
  {
    var a := d + "/";
    assert ImagesDir[|ImagesDir| - 1] !in ImagesDir[..|ImagesDir| - 1];
    assert d + "/" + ImagesDir + x == a + (ImagesDir + x);
    RemoveAllAppend(a, ImagesDir + x, ImagesDir);
    LeadingImagesDir(x);
    RemoveAllAppend(a, x, ImagesDir);
  }

  /** A longer element ending in "Images" loses that part too: `d/MyImages/x.png` and
      `d/Myx.png` are stored under the same name. */
  lemma {:induction false} LongerImagesElementIgnored(hash: Hasher, vaultName: String)
    ensures AssetFilename(hash, vaultName, "d/MyImages/x.png")
         == AssetFilename(hash, vaultName, "d/Myx.png")
  {
    StripMyImages();
  }

  lemma {:induction false} StripMyImages()
    ensures StripImages("d/MyImages/x.png") == StripImages("d/Myx.png")
  {
    var a, x := "d/My", "x.png";
    assert "d/MyImages/x.png" == a + (ImagesDir + x);
    assert "d/Myx.png" == a + x;
    SkipChars(a, ImagesDir + x);
    SkipChars(a, x);
    LeadingImagesDir(x);
  }

  lemma {:induction false} LeadingImagesDir(x: String)
    ensures RemoveAll(ImagesDir + x, ImagesDir) == RemoveAll(x, ImagesDir)
  {
    assert (ImagesDir + x)[..|ImagesDir|] == ImagesDir;
    assert (ImagesDir + x)[|ImagesDir|..] == x;
  }

  /** Characters of a prefix that begin no occurrence of "Images/" pass through. */
  lemma {:induction false} SkipChars(a: String, b: String)
    requires 'I' !in a
    ensures RemoveAll(a + b, ImagesDir) == a + RemoveAll(b, ImagesDir)
    decreases |a|
  {
    if a != [] {
      assert a[0] in a;
      assert |a + b| >= |ImagesDir| ==> (a + b)[..|ImagesDir|][0] == a[0];
      assert (a + b)[1..] == a[1..] + b;
      SkipChars(a[1..], b);
    } else {
      assert a + b == b;
    }
  }

  /** A path `n` joined below `d`, in which "Images/" does not occur, is stored under the
      name built from the hash of `d` (without trailing separators) and `n` with its spaces
      turned into '_'. */
  lemma {:induction false} PlainPathName(hash: Hasher, vaultName: String, d: String, n: String)
    requires d != [] && n != [] && n != "." && Paths.Separator !in n
    requires !Contains(Paths.Join(d, n), ImagesDir)
    ensures AssetFilename(hash, vaultName, Paths.Join(d, n))
         == Compose(vaultName, hash(Paths.DropTrailingSeparators(d))[..FingerprintWidth], ReplaceChar(n, ' ', "_"))
  {
    RemoveAllAbsent(Paths.Join(d, n), ImagesDir);
    Paths.JoinOfChild(d, n);
  }

  /** An "Images/" in front of a name joined below `d` is dropped: `d/Images/x` is stripped
      to what `d/x` is stripped to, for `d` the root or "." too. */
  lemma {:induction false} ImagesChildStripped(d: String, x: String)
    requires d != [] && x != [] && x != "." && Paths.Separator !in x
    ensures StripImages(Paths.Join(d, ImagesDir + x)) == StripImages(Paths.Join(d, x))
  {
    assert x[0] in x;
    var ix := ImagesDir + x;
    assert ix[0] == 'I' && ix != ".";
    var dd := Paths.DropTrailingSeparators(d);
    if dd == "." {
      assert Paths.Join(d, ix) == ix;
      assert Paths.Join(d, x) == x;
      LeadingImagesDir(x);
    } else {
      Paths.JoinChild(d, ix);
      Paths.JoinChild(d, x);
      var a := if dd == [Paths.Separator] then dd else dd + [Paths.Separator];
      assert Paths.Join(d, ix) == a + ix;
      assert Paths.Join(d, x) == a + x;
      assert a[|a| - 1] == Paths.Separator;
      assert ImagesDir[|ImagesDir| - 1] !in ImagesDir[..|ImagesDir| - 1];
      RemoveAllAppend(a, ix, ImagesDir);
      LeadingImagesDir(x);
      RemoveAllAppend(a, x, ImagesDir);
    }
  }

  /** Text without the letter 'I' holds no "Images/". */
  lemma {:induction false} NoImagesWithoutI(s: String)
    requires 'I' !in s
    ensures !Contains(s, ImagesDir)
  {
    forall i | 0 <= i <= |s| ensures !OccursAt(s, ImagesDir, i) {
      if i + |ImagesDir| <= |s| {
        assert s[i..i + |ImagesDir|][0] == s[i];
      }
    }
  }

  /** Names in one directory that differ only by spaces versus underscores collide. */
  lemma {:induction false} SpacesAndUnderscoresCollide(hash: Hasher, vaultName: String, d: String, n1: String, n2: String)
    requires n1 != [] && n2 != []
    requires Paths.Separator !in n1 && Paths.Separator !in n2
    requires ReplaceChar(n1, ' ', "_") == ReplaceChar(n2, ' ', "_")
    ensures AssetFilename(hash, vaultName, d + "/" + n1) == AssetFilename(hash, vaultName, d + "/" + n2)
  {
    var a := d + "/";
    assert ImagesDir[|ImagesDir| - 1] !in ImagesDir[..|ImagesDir| - 1];
    RemoveAllAppend(a, n1, ImagesDir);
    RemoveAllAppend(a, n2, ImagesDir);
    NoImagesInName(n1);
    NoImagesInName(n2);
    var r := RemoveAll(a, ImagesDir);
    assert StripImages(a + n1) == r + n1;
    assert StripImages(a + n2) == r + n2;
    SameLastElement(r, n1, n2);
  }

  lemma {:induction false} NoImagesInName(n: String)
    requires Paths.Separator !in n
    ensures RemoveAll(n, ImagesDir) == n
  {
    forall i | 0 <= i <= |n| ensures !OccursAt(n, ImagesDir, i) {
      if i + |ImagesDir| <= |n| {
        assert n[i..i + |ImagesDir|][6] == n[i + 6];
      }
    }
    RemoveAllAbsent(n, ImagesDir);
  }

  /** Appending two separator-free names to one prefix gives the same directory, and last
      elements that agree after sanitising. */
  lemma {:induction false} SameLastElement(r: String, n1: String, n2: String)
    requires n1 != [] && n2 != []
    requires Paths.Separator !in n1 && Paths.Separator !in n2
    requires ReplaceChar(n1, ' ', "_") == ReplaceChar(n2, ' ', "_")
    ensures Paths.Dir(r + n1) == Paths.Dir(r + n2)
    ensures ReplaceChar(Paths.Base(r + n1), ' ', "_") == ReplaceChar(Paths.Base(r + n2), ' ', "_")
  {
    DirOfAppend(r, n1);
    DirOfAppend(r, n2);
    BaseOfAppend(r, n1);
    BaseOfAppend(r, n2);
    ReplaceCharAppend(LastPiece(r), n1, ' ', "_");
    ReplaceCharAppend(LastPiece(r), n2, ' ', "_");
  }

  /** What follows the last separator of `r` (all of `r` when it has none). */
  function LastPiece(r: String): String {
    match Paths.LastIndexOf(r, Paths.Separator)
    case None => r
    case Some(i) => r[i + 1..]
  }

  /** The directory of `r` followed by a name, which does not depend on the name. */
  function DirBeforeName(r: String): String {
    match Paths.LastIndexOf(r, Paths.Separator)
    case None => "."
    case Some(i) => if i == 0 then "/" else r[..i]
  }

  lemma {:induction false} DirOfAppend(r: String, n: String)
    requires n != [] && Paths.Separator !in n
    ensures Paths.Dir(r + n) == DirBeforeName(r)
  {
    LastIndexOfAppend(r, n);
    match Paths.LastIndexOf(r, Paths.Separator)
    case None =>
    case Some(i) =>
      assert (r + n)[..i] == r[..i];
  }

  lemma {:induction false} BaseOfAppend(r: String, n: String)
    requires n != [] && Paths.Separator !in n
    ensures Paths.Base(r + n) == LastPiece(r) + n
  {
    LastIndexOfAppend(r, n);
    match Paths.LastIndexOf(r, Paths.Separator) {
      case None =>
        BaseWithoutSeparators(r, n);
      case Some(i) =>
        BaseAfter(r, n, i);
    }
  }

  /** The base of `r + n` when neither has a separator. */
  lemma {:induction false} BaseWithoutSeparators(r: String, n: String)
    requires n != [] && Paths.LastIndexOf(r, Paths.Separator).None?
    requires Paths.LastIndexOf(r + n, Paths.Separator).None?
    ensures Paths.Base(r + n) == LastPiece(r) + n
  {
    Paths.BaseWithoutSeparator(r + n);
  }

  /** The base of `r + n` when the last separator of both is at `i`. */
  lemma {:induction false} BaseAfter(r: String, n: String, i: nat)
    requires n != [] && Paths.Separator !in n
    requires Paths.LastIndexOf(r, Paths.Separator) == Wrappers.Some(i)
    requires Paths.LastIndexOf(r + n, Paths.Separator) == Wrappers.Some(i)
    ensures Paths.Base(r + n) == LastPiece(r) + n
  {
    LastPieceAt(r, i);
    BaseAt(r, n, i);
    SliceAppend(r, n, i + 1);
  }

  lemma {:induction false} LastPieceAt(r: String, i: nat)
    requires Paths.LastIndexOf(r, Paths.Separator) == Wrappers.Some(i)
    ensures i < |r| && LastPiece(r) == r[i + 1..]
  {
  }

  lemma {:induction false} BaseAt(r: String, n: String, i: nat)
    requires n != [] && Paths.Separator !in n
    requires Paths.LastIndexOf(r + n, Paths.Separator) == Wrappers.Some(i)
    ensures i + 1 <= |r + n| && Paths.Base(r + n) == (r + n)[i + 1..]
  {
    EndsLikeName(r, n);
    Paths.BaseAfterLast(r + n, i);
  }

  /** A path ending in a separator-free name does not end in a separator. */
  lemma {:induction false} EndsLikeName(r: String, n: String)
    requires n != [] && Paths.Separator !in n
    ensures r + n != [] && (r + n)[|r + n| - 1] != Paths.Separator
  {
    assert (r + n)[|r + n| - 1] == n[|n| - 1] && n[|n| - 1] in n;
  }

  /** A suffix of `r` followed by `n` is the same suffix of `r + n`. */
  lemma {:induction false} SliceAppend(r: String, n: String, k: nat)
    requires k <= |r|
    ensures (r + n)[k..] == r[k..] + n
  {
  }

  /** A separator-free name appended does not move the last separator. */
  lemma {:induction false} LastIndexOfAppend(r: String, n: String)
    requires Paths.Separator !in n
    ensures Paths.LastIndexOf(r + n, Paths.Separator) == Paths.LastIndexOf(r, Paths.Separator)
  {
    var p := r + n;
    match Paths.LastIndexOf(r, Paths.Separator)
    case None =>
      assert Paths.Separator !in p;
    case Some(i) =>
      assert p[i + 1..] == r[i + 1..] + n;
      Paths.LastIndexOfIs(p, Paths.Separator, i);
  }
}
