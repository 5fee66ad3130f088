/** The functions of Go's `path` and `path/filepath` packages that the converter uses, on
    '/'-separated paths without "." or ".." elements and without doubled separators.
    Trailing separators are dropped where path.Join and filepath.Rel drop them; the rest of
    path.Clean is not modelled. */
module Paths {
  import opened Text
  import opened Wrappers

  /** filepath.Separator on the systems the converter targets. */
  const Separator: char := '/'

  /** The index of the last `c` in `s`, if any. */
  function LastIndexOf(s: String, c: char): (r: Option<nat>)
    ensures r.None? <==> c !in s
    ensures r.Some? ==> r.value < |s| && s[r.value] == c && c !in s[r.value + 1..]
  {
    if s == [] then None
    else if s[|s| - 1] == c then Some(|s| - 1)
    else
      var r := LastIndexOf(s[..|s| - 1], c);
      assert s == s[..|s| - 1] + [s[|s| - 1]];
      r
  }

  /** `s` without its trailing separators. */
  function TrimTrailingSeparators(s: String): (t: String)
    ensures |t| <= |s| && t == s[..|t|]
    ensures t == [] || t[|t| - 1] != Separator
    ensures forall i :: |t| <= i < |s| ==> s[i] == Separator
  {
    if s != [] && s[|s| - 1] == Separator then TrimTrailingSeparators(s[..|s| - 1]) else s
  }

  /** A path without its trailing separators, as path.Clean leaves it; a path made of
      separators only is the root. */
  function DropTrailingSeparators(p: String): (t: String)
    ensures (t == []) == (p == [])
    ensures |t| <= |p| && t == p[..|t|]
    ensures forall i :: |t| <= i < |p| ==> p[i] == Separator
    ensures t == [] || t == [Separator] || t[|t| - 1] != Separator
    ensures p == [] || p[|p| - 1] != Separator ==> t == p
  {
    var q := TrimTrailingSeparators(p);
    if q == [] && p != [] then [Separator] else q
  }

  /** path.Dir: everything before the last separator; "." when there is none. */
  function Dir(p: String): (d: String)
    ensures Separator !in p ==> d == "."
  {
    match LastIndexOf(p, Separator)
    case None => "."
    case Some(i) => if i == 0 then "/" else p[..i]
  }

  /** path.Base: the last element, ignoring trailing separators; "." for the empty path
      and "/" for a path made of separators only. */
  function Base(p: String): (b: String)
    ensures b != []
  {
    if p == [] then "."
    else
      var q := TrimTrailingSeparators(p);
      if q == [] then "/"
      else match LastIndexOf(q, Separator)
        case None => q
        case Some(i) => q[i + 1..]
  }

  /** The base of a path that does not end in a separator is what follows its last
      separator. */
  lemma {:induction false} BaseAfterLast(p: String, i: nat)
    requires p != [] && p[|p| - 1] != Separator
    requires LastIndexOf(p, Separator) == Some(i)
    ensures Base(p) == p[i + 1..]
  {
    assert TrimTrailingSeparators(p) == p;
  }

  /** A path without separators is its own base. */
  lemma {:induction false} BaseWithoutSeparator(p: String)
    requires p != [] && Separator !in p
    ensures Base(p) == p
  {
    assert p[|p| - 1] in p;
    assert TrimTrailingSeparators(p) == p;
  }

  /** `p` without its leading separators. */
  function TrimLeadingSeparators(p: String): (t: String)
    ensures |t| <= |p|
    ensures t == [] || t[0] != Separator
    ensures p != [] && p[0] != Separator ==> t == p
  {
    if p != [] && p[0] == Separator then TrimLeadingSeparators(p[1..]) else p
  }

  /** path.Join of two paths: an empty or "." part disappears; otherwise the second part,
      without its leading separators, goes below the first without its trailing ones, and
      the root "/" gets no second separator. The result is empty only when both parts are,
      and it ends with the second part. */
  function Join(a: String, b: String): (j: String)
    ensures (j == []) == (a == [] && b == [])
    ensures a != [] && b != "." && TrimLeadingSeparators(b) != [] ==> HasSuffix(j, TrimLeadingSeparators(b))
  {
    if a == [] then b
    else
      var d := DropTrailingSeparators(a);
      if b == [] || b == "." then d
      else
        var r := TrimLeadingSeparators(b);
        if r == [] then d
        else if d == "." then r
        else if d == [Separator] then d + r
        else d + [Separator] + r
  }

  /** Joining a relative name below a directory: the name follows the directory and one
      separator, which the root already ends with. */
  lemma {:induction false} JoinChild(a: String, name: String)
    requires a != [] && DropTrailingSeparators(a) != "." && name != [] && name != "." && name[0] != Separator
    ensures var d := DropTrailingSeparators(a);
      && (d == [Separator] ==> Join(a, name) == d + name)
      && (d != [Separator] ==> Join(a, name) == d + [Separator] + name)
  {
  }

  /** The directory of a joined child is the directory it was joined to, and its base is
      the child's name. */
  lemma {:induction false} JoinOfChild(a: String, name: String)
    requires a != [] && name != [] && name != "." && Separator !in name
    ensures Dir(Join(a, name)) == DropTrailingSeparators(a)
    ensures Base(Join(a, name)) == name
  {
    assert name[0] in name;
    var d := DropTrailingSeparators(a);
    if d == "." {
      assert Join(a, name) == name;
      BaseOfName(name);
    } else if d == [Separator] {
      JoinChild(a, name);
      assert Join(a, name) == [] + [Separator] + name;
      BaseOfChild([], name);
      LastIndexOfIs(Join(a, name), Separator, 0);
    } else {
      JoinChild(a, name);
      BaseOfChild(d, name);
      DirOfChild(d, name);
    }
  }

  /** filepath.IsAbs */
  predicate IsAbs(p: String) {
    p != [] && p[0] == Separator
  }

  /** The elements of a clean path; an absolute path starts with the empty element, and
      the root is that element alone. */
  function Elements(p: String): seq<String> {
    if p == [] then []
    else if p == [Separator] then [[]]
    else Split(p, Separator)
  }

  /** The length of the longest common prefix of two element lists. */
  function CommonPrefix(xs: seq<String>, ys: seq<String>): (k: nat)
    ensures k <= |xs| && k <= |ys|
    ensures xs[..k] == ys[..k]
    ensures k < |xs| && k < |ys| ==> xs[k] != ys[k]
  {
    if xs == [] || ys == [] || xs[0] != ys[0] then 0
    else
      var k := CommonPrefix(xs[1..], ys[1..]);
      assert xs[..k + 1] == [xs[0]] + xs[1..][..k];
      assert ys[..k + 1] == [ys[0]] + ys[1..][..k];
      1 + k
  }

  /** `n` copies of the parent element "..". */
  function Parents(n: nat): (r: seq<String>)
    ensures |r| == n && forall i :: 0 <= i < n ==> r[i] == ".."
  {
    seq(n, _ => "..")
  }

  /** filepath.Rel: both paths lose their trailing separators; then walk past the common
      leading elements, climb out of the rest of `base` with "..", and descend into the rest
      of `targ`. Equal paths give "."; a pair of which one is absolute and the other not is
      refused, and so is a `base` whose first differing element is "..". */
  function Rel(base: String, targ: String): (r: Result<String>)
    ensures DropTrailingSeparators(base) == DropTrailingSeparators(targ) ==> r == Ok(".")
    ensures (DropTrailingSeparators(base) != DropTrailingSeparators(targ) && DropTrailingSeparators(base) != "."
             && IsAbs(base) != IsAbs(targ)) ==> r == Err(CannotMakeRelative)
  {
    var bp, tp := DropTrailingSeparators(base), DropTrailingSeparators(targ);
    if tp == bp then Ok(".")
    else
      var b := if bp == "." then [] else bp;
      if IsAbs(b) != IsAbs(tp) then Err(CannotMakeRelative)
      else
        var bs, ts := Elements(b), Elements(tp);
        var k := CommonPrefix(bs, ts);
        if k < |bs| && bs[k] == ".." then Err(CannotMakeRelative)
        else Ok(Text.Join(Parents(|bs| - k) + ts[k..], [Separator]))
  }

  /** Rel of a relative name joined below `base` is that name without its trailing
      separators; `base` may end in separators too. */
  lemma {:induction false} RelOfChild(base: String, r: String)
    requires base != [] && DropTrailingSeparators(base) != "." && r != [] && r != "." && r[0] != Separator
    ensures Rel(base, Join(base, r)) == Ok(DropTrailingSeparators(r))
    ensures r[|r| - 1] != Separator ==> Rel(base, Join(base, r)) == Ok(r)
  {
    JoinChild(base, r);
    var d, r' := DropTrailingSeparators(base), DropTrailingSeparators(r);
    assert r'[0] == r[0];
    if d == [Separator] {
      RelBelowRoot(base, Join(base, r), r, r');
    } else {
      RelBelowDir(base, Join(base, r), d, r, r');
    }
  }

  lemma {:induction false} RelBelowRoot(base: String, targ: String, r: String, r': String)
    requires DropTrailingSeparators(base) == [Separator] && targ == [Separator] + r
    requires r != [] && r[0] != Separator && r' == DropTrailingSeparators(r) && r' != [] && r'[0] == r[0]
    ensures Rel(base, targ) == Ok(r')
  {
    var tp := DropTrailingSeparators(targ);
    var rs := Split(r', Separator);
    assert tp == [] + [Separator] + r' by { DropAfter([Separator], r); }
    SplitAppend([], Separator, r');
    assert Elements(tp) == [[]] + rs;
    RelOfExtension([[]], rs, base, targ, r');
  }

  lemma {:induction false} RelBelowDir(base: String, targ: String, d: String, r: String, r': String)
    requires d == DropTrailingSeparators(base) && d != [] && d != [Separator] && d != "."
    requires targ == d + [Separator] + r
    requires r != [] && r[0] != Separator && r' == DropTrailingSeparators(r) && r' != [] && r'[0] == r[0]
    ensures Rel(base, targ) == Ok(r')
  {
    var tp := DropTrailingSeparators(targ);
    var rs := Split(r', Separator);
    assert tp == d + [Separator] + r' by { DropAfter(d + [Separator], r); }
    assert tp[0] == d[0];
    var bs := Split(d, Separator);
    SplitAppend(d, Separator, r');
    assert Elements(tp) == bs + rs;
    RelOfExtension(bs, rs, base, targ, r');
  }

  /** Dropping trailing separators from `f + s`, for an `s` that does not start with one,
      drops them from `s` alone. */
  lemma {:induction false} DropAfter(f: String, s: String)
    requires s != [] && s[0] != Separator
    ensures DropTrailingSeparators(f + s) == f + DropTrailingSeparators(s)
  {
    var t, u := DropTrailingSeparators(f + s), DropTrailingSeparators(s);
    assert u != [] && u[0] == s[0];
    assert u != [Separator];
    assert (f + s)[|f + s| - 1] == s[|s| - 1];
    if s[|s| - 1] == Separator {
      assert TrimTrailingSeparators(s) == u;
      TrimAfter(f, s);
    }
  }

  /** The same, for the trimming that Base and DropTrailingSeparators build on. */
  lemma {:induction false} TrimAfter(f: String, s: String)
    requires s != [] && s[0] != Separator
    ensures TrimTrailingSeparators(f + s) == f + TrimTrailingSeparators(s)
    decreases |s|
  {
    if s[|s| - 1] == Separator {
      assert |s| >= 2;
      var s1 := s[..|s| - 1];
      assert (f + s)[..|f + s| - 1] == f + s1;
      TrimAfter(f, s1);
    }
  }

  /** Rel when the target's elements extend the base's, once both lose their trailing
      separators. */
  lemma {:induction false} RelOfExtension(bs: seq<String>, rs: seq<String>, base: String, targ: String, r: String)
    requires DropTrailingSeparators(base) != "." && DropTrailingSeparators(targ) != DropTrailingSeparators(base)
    requires IsAbs(DropTrailingSeparators(base)) == IsAbs(DropTrailingSeparators(targ))
    requires Elements(DropTrailingSeparators(base)) == bs && Elements(DropTrailingSeparators(targ)) == bs + rs
    requires rs == Split(r, Separator)
    ensures Rel(base, targ) == Ok(r)
  {
    CommonPrefixOfExtension(bs, rs);
    assert (bs + rs)[|bs|..] == rs;
    assert Parents(0) + rs == rs;
    JoinSplit(r, Separator);
  }

  lemma {:induction false} CommonPrefixOfExtension(xs: seq<String>, ys: seq<String>)
    ensures CommonPrefix(xs, xs + ys) == |xs|
    decreases |xs|
  {
    if xs != [] {
      CommonPrefixOfExtension(xs[1..], ys);
      assert (xs + ys)[1..] == xs[1..] + ys;
    }
  }

  /** The directory of a relative path with separators has one element per separator. */
  lemma {:induction false} DirElements(p: String)
    requires p != [] && p[0] != Separator && Separator in p
    ensures |Split(Dir(p), Separator)| == Count(p, Separator)
  {
    var i := LastIndexOf(p, Separator).value;
    assert i != 0;
    assert p == p[..i] + ([Separator] + p[i + 1..]);
    CountAppend(p[..i], [Separator] + p[i + 1..], Separator);
    assert ([Separator] + p[i + 1..])[1..] == p[i + 1..];
    CountAbsent(p[i + 1..], Separator);
    assert Dir(p) == p[..i];
  }

  lemma {:induction false} CountAppend(a: String, b: String, c: char)
    ensures Count(a + b, c) == Count(a, c) + Count(b, c)
    decreases |a|
  {
    if a == [] {
      assert a + b == b;
    } else {
      CountAppend(a[1..], b, c);
      assert (a + b)[1..] == a[1..] + b;
    }
  }

  lemma {:induction false} CountAbsent(s: String, c: char)
    requires c !in s
    ensures Count(s, c) == 0
    decreases |s|
  {
    if s != [] {
      CountAbsent(s[1..], c);
    }
  }

  /** A `c` at `j` with no `c` after it is the last one. */
  lemma {:induction false} LastIndexOfIs(s: String, c: char, j: nat)
    requires j < |s| && s[j] == c && c !in s[j + 1..]
    ensures LastIndexOf(s, c) == Some(j)
    decreases |s|
  {
    if j < |s| - 1 {
      assert s[|s| - 1] == s[j + 1..][|s| - 2 - j];
      var t := s[..|s| - 1];
      assert t[j + 1..] == s[j + 1..|s| - 1];
      assert s[j + 1..] == t[j + 1..] + [s[|s| - 1]];
      LastIndexOfIs(t, c, j);
    }
  }

  /** The base of a path ending in `/name` is `name`. */
  lemma {:induction false} BaseOfChild(d: String, name: String)
    requires name != [] && Separator !in name
    ensures Base(d + [Separator] + name) == name
  {
    var p := d + [Separator] + name;
    assert p[|p| - 1] == name[|name| - 1];
    assert TrimTrailingSeparators(p) == p;
    assert p[|d| + 1..] == name;
    LastIndexOfIs(p, Separator, |d|);
  }

  /** The base of a separator-free, non-empty path is the path itself. */
  lemma {:induction false} BaseOfName(name: String)
    requires name != [] && Separator !in name
    ensures Base(name) == name
  {
    assert name[|name| - 1] in name;
  }

  /** The directory of `d/name` is `d`, for a non-empty `d`. */
  lemma {:induction false} DirOfChild(d: String, name: String)
    requires d != [] && Separator !in name
    ensures Dir(d + [Separator] + name) == d
  {
    var p := d + [Separator] + name;
    assert p[|d| + 1..] == name;
    LastIndexOfIs(p, Separator, |d|);
    assert p[..|d|] == d;
  }

  /** The base never contains a separator, except for the root "/" itself. */
  lemma {:induction false} BaseHasNoSeparator(p: String)
    ensures Separator in Base(p) ==> Base(p) == "/"
  {
    if p != [] {
      var q := TrimTrailingSeparators(p);
      if q != [] {
        match LastIndexOf(q, Separator)
        case None =>
        case Some(i) =>
      }
    }
  }

  /** At the root, Join and Rel give what path.Join and filepath.Rel give: one separator
      after the root, and names below the root relative to it. */
  lemma {:induction false} RootCases()
    ensures Join("/", "pages") == "/pages"
    ensures Rel("/", "/a.md") == Ok("a.md")
  {
    var root, p, a := "/", "pages", "a.md";
    assert DropTrailingSeparators(root) == root;
    JoinChild(root, p);
    JoinChild(root, a);
    assert Join(root, a) == "/a.md";
    RelOfChild(root, a);
    assert a[|a| - 1] != Separator;
  }

  /** A second part that starts with a separator loses it, as in path.Join. */
  lemma {:induction false} AbsoluteSecondPart()
    ensures Join("notes", "/x.png") == "notes/x.png"
    ensures Dir(Join("notes", "/x.png")) == "notes"
  {
    var a, b, x := "notes", "/x.png", "x.png";
    assert TrimLeadingSeparators(b) == x by {
      assert b[1..] == x;
    }
    assert Separator !in x;
    assert DropTrailingSeparators(a) == a;
    assert Join(a, b) == a + [Separator] + x;
    DirOfChild(a, x);
  }

  /** Below ".", a second part that starts with a separator is that part without it. */
  lemma {:induction false} AbsoluteBelowDot()
    ensures Join(".", "/x.png") == "x.png"
  {
    var a, b, x := ".", "/x.png", "x.png";
    assert TrimLeadingSeparators(b) == x by {
      assert b[1..] == x;
    }
    assert DropTrailingSeparators(a) == a;
  }

  /** "MyVault/" loses its trailing separator. */
  lemma {:induction false} MyVaultTrimmed()
    ensures DropTrailingSeparators("MyVault/") == "MyVault"
  {
    var v := "MyVault/";
    assert v[..7] == "MyVault";
    assert TrimTrailingSeparators(v) == TrimTrailingSeparators(v[..7]);
  }

  /** A first part that ends in separators loses them, as in path.Join: "MyVault/" is
      treated as "MyVault", and "//" as the root. */
  lemma {:induction false} TrailingSeparatorJoin()
    ensures Join("MyVault/", "pages") == "MyVault/pages"
    ensures Join("//", "pages") == "/pages"
  {
    MyVaultTrimmed();
    JoinChild("MyVault/", "pages");
    assert DropTrailingSeparators("//") == "/" by {
      assert TrimTrailingSeparators("//") == TrimTrailingSeparators("/");
      assert TrimTrailingSeparators("/") == TrimTrailingSeparators([]);
    }
    JoinChild("//", "pages");
  }

  /** filepath.Rel ignores a base's trailing separator. */
  lemma {:induction false} TrailingSeparatorRel()
    ensures Rel("MyVault/", "MyVault/x.md") == Ok("x.md")
  {
    var v, x := "MyVault/", "x.md";
    MyVaultTrimmed();
    JoinChild(v, x);
    assert Join(v, x) == "MyVault/x.md";
    RelOfChild(v, x);
    assert x[|x| - 1] != Separator;
  }
}
