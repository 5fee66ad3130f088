/** The string functions of Go's `strings` and `bytes` packages that the converter uses,
    for strings modelled as sequences of characters. */
module Text {

  type String = seq<char>

  /** strings.HasPrefix */
  predicate HasPrefix(s: String, p: String) {
    |p| <= |s| && s[..|p|] == p
  }

  /** strings.HasSuffix */
  predicate HasSuffix(s: String, p: String) {
    |p| <= |s| && s[|s| - |p|..] == p
  }

  /** The number of occurrences of `c` in `s` (strings.Count for a one-character separator). */
  function Count(s: String, c: char): nat {
    if s == [] then 0 else (if s[0] == c then 1 else 0) + Count(s[1..], c)
  }

  /** `n` spaces. */
  function Spaces(n: nat): (r: String)
    ensures |r| == n
    ensures forall i :: 0 <= i < n ==> r[i] == ' '
  {
    seq(n, _ => ' ')
  }

  /** The number of leading characters of `s` equal to `c`. */
  function Leading(s: String, c: char): (k: nat)
    ensures k <= |s|
    ensures forall i :: 0 <= i < k ==> s[i] == c
    ensures k < |s| ==> s[k] != c
  {
    if s != [] && s[0] == c then 1 + Leading(s[1..], c) else 0
  }

  /** strings.Split(s, string(sep)): the pieces between the separators, at least one. */
  function Split(s: String, sep: char): (parts: seq<String>)
    ensures |parts| == Count(s, sep) + 1
    ensures forall i :: 0 <= i < |parts| ==> sep !in parts[i]
  {
    if s == [] then [[]]
    else
      var rest := Split(s[1..], sep);
      if s[0] == sep then [[]] + rest
      else [[s[0]] + rest[0]] + rest[1..]
  }

  /** strings.Join(parts, sep) */
  function Join(parts: seq<String>, sep: String): String {
    if |parts| == 0 then []
    else if |parts| == 1 then parts[0]
    else parts[0] + sep + Join(parts[1..], sep)
  }

  /** strings.ReplaceAll / bytes.ReplaceAll with a one-character pattern `c`. */
  function ReplaceChar(s: String, c: char, r: String): (t: String)
    ensures c !in s ==> t == s
  {
    if s == [] then []
    else (if s[0] == c then r else [s[0]]) + ReplaceChar(s[1..], c, r)
  }

  /** strings.ReplaceAll(s, pat, ""): one left-to-right pass deleting the non-overlapping
      occurrences of `pat`; text that only becomes `pat` after a deletion is kept. */
  function RemoveAll(s: String, pat: String): (t: String)
    requires pat != []
    ensures |t| <= |s|
  {
    if s == [] then []
    else if HasPrefix(s, pat) then RemoveAll(s[|pat|..], pat)
    else [s[0]] + RemoveAll(s[1..], pat)
  }

  /** `pat` occurs in `s` at index `i`. */
  predicate OccursAt(s: String, pat: String, i: int) {
    0 <= i && i + |pat| <= |s| && s[i..i + |pat|] == pat
  }

  /** `pat` occurs in `s`. */
  predicate Contains(s: String, pat: String) {
    exists i | 0 <= i <= |s| :: OccursAt(s, pat, i)
  }

  /** Concatenation regrouped, away from any function that could be unfolded. */
  lemma {:induction false} Assoc<T>(a: seq<T>, b: seq<T>, c: seq<T>)
    ensures a + (b + c) == a + b + c
  {
  }

  lemma {:induction false} SplitAppend(a: String, c: char, b: String)
    ensures Split(a + [c] + b, c) == Split(a, c) + Split(b, c)
    decreases |a|
  {
    if a == [] {
      assert a + [c] + b == [c] + b;
      SplitCons(c, b, c);
    } else {
      var x, t := a[0], a[1..] + [c] + b;
      assert a + [c] + b == [x] + t;
      assert a == [x] + a[1..];
      SplitCons(x, t, c);
      SplitCons(x, a[1..], c);
      SplitAppend(a[1..], c, b);
      MergeFirst(x == c, [x], Split(a[1..], c), Split(b, c));
    }
  }

  /** Split unfolded once at the front. */
  lemma {:induction false} SplitCons(x: char, t: String, c: char)
    ensures Split([x] + t, c)
         == if x == c then [[]] + Split(t, c) else [[x] + Split(t, c)[0]] + Split(t, c)[1..]
  {
    assert ([x] + t)[1..] == t;
  }

  /** Putting a first piece in front, or extending the first piece, commutes with appending
      more pieces. */
  lemma {:induction false} MergeFirst(newPiece: bool, y: String, front: seq<String>, back: seq<String>)
    requires front != []
    ensures (if newPiece then [[]] + (front + back) else [y + (front + back)[0]] + (front + back)[1..])
         == (if newPiece then [[]] + front else [y + front[0]] + front[1..]) + back
  {
    if !newPiece {
      assert (front + back)[1..] == front[1..] + back;
    }
  }

  lemma {:induction false} SplitNoSep(s: String, c: char)
    requires c !in s
    ensures Split(s, c) == [s]
    decreases |s|
  {
    if s != [] {
      SplitNoSep(s[1..], c);
      assert [s[0]] + s[1..] == s;
    }
  }

  /** Joining the pieces of a split with the separator gives back the string. */
  lemma {:induction false} JoinSplit(s: String, c: char)
    ensures Join(Split(s, c), [c]) == s
    decreases |s|
  {
    if s != [] {
      var x, t := s[0], s[1..];
      assert s == [x] + t;
      SplitCons(x, t, c);
      JoinSplit(t, c);
      if x == c {
        JoinEmptyFirst(Split(t, c), [c]);
      } else {
        JoinExtendFirst([x], Split(t, c), [c]);
      }
    }
  }

  /** Joining the pieces of a split with another separator replaces the separator. */
  lemma {:induction false} JoinSplitReplaces(s: String, c: char, r: String)
    ensures Join(Split(s, c), r) == ReplaceChar(s, c, r)
    decreases |s|
  {
    if s != [] {
      var rest := Split(s[1..], c);
      JoinSplitReplaces(s[1..], c, r);
      if s[0] == c {
        JoinEmptyFirst(rest, r);
      } else {
        JoinExtendFirst([s[0]], rest, r);
      }
    }
  }

  lemma {:induction false} JoinEmptyFirst(parts: seq<String>, sep: String)
    requires parts != []
    ensures Join([[]] + parts, sep) == sep + Join(parts, sep)
  {
    assert ([[]] + parts)[1..] == parts;
  }

  lemma {:induction false} JoinExtendFirst(x: String, parts: seq<String>, sep: String)
    requires parts != []
    ensures Join([x + parts[0]] + parts[1..], sep) == x + Join(parts, sep)
  {
    var q := [x + parts[0]] + parts[1..];
    if |parts| > 1 {
      assert q[1..] == parts[1..];
      assert Join(q, sep) == x + parts[0] + sep + Join(parts[1..], sep);
    }
  }

  /** The last piece of a join follows the join of the others and one separator. */
  lemma {:induction false} JoinLast(parts: seq<String>, sep: String)
    requires |parts| >= 2
    ensures Join(parts, sep) == Join(parts[..|parts| - 1], sep) + (sep + parts[|parts| - 1])
    decreases |parts|
  {
    var n := |parts|;
    var front := parts[..n - 1];
    if n == 2 {
      assert front == [parts[0]];
      assert parts[1..] == [parts[1]];
    } else {
      var rest := parts[1..];
      JoinLast(rest, sep);
      assert rest[..|rest| - 1] == front[1..];
      assert front[0] == parts[0] && rest[|rest| - 1] == parts[n - 1];
      Assoc(parts[0] + sep, Join(front[1..], sep), sep + parts[n - 1]);
    }
  }

  /** Splitting a join of separator-free pieces gives back the pieces. */
  lemma {:induction false} SplitJoin(parts: seq<String>, c: char)
    requires |parts| >= 1
    requires forall i :: 0 <= i < |parts| ==> c !in parts[i]
    ensures Split(Join(parts, [c]), c) == parts
    decreases |parts|
  {
    if |parts| == 1 {
      SplitNoSep(parts[0], c);
    } else {
      SplitJoin(parts[1..], c);
      SplitNoSep(parts[0], c);
      SplitAppend(parts[0], c, Join(parts[1..], [c]));
      assert [parts[0]] + parts[1..] == parts;
    }
  }

  /** A join contains the separator's characters and the pieces' characters only. */
  lemma {:induction false} JoinChars(parts: seq<String>, sep: String, ch: char)
    requires ch in Join(parts, sep)
    ensures ch in sep || exists i :: 0 <= i < |parts| && ch in parts[i]
    decreases |parts|
  {
    if |parts| > 1 {
      if ch !in parts[0] && ch !in sep {
        JoinChars(parts[1..], sep, ch);
        var i :| 0 <= i < |parts[1..]| && ch in parts[1..][i];
        assert ch in parts[i + 1];
      }
    }
  }

  /** A character of one of the pieces is a character of their join. */
  lemma {:induction false} PieceInJoin(parts: seq<String>, sep: String, i: nat, ch: char)
    requires i < |parts| && ch in parts[i]
    ensures ch in Join(parts, sep)
    decreases |parts|
  {
    if i > 0 {
      PieceInJoin(parts[1..], sep, i - 1, ch);
      assert parts[1..][i - 1] == parts[i];
    }
  }

  /** A character of a piece of a split is a character of the string. */
  lemma {:induction false} SplitPieceChars(s: String, sep: char, i: nat, ch: char)
    requires i < |Split(s, sep)| && ch in Split(s, sep)[i]
    ensures ch in s
  {
    PieceInJoin(Split(s, sep), [sep], i, ch);
    JoinSplit(s, sep);
  }

  lemma {:induction false} ReplaceCharAppend(a: String, b: String, c: char, r: String)
    ensures ReplaceChar(a + b, c, r) == ReplaceChar(a, c, r) + ReplaceChar(b, c, r)
    decreases |a|
  {
    if a == [] {
      assert a + b == b;
    } else {
      var head := if a[0] == c then r else [a[0]];
      assert (a + b)[0] == a[0];
      assert (a + b)[1..] == a[1..] + b;
      ReplaceCharAppend(a[1..], b, c, r);
      assert ReplaceChar(a + b, c, r) == head + (ReplaceChar(a[1..], c, r) + ReplaceChar(b, c, r));
    }
  }

  /** Every character of a replacement comes from `r` or is a kept character of `s`. */
  lemma {:induction false} ReplaceCharChars(s: String, c: char, r: String, ch: char)
    requires ch in ReplaceChar(s, c, r)
    ensures ch in r || (ch in s && ch != c)
    decreases |s|
  {
    if ch !in (if s[0] == c then r else [s[0]]) {
      ReplaceCharChars(s[1..], c, r, ch);
    }
  }

  /** If the last character of `pat` occurs in it only at its end, no occurrence of `pat`
      straddles the end of a string that ends with that character: deletion splits there. */
  lemma {:induction false} RemoveAllAppend(a: String, b: String, pat: String)
    requires pat != [] && a != []
    requires a[|a| - 1] == pat[|pat| - 1] && pat[|pat| - 1] !in pat[..|pat| - 1]
    ensures RemoveAll(a + b, pat) == RemoveAll(a, pat) + RemoveAll(b, pat)
    decreases |a|
  {
    if HasPrefix(a + b, pat) {
      NoStraddle(a, b, pat);
      RemoveAllAppendAt(a, b, pat);
    } else {
      RemoveAllAppendSkip(a, b, pat);
    }
  }

  lemma {:induction false} RemoveAllAppendAt(a: String, b: String, pat: String)
    requires pat != [] && a != [] && |pat| <= |a|
    requires a[|a| - 1] == pat[|pat| - 1] && pat[|pat| - 1] !in pat[..|pat| - 1]
    requires HasPrefix(a + b, pat)
    ensures RemoveAll(a + b, pat) == RemoveAll(a, pat) + RemoveAll(b, pat)
    decreases |a|, 0
  {
    var n := |pat|;
    var ab := a + b;
    assert a[..n] == ab[..n];
    assert RemoveAll(ab, pat) == RemoveAll(ab[n..], pat);
    assert RemoveAll(a, pat) == RemoveAll(a[n..], pat);
    assert ab[n..] == a[n..] + b;
    if n < |a| {
      RemoveAllAppend(a[n..], b, pat);
    } else {
      assert a[n..] == [];
    }
  }

  lemma {:induction false} RemoveAllAppendSkip(a: String, b: String, pat: String)
    requires pat != [] && a != []
    requires a[|a| - 1] == pat[|pat| - 1] && pat[|pat| - 1] !in pat[..|pat| - 1]
    requires !HasPrefix(a + b, pat)
    ensures RemoveAll(a + b, pat) == RemoveAll(a, pat) + RemoveAll(b, pat)
    decreases |a|, 0
  {
    var n, ab, t := |pat|, a + b, a[1..];
    assert ab[0] == a[0] && ab[1..] == t + b;
    if n <= |a| {
      assert a[..n] == ab[..n];
    }
    assert RemoveAll(ab, pat) == [a[0]] + RemoveAll(t + b, pat);
    assert RemoveAll(a, pat) == [a[0]] + RemoveAll(t, pat);
    if |a| > 1 {
      assert t[|t| - 1] == a[|a| - 1];
      RemoveAllAppend(t, b, pat);
    } else {
      assert t + b == b;
    }
    Assoc([a[0]], RemoveAll(t, pat), RemoveAll(b, pat));
  }

  /** An occurrence of `pat` at the start of `a + b` lies inside `a`. */
  lemma {:induction false} NoStraddle(a: String, b: String, pat: String)
    requires pat != [] && a != []
    requires a[|a| - 1] == pat[|pat| - 1] && pat[|pat| - 1] !in pat[..|pat| - 1]
    requires HasPrefix(a + b, pat)
    ensures |pat| <= |a|
  {
    var n := |pat|;
    forall k | 0 <= k < n - 1 ensures (a + b)[k] != pat[n - 1] {
      assert (a + b)[k] == pat[k] == pat[..n - 1][k];
    }
    assert (a + b)[|a| - 1] == a[|a| - 1];
  }

  /** A string in which `pat` never occurs is left as it is. */
  lemma {:induction false} RemoveAllAbsent(s: String, pat: String)
    requires pat != [] && !Contains(s, pat)
    ensures RemoveAll(s, pat) == s
    decreases |s|
  {
    if s != [] {
      assert !HasPrefix(s, pat) by {
        if HasPrefix(s, pat) { assert OccursAt(s, pat, 0); }
      }
      assert !Contains(s[1..], pat) by {
        if Contains(s[1..], pat) {
          var i :| 0 <= i <= |s[1..]| && OccursAt(s[1..], pat, i);
          assert s[1..][i..i + |pat|] == s[i + 1..i + 1 + |pat|];
          assert OccursAt(s, pat, i + 1);
        }
      }
      RemoveAllAbsent(s[1..], pat);
      assert [s[0]] + s[1..] == s;
    }
  }
}
