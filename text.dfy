/** The few Python string operations the converter relies on, written out
    over `seq<char>`: substring search (`t in s`), `strip`, `split` with and
    without a separator, `replace(old, '')`, slicing `s[:n]`, ASCII
    `upper`/`lower` and `int(s)`. */
module Text {
  import opened Results

  /** Python's `str.isspace()` for a single character. */
  predicate IsSpace(c: char) {
    || c == ' ' || ('\t' <= c <= '\r') || ('\U{1C}' <= c <= '\U{1F}')
    || c == '\U{85}' || c == '\U{A0}' || c == '\U{1680}'
    || ('\U{2000}' <= c <= '\U{200A}') || c == '\U{2028}' || c == '\U{2029}'
    || c == '\U{202F}' || c == '\U{205F}' || c == '\U{3000}'
  }

  /** Reference meaning of a substring occurrence: t appears in s at k. */
  ghost predicate OccursAt(s: string, t: string, k: nat) {
    k + |t| <= |s| && s[k..k + |t|] == t
  }

  /** The first index at or after i where t occurs in s. */
  function FindFrom(s: string, t: string, i: nat): (r: Option<nat>)
    ensures r.Some? ==> i <= r.value && r.value + |t| <= |s|
    decreases |s| - i
  {
    if i + |t| > |s| then None
    else if s[i..i + |t|] == t then Some(i)
    else FindFrom(s, t, i + 1)
  }

  /** Python's `s.find(t)`, with None for -1. */
  function Find(s: string, t: string): Option<nat> {
    FindFrom(s, t, 0)
  }

  /** Python's `t in s`. */
  predicate Contains(s: string, t: string) {
    Find(s, t).Some?
  }

  lemma {:induction false} FindFromSpec(s: string, t: string, i: nat)
    ensures FindFrom(s, t, i).Some? ==>
      var k := FindFrom(s, t, i).value;
      i <= k && OccursAt(s, t, k) && forall j :: i <= j < k ==> !OccursAt(s, t, j)
    ensures FindFrom(s, t, i).None? ==> forall j :: i <= j ==> !OccursAt(s, t, j)
    decreases |s| - i
  {
    if i + |t| > |s| {
    } else if s[i..i + |t|] == t {
    } else {
      FindFromSpec(s, t, i + 1);
    }
  }

  /** Find returns the leftmost occurrence, and None exactly when there is none. */
  lemma FindSpec(s: string, t: string)
    ensures Find(s, t).Some? ==>
      OccursAt(s, t, Find(s, t).value) && forall j :: 0 <= j < Find(s, t).value ==> !OccursAt(s, t, j)
    ensures Find(s, t).None? ==> forall j: nat :: !OccursAt(s, t, j)
  {
    FindFromSpec(s, t, 0);
  }

  /** `t in s` holds exactly when t occurs somewhere in s. */
  lemma ContainsIff(s: string, t: string)
    ensures Contains(s, t) <==> exists k: nat :: OccursAt(s, t, k)
  {
    FindSpec(s, t);
  }

  lemma ContainsWitness(s: string, t: string, k: nat)
    requires OccursAt(s, t, k)
    ensures Contains(s, t)
  {
    FindSpec(s, t);
  }

  /** A string placed anywhere inside another is found there. */
  lemma ContainsInside(a: string, t: string, b: string)
    ensures Contains(a + t + b, t)
  {
    assert (a + t + b)[|a|..|a| + |t|] == t;
    ContainsWitness(a + t + b, t, |a|);
  }

  /** A slice of a slice is a slice. */
  lemma SliceOfSlice(s: string, a: nat, b: nat, i: nat, j: nat)
    requires a <= b <= |s| && i <= j <= b - a
    ensures s[a..b][i..j] == s[a + i..a + j]
  {
    var x, y := s[a..b][i..j], s[a + i..a + j];
    assert |x| == |y|;
    forall k | 0 <= k < |x|
      ensures x[k] == y[k]
    {
      assert x[k] == s[a..b][i + k] == s[a + i + k];
    }
  }

  /** Substring containment is transitive. */
  lemma ContainsTrans(s: string, u: string, t: string)
    requires Contains(s, u) && Contains(u, t)
    ensures Contains(s, t)
  {
    FindSpec(s, u);
    FindSpec(u, t);
    var i := Find(s, u).value;
    var j := Find(u, t).value;
    SliceOfSlice(s, i, i + |u|, j, j + |t|);
    ContainsWitness(s, t, i + j);
  }

  /** Whoever contains t + u contains t. */
  lemma ContainsPrefixOf(s: string, t: string, u: string)
    requires Contains(s, t + u)
    ensures Contains(s, t)
  {
    ContainsInside("", t, u);
    assert "" + t + u == t + u;
    ContainsTrans(s, t + u, t);
  }

  /** Whoever contains t + u contains u. */
  lemma ContainsSuffixOf(s: string, t: string, u: string)
    requires Contains(s, t + u)
    ensures Contains(s, u)
  {
    ContainsInside(t, u, "");
    assert t + u + "" == t + u;
    ContainsTrans(s, t + u, u);
  }

  // ---------------------------------------------------------------- strip

  /** Number of leading whitespace characters. */
  function StripStart(s: string): (a: nat)
    ensures a <= |s|
    ensures forall k :: 0 <= k < a ==> IsSpace(s[k])
    ensures a < |s| ==> !IsSpace(s[a])
  {
    if s != [] && IsSpace(s[0]) then 1 + StripStart(s[1..]) else 0
  }

  /** Index just after the last non-whitespace character. */
  function StripEnd(s: string): (b: nat)
    ensures b <= |s|
    ensures forall k :: b <= k < |s| ==> IsSpace(s[k])
    ensures b > 0 ==> !IsSpace(s[b - 1])
  {
    if s != [] && IsSpace(s[|s| - 1]) then StripEnd(s[..|s| - 1]) else |s|
  }

  /** Python's `s.strip()`. */
  function Strip(s: string): string {
    var a := StripStart(s);
    var b := StripEnd(s);
    if a <= b then s[a..b] else ""
  }

  /** The stripped string is a piece of the input with no whitespace at
      either end, and everything cut off is whitespace. */
  lemma StripShape(s: string)
    ensures Strip(s) == "" || (!IsSpace(Strip(s)[0]) && !IsSpace(Strip(s)[|Strip(s)| - 1]))
    ensures Strip(s) == "" <==> forall k :: 0 <= k < |s| ==> IsSpace(s[k])
    ensures Strip(s) != "" ==> s[StripStart(s)..StripEnd(s)] == Strip(s)
  {
    var a, b := StripStart(s), StripEnd(s);
    if a > b {
      assert forall k :: 0 <= k < |s| ==> IsSpace(s[k]) by {
        forall k | 0 <= k < |s| ensures IsSpace(s[k]) {
          if k >= b {} else {}
        }
      }
    } else if a == b {
    } else {
      assert !IsSpace(s[a]);
    }
  }

  /** Stripping twice is stripping once. */
  lemma StripIdempotent(s: string)
    ensures Strip(Strip(s)) == Strip(s)
  {
    StripShape(s);
    var t := Strip(s);
    if t != [] {
      assert StripStart(t) == 0;
      assert StripEnd(t) == |t|;
      assert t[0..|t|] == t;
    }
  }

  /** A string that neither starts nor ends with whitespace survives strip. */
  lemma StripTrimmed(s: string)
    requires s == "" || (!IsSpace(s[0]) && !IsSpace(s[|s| - 1]))
    ensures Strip(s) == s
  {
    if s != [] {
      assert StripStart(s) == 0;
      assert StripEnd(s) == |s|;
      assert s[0..|s|] == s;
    }
  }

  /** A substring occurrence that begins and ends with non-whitespace
      characters is still there after strip. */
  lemma ContainsStrip(s: string, t: string)
    requires Contains(s, t)
    requires t != [] && !IsSpace(t[0]) && !IsSpace(t[|t| - 1])
    ensures Contains(Strip(s), t)
  {
    FindSpec(s, t);
    var k := Find(s, t).value;
    var n := |t|;
    var a, b := StripStart(s), StripEnd(s);
    assert s[k..k + n] == t;
    assert s[k] == t[0] by { assert s[k..k + n][0] == s[k]; }
    assert s[k + n - 1] == t[n - 1] by { assert s[k..k + n][n - 1] == s[k + n - 1]; }
    assert a <= k;
    assert k + n <= b;
    var u := s[a..b];
    assert Strip(s) == u;
    SliceOfSlice(s, a, b, k - a, k - a + n);
    ContainsWitness(u, t, k - a);
  }

  /** The stripped string is a piece of the input, so whatever it
      contains the input contains too. */
  lemma StripInside(s: string, t: string)
    requires Contains(Strip(s), t)
    ensures Contains(s, t)
  {
    StripShape(s);
    if Strip(s) != "" {
      ContainsWitness(s, Strip(s), StripStart(s));
      ContainsTrans(s, Strip(s), t);
    } else {
      assert s[0..0] == "";
      ContainsWitness(s, "", 0);
      ContainsTrans(s, "", t);
    }
  }

  // ---------------------------------------------------------------- split

  /** Python's `s.split(sep)[0]`: the text before the first separator. */
  function Before(s: string, sep: string): (r: string)
    ensures |r| <= |s|
  {
    match Find(s, sep)
    case Some(k) => s[..k]
    case None => s
  }

  /** The text after the first separator (empty if there is none). */
  function After(s: string, sep: string): (r: string)
    ensures |r| <= |s|
  {
    match Find(s, sep)
    case Some(k) => s[k + |sep|..]
    case None => ""
  }

  /** Python's `s.split(sep)[1]`, for a separator that occurs in s. */
  function SecondPiece(s: string, sep: string): string
    requires Contains(s, sep)
  {
    Before(After(s, sep), sep)
  }

  /** With a one-character separator absent from pre, splitting
      pre + sep + rest gives back pre and rest. */
  lemma SplitFirst(pre: string, sep: string, rest: string)
    requires |sep| == 1 && sep[0] !in pre
    ensures Contains(pre + sep + rest, sep)
    ensures Before(pre + sep + rest, sep) == pre
    ensures After(pre + sep + rest, sep) == rest
  {
    NoCharNotFound(pre, sep);
    FirstAfterPrefix(pre, sep, rest);
  }

  /** A string holding a one-character separator splits around its
      first occurrence. */
  lemma SplitAtFirst(s: string, sep: string) returns (front: string, back: string)
    requires |sep| == 1 && sep[0] in s
    ensures s == front + sep + back && sep[0] !in front
  {
    var i :| 0 <= i < |s| && s[i] == sep[0];
    assert OccursAt(s, sep, i) by { assert s[i..i + 1] == [s[i]]; }
    FindSpec(s, sep);
    var k := Find(s, sep).value;
    front, back := s[..k], s[k + 1..];
    forall j | 0 <= j < k ensures front[j] != sep[0] {
      assert !OccursAt(s, sep, j);
      assert s[j..j + 1] == [s[j]];
    }
    assert s[k..k + 1] == sep;
    assert s == front + sep + back;
  }

  /** Without the separator, the first piece is the whole string. */
  lemma SplitNone(s: string, sep: string)
    requires |sep| == 1 && sep[0] !in s
    ensures !Contains(s, sep) && Before(s, sep) == s
  {
    NoCharNotFound(s, sep);
    FindSpec(s, sep);
  }

  lemma NoCharNotFound(s: string, sep: string)
    requires |sep| == 1 && sep[0] !in s
    ensures forall j: nat :: !OccursAt(s, sep, j)
  {
    forall j: nat ensures !OccursAt(s, sep, j) {
      if j + 1 <= |s| {
        assert s[j..j + 1][0] == s[j];
      }
    }
  }

  lemma FirstAfterPrefix(pre: string, sep: string, rest: string)
    requires |sep| == 1
    requires forall j: nat :: !OccursAt(pre, sep, j)
    ensures Find(pre + sep + rest, sep) == Some(|pre|)
  {
    var s := pre + sep + rest;
    FindSpec(s, sep);
    assert OccursAt(s, sep, |pre|) by { assert s[|pre|..|pre| + 1] == sep; }
    forall j: nat | j < |pre| ensures !OccursAt(s, sep, j) {
      assert s[j..j + 1] == pre[j..j + 1];
      assert !OccursAt(pre, sep, j);
    }
  }

  /** Length of the leading run of non-whitespace characters. */
  function WordLen(s: string): (n: nat)
    ensures n <= |s|
    ensures forall k :: 0 <= k < n ==> !IsSpace(s[k])
    ensures n < |s| ==> IsSpace(s[n])
  {
    if s != [] && !IsSpace(s[0]) then 1 + WordLen(s[1..]) else 0
  }

  predicate IsWord(w: string) {
    w != [] && forall k :: 0 <= k < |w| ==> !IsSpace(w[k])
  }

  /** Python's `s.split()`: the maximal runs of non-whitespace characters. */
  function Words(s: string): (ws: seq<string>)
    ensures forall i :: 0 <= i < |ws| ==> IsWord(ws[i])
    decreases |s|
  {
    if s == [] then []
    else if IsSpace(s[0]) then Words(s[1..])
    else
      var n := WordLen(s);
      [s[..n]] + Words(s[n..])
  }

  /** Words separated by single spaces. */
  function Unwords(ws: seq<string>): string {
    if ws == [] then ""
    else if |ws| == 1 then ws[0]
    else ws[0] + " " + Unwords(ws[1..])
  }

  /** Python's `split()` takes apart what single-space joining put together. */
  lemma {:induction false} WordsUnwords(ws: seq<string>)
    requires forall i :: 0 <= i < |ws| ==> IsWord(ws[i])
    ensures Words(Unwords(ws)) == ws
  {
    if ws == [] {
    } else if |ws| == 1 {
      var w := ws[0];
      WordLenOf(w, "");
      assert w[..|w|] == w && w[|w|..] == "";
    } else {
      var w := ws[0];
      var tail := Unwords(ws[1..]);
      var s := w + " " + tail;
      WordLenOf(w, " " + tail);
      assert s == w + (" " + tail);
      assert s[..|w|] == w;
      assert s[|w|..] == " " + tail;
      assert (" " + tail)[1..] == tail;
      WordsUnwords(ws[1..]);
    }
  }

  lemma {:induction false} WordLenOf(w: string, rest: string)
    requires IsWord(w)
    requires rest == [] || IsSpace(rest[0])
    ensures WordLen(w + rest) == |w|
    decreases |w|
  {
    assert (w + rest)[1..] == w[1..] + rest;
    if |w| > 1 {
      WordLenOf(w[1..], rest);
    } else {
      assert w[1..] + rest == rest;
    }
  }

  // ------------------------------------------------------- replace, slice

  /** Python's `s.replace(pat, '')`: every non-overlapping occurrence of
      pat, scanning left to right, is deleted. */
  function RemoveAll(s: string, pat: string): (r: string)
    requires pat != ""
    ensures |r| <= |s|
    decreases |s|
  {
    if |s| < |pat| then s
    else if s[..|pat|] == pat then RemoveAll(s[|pat|..], pat)
    else [s[0]] + RemoveAll(s[1..], pat)
  }

  /** Deleting a single character leaves none of it behind. */
  lemma {:induction false} RemoveCharGone(s: string, c: char)
    ensures c !in RemoveAll(s, [c])
    decreases |s|
  {
    if |s| >= 1 {
      RemoveCharGone(s[1..], c);
    }
  }

  /** A string without the pattern is left unchanged. */
  lemma {:induction false} RemoveAbsent(s: string, pat: string)
    requires pat != ""
    requires !Contains(s, pat)
    ensures RemoveAll(s, pat) == s
    decreases |s|
  {
    FindSpec(s, pat);
    if |s| >= |pat| {
      assert !OccursAt(s, pat, 0);
      assert s[..|pat|] != pat;
      if Contains(s[1..], pat) {
        FindSpec(s[1..], pat);
        var k := Find(s[1..], pat).value;
        assert s[1..][k..k + |pat|] == s[k + 1..k + 1 + |pat|];
        assert OccursAt(s, pat, k + 1);
        assert false;
      }
      RemoveAbsent(s[1..], pat);
      assert [s[0]] + s[1..] == s;
    }
  }

  /** Deleting a single character works piece by piece. */
  lemma {:induction false} RemoveCharConcat(x: string, y: string, c: char)
    ensures RemoveAll(x + y, [c]) == RemoveAll(x, [c]) + RemoveAll(y, [c])
    decreases |x|
  {
    if x != [] {
      assert (x + y)[..1] == x[..1];
      assert (x + y)[1..] == x[1..] + y;
      assert (x + y)[0] == x[0];
      RemoveCharConcat(x[1..], y, c);
    } else {
      assert x + y == y;
    }
  }

  /** Deleting a character the string does not hold changes nothing. */
  lemma {:induction false} RemoveCharAbsent(s: string, c: char)
    requires c !in s
    ensures RemoveAll(s, [c]) == s
    decreases |s|
  {
    if s != [] {
      assert s[..1] == [s[0]];
      RemoveCharAbsent(s[1..], c);
      assert [s[0]] + s[1..] == s;
    }
  }

  /** Deleting a separator character after a piece without it keeps the
      piece and goes on behind the separator. */
  lemma {:induction false} RemoveAfterPiece(a: string, b: string, c: char)
    requires c !in a
    ensures RemoveAll(a + [c] + b, [c]) == a + RemoveAll(b, [c])
    decreases |a|
  {
    var s := a + [c] + b;
    if a == [] {
      assert s[..1] == [c];
      assert s[1..] == b;
    } else {
      assert s[..1] == [a[0]];
      assert s[1..] == a[1..] + [c] + b;
      RemoveAfterPiece(a[1..], b, c);
      assert [a[0]] + a[1..] == a;
    }
  }

  /** A leading occurrence of the pattern is deleted. */
  lemma RemoveLeading(pat: string, s: string)
    requires pat != ""
    ensures RemoveAll(pat + s, pat) == RemoveAll(s, pat)
  {
    assert (pat + s)[..|pat|] == pat;
    assert (pat + s)[|pat|..] == s;
  }

  /** Python's `s.replace(pat, rep)`: every non-overlapping occurrence of
      pat, scanning left to right, is replaced by rep. */
  function Replace(s: string, pat: string, rep: string): string
    requires pat != ""
    decreases |s|
  {
    if |s| < |pat| then s
    else if s[..|pat|] == pat then rep + Replace(s[|pat|..], pat, rep)
    else [s[0]] + Replace(s[1..], pat, rep)
  }

  /** Deleting is replacing by nothing. */
  lemma {:induction false} ReplaceByNothing(s: string, pat: string)
    requires pat != ""
    ensures Replace(s, pat, "") == RemoveAll(s, pat)
    decreases |s|
  {
    if |s| >= |pat| {
      if s[..|pat|] == pat {
        ReplaceByNothing(s[|pat|..], pat);
      } else {
        ReplaceByNothing(s[1..], pat);
      }
    }
  }

  /** A string without the pattern's last character has nothing to replace. */
  lemma {:induction false} ReplaceWithoutLast(s: string, pat: string, rep: string)
    requires pat != "" && pat[|pat| - 1] !in s
    ensures Replace(s, pat, rep) == s
    decreases |s|
  {
    if |s| >= |pat| {
      assert s[..|pat|][|pat| - 1] == s[|pat| - 1];
      ReplaceWithoutLast(s[1..], pat, rep);
      assert [s[0]] + s[1..] == s;
    }
  }

  /** A string without the pattern is left unchanged. */
  lemma {:induction false} ReplaceAbsent(s: string, pat: string, rep: string)
    requires pat != "" && !Contains(s, pat)
    ensures Replace(s, pat, rep) == s
    decreases |s|
  {
    FindSpec(s, pat);
    if |s| >= |pat| {
      assert !OccursAt(s, pat, 0);
      forall j: nat
        ensures !OccursAt(s[1..], pat, j)
      {
        if j + |pat| <= |s[1..]| {
          assert s[1..][j..j + |pat|] == s[j + 1..j + 1 + |pat|];
          assert !OccursAt(s, pat, j + 1);
        }
      }
      FindSpec(s[1..], pat);
      ReplaceAbsent(s[1..], pat, rep);
      assert [s[0]] + s[1..] == s;
    }
  }

  /** A leading occurrence of the pattern is replaced. */
  lemma ReplaceLeading(pat: string, s: string, rep: string)
    requires pat != ""
    ensures Replace(pat + s, pat, rep) == rep + Replace(s, pat, rep)
  {
    assert (pat + s)[..|pat|] == pat;
    assert (pat + s)[|pat|..] == s;
  }

  /** `t` ends `s`. */
  predicate EndsWith(s: string, t: string) {
    |t| <= |s| && s[|s| - |t|..] == t
  }

  /** When the pattern's last character can only stand at the end of p, and
      the pattern does not end p, the pattern does not occur in p + x. */
  lemma PieceLacks(p: string, x: string, pat: string)
    requires pat != ""
    requires p == [] || pat[|pat| - 1] !in p[..|p| - 1]
    requires pat[|pat| - 1] !in x
    requires !EndsWith(p, pat)
    ensures !Contains(p + x, pat)
  {
    var s := p + x;
    var n := |pat|;
    forall k: nat
      ensures !OccursAt(s, pat, k)
    {
      if k + n <= |s| {
        assert s[k..k + n][n - 1] == s[k + n - 1];
        if k + n - 1 < |p| - 1 {
          assert s[k + n - 1] == p[..|p| - 1][k + n - 1];
        } else if k + n - 1 >= |p| {
          assert s[k + n - 1] == x[k + n - 1 - |p|];
        } else {
          assert s[k..k + n] == p[|p| - n..];
        }
      }
    }
    FindSpec(s, pat);
  }

  /** Python's `s.split(c)` for a one-character separator. */
  function SplitChar(s: string, c: char): (parts: seq<string>)
    ensures |parts| >= 1
    decreases |s|
  {
    if s == [] then [""]
    else
      var rest := SplitChar(s[1..], c);
      if s[0] == c then [""] + rest else [[s[0]] + rest[0]] + rest[1..]
  }

  /** `c.join(parts)`. */
  function JoinChar(parts: seq<string>, c: char): string
    requires |parts| >= 1
    decreases |parts|
  {
    if |parts| == 1 then parts[0] else parts[0] + [c] + JoinChar(parts[1..], c)
  }

  /** Joining the pieces with the separator gives back the string. */
  lemma {:induction false} SplitJoin(s: string, c: char)
    ensures JoinChar(SplitChar(s, c), c) == s
    decreases |s|
  {
    if s != [] {
      var rest := SplitChar(s[1..], c);
      SplitJoin(s[1..], c);
      if s[0] == c {
        assert [""] + rest == SplitChar(s, c);
        assert ([""] + rest)[1..] == rest;
      } else {
        var parts := [[s[0]] + rest[0]] + rest[1..];
        if |rest| == 1 {
          assert JoinChar(parts, c) == [s[0]] + rest[0];
        } else {
          assert parts[1..] == rest[1..];
          assert JoinChar(rest, c) == rest[0] + [c] + JoinChar(rest[1..], c);
        }
      }
      assert [s[0]] + s[1..] == s;
    }
  }

  /** A string without the separator is a single piece. */
  lemma {:induction false} SplitCharNone(s: string, c: char)
    requires c !in s
    ensures SplitChar(s, c) == [s]
    decreases |s|
  {
    if s != [] {
      SplitCharNone(s[1..], c);
      assert [s[0]] + s[1..] == s;
    }
  }

  /** A separator after a piece without it splits off that piece. */
  lemma {:induction false} SplitCharFirst(a: string, b: string, c: char)
    requires c !in a
    ensures SplitChar(a + [c] + b, c) == [a] + SplitChar(b, c)
    decreases |a|
  {
    var s := a + [c] + b;
    if a == [] {
      assert s == [c] + b;
      assert s[1..] == b;
    } else {
      assert s[1..] == a[1..] + [c] + b;
      SplitCharFirst(a[1..], b, c);
      assert [a[0]] + a[1..] == a;
    }
  }

  /** Python's `s.rstrip(c)`: trailing copies of c removed. */
  function StripEndChar(s: string, c: char): (r: string)
    ensures r <= s
    ensures r == [] || r[|r| - 1] != c
    ensures forall k :: |r| <= k < |s| ==> s[k] == c
    decreases |s|
  {
    if s != [] && s[|s| - 1] == c then StripEndChar(s[..|s| - 1], c) else s
  }

  /** Python's `s[:n]`. */
  function Take(s: string, n: nat): (r: string)
    ensures |r| == (if |s| <= n then |s| else n) && r <= s
  {
    if |s| <= n then s else s[..n]
  }

  // ---------------------------------------------------------- ASCII case

  function UpperChar(c: char): char {
    if 'a' <= c <= 'z' then (c as int - 32) as char else c
  }

  function LowerChar(c: char): char {
    if 'A' <= c <= 'Z' then (c as int + 32) as char else c
  }

  /** `s.upper()` restricted to ASCII letters. */
  function Upper(s: string): (r: string)
    ensures |r| == |s|
    ensures forall i :: 0 <= i < |s| ==> r[i] == UpperChar(s[i])
  {
    seq(|s|, i requires 0 <= i < |s| => UpperChar(s[i]))
  }

  /** `s.lower()` restricted to ASCII letters. */
  function Lower(s: string): (r: string)
    ensures |r| == |s|
    ensures forall i :: 0 <= i < |s| ==> r[i] == LowerChar(s[i])
  {
    seq(|s|, i requires 0 <= i < |s| => LowerChar(s[i]))
  }

  /** Upper-casing leaves no lower-case ASCII letter and is idempotent. */
  lemma UpperIdempotent(s: string)
    ensures forall i :: 0 <= i < |s| ==> !('a' <= Upper(s)[i] <= 'z')
    ensures Upper(Upper(s)) == Upper(s)
  {
  }

  // ------------------------------------------------------------- int(s)

  predicate IsDigit(c: char) {
    '0' <= c <= '9'
  }

  function DigitValue(c: char): (d: nat)
    requires IsDigit(c)
    ensures d < 10
  {
    c as int - '0' as int
  }

  /** Digits, with single underscores allowed between two digits, as
      Python's `int()` accepts them. */
  predicate DigitGroups(s: string) {
    && s != [] && IsDigit(s[0]) && IsDigit(s[|s| - 1])
    && (forall i :: 0 <= i < |s| ==> IsDigit(s[i]) || s[i] == '_')
    && (forall i :: 0 <= i < |s| - 1 ==> s[i] == '_' ==> s[i + 1] != '_')
  }

  /** The value of a string of decimal digits. */
  function Decimal(ds: string): nat
    requires forall i :: 0 <= i < |ds| ==> IsDigit(ds[i])
  {
    if ds == [] then 0
    else Decimal(ds[..|ds| - 1]) * 10 + DigitValue(ds[|ds| - 1])
  }

  /** Python's `int(s)` for ASCII input: an optional sign and digit groups. */
  function ParseInt(s: string): Option<int> {
    if s != [] && (s[0] == '+' || s[0] == '-') then
      var body := s[1..];
      if DigitGroups(body) then
        (RemoveCharGone(body, '_'); RemoveDigitsStay(body);
         var v: int := Decimal(RemoveAll(body, "_"));
         Some(if s[0] == '-' then -v else v))
      else None
    else if DigitGroups(s) then
      (RemoveCharGone(s, '_'); RemoveDigitsStay(s);
       Some(Decimal(RemoveAll(s, "_"))))
    else None
  }

  lemma {:induction false} RemoveDigitsStay(s: string)
    requires forall i :: 0 <= i < |s| ==> IsDigit(s[i]) || s[i] == '_'
    ensures forall i :: 0 <= i < |RemoveAll(s, "_")| ==> IsDigit(RemoveAll(s, "_")[i])
    decreases |s|
  {
    if |s| >= 1 {
      RemoveDigitsStay(s[1..]);
    }
  }

  /** Decimal rendering of a natural number, as Python's `str(n)`. */
  function ShowNat(n: nat): (r: string)
    ensures r != [] && forall i :: 0 <= i < |r| ==> IsDigit(r[i])
  {
    var d := ['0' + (n % 10) as char];
    if n < 10 then d else ShowNat(n / 10) + d
  }

  lemma {:induction false} DecimalShowNat(n: nat)
    ensures Decimal(ShowNat(n)) == n
  {
    var r := ShowNat(n);
    if n >= 10 {
      assert r[..|r| - 1] == ShowNat(n / 10);
      DecimalShowNat(n / 10);
    } else {
      assert r[..|r| - 1] == [];
    }
  }

  /** `int(str(n)) == n`: the numeric form of a rendered number is the number. */
  lemma ParseIntShowNat(n: nat)
    ensures ParseInt(ShowNat(n)) == Some(n)
  {
    var s := ShowNat(n);
    assert DigitGroups(s);
    RemoveAbsent(s, "_") by {
      assert '_' !in s;
      SplitNone(s, "_");
    }
    DecimalShowNat(n);
  }
}
