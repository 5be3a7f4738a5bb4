/** The pieces of Python's built-in `str`, `list` and `dict` behaviour that the
    sheet logic relies on: `str.strip()`, `str.upper()`, `str.replace()` of one
    character, `list.index()`, `dict.get(k, "")` and the open slice `s[k:]`. */
module PyStr {
  import opened Wrappers

  /** Python's `str.isspace()` for one character: the characters `str.strip()`
      with no argument removes (ASCII controls 9-13 and 28-31, space, NEL,
      no-break space and the Unicode space separators). */
  predicate IsSpace(c: char) {
    || ('\t' <= c <= '\r')
    || ('\U{1C}' <= c <= ' ')
    || c == '\U{85}' || c == '\U{A0}' || c == '\U{1680}'
    || ('\U{2000}' <= c <= '\U{200A}')
    || c == '\U{2028}' || c == '\U{2029}' || c == '\U{202F}'
    || c == '\U{205F}' || c == '\U{3000}'
  }

  predicate AllSpace(s: string) {
    forall i :: 0 <= i < |s| ==> IsSpace(s[i])
  }

  /** Neither the first nor the last character is whitespace. */
  predicate NoSurroundingSpace(s: string) {
    s == [] || (!IsSpace(s[0]) && !IsSpace(s[|s| - 1]))
  }

  /** `r` is the part of `s` left after cutting whitespace-only runs off both ends. */
  ghost predicate IsTrimOf(r: string, s: string) {
    exists i :: 0 <= i <= |s| - |r| && AllSpace(s[..i]) && r == s[i..i + |r|] && AllSpace(s[i + |r|..])
  }

  /** Drop leading whitespace. */
  function TrimStart(s: string): (r: string)
    ensures |r| <= |s|
    ensures r == [] || !IsSpace(r[0])
  {
    if |s| > 0 && IsSpace(s[0]) then TrimStart(s[1..]) else s
  }

  /** What `TrimStart` dropped is a whitespace prefix. */
  lemma {:induction false} TrimStartIsSuffix(s: string)
    ensures var r := TrimStart(s); r == s[|s| - |r|..] && AllSpace(s[..|s| - |r|])
  {
    if |s| > 0 && IsSpace(s[0]) {
      TrimStartIsSuffix(s[1..]);
      var t := TrimStart(s[1..]);
      assert s[..|s| - |t|] == [s[0]] + s[1..][..|s[1..]| - |t|];
    }
  }

  /** Drop trailing whitespace. */
  function TrimEnd(s: string): (r: string)
    ensures |r| <= |s|
    ensures r == [] || !IsSpace(r[|r| - 1])
  {
    if |s| > 0 && IsSpace(s[|s| - 1]) then TrimEnd(s[..|s| - 1]) else s
  }

  /** What `TrimEnd` dropped is a whitespace suffix. */
  lemma {:induction false} TrimEndIsPrefix(s: string)
    ensures var r := TrimEnd(s); r == s[..|r|] && AllSpace(s[|r|..])
  {
    if |s| > 0 && IsSpace(s[|s| - 1]) {
      TrimEndIsPrefix(s[..|s| - 1]);
      var t := TrimEnd(s[..|s| - 1]);
      assert s[|t|..] == s[..|s| - 1][|t|..] + [s[|s| - 1]];
    }
  }

  /** Python's `s.strip()`. */
  function Strip(s: string): (r: string)
    ensures |r| <= |s|
    ensures NoSurroundingSpace(r)
  {
    var t := TrimStart(s);
    TrimEndIsPrefix(t);
    TrimEnd(t)
  }

  /** `strip` cuts only whitespace, and only at the two ends. */
  lemma StripIsTrim(s: string)
    ensures IsTrimOf(Strip(s), s)
    ensures multiset(Strip(s)) <= multiset(s)
  {
    var t := TrimStart(s);
    var r := TrimEnd(t);
    TrimStartIsSuffix(s);
    TrimEndIsPrefix(t);
    var i := |s| - |t|;
    assert s[i..i + |r|] == r;
    assert s[i + |r|..] == t[|r|..];
    assert s == s[..i] + r + s[i + |r|..];
  }

  lemma {:induction false} TrimStartOfClean(s: string)
    requires s == [] || !IsSpace(s[0])
    ensures TrimStart(s) == s
  {
  }

  lemma {:induction false} TrimEndOfClean(s: string)
    requires s == [] || !IsSpace(s[|s| - 1])
    ensures TrimEnd(s) == s
  {
  }

  /** Stripping a string that has no surrounding whitespace changes nothing,
      so `strip` is idempotent. */
  lemma StripOfClean(s: string)
    requires NoSurroundingSpace(s)
    ensures Strip(s) == s
  {
    TrimStartOfClean(s);
    TrimEndOfClean(s);
  }

  lemma StripIdempotent(s: string)
    ensures Strip(Strip(s)) == Strip(s)
  {
    StripOfClean(Strip(s));
  }

  lemma {:induction false} TrimStartSpacePrefix(pre: string, s: string)
    requires AllSpace(pre)
    ensures TrimStart(pre + s) == TrimStart(s)
  {
    if pre != [] {
      assert (pre + s)[1..] == pre[1..] + s;
      TrimStartSpacePrefix(pre[1..], s);
    } else {
      assert pre + s == s;
    }
  }

  lemma {:induction false} TrimEndSpaceSuffix(s: string, post: string)
    requires AllSpace(post)
    ensures TrimEnd(s + post) == TrimEnd(s)
  {
    if post != [] {
      var n := |s + post|;
      assert (s + post)[n - 1] == post[|post| - 1];
      assert (s + post)[..n - 1] == s + post[..|post| - 1];
      TrimEndSpaceSuffix(s, post[..|post| - 1]);
    } else {
      assert s + post == s;
    }
  }

  /** Once a non-space character has been reached, what follows is kept. */
  lemma {:induction false} TrimStartAppend(s: string, post: string)
    requires !AllSpace(s)
    ensures TrimStart(s + post) == TrimStart(s) + post
  {
    assert s != [];
    assert (s + post)[0] == s[0];
    if IsSpace(s[0]) {
      assert (s + post)[1..] == s[1..] + post;
      TrimStartAppend(s[1..], post);
    }
  }

  /** Two strings with whitespace at the same positions. */
  predicate SameSpacing(s: string, t: string) {
    |s| == |t| && forall i :: 0 <= i < |s| ==> (IsSpace(s[i]) <==> IsSpace(t[i]))
  }

  lemma {:induction false} TrimStartSameSpacing(s: string, t: string)
    requires SameSpacing(s, t)
    ensures |TrimStart(s)| == |TrimStart(t)|
  {
    if |s| > 0 && IsSpace(s[0]) {
      assert SameSpacing(s[1..], t[1..]);
      TrimStartSameSpacing(s[1..], t[1..]);
    }
  }

  lemma {:induction false} TrimEndSameSpacing(s: string, t: string)
    requires SameSpacing(s, t)
    ensures |TrimEnd(s)| == |TrimEnd(t)|
  {
    if |s| > 0 && IsSpace(s[|s| - 1]) {
      assert SameSpacing(s[..|s| - 1], t[..|t| - 1]);
      TrimEndSameSpacing(s[..|s| - 1], t[..|t| - 1]);
    }
  }

  /** Strings with whitespace at the same positions are stripped at the same
      positions. */
  lemma StripSameSpacing(s: string, t: string)
    requires SameSpacing(s, t)
    ensures |Strip(s)| == |Strip(t)|
    ensures var a := |s| - |TrimStart(s)|;
      && a + |Strip(s)| <= |s|
      && Strip(s) == s[a..a + |Strip(s)|] && Strip(t) == t[a..a + |Strip(t)|]
  {
    var s1, t1 := TrimStart(s), TrimStart(t);
    var a := |s| - |s1|;
    assert s1 == s[a..] && t1 == t[a..] by {
      TrimStartSameSpacing(s, t);
      TrimStartIsSuffix(s);
      TrimStartIsSuffix(t);
    }
    assert SameSpacing(s1, t1);
    var s2, t2 := TrimEnd(s1), TrimEnd(t1);
    assert s2 == s1[..|s2|] && t2 == t1[..|t2|] && |s2| == |t2| by {
      TrimEndSameSpacing(s1, t1);
      TrimEndIsPrefix(s1);
      TrimEndIsPrefix(t1);
    }
    assert Strip(s) == s2 && Strip(t) == t2;
    assert s2 == s[a..a + |s2|];
    assert t2 == t[a..a + |t2|];
  }

  /** Whitespace added around a string does not change what `strip` keeps. */
  lemma StripIgnoresPadding(pre: string, s: string, post: string)
    requires AllSpace(pre) && AllSpace(post)
    ensures Strip(pre + s + post) == Strip(s)
  {
    assert pre + s + post == pre + (s + post);
    TrimStartSpacePrefix(pre, s + post);
    if AllSpace(s) {
      assert AllSpace(s + post);
      TrimStartSpacePrefix(s + post, []);
      assert s + post + [] == s + post;
      TrimStartSpacePrefix(s, []);
      assert s + [] == s;
    } else {
      TrimStartAppend(s, post);
      TrimEndSpaceSuffix(TrimStart(s), post);
    }
  }

  /** Python's `s.replace(c, "")`: every occurrence of `c` removed, the other
      characters kept in order. */
  function RemoveChar(s: string, c: char): (r: string)
    ensures c !in r
    ensures |r| <= |s|
  {
    if s == [] then []
    else
      var rest := RemoveChar(s[1..], c);
      if s[0] == c then rest else [s[0]] + rest
  }

  /** Removing `c` keeps exactly the other characters. */
  lemma {:induction false} RemoveCharKeeps(s: string, c: char, d: char)
    ensures d in RemoveChar(s, c) <==> d in s && d != c
  {
    if s != [] {
      RemoveCharKeeps(s[1..], c, d);
      assert s == [s[0]] + s[1..];
    }
  }

  lemma {:induction false} RemoveCharConcat(a: string, b: string, c: char)
    ensures RemoveChar(a + b, c) == RemoveChar(a, c) + RemoveChar(b, c)
  {
    if a == [] {
      assert a + b == b;
    } else {
      assert (a + b)[0] == a[0];
      assert (a + b)[1..] == a[1..] + b;
      var head := if a[0] == c then [] else [a[0]];
      calc {
        RemoveChar(a + b, c);
        head + RemoveChar(a[1..] + b, c);
        { RemoveCharConcat(a[1..], b, c); }
        head + (RemoveChar(a[1..], c) + RemoveChar(b, c));
        (head + RemoveChar(a[1..], c)) + RemoveChar(b, c);
      }
    }
  }

  lemma {:induction false} RemoveAbsentChar(s: string, c: char)
    requires c !in s
    ensures RemoveChar(s, c) == s
  {
    if s != [] {
      RemoveAbsentChar(s[1..], c);
    }
  }

  /** Python's `s.replace(a, b)` for single characters `a` and `b`. */
  function Replace(s: string, a: char, b: char): (r: string)
    ensures |r| == |s|
    ensures forall i :: 0 <= i < |s| ==> r[i] == if s[i] == a then b else s[i]
  {
    seq(|s|, i requires 0 <= i < |s| => if s[i] == a then b else s[i])
  }

  /** Python's `str.upper()` on one character, for ASCII and the Latin-1
      Supplement: the lower-case letters map to their capitals, `ÿ` to `Ÿ`,
      `µ` to Greek capital mu and `ß` to the two letters "SS"; every other
      character is its own upper case. */
  function UpperChar(c: char): (r: string)
    ensures |r| >= 1
  {
    if 'a' <= c <= 'z' then [(c as int - 32) as char]
    else if '\U{E0}' <= c <= '\U{FE}' && c != '\U{F7}' then [(c as int - 32) as char]
    else if c == '\U{FF}' then ['\U{178}']
    else if c == '\U{B5}' then ['\U{39C}']
    else if c == '\U{DF}' then ['S', 'S']
    else [c]
  }

  /** The lower-case letters of ASCII and Latin-1. */
  predicate IsLower(c: char) {
    || ('a' <= c <= 'z')
    || ('\U{DF}' <= c <= '\U{FF}' && c != '\U{F7}')
    || c == '\U{B5}'
  }

  /** `c` is already upper case: `str.upper()` leaves it as it is. */
  predicate IsUpperFixed(c: char) {
    UpperChar(c) == [c]
  }

  lemma UpperCharFacts(c: char)
    ensures forall i :: 0 <= i < |UpperChar(c)| ==> IsUpperFixed(UpperChar(c)[i]) && !IsLower(UpperChar(c)[i])
    ensures forall i :: 0 <= i < |UpperChar(c)| ==> (IsSpace(UpperChar(c)[i]) <==> IsSpace(c))
    ensures IsUpperFixed(c) <==> !IsLower(c)
  {
  }

  /** Python's `s.upper()` (see `UpperChar` for the characters covered). */
  function Upper(s: string): (r: string)
    ensures |r| >= |s|
    ensures s == [] <==> r == []
  {
    if s == [] then [] else UpperChar(s[0]) + Upper(s[1..])
  }

  /** Every character `upper` produces is upper case, and whitespace appears
      at either end of the result exactly when it did in the input. */
  lemma {:induction false} UpperIsUpper(s: string)
    ensures var r := Upper(s);
      && (forall i :: 0 <= i < |r| ==> IsUpperFixed(r[i]) && !IsLower(r[i]))
      && (s != [] ==> (IsSpace(r[0]) <==> IsSpace(s[0])))
      && (s != [] ==> (IsSpace(r[|r| - 1]) <==> IsSpace(s[|s| - 1])))
  {
    if s != [] {
      var h := UpperChar(s[0]);
      var t := Upper(s[1..]);
      UpperIsUpper(s[1..]);
      UpperCharFacts(s[0]);
      var r := h + t;
      assert forall i :: 0 <= i < |r| ==> r[i] == if i < |h| then h[i] else t[i - |h|];
      assert |s| > 1 ==> s[|s| - 1] == s[1..][|s[1..]| - 1];
    }
  }

  /** Upper-casing works character by character. */
  lemma {:induction false} UpperConcat(a: string, b: string)
    ensures Upper(a + b) == Upper(a) + Upper(b)
  {
    if a == [] {
      assert a + b == b;
    } else {
      var c := UpperChar(a[0]);
      assert (a + b)[0] == a[0];
      assert (a + b)[1..] == a[1..] + b;
      calc {
        Upper(a + b);
        c + Upper(a[1..] + b);
        { UpperConcat(a[1..], b); }
        c + (Upper(a[1..]) + Upper(b));
        (c + Upper(a[1..])) + Upper(b);
      }
    }
  }

  lemma {:induction false} UpperTrimStart(s: string)
    ensures TrimStart(Upper(s)) == Upper(TrimStart(s))
  {
    if s != [] {
      UpperCharFacts(s[0]);
      var h := UpperChar(s[0]);
      assert Upper(s) == h + Upper(s[1..]);
      assert Upper(s)[0] == h[0];
      if IsSpace(s[0]) {
        assert h == [s[0]];
        assert Upper(s)[1..] == Upper(s[1..]);
        UpperTrimStart(s[1..]);
      } else {
        TrimStartOfClean(Upper(s));
      }
    }
  }

  lemma {:induction false} UpperTrimEnd(s: string)
    ensures TrimEnd(Upper(s)) == Upper(TrimEnd(s))
  {
    if s != [] {
      var n := |s|;
      var init, c := s[..n - 1], s[n - 1];
      assert s == init + [c];
      UpperConcat(init, [c]);
      assert Upper([c]) == UpperChar(c) + Upper([]);
      UpperCharFacts(c);
      var u := Upper(s);
      assert u == Upper(init) + UpperChar(c);
      assert u[|u| - 1] == UpperChar(c)[|UpperChar(c)| - 1];
      if IsSpace(c) {
        assert UpperChar(c) == [c];
        assert u[..|u| - 1] == Upper(init);
        UpperTrimEnd(init);
      } else {
        TrimEndOfClean(u);
        TrimEndOfClean(s);
      }
    }
  }

  /** `upper` and `strip` commute: upper-casing never turns a character into
      whitespace or whitespace into anything else. */
  lemma UpperStripCommute(s: string)
    ensures Strip(Upper(s)) == Upper(Strip(s))
  {
    UpperTrimStart(s);
    UpperTrimEnd(TrimStart(s));
  }

  /** Without `ß` in the input, `upper` maps position to position. */
  lemma {:induction false} UpperPointwise(s: string)
    requires forall i :: 0 <= i < |s| ==> |UpperChar(s[i])| == 1
    ensures |Upper(s)| == |s|
    ensures forall i :: 0 <= i < |s| ==> Upper(s)[i] == UpperChar(s[i])[0]
  {
    if s != [] {
      UpperPointwise(s[1..]);
      assert Upper(s) == UpperChar(s[0]) + Upper(s[1..]);
    }
  }

  /** Upper-casing a string that is already upper case changes nothing. */
  lemma {:induction false} UpperOfUpper(s: string)
    requires forall i :: 0 <= i < |s| ==> IsUpperFixed(s[i])
    ensures Upper(s) == s
  {
    if s != [] {
      UpperOfUpper(s[1..]);
      assert s == [s[0]] + s[1..];
    }
  }

  /** Python's `xs.index(x)`: the first position holding `x`, or `None` where
      Python raises `ValueError`. */
  function IndexOf(xs: seq<string>, x: string): (r: Option<nat>)
    ensures r.Some? ==> r.value < |xs| && xs[r.value] == x
    ensures r.Some? ==> forall j :: 0 <= j < r.value ==> xs[j] != x
    ensures r.None? <==> x !in xs
  {
    if xs == [] then None
    else if xs[0] == x then Some(0)
    else
      match IndexOf(xs[1..], x)
      case None => None
      case Some(i) => Some(i + 1)
  }

  /** Python's `d.get(k, "")` on a record of strings. */
  function Get(d: map<string, string>, k: string): string {
    if k in d then d[k] else ""
  }

  /** Python's `row[i] if len(row) > i else ""`. */
  function CellOr(row: seq<string>, i: nat): string {
    if i < |row| then row[i] else ""
  }

  function Min(a: int, b: int): int {
    if a <= b then a else b
  }

  /** Python's open slice `xs[k:]`: a negative `k` counts from the end and is
      clamped at 0, a `k` past the end gives the empty list. */
  function SliceFrom<T>(xs: seq<T>, k: int): (r: seq<T>)
    ensures |r| <= |xs| && r == xs[|xs| - |r|..]
    ensures 0 <= k ==> |r| == |xs| - Min(k, |xs|)
    ensures k < 0 ==> |r| == Min(-k, |xs|)
  {
    var start := if k < 0 then (if k + |xs| < 0 then 0 else k + |xs|)
                 else (if k > |xs| then |xs| else k);
    xs[start..]
  }
}
