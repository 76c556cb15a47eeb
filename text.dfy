/** The string operations the extractor relies on: Python's `str.strip`, `str.lower`,
    the substring test `pat in s`, and `sep.join(parts)`. */
module Text {

  /** The characters for which Python's `str.isspace()` holds; `str.strip()` with no
      argument removes exactly these from both ends. */
  const Whitespace: set<char> := {
    '\t', '\n', '\U{0B}', '\U{0C}', '\r', '\U{1C}', '\U{1D}', '\U{1E}', '\U{1F}', ' ',
    '\U{85}', '\U{A0}', '\U{1680}',
    '\U{2000}', '\U{2001}', '\U{2002}', '\U{2003}', '\U{2004}', '\U{2005}', '\U{2006}',
    '\U{2007}', '\U{2008}', '\U{2009}', '\U{200A}',
    '\U{2028}', '\U{2029}', '\U{202F}', '\U{205F}', '\U{3000}'
  }

  /** `s` with every leading character in `cs` removed. */
  function TrimStart(s: string, cs: set<char>): string
    decreases |s|
  {
    if s != [] && s[0] in cs then TrimStart(s[1..], cs) else s
  }

  /** `s` with every trailing character in `cs` removed. */
  function TrimEnd(s: string, cs: set<char>): string
    decreases |s|
  {
    if s != [] && s[|s| - 1] in cs then TrimEnd(s[..|s| - 1], cs) else s
  }

  /** `TrimStart` removes a prefix made only of characters in `cs`, and what is left does not
      start with one. */
  lemma {:induction false} TrimStartShape(s: string, cs: set<char>)
    ensures var r := TrimStart(s, cs);
            && |r| <= |s| && r == s[|s| - |r|..]
            && (forall k :: 0 <= k < |s| - |r| ==> s[k] in cs)
            && (r != [] ==> r[0] !in cs)
    decreases |s|
  {
    if s != [] && s[0] in cs {
      TrimStartShape(s[1..], cs);
      var r := TrimStart(s, cs);
      forall k | 0 < k < |s| - |r|
        ensures s[k] in cs
      {
        assert s[k] == s[1..][k - 1];
      }
    }
  }

  /** `TrimEnd` removes a suffix made only of characters in `cs`, and what is left does not end
      with one. */
  lemma {:induction false} TrimEndShape(s: string, cs: set<char>)
    ensures var r := TrimEnd(s, cs);
            && |r| <= |s| && r == s[..|r|]
            && (forall k :: |r| <= k < |s| ==> s[k] in cs)
            && (r != [] ==> r[|r| - 1] !in cs)
    decreases |s|
  {
    if s != [] && s[|s| - 1] in cs {
      TrimEndShape(s[..|s| - 1], cs);
      var r := TrimEnd(s, cs);
      forall k | |r| <= k < |s| - 1
        ensures s[k] in cs
      {
        assert s[k] == s[..|s| - 1][k];
      }
    }
  }

  /** `r` sits in `s` at position `i`, and every character of `s` before or after it is in `cs`. */
  predicate CutFrom(s: string, cs: set<char>, i: int, r: string) {
    0 <= i <= |s| - |r| && r == s[i..i + |r|]
    && (forall k :: 0 <= k < i ==> s[k] in cs)
    && (forall k :: i + |r| <= k < |s| ==> s[k] in cs)
  }

  /** Python's `s.strip(chars)` with `chars` given as the set `cs`. */
  function StripChars(s: string, cs: set<char>): string {
    TrimEnd(TrimStart(s, cs), cs)
  }

  /** What `strip` keeps: the middle part of `s` whose first and last characters are not in
      `cs`, with everything cut off on either side in `cs`. */
  lemma StripCharsShape(s: string, cs: set<char>)
    ensures var r := StripChars(s, cs);
            && (r != [] ==> r[0] !in cs && r[|r| - 1] !in cs)
            && exists i :: CutFrom(s, cs, i, r)
  {
    var t := TrimStart(s, cs);
    var r := TrimEnd(t, cs);
    TrimStartShape(s, cs);
    TrimEndShape(t, cs);
    var i := |s| - |t|;
    assert r == s[i..i + |r|];
    forall k | i + |r| <= k < |s|
      ensures s[k] in cs
    {
      assert s[k] == t[k - i];
    }
    assert CutFrom(s, cs, i, r);
  }

  /** Python's `s.strip()`. */
  function Strip(s: string): string {
    StripChars(s, Whitespace)
  }

  /** Neither end of `s` is whitespace: what `str.strip()` returns. */
  predicate IsStripped(s: string) {
    s != [] ==> s[0] !in Whitespace && s[|s| - 1] !in Whitespace
  }

  lemma StripIsStripped(s: string)
    ensures IsStripped(Strip(s))
  {
    StripCharsShape(s, Whitespace);
  }

  /** Stripping twice is stripping once. */
  lemma StripCharsIdempotent(s: string, cs: set<char>)
    ensures StripChars(StripChars(s, cs), cs) == StripChars(s, cs)
  {
    var r := StripChars(s, cs);
    StripCharsShape(s, cs);
    assert TrimStart(r, cs) == r;
    assert TrimEnd(r, cs) == r;
  }

  /** Python's `pat in s` for two strings: `pat` occurs somewhere in `s`. */
  predicate Contains(s: string, pat: string)
    decreases |s|
  {
    pat <= s || (s != [] && Contains(s[1..], pat))
  }

  /** `pat` occurs in `s` starting at position `i`. */
  predicate OccursAt(s: string, pat: string, i: int) {
    0 <= i <= |s| - |pat| && s[i..i + |pat|] == pat
  }

  /** An occurrence at a later position of `s` is an occurrence one position earlier in
      `s[1..]`. */
  lemma OccursShift(s: string, pat: string, i: int)
    requires s != [] && 0 < i
    ensures OccursAt(s, pat, i) <==> OccursAt(s[1..], pat, i - 1)
  {
    if 0 < i <= |s| - |pat| {
      assert s[i..i + |pat|] == s[1..][i - 1..i - 1 + |pat|];
    }
  }

  /** `Contains` holds exactly when `pat` occurs at some position of `s`. */
  lemma {:induction false} ContainsAt(s: string, pat: string)
    ensures Contains(s, pat) <==> exists i :: OccursAt(s, pat, i)
    decreases |s|
  {
    if pat <= s {
      assert OccursAt(s, pat, 0);
    } else if s != [] {
      ContainsAt(s[1..], pat);
      assert !OccursAt(s, pat, 0);
      if Contains(s[1..], pat) {
        var i :| OccursAt(s[1..], pat, i);
        OccursShift(s, pat, i + 1);
      } else {
        forall i | OccursAt(s, pat, i)
          ensures false
        {
          OccursShift(s, pat, i);
        }
      }
    } else {
      assert forall i :: OccursAt(s, pat, i) ==> pat <= s;
    }
  }

  /** ASCII case folding of one character. */
  function LowerChar(c: char): char {
    if 'A' <= c <= 'Z' then (c as int + 32) as char else c
  }

  /** Python's `s.lower()` on ASCII letters. */
  function Lower(s: string): (r: string)
    ensures |r| == |s|
    ensures forall k :: 0 <= k < |s| ==> r[k] == LowerChar(s[k])
  {
    seq(|s|, k requires 0 <= k < |s| => LowerChar(s[k]))
  }

  /** Python's `sep.join(parts)`. */
  function Join(sep: string, parts: seq<string>): string
    decreases |parts|
  {
    if parts == [] then ""
    else if |parts| == 1 then parts[0]
    else parts[0] + sep + Join(sep, parts[1..])
  }

  /** Python's `[x.strip() for x in texts]`. */
  function StripEach(texts: seq<string>): (r: seq<string>)
    ensures |r| == |texts|
    ensures forall k :: 0 <= k < |texts| ==> r[k] == Strip(texts[k])
  {
    seq(|texts|, k requires 0 <= k < |texts| => Strip(texts[k]))
  }

  /** The loop `for x in texts: out.append(x.strip())`. */
  method StripAll(texts: seq<string>) returns (out: seq<string>)
    ensures out == StripEach(texts)
  {
    out := [];
    var i := 0;
    while i < |texts|
      invariant 0 <= i <= |texts|
      invariant |out| == i
      invariant forall k :: 0 <= k < i ==> out[k] == Strip(texts[k])
    {
      out := out + [Strip(texts[i])];
      i := i + 1;
    }
  }

  /** The position of the first `c` in `s`, or `|s|` when `s` holds none. */
  function IndexOf(s: string, c: char): (i: nat)
    ensures i <= |s|
    ensures i < |s| ==> s[i] == c
    ensures forall k :: 0 <= k < i ==> s[k] != c
  {
    if s == [] then 0
    else if s[0] == c then 0
    else 1 + IndexOf(s[1..], c)
  }

  /** Python's `s.split(c)` for one separator character. */
  function Split(s: string, c: char): seq<string>
    decreases |s|
  {
    var i := IndexOf(s, c);
    if i == |s| then [s] else [s[..i]] + Split(s[i + 1..], c)
  }

  /** Splitting a join on its separator gives the parts back, as long as no part holds the
      separator. */
  lemma {:induction false} SplitJoin(parts: seq<string>, c: char)
    requires |parts| > 0
    requires forall k :: 0 <= k < |parts| ==> c !in parts[k]
    ensures Split(Join([c], parts), c) == parts
    decreases |parts|
  {
    var p := parts[0];
    if |parts| == 1 {
      assert IndexOf(p, c) == |p|;
    } else {
      var rest := Join([c], parts[1..]);
      var s := p + [c] + rest;
      assert Join([c], parts) == s;
      var i := IndexOf(s, c);
      assert s[|p|] == c;
      forall k | 0 <= k < |p|
        ensures s[k] != c
      {
        assert s[k] == p[k] && p[k] in p;
      }
      assert i == |p|;
      assert s[..i] == p;
      assert s[i + 1..] == rest;
      SplitJoin(parts[1..], c);
      assert parts == [p] + parts[1..];
    }
  }
}
