/** Character-level string operations that the JavaScript front end and the
    Python back end both rely on: whitespace stripping, splitting on a
    separator, joining, and the code-point order Python's `min` uses. */
module Text {

  /** The characters for which Python's `str.isspace()` holds; `str.strip()`
      with no argument removes exactly these from both ends. */
  predicate IsSpace(c: char) {
    || c == ' ' || c == '\t' || c == '\n' || c == '\r'
    || c == '\U{B}' || c == '\U{C}'
    || ('\U{1C}' <= c <= '\U{1F}')
    || c == '\U{85}' || c == '\U{A0}' || c == '\U{1680}'
    || ('\U{2000}' <= c <= '\U{200A}')
    || c == '\U{2028}' || c == '\U{2029}' || c == '\U{202F}'
    || c == '\U{205F}' || c == '\U{3000}'
  }

  predicate AllSpace(s: string) {
    forall i :: 0 <= i < |s| ==> IsSpace(s[i])
  }

  /** A string with no whitespace at all, such as a row of puzzle cells. */
  predicate NoSpace(s: string) {
    forall i :: 0 <= i < |s| ==> !IsSpace(s[i])
  }

  /** A string that `Strip` leaves alone. */
  predicate Trimmed(s: string) {
    s == [] || (!IsSpace(s[0]) && !IsSpace(s[|s| - 1]))
  }

  /** `str.lstrip()`: the longest suffix that does not start with whitespace. */
  function TrimStart(s: string): (r: string)
    ensures |r| <= |s| && r == s[|s| - |r|..]
    ensures AllSpace(s[..|s| - |r|])
    ensures r == [] || !IsSpace(r[0])
  {
    if |s| > 0 && IsSpace(s[0]) then
      var r := TrimStart(s[1..]);
      assert s[..|s| - |r|] == [s[0]] + s[1..][..|s| - 1 - |r|];
      r
    else s
  }

  /** `str.rstrip()`: the longest prefix that does not end with whitespace. */
  function TrimEnd(s: string): (r: string)
    ensures |r| <= |s| && r == s[..|r|]
    ensures AllSpace(s[|r|..])
    ensures r == [] || !IsSpace(r[|r| - 1])
  {
    if |s| > 0 && IsSpace(s[|s| - 1]) then
      var r := TrimEnd(s[..|s| - 1]);
      assert s[|r|..] == s[..|s| - 1][|r|..] + [s[|s| - 1]];
      r
    else s
  }

  /** Python's `str.strip()`. */
  function Strip(s: string): (r: string)
    ensures Trimmed(r)
    ensures |r| <= |s|
  {
    TrimEnd(TrimStart(s))
  }

  lemma {:induction false} TrimStartSpaces(a: string, t: string)
    requires AllSpace(a)
    ensures TrimStart(a + t) == TrimStart(t)
    decreases |a|
  {
    if |a| > 0 {
      assert (a + t)[1..] == a[1..] + t;
      TrimStartSpaces(a[1..], t);
    } else {
      assert a + t == t;
    }
  }

  lemma {:induction false} TrimEndSpaces(t: string, b: string)
    requires AllSpace(b)
    ensures TrimEnd(t + b) == TrimEnd(t)
    decreases |b|
  {
    if |b| > 0 {
      assert (t + b)[..|t + b| - 1] == t + b[..|b| - 1];
      TrimEndSpaces(t, b[..|b| - 1]);
    } else {
      assert t + b == t;
    }
  }

  lemma {:induction false} TrimStartAppend(g: string, b: string)
    requires TrimStart(g) != []
    ensures TrimStart(g + b) == TrimStart(g) + b
    decreases |g|
  {
    if IsSpace(g[0]) {
      assert (g + b)[1..] == g[1..] + b;
      TrimStartAppend(g[1..], b);
    }
  }

  /** Whitespace around a string never reaches `Strip`'s result: the
      validator ignores, for example, the newline the encoder ends with. */
  lemma StripIgnoresPadding(a: string, g: string, b: string)
    requires AllSpace(a) && AllSpace(b)
    ensures Strip(a + g + b) == Strip(g)
  {
    assert a + g + b == a + (g + b);
    TrimStartSpaces(a, g + b);
    if TrimStart(g) != [] {
      TrimStartAppend(g, b);
      TrimEndSpaces(TrimStart(g), b);
    } else {
      assert g == g[..|g| - |TrimStart(g)|];
      assert AllSpace(g + b);
      TrimStartSpaces(g + b, []);
      assert g + b + [] == g + b;
    }
  }

  /** One trailing newline is stripped away. */
  lemma StripDropsNewline(s: string)
    ensures Strip(s + "\n") == Strip(s)
  {
    assert AllSpace("\n");
    assert "" + s + "\n" == s + "\n";
    StripIgnoresPadding("", s, "\n");
  }

  /** `Strip` is the identity on a string with no whitespace at either end. */
  lemma StripTrimmed(s: string)
    requires Trimmed(s)
    ensures Strip(s) == s
  {
  }

  /** Python's `sep.join(parts)` (and JavaScript's `parts.join(sep)`). */
  function Join(parts: seq<string>, sep: string): string
  {
    if |parts| == 0 then []
    else if |parts| == 1 then parts[0]
    else parts[0] + sep + Join(parts[1..], sep)
  }

  /** Appending a part to a join appends the separator and the part. */
  lemma {:induction false} JoinAppend(parts: seq<string>, sep: string, p: string)
    requires |parts| >= 1
    ensures Join(parts + [p], sep) == Join(parts, sep) + sep + p
    decreases |parts|
  {
    if |parts| == 1 {
      assert parts + [p] == [parts[0], p];
      assert Join([p], sep) == p;
    } else {
      assert (parts + [p])[1..] == parts[1..] + [p];
      JoinAppend(parts[1..], sep, p);
    }
  }

  /** Every character of every part is in the join. */
  lemma {:induction false} JoinHas(parts: seq<string>, sep: string, i: nat, k: nat)
    requires i < |parts| && k < |parts[i]|
    ensures parts[i][k] in Join(parts, sep)
    decreases |parts|
  {
    if |parts| > 1 {
      if i == 0 {
        assert Join(parts, sep)[k] == parts[0][k];
      } else {
        JoinHas(parts[1..], sep, i - 1, k);
      }
    }
  }

  /** Every character of a join comes from a part or from the separator. */
  lemma {:induction false} JoinChars(parts: seq<string>, sep: string, ch: char)
    requires ch in Join(parts, sep)
    ensures ch in sep || exists i :: 0 <= i < |parts| && ch in parts[i]
    decreases |parts|
  {
    if |parts| > 1 {
      var rest := Join(parts[1..], sep);
      if ch !in parts[0] && ch !in sep {
        assert ch in rest;
        JoinChars(parts[1..], sep, ch);
        var i :| 0 <= i < |parts[1..]| && ch in parts[1..][i];
        assert ch in parts[i + 1];
      }
    }
  }

  /** Python's `s.split(sep)` and JavaScript's `s.split(sep)` for a non-empty
      separator: `s` is cut at every leftmost, non-overlapping occurrence of
      `sep`; there is always at least one part, and joining the parts with
      `sep` gives `s` back. */
  function Split(s: string, sep: string): (parts: seq<string>)
    requires |sep| > 0
    ensures |parts| >= 1
    decreases |s|
  {
    if |s| < |sep| then [s]
    else if s[..|sep|] == sep then [[]] + Split(s[|sep|..], sep)
    else
      var rest := Split(s[1..], sep);
      [[s[0]] + rest[0]] + rest[1..]
  }

  /** Joining the parts of a split with the separator gives the string
      back. */
  lemma {:induction false} JoinSplit(s: string, sep: string)
    requires |sep| > 0
    ensures Join(Split(s, sep), sep) == s
    decreases |s|
  {
    if |s| < |sep| {
    } else if s[..|sep|] == sep {
      var rest := Split(s[|sep|..], sep);
      JoinSplit(s[|sep|..], sep);
      assert ([[]] + rest)[1..] == rest;
      assert s == sep + s[|sep|..];
    } else {
      var rest := Split(s[1..], sep);
      JoinSplit(s[1..], sep);
      JoinConsFirst(s[0], rest, sep);
      assert s == [s[0]] + s[1..];
    }
  }

  /** Putting a character in front of the first part puts it in front of
      the join. */
  lemma JoinConsFirst(c: char, rest: seq<string>, sep: string)
    requires |rest| >= 1
    ensures Join([[c] + rest[0]] + rest[1..], sep) == [c] + Join(rest, sep)
  {
    var parts := [[c] + rest[0]] + rest[1..];
    if |rest| > 1 {
      assert parts[1..] == rest[1..];
    }
  }

  /** `sep` occurs in `s` starting at index `i`. */
  predicate SepAt(s: string, i: int, sep: string) {
    0 <= i && i + |sep| <= |s| && s[i..i + |sep|] == sep
  }

  /** No occurrence of `sep` starts inside `p`, not even one that would run on
      into a separator written after it: `p` survives a split as one part. */
  predicate Unbroken(p: string, sep: string) {
    forall i :: 0 <= i < |p| ==> !SepAt(p + sep, i, sep)
  }

  lemma UnbrokenTail(p: string, sep: string)
    requires |p| > 0 && Unbroken(p, sep)
    ensures Unbroken(p[1..], sep)
  {
    forall i | 0 <= i < |p[1..]|
      ensures !SepAt(p[1..] + sep, i, sep)
    {
      assert !SepAt(p + sep, i + 1, sep);
      assert (p[1..] + sep)[i..i + |sep|] == (p + sep)[i + 1..i + 1 + |sep|];
    }
  }

  lemma {:induction false} SplitPrefix(p: string, sep: string, rest: string)
    requires |sep| > 0 && Unbroken(p, sep)
    ensures Split(p + sep + rest, sep) == [p] + Split(rest, sep)
    decreases |p|
  {
    var s := p + sep + rest;
    if |p| == 0 {
      assert s == sep + rest;
      assert s[..|sep|] == sep;
      assert s[|sep|..] == rest;
    } else {
      assert !SepAt(p + sep, 0, sep);
      assert s[..|sep|] == (p + sep)[..|sep|];
      UnbrokenTail(p, sep);
      SplitPrefix(p[1..], sep, rest);
      assert s[1..] == p[1..] + sep + rest;
      assert [s[0]] + p[1..] == p;
    }
  }

  lemma {:induction false} SplitWhole(p: string, sep: string)
    requires |sep| > 0 && Unbroken(p, sep)
    ensures Split(p, sep) == [p]
    decreases |p|
  {
    if |p| >= |sep| {
      assert !SepAt(p + sep, 0, sep);
      assert p[..|sep|] == (p + sep)[..|sep|];
      UnbrokenTail(p, sep);
      SplitWhole(p[1..], sep);
      assert [p[0]] + p[1..] == p;
    }
  }

  /** Splitting undoes joining when no part can be cut. */
  lemma {:induction false} SplitJoin(parts: seq<string>, sep: string)
    requires |sep| > 0 && |parts| >= 1
    requires forall i :: 0 <= i < |parts| ==> Unbroken(parts[i], sep)
    ensures Split(Join(parts, sep), sep) == parts
    decreases |parts|
  {
    if |parts| == 1 {
      SplitWhole(parts[0], sep);
    } else {
      SplitJoin(parts[1..], sep);
      SplitPrefix(parts[0], sep, Join(parts[1..], sep));
      assert [parts[0]] + parts[1..] == parts;
    }
  }

  /** Python's `<=` on `str`: lexicographic order by code point, a prefix
      coming first. */
  predicate LexLe(a: string, b: string) {
    |a| == 0 || (|b| > 0 && (a[0] < b[0] || (a[0] == b[0] && LexLe(a[1..], b[1..]))))
  }

  lemma {:induction false} LexLeRefl(a: string)
    ensures LexLe(a, a)
    decreases |a|
  {
    if |a| > 0 {
      LexLeRefl(a[1..]);
    }
  }

  lemma {:induction false} LexLeTotal(a: string, b: string)
    ensures LexLe(a, b) || LexLe(b, a)
    decreases |a|
  {
    if |a| > 0 && |b| > 0 && a[0] == b[0] {
      LexLeTotal(a[1..], b[1..]);
    }
  }

  lemma {:induction false} LexLeTrans(a: string, b: string, c: string)
    requires LexLe(a, b) && LexLe(b, c)
    ensures LexLe(a, c)
    decreases |a|
  {
    if |a| > 0 && a[0] == b[0] && b[0] == c[0] {
      LexLeTrans(a[1..], b[1..], c[1..]);
    }
  }

  lemma {:induction false} LexLeAntisym(a: string, b: string)
    requires LexLe(a, b) && LexLe(b, a)
    ensures a == b
    decreases |a|
  {
    if |a| > 0 {
      LexLeAntisym(a[1..], b[1..]);
      assert a == [a[0]] + a[1..] && b == [b[0]] + b[1..];
    }
  }

  lemma LexLeBelowAll(a: string, m: string, cs: seq<string>)
    requires LexLe(a, m)
    requires forall c :: c in cs ==> LexLe(m, c)
    ensures forall c :: c in cs ==> LexLe(a, c)
  {
    forall c | c in cs ensures LexLe(a, c) {
      LexLeTrans(a, m, c);
    }
  }

  /** Python's `min` over a non-empty collection of strings. */
  function MinString(cs: seq<string>): (m: string)
    requires |cs| > 0
    ensures m in cs
    ensures forall c :: c in cs ==> LexLe(m, c)
  {
    if |cs| == 1 then
      LexLeRefl(cs[0]);
      cs[0]
    else
      var rest := MinString(cs[1..]);
      LexLeTotal(cs[0], rest);
      assert cs == [cs[0]] + cs[1..];
      if LexLe(cs[0], rest) then
        LexLeBelowAll(cs[0], rest, cs[1..]);
        LexLeRefl(cs[0]);
        cs[0]
      else rest
  }
}
