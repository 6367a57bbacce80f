/**
 * Python's `str` operations that the route parser and the airline filters rely on,
 * with Python's semantics: `"".split(",") == [""]`, `strip()` removes the characters
 * for which `str.isspace()` holds, `replace` rewrites non-overlapping occurrences left to right.
 */
module PyStrings {

  /** Python's `str.isspace()` on one character (the default set `str.strip()` removes). */
  predicate IsSpace(c: char) {
    ('\U{0009}' <= c <= '\U{000D}') || ('\U{001C}' <= c <= '\U{0020}')
    || c == '\U{0085}' || c == '\U{00A0}' || c == '\U{1680}'
    || ('\U{2000}' <= c <= '\U{200A}') || c == '\U{2028}' || c == '\U{2029}'
    || c == '\U{202F}' || c == '\U{205F}' || c == '\U{3000}'
  }

  /** Number of occurrences of `c` in `s`. */
  function Count(s: string, c: char): nat
  {
    if s == [] then 0 else (if s[0] == c then 1 else 0) + Count(s[1..], c)
  }

  lemma {:induction false} CountAppend(s: string, t: string, c: char)
    ensures Count(s + t, c) == Count(s, c) + Count(t, c)
  {
    if s == [] {
      assert s + t == t;
    } else {
      assert (s + t)[1..] == s[1..] + t;
      CountAppend(s[1..], t, c);
    }
  }

  lemma {:induction false} CountZero(s: string, c: char)
    ensures Count(s, c) == 0 <==> c !in s
  {
    if s != [] {
      CountZero(s[1..], c);
      assert s == [s[0]] + s[1..];
    }
  }

  /** Python's `s.split(sep)` for a one-character separator. */
  function Split(s: string, sep: char): (r: seq<string>)
    ensures |r| == Count(s, sep) + 1
    ensures forall i :: 0 <= i < |r| ==> sep !in r[i]
  {
    if s == [] then [""]
    else
      var rest := Split(s[1..], sep);
      if s[0] == sep then [""] + rest
      else [[s[0]] + rest[0]] + rest[1..]
  }

  /** Python's `sep.join(parts)`. */
  function Join(parts: seq<string>, sep: string): string
  {
    if parts == [] then ""
    else if |parts| == 1 then parts[0]
    else parts[0] + sep + Join(parts[1..], sep)
  }

  /** Joining the pieces of a split with the separator gives back the original string. */
  lemma {:induction false} JoinSplit(s: string, sep: char)
    ensures Join(Split(s, sep), [sep]) == s
  {
    if s != [] {
      var rest := Split(s[1..], sep);
      JoinSplit(s[1..], sep);
      if s[0] == sep {
        assert Split(s, sep) == [""] + rest;
        assert Join(Split(s, sep), [sep]) == "" + [sep] + Join(rest, [sep]);
        assert s == [sep] + s[1..];
      } else {
        var parts := Split(s, sep);
        assert parts == [[s[0]] + rest[0]] + rest[1..];
        if |rest| == 1 {
          assert Join(parts, [sep]) == [s[0]] + rest[0];
        } else {
          assert parts[1..] == rest[1..];
          assert Join(rest, [sep]) == rest[0] + [sep] + Join(rest[1..], [sep]);
          assert Join(parts, [sep]) == [s[0]] + rest[0] + [sep] + Join(rest[1..], [sep]);
        }
        assert s == [s[0]] + s[1..];
      }
    }
  }

  /** A piece without the separator, followed by the separator, splits off as one piece. */
  lemma {:induction false} SplitPrefix(p: string, t: string, sep: char)
    requires sep !in p
    ensures Split(p + [sep] + t, sep) == [p] + Split(t, sep)
  {
    var s := p + [sep] + t;
    if p == [] {
      assert s == [sep] + t;
      assert s[1..] == t;
    } else {
      assert s[1..] == p[1..] + [sep] + t;
      SplitPrefix(p[1..], t, sep);
      assert [p[0]] + p[1..] == p;
    }
  }

  /** A string without the separator splits into itself alone. */
  lemma {:induction false} SplitNoSep(p: string, sep: char)
    requires sep !in p
    ensures Split(p, sep) == [p]
  {
    if p != [] {
      SplitNoSep(p[1..], sep);
      assert [p[0]] + p[1..] == p;
    }
  }

  /** Splitting a join of separator-free pieces gives back the pieces (for a non-empty list). */
  lemma {:induction false} SplitJoin(parts: seq<string>, sep: char)
    requires parts != []
    requires forall i :: 0 <= i < |parts| ==> sep !in parts[i]
    ensures Split(Join(parts, [sep]), sep) == parts
  {
    if |parts| == 1 {
      SplitNoSep(parts[0], sep);
    } else {
      SplitJoin(parts[1..], sep);
      SplitPrefix(parts[0], Join(parts[1..], [sep]), sep);
      assert [parts[0]] + parts[1..] == parts;
    }
  }

  /** Python's `s.lstrip()`: the suffix left after dropping leading whitespace. */
  function TrimLeft(s: string): (r: string)
    ensures |r| <= |s| && r == s[|s| - |r|..]
    ensures forall i :: 0 <= i < |s| - |r| ==> IsSpace(s[i])
    ensures r == [] || !IsSpace(r[0])
  {
    if s != [] && IsSpace(s[0]) then TrimLeft(s[1..]) else s
  }

  /** Python's `s.rstrip()`: the prefix left after dropping trailing whitespace. */
  function TrimRight(s: string): (r: string)
    ensures |r| <= |s| && r == s[..|r|]
    ensures forall i :: |r| <= i < |s| ==> IsSpace(s[i])
    ensures r == [] || !IsSpace(r[|r| - 1])
  {
    if s != [] && IsSpace(s[|s| - 1]) then TrimRight(s[..|s| - 1]) else s
  }

  /**
   * `r` is the slice of `s` starting at `k` with only whitespace outside it and no
   * whitespace at its two ends.
   */
  predicate StripsTo(s: string, k: int, r: string)
  {
    0 <= k && k + |r| <= |s| && r == s[k..k + |r|]
    && (forall i :: 0 <= i < k ==> IsSpace(s[i]))
    && (forall i :: k + |r| <= i < |s| ==> IsSpace(s[i]))
    && (r == [] || (!IsSpace(r[0]) && !IsSpace(r[|r| - 1])))
  }

  /**
   * Python's `s.strip()`: the slice of `s` between its leading and its trailing whitespace,
   * starting where the leading whitespace ends.
   */
  function Strip(s: string): (r: string)
    ensures StripsTo(s, |s| - |TrimLeft(s)|, r)
  {
    var t := TrimLeft(s);
    var r := TrimRight(t);
    TrimBoth(s, |s| - |t|, t, r);
    r
  }

  /** Trimming the left, then the right, leaves the strip slice starting at `k`. */
  lemma TrimBoth(s: string, k: int, t: string, r: string)
    requires 0 <= k <= |s| && t == s[k..]
    requires forall i :: 0 <= i < k ==> IsSpace(s[i])
    requires t == [] || !IsSpace(t[0])
    requires |r| <= |t| && r == t[..|r|]
    requires forall i :: |r| <= i < |t| ==> IsSpace(t[i])
    requires r == [] || !IsSpace(r[|r| - 1])
    ensures StripsTo(s, k, r)
  {
    assert forall j :: 0 <= j < |r| ==> r[j] == s[k + j];
    assert r == s[k..k + |r|];
    assert forall i :: k + |r| <= i < |s| ==> IsSpace(s[i]) by {
      forall i | k + |r| <= i < |s|
        ensures IsSpace(s[i])
      {
        assert s[i] == t[i - k];
      }
    }
    if r != [] {
      assert r[0] == t[0];
    }
  }

  /** Stripping a stripped string changes nothing. */
  lemma StripIdempotent(s: string)
    ensures Strip(Strip(s)) == Strip(s)
  {
    var r := Strip(s);
    StripNoEdgeSpace(r);
  }

  /** A string with no whitespace at either end is its own strip. */
  lemma StripNoEdgeSpace(s: string)
    requires s == [] || (!IsSpace(s[0]) && !IsSpace(s[|s| - 1]))
    ensures Strip(s) == s
  {
    assert TrimLeft(s) == s;
    assert TrimRight(s) == s;
  }

  /** One leading whitespace character before an already stripped word is removed. */
  lemma StripLeadingSpace(c: char, w: string)
    requires IsSpace(c) && w != [] && !IsSpace(w[0]) && !IsSpace(w[|w| - 1])
    ensures Strip([c] + w) == w
  {
    assert ([c] + w)[0] == c;
    assert ([c] + w)[1..] == w;
    assert TrimLeft(w) == w;
    assert TrimLeft([c] + w) == w;
    assert TrimRight(w) == w;
  }

  /** `s` starts with `pat`. */
  predicate StartsWith(s: string, pat: string) {
    |pat| <= |s| && s[..|pat|] == pat
  }

  /**
   * Python's `s.replace(pat, repl)` for a non-empty `pat`: scanning left to right, every
   * occurrence of `pat` that does not overlap an earlier one is replaced by `repl`.
   * Characters that occur in neither `pat` nor `repl` keep their count.
   */
  function Replace(s: string, pat: string, repl: string): (r: string)
    requires pat != []
    ensures forall c :: c !in pat && c !in repl ==> Count(r, c) == Count(s, c)
    decreases |s|
  {
    if s == [] then []
    else if StartsWith(s, pat) then
      var rest := Replace(s[|pat|..], pat, repl);
      CountReplaceStep(s, pat, repl, rest);
      repl + rest
    else
      var rest := Replace(s[1..], pat, repl);
      assert forall c :: Count(s, c) == (if s[0] == c then 1 else 0) + Count(s[1..], c);
      CountConsAll(s[0], rest);
      [s[0]] + rest
  }

  lemma CountConsAll(x: char, t: string)
    ensures forall c :: Count([x] + t, c) == (if x == c then 1 else 0) + Count(t, c)
  {
    forall c ensures Count([x] + t, c) == (if x == c then 1 else 0) + Count(t, c) {
      assert ([x] + t)[1..] == t;
    }
  }

  lemma CountReplaceStep(s: string, pat: string, repl: string, rest: string)
    requires pat != [] && StartsWith(s, pat)
    requires forall c :: c !in pat && c !in repl ==> Count(rest, c) == Count(s[|pat|..], c)
    ensures forall c :: c !in pat && c !in repl ==> Count(repl + rest, c) == Count(s, c)
  {
    forall c | c !in pat && c !in repl ensures Count(repl + rest, c) == Count(s, c) {
      CountAppend(repl, rest, c);
      CountZero(repl, c);
      CountZero(pat, c);
      assert s == pat + s[|pat|..];
      CountAppend(pat, s[|pat|..], c);
    }
  }

  /** Replacing a single character by nothing removes every occurrence of it. */
  lemma {:induction false} ReplaceRemoves(s: string, c: char)
    ensures c !in Replace(s, [c], "")
  {
    if s != [] {
      if StartsWith(s, [c]) {
        ReplaceRemoves(s[1..], c);
      } else {
        ReplaceRemoves(s[1..], c);
        assert s[0] != c;
      }
    }
  }

  /** When some character of `pat` never occurs in `s`, `replace` returns `s` unchanged. */
  lemma {:induction false} ReplaceAbsent(s: string, pat: string, repl: string, c: char)
    requires pat != [] && c in pat && c !in s
    ensures Replace(s, pat, repl) == s
  {
    if s != [] {
      ReplaceAbsent(s[1..], pat, repl, c);
      assert [s[0]] + s[1..] == s;
    }
  }

  /** A chunk that does not contain the first character of `pat` is copied through unchanged. */
  lemma {:induction false} ReplaceSkip(a: string, t: string, pat: string, repl: string)
    requires pat != [] && pat[0] !in a
    ensures Replace(a + t, pat, repl) == a + Replace(t, pat, repl)
  {
    if a != [] {
      assert (a + t)[1..] == a[1..] + t;
      ReplaceSkip(a[1..], t, pat, repl);
      assert [a[0]] + a[1..] == a;
    } else {
      assert a + t == t;
    }
  }

  /** An occurrence of `pat` at the front is rewritten to `repl`. */
  lemma ReplaceHit(t: string, pat: string, repl: string)
    requires pat != []
    ensures Replace(pat + t, pat, repl) == repl + Replace(t, pat, repl)
  {
    assert StartsWith(pat + t, pat);
    assert (pat + t)[|pat|..] == t;
  }

  lemma SplitTwo(a: string, b: string, sep: char)
    requires sep !in a && sep !in b
    ensures Split(a + [sep] + b, sep) == [a, b]
  {
    SplitPrefix(a, b, sep);
    SplitNoSep(b, sep);
  }

  lemma SplitThree(a: string, b: string, c: string, sep: char)
    requires sep !in a && sep !in b && sep !in c
    ensures Split(a + [sep] + b + [sep] + c, sep) == [a, b, c]
  {
    assert a + [sep] + b + [sep] + c == a + [sep] + (b + [sep] + c);
    SplitPrefix(a, b + [sep] + c, sep);
    SplitTwo(b, c, sep);
  }

  /** One occurrence of `pat` after a chunk free of its first character is rewritten. */
  lemma ReplaceOnce(a: string, b: string, pat: string, repl: string)
    requires pat != [] && pat[0] !in a
    ensures Replace(a + (pat + b), pat, repl) == a + (repl + Replace(b, pat, repl))
  {
    ReplaceSkip(a, pat + b, pat, repl);
    ReplaceHit(b, pat, repl);
  }

  /** Three occurrences of `pat`, separated by chunks free of its first character, are all rewritten. */
  lemma ReplaceThree(a: string, b: string, c: string, d: string, pat: string, repl: string)
    requires pat != [] && pat[0] !in a && pat[0] !in b && pat[0] !in c && pat[0] !in d
    ensures Replace(a + (pat + (b + (pat + (c + (pat + d))))), pat, repl)
            == a + (repl + (b + (repl + (c + (repl + d)))))
  {
    ReplaceAbsent(d, pat, repl, pat[0]);
    ReplaceOnce(c, d, pat, repl);
    ReplaceOnce(b, c + (pat + d), pat, repl);
    ReplaceOnce(a, b + (pat + (c + (pat + d))), pat, repl);
  }
}
