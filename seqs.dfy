/** Order-preserving filtering of sequences, the model of Python's `[x for x in xs if p(x)]`. */
module Seqs {

  /** The elements of `s` that satisfy `p`, in their original order. */
  function Filter<T>(s: seq<T>, p: T -> bool): seq<T>
  {
    if s == [] then [] else (if p(s[0]) then [s[0]] else []) + Filter(s[1..], p)
  }

  /** `a` can be obtained from `b` by deleting elements (order is kept). */
  predicate IsSubseq<T(==)>(a: seq<T>, b: seq<T>)
  {
    if a == [] then true
    else if b == [] then false
    else if a[0] == b[0] then IsSubseq(a[1..], b[1..])
    else IsSubseq(a, b[1..])
  }

  lemma {:induction false} FilterMembership<T>(s: seq<T>, p: T -> bool, x: T)
    ensures x in Filter(s, p) <==> x in s && p(x)
  {
    if s != [] {
      FilterMembership(s[1..], p, x);
      assert s == [s[0]] + s[1..];
    }
  }

  lemma {:induction false} FilterIsSubseq<T>(s: seq<T>, p: T -> bool)
    ensures IsSubseq(Filter(s, p), s)
  {
    if s != [] {
      FilterIsSubseq(s[1..], p);
      if p(s[0]) {
        assert Filter(s, p)[1..] == Filter(s[1..], p);
      } else {
        assert Filter(s, p) == Filter(s[1..], p);
        SubseqDropHead(Filter(s[1..], p), s);
      }
    }
  }

  /** A subsequence of the tail is a subsequence of the whole. */
  lemma {:induction false} SubseqDropHead<T>(a: seq<T>, b: seq<T>)
    requires b != [] && IsSubseq(a, b[1..])
    ensures IsSubseq(a, b)
  {
    if a != [] && a[0] == b[0] {
      // IsSubseq(a, b) unfolds to IsSubseq(a[1..], b[1..]); it follows from IsSubseq(a, b[1..]).
      SubseqTail(a, b[1..]);
    }
  }

  /** Dropping the first element of a subsequence keeps it a subsequence. */
  lemma {:induction false} SubseqTail<T>(a: seq<T>, b: seq<T>)
    requires a != [] && IsSubseq(a, b)
    ensures IsSubseq(a[1..], b)
  {
    assert b != [];
    if a[0] == b[0] {
      if a[1..] != [] {
        SubseqDropHead(a[1..], b);
      }
    } else {
      SubseqTail(a, b[1..]);
      if a[1..] != [] {
        SubseqDropHead(a[1..], b);
      }
    }
  }

  lemma {:induction false} FilterAppend<T>(s: seq<T>, t: seq<T>, p: T -> bool)
    ensures Filter(s + t, p) == Filter(s, p) + Filter(t, p)
  {
    if s == [] {
      assert s + t == t;
    } else {
      assert (s + t)[0] == s[0];
      assert (s + t)[1..] == s[1..] + t;
      FilterAppend(s[1..], t, p);
      var h := if p(s[0]) then [s[0]] else [];
      calc {
        Filter(s + t, p);
        h + Filter(s[1..] + t, p);
        h + (Filter(s[1..], p) + Filter(t, p));
        (h + Filter(s[1..], p)) + Filter(t, p);
        Filter(s, p) + Filter(t, p);
      }
    }
  }

  lemma {:induction false} SubseqRefl<T>(s: seq<T>)
    ensures IsSubseq(s, s)
  {
    if s != [] {
      SubseqRefl(s[1..]);
    }
  }

  lemma {:induction false} SubseqTrans<T>(a: seq<T>, b: seq<T>, c: seq<T>)
    requires IsSubseq(a, b) && IsSubseq(b, c)
    ensures IsSubseq(a, c)
    decreases |c|
  {
    if a != [] {
      assert b != [] && c != [];
      if b[0] == c[0] {
        if a[0] == b[0] {
          SubseqTrans(a[1..], b[1..], c[1..]);
        } else {
          SubseqTrans(a, b[1..], c[1..]);
          SubseqDropHead(a, c);
        }
      } else {
        SubseqTrans(a, b, c[1..]);
        SubseqDropHead(a, c);
      }
    }
  }

  lemma {:induction false} SubseqLength<T>(a: seq<T>, b: seq<T>)
    requires IsSubseq(a, b)
    ensures |a| <= |b|
  {
    if a != [] {
      if a[0] == b[0] {
        SubseqLength(a[1..], b[1..]);
      } else {
        SubseqLength(a, b[1..]);
      }
    }
  }

  /** The union of `f(y)` over the elements `y` of `xs`, accumulated left to right. */
  function UnionOver<T, U>(xs: seq<T>, f: T -> set<U>): set<U>
  {
    if xs == [] then {} else UnionOver(xs[..|xs| - 1], f) + f(xs[|xs| - 1])
  }

  /** `x` is in the union exactly when some element of `xs` contributes it. */
  lemma {:induction false} UnionOverMember<T, U>(xs: seq<T>, f: T -> set<U>, x: U)
    ensures x in UnionOver(xs, f) <==> exists y :: y in xs && x in f(y)
  {
    if xs != [] {
      var init, last := xs[..|xs| - 1], xs[|xs| - 1];
      UnionOverMember(init, f, x);
      assert xs == init + [last];
      if x in UnionOver(xs, f) {
        if x in UnionOver(init, f) {
          var y :| y in init && x in f(y);
          assert y in xs;
        } else {
          assert last in xs;
        }
      } else {
        forall y | y in xs
          ensures x !in f(y)
        {
          if y !in init {
            assert y == last;
          }
        }
      }
    }
  }
}
