/** Order-preserving selection: the subsequence relation and its basic laws. */
module Seqs {

  /**
   * `a` is `b` with some elements left out and the rest in their original
   * order (matched greedily from the end).
   */
  predicate IsSubseq<T(==)>(a: seq<T>, b: seq<T>)
    decreases |b|
  {
    if |a| == 0 then true
    else if |b| == 0 then false
    else if a[|a| - 1] == b[|b| - 1] then IsSubseq(a[..|a| - 1], b[..|b| - 1])
    else IsSubseq(a, b[..|b| - 1])
  }

  lemma {:induction false} SubseqDropLast<T>(a: seq<T>, b: seq<T>)
    requires |a| > 0 && IsSubseq(a, b)
    ensures IsSubseq(a[..|a| - 1], b)
    decreases |b|, 0
  {
    if |b| > 0 {
      if a[|a| - 1] == b[|b| - 1] {
        SubseqSkip(a[..|a| - 1], b[..|b| - 1], b[|b| - 1]);
        assert b[..|b| - 1] + [b[|b| - 1]] == b;
      } else {
        SubseqDropLast(a, b[..|b| - 1]);
        SubseqSkip(a[..|a| - 1], b[..|b| - 1], b[|b| - 1]);
        assert b[..|b| - 1] + [b[|b| - 1]] == b;
      }
    }
  }

  /** An extra element at the end of `b` may be skipped. */
  lemma {:induction false} SubseqSkip<T>(a: seq<T>, b: seq<T>, x: T)
    requires IsSubseq(a, b)
    ensures IsSubseq(a, b + [x])
    decreases |b|, 1
  {
    if |a| > 0 {
      assert (b + [x])[..|b|] == b;
      if a[|a| - 1] == x {
        SubseqDropLast(a, b);
      }
    }
  }

  /** A common last element may be kept. */
  lemma SubseqKeep<T>(a: seq<T>, b: seq<T>, x: T)
    requires IsSubseq(a, b)
    ensures IsSubseq(a + [x], b + [x])
  {
    assert (a + [x])[..|a|] == a;
    assert (b + [x])[..|b|] == b;
  }

  lemma {:induction false} SubseqMembers<T>(a: seq<T>, b: seq<T>)
    requires IsSubseq(a, b)
    ensures |a| <= |b|
    ensures forall x :: x in a ==> x in b
    decreases |b|
  {
    if |a| > 0 && |b| > 0 {
      if a[|a| - 1] == b[|b| - 1] {
        SubseqMembers(a[..|a| - 1], b[..|b| - 1]);
        assert a == a[..|a| - 1] + [a[|a| - 1]];
        assert b == b[..|b| - 1] + [b[|b| - 1]];
      } else {
        SubseqMembers(a, b[..|b| - 1]);
        assert b == b[..|b| - 1] + [b[|b| - 1]];
      }
    }
  }

  lemma {:induction false} SubseqRefl<T>(a: seq<T>)
    ensures IsSubseq(a, a)
    decreases |a|
  {
    if |a| > 0 {
      SubseqRefl(a[..|a| - 1]);
    }
  }

  /** A common prefix may be kept in front of a subsequence. */
  lemma {:induction false} SubseqPrefix<T>(p: seq<T>, a: seq<T>, b: seq<T>)
    requires IsSubseq(a, b)
    ensures IsSubseq(p + a, p + b)
    decreases |b|
  {
    if |b| == 0 {
      assert a == [];
      assert p + a == p && p + b == p;
      SubseqRefl(p);
    } else if |a| > 0 && a[|a| - 1] == b[|b| - 1] {
      SubseqPrefix(p, a[..|a| - 1], b[..|b| - 1]);
      assert (p + a)[..|p + a| - 1] == p + a[..|a| - 1];
      assert (p + b)[..|p + b| - 1] == p + b[..|b| - 1];
    } else if |a| > 0 {
      SubseqPrefix(p, a, b[..|b| - 1]);
      assert (p + b)[..|p + b| - 1] == p + b[..|b| - 1];
    } else {
      SubseqRefl(p);
      SubseqEmptyTail(p, b);
      assert p + a == p;
    }
  }

  lemma {:induction false} SubseqEmptyTail<T>(p: seq<T>, b: seq<T>)
    ensures IsSubseq(p, p + b)
    decreases |b|
  {
    if |b| == 0 {
      assert p + b == p;
      SubseqRefl(p);
    } else {
      SubseqEmptyTail(p, b[..|b| - 1]);
      SubseqSkip(p, p + b[..|b| - 1], b[|b| - 1]);
      assert p + b[..|b| - 1] + [b[|b| - 1]] == p + b;
    }
  }

  lemma {:induction false} SubseqTransitive<T>(a: seq<T>, b: seq<T>, c: seq<T>)
    requires IsSubseq(a, b) && IsSubseq(b, c)
    ensures IsSubseq(a, c)
    decreases |c|
  {
    if |a| > 0 {
      SubseqMembers(b, c);
      SubseqMembers(a, b);
      var c' := c[..|c| - 1];
      assert c == c' + [c[|c| - 1]];
      if b[|b| - 1] == c[|c| - 1] {
        var b' := b[..|b| - 1];
        if a[|a| - 1] == b[|b| - 1] {
          SubseqTransitive(a[..|a| - 1], b', c');
          SubseqKeep(a[..|a| - 1], c', c[|c| - 1]);
          assert a == a[..|a| - 1] + [a[|a| - 1]];
        } else {
          SubseqTransitive(a, b', c');
          SubseqSkip(a, c', c[|c| - 1]);
        }
      } else {
        SubseqTransitive(a, b, c');
        SubseqSkip(a, c', c[|c| - 1]);
      }
    }
  }

  // ---------------------------------------------------------------- comprehension filters

  /** `[x for x in s if keep(x)]`. */
  function Filter<T(==,!new)>(s: seq<T>, keep: T -> bool): (r: seq<T>)
    ensures forall x :: x in r <==> x in s && keep(x)
    ensures IsSubseq(r, s)
    decreases |s|
  {
    if s == [] then []
    else
      var init := s[..|s| - 1];
      var x := s[|s| - 1];
      assert s == init + [x];
      var r := Filter(init, keep);
      if keep(x) then
        SubseqKeep(r, init, x);
        r + [x]
      else
        SubseqSkip(r, init, x);
        r
  }

  /** A filter that every element passes changes nothing. */
  lemma {:induction false} FilterKeepsAll<T(!new)>(s: seq<T>, keep: T -> bool)
    requires forall x :: x in s ==> keep(x)
    ensures Filter(s, keep) == s
    decreases |s|
  {
    if s != [] {
      var init := s[..|s| - 1];
      assert s == init + [s[|s| - 1]];
      FilterKeepsAll(init, keep);
    }
  }
}
