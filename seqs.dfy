/** Order-preserving operations on sequences: the row filters of a data frame. */
module Seqs {
  import opened Wrappers

  /** The first `n` elements of `s`, or all of `s` when it is shorter (`head(n)`). */
  function Take<T>(s: seq<T>, n: nat): (r: seq<T>)
    ensures |r| == if |s| < n then |s| else n
    ensures r == s[..|r|]
  {
    if |s| <= n then s else s[..n]
  }

  /** Applies `f` to every element, in place (a column overwrite). */
  function Map<A, B>(f: A -> B, s: seq<A>): (r: seq<B>)
    ensures |r| == |s|
  {
    seq(|s|, i requires 0 <= i < |s| => f(s[i]))
  }

  /** Keeps, in order, the `b` of every element `a` with `f(a) == Some(b)`. */
  function FilterMap<A, B>(f: A -> Option<B>, s: seq<A>): (r: seq<B>)
    ensures |r| <= |s|
  {
    if s == [] then []
    else
      var init := FilterMap(f, s[..|s| - 1]);
      match f(s[|s| - 1])
      case None => init
      case Some(b) => init + [b]
  }

  lemma {:induction false} FilterMapSnoc<A, B>(f: A -> Option<B>, s: seq<A>, a: A)
    ensures FilterMap(f, s + [a]) == FilterMap(f, s) + (if f(a).Some? then [f(a).value] else [])
  {
    assert (s + [a])[..|s|] == s;
  }

  /** An element is kept exactly when some input element maps to it. */
  lemma {:induction false} FilterMapMember<A, B>(f: A -> Option<B>, s: seq<A>, b: B)
    ensures b in FilterMap(f, s) <==> exists i :: 0 <= i < |s| && f(s[i]) == Some(b)
  {
    if s != [] {
      var init := s[..|s| - 1];
      FilterMapMember(f, init, b);
      if exists i :: 0 <= i < |init| && f(init[i]) == Some(b) {
        var i :| 0 <= i < |init| && f(init[i]) == Some(b);
        assert f(s[i]) == Some(b);
      }
      if exists i :: 0 <= i < |s| && f(s[i]) == Some(b) {
        var i :| 0 <= i < |s| && f(s[i]) == Some(b);
        if i < |s| - 1 {
          assert f(init[i]) == Some(b);
        }
      }
    }
  }

  /** Filtering twice is filtering once with the composed step. */
  lemma {:induction false} FilterMapFuse<A, B, C>(f: A -> Option<B>, g: B -> Option<C>, h: A -> Option<C>, s: seq<A>)
    requires forall a :: h(a) == (match f(a) case None => None case Some(b) => g(b))
    ensures FilterMap(g, FilterMap(f, s)) == FilterMap(h, s)
  {
    if s != [] {
      var init := s[..|s| - 1];
      var a := s[|s| - 1];
      FilterMapFuse(f, g, h, init);
      assert s == init + [a];
      FilterMapSnoc(f, init, a);
      if f(a).Some? {
        FilterMapSnoc(g, FilterMap(f, init), f(a).value);
      }
    }
  }

  /** Filtering after a column overwrite is filtering with the overwrite inside. */
  lemma {:induction false} FilterMapAfterMap<A, B, C>(g: A -> B, f: B -> Option<C>, h: A -> Option<C>, s: seq<A>)
    requires forall a :: h(a) == f(g(a))
    ensures FilterMap(f, Map(g, s)) == FilterMap(h, s)
  {
    if s != [] {
      var init := s[..|s| - 1];
      FilterMapAfterMap(g, f, h, init);
      assert Map(g, s)[..|s| - 1] == Map(g, init);
    }
  }

  /** A column overwrite after filtering is filtering with the overwrite inside. */
  lemma {:induction false} MapAfterFilterMap<A, B, C>(f: A -> Option<B>, g: B -> C, h: A -> Option<C>, s: seq<A>)
    requires forall a :: h(a) == f(a).Map(g)
    ensures Map(g, FilterMap(f, s)) == FilterMap(h, s)
  {
    if s != [] {
      var init := s[..|s| - 1];
      MapAfterFilterMap(f, g, h, init);
      var a := s[|s| - 1];
      if f(a).Some? {
        assert Map(g, FilterMap(f, init) + [f(a).value]) == Map(g, FilterMap(f, init)) + [g(f(a).value)];
      }
    }
  }

  /** The output of one element under `FilterMap`. */
  function Kept<B>(o: Option<B>): seq<B>
  {
    if o.Some? then [o.value] else []
  }

  /** `FilterMap` over short sequences, element by element. */
  lemma FilterMapFive<A, B>(f: A -> Option<B>, s: seq<A>)
    requires |s| == 5
    ensures FilterMap(f, s) == Kept(f(s[0])) + Kept(f(s[1])) + Kept(f(s[2])) + Kept(f(s[3])) + Kept(f(s[4]))
  {
    FilterMapFour(f, s[..4]);
    FilterMapSnoc(f, s[..4], s[4]);
    assert s[..4] + [s[4]] == s;
  }

  lemma FilterMapFour<A, B>(f: A -> Option<B>, s: seq<A>)
    requires |s| == 4
    ensures FilterMap(f, s) == Kept(f(s[0])) + Kept(f(s[1])) + Kept(f(s[2])) + Kept(f(s[3]))
  {
    FilterMapTwo(f, s[..2]);
    FilterMapSnoc(f, s[..2], s[2]);
    assert s[..2] + [s[2]] == s[..3];
    FilterMapSnoc(f, s[..3], s[3]);
    assert s[..3] + [s[3]] == s;
  }

  lemma FilterMapTwo<A, B>(f: A -> Option<B>, s: seq<A>)
    requires |s| == 2
    ensures FilterMap(f, s) == Kept(f(s[0])) + Kept(f(s[1]))
  {
    FilterMapSnoc(f, [], s[0]);
    FilterMapSnoc(f, [s[0]], s[1]);
    assert [s[0]] + [s[1]] == s;
  }
}
