/** JavaScript's `array.filter(p).map(g)` in one step: `f` returns `None` for the
    elements the filter drops and `Some(g(x))` for the ones it keeps. */
module Seqs {
  import opened Wrappers

  function FilterMap<A, B>(s: seq<A>, f: A -> Option<B>): (r: seq<B>)
    ensures |r| <= |s|
  {
    if s == [] then [] else
      (match f(s[0]) case Some(y) => [y] case None => []) + FilterMap(s[1..], f)
  }

  /** Filtering distributes over concatenation: the kept images keep their input order. */
  lemma {:induction false} FilterMapAppend<A, B>(a: seq<A>, b: seq<A>, f: A -> Option<B>)
    ensures FilterMap(a + b, f) == FilterMap(a, f) + FilterMap(b, f)
  {
    if a == [] {
      assert a + b == b;
    } else {
      assert (a + b)[0] == a[0];
      assert (a + b)[1..] == a[1..] + b;
      FilterMapAppend(a[1..], b, f);
    }
  }

  /** One more element at the end adds its image, if any, at the end. */
  lemma FilterMapSnoc<A, B>(a: seq<A>, x: A, f: A -> Option<B>)
    ensures FilterMap(a + [x], f) == FilterMap(a, f) + (match f(x) case Some(y) => [y] case None => [])
  {
    FilterMapAppend(a, [x], f);
    assert FilterMap([x], f) == (match f(x) case Some(y) => [y] case None => []) + FilterMap([x][1..], f);
  }

  /** `y` is in the result exactly when some element of `s` maps to `Some(y)`. */
  lemma {:induction false} FilterMapMember<A, B>(s: seq<A>, f: A -> Option<B>, y: B)
    ensures y in FilterMap(s, f) <==> exists i :: 0 <= i < |s| && f(s[i]) == Some(y)
  {
    if s != [] {
      FilterMapMember(s[1..], f, y);
      if exists i :: 0 <= i < |s| && f(s[i]) == Some(y) {
        var i :| 0 <= i < |s| && f(s[i]) == Some(y);
        if i > 0 {
          assert s[1..][i - 1] == s[i];
        }
      }
      if exists i :: 0 <= i < |s[1..]| && f(s[1..][i]) == Some(y) {
        var i :| 0 <= i < |s[1..]| && f(s[1..][i]) == Some(y);
        assert s[i + 1] == s[1..][i];
      }
    }
  }

  /** Nothing is dropped when every element maps to `Some`: the result is the plain map. */
  lemma {:induction false} FilterMapAllKept<A, B>(s: seq<A>, f: A -> Option<B>)
    requires forall i :: 0 <= i < |s| ==> f(s[i]).Some?
    ensures |FilterMap(s, f)| == |s|
    ensures forall i :: 0 <= i < |s| ==> FilterMap(s, f)[i] == f(s[i]).value
  {
    if s != [] {
      assert forall i :: 0 <= i < |s[1..]| ==> s[1..][i] == s[i + 1];
      FilterMapAllKept(s[1..], f);
    }
  }

  /** Everything is dropped when every element maps to `None`. */
  lemma {:induction false} FilterMapNoneKept<A, B>(s: seq<A>, f: A -> Option<B>)
    requires forall i :: 0 <= i < |s| ==> f(s[i]).None?
    ensures FilterMap(s, f) == []
  {
    if s != [] {
      assert forall i :: 0 <= i < |s[1..]| ==> s[1..][i] == s[i + 1];
      FilterMapNoneKept(s[1..], f);
    }
  }
}
