/**
 * The two sequence operations the pipeline is built from, Swift's `filter` and
 * `compactMap`, with the facts the rest of the model relies on: which elements
 * they keep, that they keep the order, and how often each element occurs.
 */
module Collections {
  import opened Wrappers

  /** `s.filter(keep)` */
  function Filter<T>(s: seq<T>, keep: T -> bool): (r: seq<T>)
    ensures |r| <= |s|
    ensures forall k :: 0 <= k < |r| ==> keep(r[k])
  {
    if s == [] then []
    else
      var last := s[|s| - 1];
      Filter(s[..|s| - 1], keep) + (if keep(last) then [last] else [])
  }

  /** An element is kept exactly when it occurs and passes the test. */
  lemma {:induction false} FilterMembers<T>(s: seq<T>, keep: T -> bool, x: T)
    ensures x in Filter(s, keep) <==> x in s && keep(x)
  {
    if s != [] {
      var init := s[..|s| - 1];
      FilterMembers(init, keep, x);
      assert s == init + [s[|s| - 1]];
    }
  }

  /** Filtering keeps the order: the filter of a concatenation is the concatenation of
      the filters. */
  lemma {:induction false} FilterAppend<T>(a: seq<T>, b: seq<T>, keep: T -> bool)
    ensures Filter(a + b, keep) == Filter(a, keep) + Filter(b, keep)
  {
    if b == [] {
      assert a + b == a;
    } else {
      var init := b[..|b| - 1];
      FilterAppend(a, init, keep);
      assert (a + b)[..|a + b| - 1] == a + init;
    }
  }

  /** A kept element occurs in the result as often as in the input; any other not at all. */
  lemma {:induction false} FilterCount<T>(s: seq<T>, keep: T -> bool, x: T)
    ensures multiset(Filter(s, keep))[x] == if keep(x) then multiset(s)[x] else 0
  {
    if s != [] {
      var init := s[..|s| - 1];
      FilterCount(init, keep, x);
      assert s == init + [s[|s| - 1]];
    }
  }

  /** `s.compactMap(f)` */
  function CompactMap<A, B>(s: seq<A>, f: A -> Option<B>): (r: seq<B>)
    ensures |r| <= |s|
  {
    if s == [] then []
    else
      var init := CompactMap(s[..|s| - 1], f);
      match f(s[|s| - 1])
      case None => init
      case Some(y) => init + [y]
  }

  /** The results keep the order of the inputs. */
  lemma {:induction false} CompactMapAppend<A, B>(a: seq<A>, b: seq<A>, f: A -> Option<B>)
    ensures CompactMap(a + b, f) == CompactMap(a, f) + CompactMap(b, f)
  {
    if b == [] {
      assert a + b == a;
    } else {
      var init := b[..|b| - 1];
      CompactMapAppend(a, init, f);
      assert (a + b)[..|a + b| - 1] == a + init;
    }
  }

  /** A value is in the result exactly when some input maps to it. */
  lemma {:induction false} CompactMapMembers<A, B>(s: seq<A>, f: A -> Option<B>, y: B)
    ensures y in CompactMap(s, f) <==> exists i :: 0 <= i < |s| && f(s[i]) == Some(y)
  {
    if s != [] {
      var init := s[..|s| - 1];
      CompactMapMembers(init, f, y);
      assert forall i :: 0 <= i < |init| ==> init[i] == s[i];
    }
  }

  /** Nothing is dropped exactly when every input maps to a value, and then the result
      holds, position by position, the value of each input. */
  lemma {:induction false} CompactMapTotal<A, B>(s: seq<A>, f: A -> Option<B>)
    ensures |CompactMap(s, f)| == |s| <==> forall i :: 0 <= i < |s| ==> f(s[i]).Some?
    ensures |CompactMap(s, f)| == |s| ==> forall k :: 0 <= k < |s| ==> Some(CompactMap(s, f)[k]) == f(s[k])
  {
    if s != [] {
      var init := s[..|s| - 1];
      CompactMapTotal(init, f);
      assert forall i :: 0 <= i < |init| ==> init[i] == s[i];
    }
  }

  /** When every input maps to nothing, the result is empty. */
  lemma {:induction false} CompactMapNone<A, B>(s: seq<A>, f: A -> Option<B>)
    requires forall i :: 0 <= i < |s| ==> f(s[i]).None?
    ensures CompactMap(s, f) == []
  {
    if s != [] {
      CompactMapNone(s[..|s| - 1], f);
    }
  }
}
