/** Value types and sequence helpers shared by every module of the model. */
module Common {

  /** A value that may be absent: JavaScript's `null` / `undefined`. */
  datatype Option<T> = None | Some(value: T)

  /** The outcome of an operation that either returns a value or throws an
      `Error` carrying a message. */
  datatype Result<T> = Ok(value: T) | Err(error: string)

  /** An optional value as a list of none or one element. */
  function Present<T>(o: Option<T>): (r: seq<T>)
    ensures o.None? ==> r == []
    ensures o.Some? ==> r == [o.value]
  {
    if o.None? then [] else [o.value]
  }

  /** `xs.map(f).filter(Boolean)` for a callback that returns `null` to drop
      an element: the values `f` gives, in the order of `xs`. */
  function FilterMap<A, B>(f: A -> Option<B>, xs: seq<A>): (r: seq<B>)
    ensures |r| <= |xs|
  {
    if |xs| == 0 then [] else Present(f(xs[0])) + FilterMap(f, xs[1..])
  }

  /** The first element contributes its value, if any, in front of the
      values of the rest. */
  lemma FilterMapCons<A, B>(f: A -> Option<B>, x: A, rest: seq<A>)
    ensures FilterMap(f, [x] + rest) == Present(f(x)) + FilterMap(f, rest)
  {
    assert ([x] + rest)[1..] == rest;
  }

  /** Filtering a concatenation filters each part. */
  lemma {:induction false} FilterMapConcat<A, B>(f: A -> Option<B>, a: seq<A>, b: seq<A>)
    ensures FilterMap(f, a + b) == FilterMap(f, a) + FilterMap(f, b)
    decreases |a|
  {
    if |a| > 0 {
      FilterMapConcat(f, a[1..], b);
      assert (a + b)[0] == a[0] && (a + b)[1..] == a[1..] + b;
      var p, x, y := Present(f(a[0])), FilterMap(f, a[1..]), FilterMap(f, b);
      assert FilterMap(f, a + b) == p + (x + y);
      assert FilterMap(f, a) == p + x;
      assert p + (x + y) == (p + x) + y;
    } else {
      assert a + b == b;
    }
  }

  /** An element is in the result exactly when `f` gives it for some
      element of the input. */
  lemma {:induction false} FilterMapIn<A, B>(f: A -> Option<B>, xs: seq<A>, y: B)
    ensures y in FilterMap(f, xs) <==> exists k :: 0 <= k < |xs| && f(xs[k]) == Some(y)
    decreases |xs|
  {
    if |xs| > 0 {
      FilterMapIn(f, xs[1..], y);
      assert FilterMap(f, xs) == Present(f(xs[0])) + FilterMap(f, xs[1..]);
      if exists k :: 0 <= k < |xs| && f(xs[k]) == Some(y) {
        var k :| 0 <= k < |xs| && f(xs[k]) == Some(y);
        if k > 0 {
          assert f(xs[1..][k - 1]) == Some(y);
        }
      }
      if exists k :: 0 <= k < |xs[1..]| && f(xs[1..][k]) == Some(y) {
        var k :| 0 <= k < |xs[1..]| && f(xs[1..][k]) == Some(y);
        assert f(xs[k + 1]) == Some(y);
      }
    }
  }

  /** No element occurs twice. */
  predicate NoDups<T(==)>(s: seq<T>) {
    forall i, j :: 0 <= i < j < |s| ==> s[i] != s[j]
  }

  /** A concatenation holds only what its parts hold. */
  lemma AvoidsConcat<T>(a: seq<T>, b: seq<T>, x: T)
    requires x !in a && x !in b
    ensures x !in a + b
  {
  }

  /** `Array.prototype.indexOf`: the position of the first `x` in `s`,
      with `|s|` standing for JavaScript's `-1` when there is none. */
  function FirstIndex<T(==)>(s: seq<T>, x: T): (r: nat)
    ensures r <= |s|
    ensures r < |s| ==> s[r] == x
    ensures x !in s[..r]
    ensures r == |s| <==> x !in s
  {
    if |s| == 0 then 0
    else if s[0] == x then 0
    else
      var r := 1 + FirstIndex(s[1..], x);
      assert s[..r] == [s[0]] + s[1..][..r - 1];
      r
  }

  /** The first `x` of `a + [x] + b` is the one after `a` when `a` has none. */
  lemma FirstIndexConcat<T>(a: seq<T>, x: T, b: seq<T>)
    requires x !in a
    ensures FirstIndex(a + [x] + b, x) == |a|
  {
    var s := a + [x] + b;
    assert s[|a|] == x;
    assert forall k :: 0 <= k < |a| ==> s[k] == a[k];
  }

  /** `indexOf` followed by `splice(index, 1)` when the element is present:
      the first occurrence of `x` is cut out, nothing else moves. */
  function RemoveFirst<T(==)>(s: seq<T>, x: T): (r: seq<T>)
    ensures x in s ==> |r| == |s| - 1
    ensures x !in s ==> r == s
    ensures x in s ==> forall k :: 0 <= k < |r| ==>
              r[k] == s[if k < FirstIndex(s, x) then k else k + 1]
  {
    var i := FirstIndex(s, x);
    if i == |s| then s else s[..i] + s[i + 1..]
  }

  /** Removing the first occurrence takes exactly one copy of `x` out of the
      multiset of elements. */
  lemma RemoveFirstMultiset<T>(s: seq<T>, x: T)
    ensures multiset(RemoveFirst(s, x)) == multiset(s) - multiset{x}
  {
    var i := FirstIndex(s, x);
    if i < |s| {
      assert s == s[..i] + [s[i]] + s[i + 1..];
    } else {
      assert x !in multiset(s);
    }
  }

  /** In a list without duplicates, removing `x` removes it entirely and keeps
      the list free of duplicates. */
  lemma RemoveFirstNoDups<T>(s: seq<T>, x: T)
    requires NoDups(s)
    ensures NoDups(RemoveFirst(s, x))
    ensures x !in RemoveFirst(s, x)
    ensures forall y :: y in RemoveFirst(s, x) <==> y in s && y != x
  {
    var i := FirstIndex(s, x);
    var r := RemoveFirst(s, x);
    if i < |s| {
      forall a, b | 0 <= a < b < |r| ensures r[a] != r[b] {
        var a' := if a < i then a else a + 1;
        var b' := if b < i then b else b + 1;
        assert r[a] == s[a'] && r[b] == s[b'] && a' < b';
      }
      forall y ensures y in r <==> y in s && y != x {
        if y in r {
          var k :| 0 <= k < |r| && r[k] == y;
          var k' := if k < i then k else k + 1;
          assert s[k'] == y && k' != i;
        }
        if y in s && y != x {
          var k :| 0 <= k < |s| && s[k] == y;
          assert k != i;
          var k' := if k < i then k else k - 1;
          assert r[k'] == y;
        }
      }
    }
  }
}
