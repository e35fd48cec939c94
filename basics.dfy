/** Optional values (NaN or "nothing" in JavaScript) and the two list
    operations the parser is built from: mapping a function over a list and
    keeping the present values of a list of optional values. */
module Basics {

  datatype Option<+T> = None | Some(value: T)

  /** The elements an optional value contributes to a list: none or one. */
  function OptionToSeq<T>(o: Option<T>): (s: seq<T>)
    ensures |s| <= 1
    ensures o.Some? <==> |s| == 1
    ensures o.Some? ==> s[0] == o.value
  {
    match o
    case None => []
    case Some(v) => [v]
  }

  /** list.map(f): f applied to every element, in order. */
  function Map<A, B>(f: A -> B, s: seq<A>): (r: seq<B>)
    ensures |r| == |s|
    ensures forall i :: 0 <= i < |s| ==> r[i] == f(s[i])
  {
    seq(|s|, i requires 0 <= i < |s| => f(s[i]))
  }

  /** Mapping distributes over concatenation. */
  lemma {:induction false} MapConcat<A, B>(f: A -> B, a: seq<A>, b: seq<A>)
    ensures Map(f, a + b) == Map(f, a) + Map(f, b)
  {
    var l, r := Map(f, a + b), Map(f, a) + Map(f, b);
    forall i | 0 <= i < |l|
      ensures l[i] == r[i]
    {
      if i < |a| {
        assert (a + b)[i] == a[i];
      } else {
        assert (a + b)[i] == b[i - |a|];
      }
    }
  }

  /** The values of the present entries, in order. */
  function Somes<T>(os: seq<Option<T>>): (r: seq<T>)
    ensures |r| <= |os|
  {
    if os == [] then [] else Somes(os[..|os| - 1]) + OptionToSeq(os[|os| - 1])
  }

  /** Keeping the present values distributes over concatenation. */
  lemma {:induction false} SomesConcat<T>(a: seq<Option<T>>, b: seq<Option<T>>)
    ensures Somes(a + b) == Somes(a) + Somes(b)
    decreases |b|
  {
    if b == [] {
      assert a + b == a;
    } else {
      var b' := b[..|b| - 1];
      assert (a + b)[..|a + b| - 1] == a + b';
      assert (a + b)[|a + b| - 1] == b[|b| - 1];
      SomesConcat(a, b');
    }
  }

  /** idx lists, strictly increasing, the positions of exactly the present
      entries of os, and r[k] is the value at position idx[k]. */
  ghost predicate PresentAt<T>(os: seq<Option<T>>, r: seq<T>, idx: seq<int>) {
    && |idx| == |r|
    && (forall k :: 0 <= k < |idx| ==> 0 <= idx[k] < |os| && os[idx[k]] == Some(r[k]))
    && (forall k, l :: 0 <= k < l < |idx| ==> idx[k] < idx[l])
    && (forall j :: 0 <= j < |os| ==> (os[j].Some? <==> j in idx))
  }

  /** Appending one entry keeps PresentAt, with one more position when the
      entry is present. */
  lemma {:induction false} PresentAtSnoc<T>(os: seq<Option<T>>, r: seq<T>, idx: seq<int>, o: Option<T>)
    requires PresentAt(os, r, idx)
    ensures PresentAt(os + [o], r + OptionToSeq(o), if o.Some? then idx + [|os|] else idx)
  {
    if o.Some? {
      PresentAtSnocSome(os, r, idx, o.value);
    } else {
      PresentAtSnocNone(os, r, idx);
      assert r + OptionToSeq(o) == r;
    }
  }

  lemma {:induction false} PresentAtSnocSome<T>(os: seq<Option<T>>, r: seq<T>, idx: seq<int>, v: T)
    requires PresentAt(os, r, idx)
    ensures PresentAt(os + [Some(v)], r + [v], idx + [|os|])
  {
    var os', r', idx' := os + [Some(v)], r + [v], idx + [|os|];
    forall k | 0 <= k < |idx'|
      ensures 0 <= idx'[k] < |os'| && os'[idx'[k]] == Some(r'[k])
    {
      if k < |idx| {
        assert idx'[k] == idx[k] && r'[k] == r[k];
        assert os'[idx[k]] == os[idx[k]];
      }
    }
    forall k, l | 0 <= k < l < |idx'|
      ensures idx'[k] < idx'[l]
    {
      assert idx'[k] == idx[k];
      if l < |idx| {
        assert idx'[l] == idx[l];
      }
    }
    forall j | 0 <= j < |os'|
      ensures os'[j].Some? <==> j in idx'
    {
      if j < |os| {
        assert os'[j] == os[j];
        assert j in idx' <==> j in idx;
      }
    }
  }

  lemma {:induction false} PresentAtSnocNone<T>(os: seq<Option<T>>, r: seq<T>, idx: seq<int>)
    requires PresentAt(os, r, idx)
    ensures PresentAt(os + [None], r, idx)
  {
    var os' := os + [None];
    forall k | 0 <= k < |idx|
      ensures 0 <= idx[k] < |os'| && os'[idx[k]] == Some(r[k])
    {
      assert os'[idx[k]] == os[idx[k]];
    }
    forall j | 0 <= j < |os'|
      ensures os'[j].Some? <==> j in idx
    {
      if j < |os| {
        assert os'[j] == os[j];
      } else {
        assert forall k :: 0 <= k < |idx| ==> idx[k] < |os|;
      }
    }
  }

  /** Where each kept value comes from: the positions of the present
      entries, in order. */
  lemma {:induction false} SomesPositions<T>(os: seq<Option<T>>) returns (idx: seq<int>)
    ensures PresentAt(os, Somes(os), idx)
    decreases |os|
  {
    if os == [] {
      idx := [];
    } else {
      var last := |os| - 1;
      var init := os[..last];
      var prev := SomesPositions(init);
      PresentAtSnoc(init, Somes(init), prev, os[last]);
      assert init + [os[last]] == os;
      idx := if os[last].Some? then prev + [last] else prev;
    }
  }

  lemma ConcatAssoc<T>(a: seq<T>, b: seq<T>, c: seq<T>)
    ensures (a + b) + c == a + (b + c)
  {
  }

  /** Slicing a concatenation inside its first part. */
  lemma SliceConcat<T>(a: seq<T>, c: seq<T>, i: nat)
    requires i <= |a|
    ensures (a + c)[..i] == a[..i]
    ensures (a + c)[i..] == a[i..] + c
  {
  }
}
