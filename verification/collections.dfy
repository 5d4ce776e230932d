/** The two iterator pipelines the macro relies on, each defined once:
    `filter`/`filter_map` followed by `collect::<Vec<_>>()`, and
    `map` followed by `collect::<Result<Vec<_>>>()`. */
module Collections {
  import opened Wrappers

  /** Keeps, in order, the images of the elements `f` maps to `Some`. */
  function FilterMap<A, B>(xs: seq<A>, f: A -> Option<B>): (r: seq<B>)
    ensures |r| <= |xs|
    ensures forall x :: x in xs && f(x).Some? ==> f(x).value in r
    ensures forall b :: b in r ==> exists x :: x in xs && f(x) == Some(b)
    ensures (forall i :: 0 <= i < |xs| ==> f(xs[i]).None?) ==> r == []
  {
    if |xs| == 0 then []
    else
      var tail := FilterMap(xs[1..], f);
      assert forall x :: x in xs[1..] ==> x in xs;
      match f(xs[0])
      case Some(b) => [b] + tail
      case None => tail
  }

  /** Filtering distributes over concatenation; together with
      `FilterMapSingle` this pins down the order of the result. */
  lemma {:induction false} FilterMapAppend<A, B>(xs: seq<A>, ys: seq<A>, f: A -> Option<B>)
    ensures FilterMap(xs + ys, f) == FilterMap(xs, f) + FilterMap(ys, f)
    decreases |xs|
  {
    if |xs| == 0 {
      assert xs + ys == ys;
    } else {
      assert (xs + ys)[1..] == xs[1..] + ys;
      FilterMapAppend(xs[1..], ys, f);
    }
  }

  lemma FilterMapSingle<A, B>(x: A, f: A -> Option<B>)
    ensures FilterMap([x], f) == (if f(x).Some? then [f(x).value] else [])
  {
    assert [x][1..] == [];
  }

  /** When nothing is filtered out, the result is the element-wise image. */
  lemma {:induction false} FilterMapAllSome<A, B>(xs: seq<A>, f: A -> Option<B>)
    requires forall i :: 0 <= i < |xs| ==> f(xs[i]).Some?
    ensures |FilterMap(xs, f)| == |xs|
    ensures forall i :: 0 <= i < |xs| ==> FilterMap(xs, f)[i] == f(xs[i]).value
    decreases |xs|
  {
    if |xs| > 0 {
      FilterMapAllSome(xs[1..], f);
    }
  }

  /** Applies `f` to every element and collects the successes; the first
      failure, in sequence order, is the result. */
  function CollectResults<A, B, E>(xs: seq<A>, f: A -> Result<B, E>): (r: Result<seq<B>, E>)
    ensures r.Success? <==> forall i :: 0 <= i < |xs| ==> f(xs[i]).Success?
    ensures r.Success? ==> |r.value| == |xs| && forall i :: 0 <= i < |xs| ==> f(xs[i]) == Success(r.value[i])
    ensures forall i ::
              0 <= i < |xs| && f(xs[i]).Failure? && (forall j :: 0 <= j < i ==> f(xs[j]).Success?) ==>
              r == Failure(f(xs[i]).error)
    ensures r.Failure? ==> exists i :: 0 <= i < |xs| && f(xs[i]) == Failure(r.error)
  {
    if |xs| == 0 then Success([])
    else
      var head :- f(xs[0]);
      var tail :- CollectResults(xs[1..], f);
      Success([head] + tail)
  }

  lemma ConcatAssoc<T>(a: seq<T>, b: seq<T>, c: seq<T>, d: seq<T>)
    ensures a + (b + c + d) == a + b + c + d
  {
  }
}
