/** What it means to take exactly some of a list, in order. */
module Selection {

  /** ys are the elements of xs that are to stay, each of them and no others, in their order; `at` says
      where they stand in xs. */
  ghost predicate Picks<T(!new)>(xs: seq<T>, at: seq<nat>, ys: seq<T>, stays: T -> bool) {
    && |at| == |ys|
    && (forall j :: 0 <= j < |at| ==> at[j] < |xs| && ys[j] == xs[at[j]])
    && (forall j, k :: 0 <= j < k < |at| ==> at[j] < at[k])
    && (forall i :: 0 <= i < |xs| ==> (i in at <==> stays(xs[i])))
  }

  lemma NoneToPick<T(!new)>(stays: T -> bool)
    ensures Picks([], [], [], stays)
  {
  }

  lemma OneMore<T(!new)>(xs: seq<T>, x: T, at: seq<nat>, ys: seq<T>, stays: T -> bool)
    requires Picks(xs, at, ys, stays)
    ensures if stays(x) then Picks(xs + [x], at + [|xs|], ys + [x], stays) else Picks(xs + [x], at, ys, stays)
  {
    assert forall j :: 0 <= j < |at| ==> at[j] != |xs|;
    forall i | 0 <= i < |xs| + 1
      ensures i in at + [|xs|] <==> i in at || i == |xs|
    {
    }
  }
}
