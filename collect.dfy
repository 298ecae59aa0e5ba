/**
 * The accumulation shared by the extractors' category loops: each item contributes a
 * list of results, or raises, which ends the loop and the whole call.
 */
module Collecting {
  import opened Wrappers

  /** The results of `step` over `items`, in item order; None once any step raises. */
  function Collect<T, U>(items: seq<T>, step: T -> Option<seq<U>>): Option<seq<U>>
    decreases |items|
  {
    if items == [] then Some([])
    else
      match Collect(items[..|items| - 1], step)
      case None => None
      case Some(acc) =>
        match step(items[|items| - 1])
        case None => None
        case Some(more) => Some(acc + more)
  }

  /** One more loop iteration. */
  lemma CollectStep<T, U>(items: seq<T>, i: nat, step: T -> Option<seq<U>>)
    requires i < |items|
    ensures Collect(items[..i + 1], step) ==
      match Collect(items[..i], step)
      case None => None
      case Some(acc) =>
        match step(items[i])
        case None => None
        case Some(more) => Some(acc + more)
  {
    assert items[..i + 1][..i] == items[..i];
  }

  /** Once a prefix raises, the whole loop raises. */
  lemma {:induction false} CollectNoneExtends<T, U>(items: seq<T>, j: nat, step: T -> Option<seq<U>>)
    requires j <= |items| && Collect(items[..j], step).None?
    ensures Collect(items, step).None?
    decreases |items| - j
  {
    if j < |items| {
      CollectStep(items, j, step);
      CollectNoneExtends(items, j + 1, step);
    } else {
      assert items[..j] == items;
    }
  }

  /** The loop raises exactly when one of its steps does. */
  lemma {:induction false} CollectFailsIff<T, U>(items: seq<T>, step: T -> Option<seq<U>>)
    ensures Collect(items, step).None? <==> exists i :: 0 <= i < |items| && step(items[i]).None?
    decreases |items|
  {
    if items != [] {
      var init := items[..|items| - 1];
      CollectFailsIff(init, step);
      if exists i :: 0 <= i < |init| && step(init[i]).None? {
        var i :| 0 <= i < |init| && step(init[i]).None?;
        assert items[i] == init[i];
      }
      if exists i :: 0 <= i < |items| && step(items[i]).None? {
        var i :| 0 <= i < |items| && step(items[i]).None?;
        if i < |init| {
          assert init[i] == items[i];
        }
      }
    }
  }

  /** Every collected result was contributed by some item, and an item's results are
      never more than `bound` allows for it. */
  lemma {:induction false} CollectFrom<T, U>(items: seq<T>, step: T -> Option<seq<U>>, bound: T -> nat)
    requires Collect(items, step).Some?
    requires forall i :: 0 <= i < |items| && step(items[i]).Some? ==> |step(items[i]).value| <= bound(items[i])
    ensures var r := Collect(items, step).value;
      && |r| <= Total(items, bound)
      && forall k :: 0 <= k < |r| ==>
           exists i :: 0 <= i < |items| && step(items[i]).Some? && r[k] in step(items[i]).value
    decreases |items|
  {
    if items != [] {
      var init, last := items[..|items| - 1], items[|items| - 1];
      assert forall i :: 0 <= i < |init| ==> init[i] == items[i];
      CollectFrom(init, step, bound);
      var acc := Collect(init, step).value;
      var more := step(last).value;
      var r := Collect(items, step).value;
      assert r == acc + more;
      forall k | 0 <= k < |r|
        ensures exists i :: 0 <= i < |items| && step(items[i]).Some? && r[k] in step(items[i]).value
      {
        if k < |acc| {
          var i :| 0 <= i < |init| && step(init[i]).Some? && acc[k] in step(init[i]).value;
          assert items[i] == init[i];
        } else {
          assert r[k] == more[k - |acc|];
          assert items[|items| - 1] == last;
        }
      }
    }
  }

  /** The sum of `bound` over the items. */
  function Total<T>(items: seq<T>, bound: T -> nat): nat
    decreases |items|
  {
    if items == [] then 0 else Total(items[..|items| - 1], bound) + bound(items[|items| - 1])
  }

  lemma TotalStep<T>(items: seq<T>, i: nat, bound: T -> nat)
    requires i < |items|
    ensures Total(items[..i + 1], bound) == Total(items[..i], bound) + bound(items[i])
  {
    assert items[..i + 1][..i] == items[..i];
  }

  /** A property every contributed result has, every collected result has. */
  lemma {:induction false} CollectKeeps<T, U>(items: seq<T>, step: T -> Option<seq<U>>, p: U -> bool)
    requires forall i :: 0 <= i < |items| && step(items[i]).Some? ==>
      forall k :: 0 <= k < |step(items[i]).value| ==> p(step(items[i]).value[k])
    ensures Collect(items, step).Some? ==>
      forall k :: 0 <= k < |Collect(items, step).value| ==> p(Collect(items, step).value[k])
    decreases |items|
  {
    if items != [] {
      var init, last := items[..|items| - 1], items[|items| - 1];
      assert forall i :: 0 <= i < |init| ==> init[i] == items[i];
      CollectKeeps(init, step, p);
      if Collect(items, step).Some? {
        var acc, more := Collect(init, step).value, step(last).value;
        var r := Collect(items, step).value;
        assert r == acc + more;
        assert forall k :: |acc| <= k < |r| ==> r[k] == more[k - |acc|];
      }
    }
  }

  /** When no item contributes anything, nothing is collected. */
  lemma {:induction false} CollectNothing<T, U>(items: seq<T>, step: T -> Option<seq<U>>)
    requires forall i :: 0 <= i < |items| && step(items[i]).Some? ==> step(items[i]).value == []
    ensures Collect(items, step).Some? ==> Collect(items, step).value == []
    decreases |items|
  {
    if items != [] {
      var init := items[..|items| - 1];
      assert forall i :: 0 <= i < |init| ==> init[i] == items[i];
      CollectNothing(init, step);
    }
  }

  /** When every item contributes exactly one result, the loop collects one result per
      item, in item order. */
  lemma {:induction false} CollectOnePerItem<T, U>(items: seq<T>, step: T -> Option<seq<U>>)
    requires Collect(items, step).Some?
    requires forall i :: 0 <= i < |items| && step(items[i]).Some? ==> |step(items[i]).value| == 1
    ensures |Collect(items, step).value| == |items|
    ensures forall i :: 0 <= i < |items| ==>
      step(items[i]).Some? && Collect(items, step).value[i] == step(items[i]).value[0]
    decreases |items|
  {
    if items != [] {
      var init := items[..|items| - 1];
      assert forall i :: 0 <= i < |init| ==> init[i] == items[i];
      CollectOnePerItem(init, step);
    }
  }

  /** The items `keep` accepts, in their order. */
  function Filter<T>(items: seq<T>, keep: T -> bool): seq<T>
    decreases |items|
  {
    if items == [] then []
    else Filter(items[..|items| - 1], keep) + if keep(items[|items| - 1]) then [items[|items| - 1]] else []
  }

  /** The filtered items are exactly the items `keep` accepts. */
  lemma {:induction false} FilterContents<T>(items: seq<T>, keep: T -> bool)
    ensures forall x :: x in Filter(items, keep) <==> x in items && keep(x)
    decreases |items|
  {
    if items != [] {
      var init := items[..|items| - 1];
      FilterContents(init, keep);
      assert items == init + [items[|items| - 1]];
    }
  }

  /** Items that contribute the empty list can be dropped from the loop: it then collects
      the same results and raises exactly as before. */
  lemma {:induction false} CollectSkipsEmpty<T, U>(items: seq<T>, step: T -> Option<seq<U>>, keep: T -> bool)
    requires forall i :: 0 <= i < |items| && !keep(items[i]) ==> step(items[i]) == Some([])
    ensures Collect(items, step) == Collect(Filter(items, keep), step)
    decreases |items|
  {
    if items != [] {
      var init, last := items[..|items| - 1], items[|items| - 1];
      assert forall i :: 0 <= i < |init| ==> init[i] == items[i];
      CollectSkipsEmpty(init, step, keep);
      var kept := Filter(init, keep);
      if keep(last) {
        var all := kept + [last];
        assert Filter(items, keep) == all;
        assert all[..|all| - 1] == kept && all[|all| - 1] == last;
      } else {
        assert Filter(items, keep) == kept;
        match Collect(init, step)
        case None =>
        case Some(acc) => assert acc + [] == acc;
      }
    }
  }

  /** A count that adds 1 exactly for the kept items is the number of kept items. */
  lemma {:induction false} TotalCountsKept<T>(items: seq<T>, bound: T -> nat, keep: T -> bool)
    requires forall i :: 0 <= i < |items| ==> bound(items[i]) == if keep(items[i]) then 1 else 0
    ensures Total(items, bound) == |Filter(items, keep)|
    decreases |items|
  {
    if items != [] {
      var init := items[..|items| - 1];
      assert forall i :: 0 <= i < |init| ==> init[i] == items[i];
      TotalCountsKept(init, bound, keep);
    }
  }
}
