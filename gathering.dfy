/**
 * Gathering the results of a pass that yields at most one value per
 * position: the present values in position order, and the positions they
 * came from.
 */
module Gathering {
  import opened Wrappers

  /** The values of the present entries, in position order. */
  function Gathered<T>(opts: seq<Option<T>>): (vs: seq<T>)
    ensures |vs| <= |opts|
  {
    if opts == [] then []
    else
      var init := Gathered(opts[..|opts| - 1]);
      match opts[|opts| - 1]
      case None => init
      case Some(v) => init + [v]
  }

  /** The positions of the present entries, in increasing order. */
  function Positions<T>(opts: seq<Option<T>>): seq<nat> {
    if opts == [] then []
    else Positions(opts[..|opts| - 1]) + (if opts[|opts| - 1].Some? then [|opts| - 1] else [])
  }

  /** Appending an entry appends its value when it is present and nothing otherwise. */
  lemma GatheredSnoc<T>(opts: seq<Option<T>>, o: Option<T>)
    ensures o.None? ==> Gathered(opts + [o]) == Gathered(opts)
    ensures o.Some? ==> Gathered(opts + [o]) == Gathered(opts) + [o.value]
  {
    assert (opts + [o])[..|opts|] == opts;
  }

  lemma {:induction false} PositionsMatchValues<T>(opts: seq<Option<T>>)
    ensures |Positions(opts)| == |Gathered(opts)|
  {
    if opts != [] {
      PositionsMatchValues(opts[..|opts| - 1]);
    }
  }

  /** Every position lies inside the sequence. */
  lemma {:induction false} PositionsInRange<T>(opts: seq<Option<T>>, k: nat)
    requires k < |Positions(opts)|
    ensures Positions(opts)[k] < |opts|
  {
    var init := opts[..|opts| - 1];
    if k < |Positions(init)| {
      PositionsInRange(init, k);
    }
  }

  /** The k-th gathered value is the entry at the k-th position. */
  lemma {:induction false} GatheredOrigin<T>(opts: seq<Option<T>>, k: nat)
    requires k < |Gathered(opts)|
    ensures |Positions(opts)| == |Gathered(opts)|
    ensures Positions(opts)[k] < |opts|
    ensures opts[Positions(opts)[k]] == Some(Gathered(opts)[k])
  {
    PositionsMatchValues(opts);
    var init := opts[..|opts| - 1];
    PositionsMatchValues(init);
    if k < |Gathered(init)| {
      GatheredOrigin(init, k);
      assert Gathered(opts)[k] == Gathered(init)[k];
      assert Positions(opts)[k] == Positions(init)[k];
    }
  }

  /** Positions are strictly increasing, so the values keep position order. */
  lemma {:induction false} PositionsIncreasing<T>(opts: seq<Option<T>>, k: nat, l: nat)
    requires k < l < |Positions(opts)|
    ensures Positions(opts)[k] < Positions(opts)[l]
  {
    var init := opts[..|opts| - 1];
    if l < |Positions(init)| {
      PositionsIncreasing(init, k, l);
      assert Positions(opts)[k] == Positions(init)[k];
      assert Positions(opts)[l] == Positions(init)[l];
    } else {
      PositionsInRange(init, k);
      assert Positions(opts)[k] == Positions(init)[k];
    }
  }

  /** Every present entry has its position listed. */
  lemma {:induction false} PositionsComplete<T>(opts: seq<Option<T>>, i: nat)
    requires i < |opts| && opts[i].Some?
    ensures i in Positions(opts)
  {
    var init := opts[..|opts| - 1];
    if i < |init| {
      assert init[i] == opts[i];
      PositionsComplete(init, i);
    }
  }

  /** Nothing is gathered exactly when every entry is absent. */
  lemma GatheredEmpty<T>(opts: seq<Option<T>>)
    ensures Gathered(opts) == [] <==> forall i :: 0 <= i < |opts| ==> opts[i].None?
  {
    if Gathered(opts) != [] {
      GatheredOrigin(opts, 0);
    } else {
      PositionsMatchValues(opts);
      forall i | 0 <= i < |opts|
        ensures opts[i].None?
      {
        if opts[i].Some? {
          PositionsComplete(opts, i);
        }
      }
    }
  }
}
