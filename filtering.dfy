/**
 Order-preserving filtering of a sequence, the shape shared by the loops
 that append only some of the items they visit.
 */
module Filtering {

  /** The items of `s` that satisfy `keep`, in their order in `s`. */
  function Filter<T>(s: seq<T>, keep: T -> bool): seq<T>
  {
    if s == [] then []
    else Filter(s[..|s| - 1], keep) + if keep(s[|s| - 1]) then [s[|s| - 1]] else []
  }

  /** The positions in `s` of the items that satisfy `keep`, in increasing order. */
  function Positions<T>(s: seq<T>, keep: T -> bool): seq<nat>
  {
    if s == [] then []
    else Positions(s[..|s| - 1], keep) + if keep(s[|s| - 1]) then [|s| - 1] else []
  }

  /** Every filtered item satisfies `keep`. */
  lemma {:induction false} FilterKeeps<T>(s: seq<T>, keep: T -> bool)
    ensures forall j :: 0 <= j < |Filter(s, keep)| ==> keep(Filter(s, keep)[j])
  {
    if s != [] {
      FilterKeeps(s[..|s| - 1], keep);
    }
  }

  /** The j-th filtered item is the item of `s` at the j-th position. */
  lemma {:induction false} FilterAtPositions<T>(s: seq<T>, keep: T -> bool)
    ensures |Positions(s, keep)| == |Filter(s, keep)|
    ensures forall j :: 0 <= j < |Filter(s, keep)| ==>
      Positions(s, keep)[j] < |s| && Filter(s, keep)[j] == s[Positions(s, keep)[j]]
  {
    if s != [] {
      var n := |s| - 1;
      var init := s[..n];
      FilterAtPositions(init, keep);
      var ps0, f0 := Positions(init, keep), Filter(init, keep);
      var ps, f := Positions(s, keep), Filter(s, keep);
      forall j | 0 <= j < |f|
        ensures ps[j] < |s| && f[j] == s[ps[j]]
      {
        if j < |f0| {
          assert ps[j] == ps0[j] && f[j] == f0[j] && s[ps0[j]] == init[ps0[j]];
        }
      }
    }
  }

  /** The positions increase, so filtering keeps the order of `s`. */
  lemma {:induction false} PositionsIncrease<T>(s: seq<T>, keep: T -> bool)
    ensures forall i :: 0 <= i < |Positions(s, keep)| ==> Positions(s, keep)[i] < |s|
    ensures forall j, k :: 0 <= j < k < |Positions(s, keep)| ==> Positions(s, keep)[j] < Positions(s, keep)[k]
  {
    if s != [] {
      PositionsIncrease(s[..|s| - 1], keep);
    }
  }

  /** A position is listed exactly when its item satisfies `keep`: nothing is lost and nothing else is added. */
  lemma {:induction false} PositionsExact<T>(s: seq<T>, keep: T -> bool)
    ensures forall i :: 0 <= i < |s| ==> (keep(s[i]) <==> i in Positions(s, keep))
  {
    if s != [] {
      var n := |s| - 1;
      var init := s[..n];
      PositionsExact(init, keep);
      PositionsIncrease(init, keep);
      var ps0, ps := Positions(init, keep), Positions(s, keep);
      forall i | 0 <= i < |s|
        ensures keep(s[i]) <==> i in ps
      {
        if i < n {
          assert s[i] == init[i];
          assert i in ps <==> i in ps0;
        } else if keep(s[n]) {
          assert ps[|ps0|] == n;
        } else {
          assert forall x :: x in ps0 ==> x < n;
        }
      }
    }
  }

  /** Filtering a prefix of `s` gives a prefix of the filtered `s`. */
  lemma {:induction false} FilterPrefix<T>(s: seq<T>, keep: T -> bool, i: nat)
    requires i <= |s|
    ensures Filter(s[..i], keep) <= Filter(s, keep)
  {
    if i < |s| {
      var n := |s| - 1;
      assert s[..n][..i] == s[..i];
      FilterPrefix(s[..n], keep, i);
    } else {
      assert s[..i] == s;
    }
  }
}
