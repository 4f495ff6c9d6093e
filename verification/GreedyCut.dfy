/** Cutting a sequence into consecutive pieces greedily: every piece is extended for as long as
    the next element still fits. When fitting is inherited by contiguous parts, no other way of
    cutting the same sequence needs fewer pieces. Both the batching loop of the throughput
    benchmark and the build detection of the ninja log reader are instances. */
module GreedyCut {

  function Flatten<T>(pieces: seq<seq<T>>): seq<T> {
    if pieces == [] then [] else pieces[0] + Flatten(pieces[1..])
  }

  lemma FlattenSnoc<T>(pieces: seq<seq<T>>, last: seq<T>)
    ensures Flatten(pieces + [last]) == Flatten(pieces) + last
  {
    if pieces == [] {
      assert pieces + [last] == [last];
    } else {
      FlattenSnoc(pieces[1..], last);
      assert (pieces + [last])[1..] == pieces[1..] + [last];
    }
  }

  /** Every contiguous non-empty part of a fitting piece fits. */
  ghost predicate Hereditary<T(!new)>(fits: seq<T> -> bool) {
    forall s: seq<T>, i: nat, j: nat {:trigger fits(s[i..j])} :: i < j <= |s| && fits(s) ==> fits(s[i..j])
  }

  ghost predicate AllFit<T(!new)>(pieces: seq<seq<T>>, fits: seq<T> -> bool) {
    forall i :: 0 <= i < |pieces| ==> pieces[i] != [] && fits(pieces[i])
  }

  /** No piece could have taken the first element of its successor. */
  ghost predicate Maximal<T(!new)>(pieces: seq<seq<T>>, fits: seq<T> -> bool)
    requires AllFit(pieces, fits)
  {
    forall i :: 0 <= i < |pieces| - 1 ==> !fits(pieces[i] + [pieces[i + 1][0]])
  }

  /** "Greedy stays ahead": if what greedy still has to cover is a suffix of what the other
      cutting still has to cover, greedy finishes in no more pieces. */
  lemma {:induction false} StaysAhead<T(!new)>(greedy: seq<seq<T>>, other: seq<seq<T>>, behind: seq<T>,
                                               fits: seq<T> -> bool)
    requires Hereditary(fits)
    requires AllFit(greedy, fits) && Maximal(greedy, fits) && AllFit(other, fits)
    requires Flatten(other) == behind + Flatten(greedy)
    ensures |greedy| <= |other|
    ensures greedy != [] && |greedy| == |other| ==> |greedy[|greedy| - 1]| <= |other[|other| - 1]|
    decreases |greedy|
  {
    if greedy != [] {
      var g, o := greedy[0], other[0];
      var rest := Flatten(greedy[1..]);
      assert Flatten(other) == o + Flatten(other[1..]) == behind + (g + rest);
      var step := |behind| + |g|;
      FirstOfRest(greedy, fits);
      if step < |o| {
        NextWouldFit(g, rest, o, Flatten(other[1..]), behind, fits);
        assert false;
      }
      var behind' := (behind + g)[|o|..];
      assert Flatten(other[1..]) == (o + Flatten(other[1..]))[|o|..] == (behind + g + rest)[|o|..] == behind' + rest;
      TailOf(greedy, fits);
      StaysAhead(greedy[1..], other[1..], behind', fits);
      if |greedy| == |other| && |greedy| == 1 {
        assert Flatten(greedy[1..]) == [] && Flatten(other[1..]) == [];
      }
    }
  }

  /** No cutting into fitting pieces has fewer pieces than a greedy one; with as few, its last
      piece is at least as long. */
  lemma NoMorePieces<T(!new)>(greedy: seq<seq<T>>, other: seq<seq<T>>, fits: seq<T> -> bool)
    requires Hereditary(fits)
    requires AllFit(greedy, fits) && Maximal(greedy, fits) && AllFit(other, fits)
    requires Flatten(other) == Flatten(greedy)
    ensures |greedy| <= |other|
    ensures greedy != [] && |greedy| == |other| ==> |greedy[|greedy| - 1]| <= |other[|other| - 1]|
  {
    assert Flatten(other) == [] + Flatten(greedy);
    StaysAhead(greedy, other, [], fits);
  }

  /** If a piece of the other cutting reaches past g, it contains g and the next element. */
  lemma NextWouldFit<T(!new)>(g: seq<T>, rest: seq<T>, o: seq<T>, others: seq<T>, behind: seq<T>, fits: seq<T> -> bool)
    requires Hereditary(fits) && fits(o)
    requires o + others == behind + (g + rest)
    requires |behind| + |g| < |o|
    ensures rest != [] && fits(g + [rest[0]])
  {
    assert |o + others| == |behind| + |g| + |rest|;
    var longer := g + [rest[0]];
    forall i | 0 <= i < |longer|
      ensures o[|behind| + i] == longer[i]
    {
      assert o[|behind| + i] == (o + others)[|behind| + i] == (behind + (g + rest))[|behind| + i];
    }
    assert o[|behind|..|behind| + |g| + 1] == longer;
  }

  lemma FirstOfRest<T(!new)>(pieces: seq<seq<T>>, fits: seq<T> -> bool)
    requires pieces != [] && AllFit(pieces, fits) && Maximal(pieces, fits)
    ensures var rest := Flatten(pieces[1..]);
      if |pieces| == 1 then rest == [] else rest != [] && !fits(pieces[0] + [rest[0]])
  {
    if |pieces| > 1 {
      assert pieces[1..][0] == pieces[0 + 1];
    }
  }

  lemma MaximalSnoc<T(!new)>(pieces: seq<seq<T>>, last: seq<T>, fits: seq<T> -> bool)
    requires AllFit(pieces, fits) && Maximal(pieces, fits)
    requires last != [] && fits(last) && (pieces != [] ==> !fits(pieces[|pieces| - 1] + [last[0]]))
    ensures AllFit(pieces + [last], fits) && Maximal(pieces + [last], fits)
  {
    var more := pieces + [last];
    forall i | 0 <= i < |more| - 1
      ensures !fits(more[i] + [more[i + 1][0]])
    {
      if i < |pieces| - 1 {
        assert !fits(pieces[i] + [pieces[i + 1][0]]);
      }
    }
  }

  lemma TailOf<T(!new)>(pieces: seq<seq<T>>, fits: seq<T> -> bool)
    requires pieces != [] && AllFit(pieces, fits) && Maximal(pieces, fits)
    ensures AllFit(pieces[1..], fits) && Maximal(pieces[1..], fits)
  {
    var tail := pieces[1..];
    forall i | 0 <= i < |tail| - 1
      ensures !fits(tail[i] + [tail[i + 1][0]])
    {
      assert !fits(pieces[i + 1] + [pieces[i + 1 + 1][0]]);
    }
  }

  /** A sequence has only one greedy cutting. */
  lemma {:induction false} GreedyIsUnique<T(!new)>(a: seq<seq<T>>, b: seq<seq<T>>, fits: seq<T> -> bool)
    requires Hereditary(fits)
    requires AllFit(a, fits) && Maximal(a, fits) && AllFit(b, fits) && Maximal(b, fits)
    requires Flatten(a) == Flatten(b)
    ensures a == b
  {
    if a != [] && b != [] {
      FirstNotLonger(a, b, fits);
      FirstNotLonger(b, a, fits);
      assert a[0] == Flatten(a)[..|a[0]|] == b[0];
      assert Flatten(a[1..]) == Flatten(a)[|a[0]|..] == Flatten(b[1..]);
      TailOf(a, fits);
      TailOf(b, fits);
      GreedyIsUnique(a[1..], b[1..], fits);
      assert a == [a[0]] + a[1..] && b == [b[0]] + b[1..];
    }
  }

  lemma FirstNotLonger<T(!new)>(a: seq<seq<T>>, b: seq<seq<T>>, fits: seq<T> -> bool)
    requires Hereditary(fits) && a != [] && b != []
    requires AllFit(a, fits) && Maximal(a, fits) && AllFit(b, fits) && Flatten(a) == Flatten(b)
    ensures |b[0]| <= |a[0]|
  {
    if |a[0]| < |b[0]| {
      var rest := Flatten(a[1..]);
      assert b[0] + Flatten(b[1..]) == [] + (a[0] + rest);
      NextWouldFit(a[0], rest, b[0], Flatten(b[1..]), [], fits);
      FirstOfRest(a, fits);
    }
  }

  /** The pieces are consecutive slices of the whole, from its first element to its last. */
  ghost predicate AreSlices<T>(whole: seq<T>, pieces: seq<seq<T>>, cuts: seq<nat>) {
    && |cuts| == |pieces| + 1 && cuts[0] == 0 && cuts[|pieces|] == |whole|
    && forall i, j :: 0 <= i && j == i + 1 && j < |cuts| ==>
      cuts[i] <= cuts[j] <= |whole| && pieces[i] == whole[cuts[i]..cuts[j]]
  }

  lemma SlicesMean<T>(whole: seq<T>, pieces: seq<seq<T>>, cuts: seq<nat>, i: nat)
    requires AreSlices(whole, pieces, cuts) && i < |pieces|
    ensures |cuts| == |pieces| + 1 && cuts[0] == 0 && cuts[|pieces|] == |whole|
    ensures cuts[i] <= cuts[i + 1] <= |whole| && pieces[i] == whole[cuts[i]..cuts[i + 1]]
  {
  }

  lemma {:induction false} PiecesAreSlices<T>(pieces: seq<seq<T>>) returns (cuts: seq<nat>)
    ensures AreSlices(Flatten(pieces), pieces, cuts)
  {
    if pieces == [] {
      cuts := [0];
    } else {
      var n := |pieces| - 1;
      var before := PiecesAreSlices(pieces[..n]);
      FlattenSnoc(pieces[..n], pieces[n]);
      assert pieces == pieces[..n] + [pieces[n]];
      hide Flatten;
      OneMoreSlice(Flatten(pieces[..n]), pieces[..n], before, pieces[n]);
      cuts := before + [|Flatten(pieces)|];
    }
  }

  lemma OneMoreSlice<T>(whole: seq<T>, pieces: seq<seq<T>>, cuts: seq<nat>, last: seq<T>)
    requires AreSlices(whole, pieces, cuts)
    ensures AreSlices(whole + last, pieces + [last], cuts + [|whole + last|])
  {
    forall i, j | 0 <= i && j == i + 1 && j < |cuts|
      ensures cuts[i] <= cuts[j] <= |whole| && pieces[i] == (whole + last)[cuts[i]..cuts[j]]
    {
      SlicesMean(whole, pieces, cuts, i);
    }
    assert (whole + last)[|whole|..] == last;
  }
}
