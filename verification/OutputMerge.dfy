/** Merging the outputs of a streamed request: what merging means on values. */
module OutputValues {

  datatype Option<T> = None | Some(value: T)

  /** The value of one completion output. Log probabilities are one entry a token. */
  datatype Completion = Completion(
    index: int,
    text: string,
    tokenIds: seq<int>,
    cumulativeLogprob: Option<real>,
    logprobs: Option<seq<real>>,
    finishReason: Option<string>,
    stopReason: Option<string>)

  /** Merging a later delta into an earlier completion with the same index. */
  function Combine(a: Completion, b: Completion): Completion {
    Completion(a.index, a.text + b.text, a.tokenIds + b.tokenIds, b.cumulativeLogprob,
               JoinLogprobs(a.logprobs, b.logprobs), b.finishReason, b.stopReason)
  }

  function JoinLogprobs(a: Option<seq<real>>, b: Option<seq<real>>): Option<seq<real>> {
    if a.Some? && b.Some? then Some(a.value + b.value) else a
  }

  predicate HasLogprobs(c: Completion) { c.logprobs.Some? && c.logprobs.value != [] }

  /** The assertion of the merge: log probabilities are only added to log probabilities. */
  predicate CanCombine(a: Completion, b: Completion) { HasLogprobs(b) ==> a.logprobs.Some? }

  function Put(earlier: Completion, n: Completion, aggregate: bool): Completion {
    if aggregate then Combine(earlier, n) else n
  }

  /** One delta into the list: into the first completion with its index, or at the end. */
  function AddOne(outs: seq<Completion>, n: Completion, aggregate: bool): seq<Completion> {
    if outs == [] then [n]
    else if outs[0].index == n.index then [Put(outs[0], n, aggregate)] + outs[1..]
    else [outs[0]] + AddOne(outs[1..], n, aggregate)
  }

  predicate AddOk(outs: seq<Completion>, n: Completion) {
    outs == [] || if outs[0].index == n.index then CanCombine(outs[0], n) else AddOk(outs[1..], n)
  }

  /** All deltas of one output into the list, in order. */
  function Merge(outs: seq<Completion>, ns: seq<Completion>, aggregate: bool): seq<Completion> {
    if ns == [] then outs else AddOne(Merge(outs, ns[..|ns| - 1], aggregate), ns[|ns| - 1], aggregate)
  }

  /** No assertion fails while aggregating. */
  predicate MergeOk(outs: seq<Completion>, ns: seq<Completion>) {
    ns != [] ==> MergeOk(outs, ns[..|ns| - 1]) && AddOk(Merge(outs, ns[..|ns| - 1], true), ns[|ns| - 1])
  }

  // ----- what the result is, index by index

  /** The indices in order of first arrival. */
  function Indices(cs: seq<Completion>): seq<int> {
    if cs == [] then [] else AddIndex(Indices(cs[..|cs| - 1]), cs[|cs| - 1].index)
  }

  function AddIndex(s: seq<int>, i: int): seq<int> { if i in s then s else s + [i] }

  /** The deltas with one index, in arrival order. */
  function Of(cs: seq<Completion>, index: int): seq<Completion> {
    if cs == [] then []
    else Of(cs[..|cs| - 1], index) + if cs[|cs| - 1].index == index then [cs[|cs| - 1]] else []
  }

  function Text(cs: seq<Completion>): string {
    if cs == [] then "" else Text(cs[..|cs| - 1]) + cs[|cs| - 1].text
  }

  function TokenIds(cs: seq<Completion>): seq<int> {
    if cs == [] then [] else TokenIds(cs[..|cs| - 1]) + cs[|cs| - 1].tokenIds
  }

  function Logprobs(cs: seq<Completion>): seq<real> {
    if cs == [] then []
    else Logprobs(cs[..|cs| - 1]) + if cs[|cs| - 1].logprobs.Some? then cs[|cs| - 1].logprobs.value else []
  }

  /** The deltas of one index as one completion: everything concatenated, the rest from the last. */
  function Whole(cs: seq<Completion>, aggregate: bool): Completion
    requires cs != []
  {
    var last := cs[|cs| - 1];
    if !aggregate then last else
    Completion(last.index, Text(cs), TokenIds(cs), last.cumulativeLogprob,
               if cs[0].logprobs.None? then None else Some(Logprobs(cs)), last.finishReason, last.stopReason)
  }

  /** The reassembled stream: one completion an index, in order of first arrival. */
  ghost predicate Reassembles(outs: seq<Completion>, cs: seq<Completion>, aggregate: bool) {
    |outs| == |Indices(cs)| && forall k :: 0 <= k < |outs| ==> IsStream(outs[k], Indices(cs)[k], cs, aggregate)
  }

  /** One completion: the whole of the deltas with its index. */
  ghost predicate IsStream(out: Completion, index: int, cs: seq<Completion>, aggregate: bool) {
    out.index == index && Of(cs, index) != [] && out == Whole(Of(cs, index), aggregate)
  }

  lemma WholeMeans(cs: seq<Completion>)
    requires cs != []
    ensures Whole(cs, false) == cs[|cs| - 1]
    ensures var w, last := Whole(cs, true), cs[|cs| - 1];
      && w.index == last.index && w.text == Text(cs) && w.tokenIds == TokenIds(cs)
      && w.logprobs == (if cs[0].logprobs == None then None else Some(Logprobs(cs)))
      && w.cumulativeLogprob == last.cumulativeLogprob
      && w.finishReason == last.finishReason && w.stopReason == last.stopReason
  {
  }

  /** Texts, tokens and log probabilities are joined in the order of arrival. */
  lemma {:induction false} StreamsAdd(a: seq<Completion>, b: seq<Completion>)
    ensures Text(a + b) == Text(a) + Text(b)
    ensures TokenIds(a + b) == TokenIds(a) + TokenIds(b)
    ensures Logprobs(a + b) == Logprobs(a) + Logprobs(b)
  {
    NoStreams();
    hide Text, TokenIds, Logprobs;
    if b == [] {
      assert a + b == a;
    } else {
      var init, last := b[..|b| - 1], b[|b| - 1];
      StreamsAdd(a, init);
      StreamsSnoc(init, last);
      StreamsSnoc(a + init, last);
      assert b == init + [last] && a + b == a + init + [last];
      Associative(Text(a), Text(init), last.text);
      Associative(TokenIds(a), TokenIds(init), last.tokenIds);
      Associative(Logprobs(a), Logprobs(init), if last.logprobs.Some? then last.logprobs.value else []);
    }
  }

  lemma NoStreams()
    ensures Text([]) == "" && TokenIds([]) == [] && Logprobs([]) == []
  {
  }

  lemma Associative<T>(x: seq<T>, y: seq<T>, z: seq<T>)
    ensures x + (y + z) == x + y + z
  {
  }

  lemma StreamsSnoc(cs: seq<Completion>, c: Completion)
    ensures Text(cs + [c]) == Text(cs) + c.text
    ensures TokenIds(cs + [c]) == TokenIds(cs) + c.tokenIds
    ensures Logprobs(cs + [c]) == Logprobs(cs) + if c.logprobs.Some? then c.logprobs.value else []
  {
    assert (cs + [c])[..|cs|] == cs;
  }

  lemma StreamOfOne(c: Completion, index: int)
    ensures Text([c]) == c.text && TokenIds([c]) == c.tokenIds
    ensures Logprobs([c]) == if c.logprobs.Some? then c.logprobs.value else []
    ensures Of([c], index) == if c.index == index then [c] else []
  {
    var none: seq<Completion> := [];
    assert [c] == none + [c];
    StreamsSnoc(none, c);
    OfSnoc(none, c, index);
  }

  /** The indices stand in the order in which each of them arrived first, and none is missing. */
  lemma {:induction false} FirstArrivals(cs: seq<Completion>) returns (at: seq<nat>)
    ensures |at| == |Indices(cs)| && forall i, j :: 0 <= i < j < |at| ==> at[i] < at[j]
    ensures forall i :: 0 <= i < |at| ==> at[i] < |cs| && cs[at[i]].index == Indices(cs)[i]
    ensures forall i, j :: 0 <= i < |at| && 0 <= j < at[i] ==> cs[j].index != Indices(cs)[i]
    ensures forall c <- cs :: c.index in Indices(cs)
  {
    at := [];
    if cs != [] {
      var init, last := cs[..|cs| - 1], cs[|cs| - 1];
      at := FirstArrivals(init);
      if last.index !in Indices(init) { at := at + [|cs| - 1]; }
      assert cs == init + [last];
    }
  }

  ghost predicate Distinct(s: seq<int>) { forall i, j :: 0 <= i < j < |s| ==> s[i] != s[j] }

  lemma {:induction false} IndicesDistinct(cs: seq<Completion>)
    ensures Distinct(Indices(cs))
  {
    if cs != [] { IndicesDistinct(cs[..|cs| - 1]); }
  }

  lemma {:induction false} OfIndices(cs: seq<Completion>, index: int)
    ensures index in Indices(cs) <==> Of(cs, index) != []
    ensures forall c <- Of(cs, index) :: c.index == index
  {
    if cs != [] { OfIndices(cs[..|cs| - 1], index); }
  }

  lemma {:induction false} AddOneAt(outs: seq<Completion>, n: Completion, aggregate: bool, k: nat)
    requires k < |outs| && outs[k].index == n.index && forall j :: 0 <= j < k ==> outs[j].index != n.index
    ensures AddOne(outs, n, aggregate) == outs[k := Put(outs[k], n, aggregate)]
    ensures AddOk(outs, n) <==> CanCombine(outs[k], n)
  {
    if k > 0 { AddOneAt(outs[1..], n, aggregate, k - 1); }
  }

  lemma {:induction false} AddOneNew(outs: seq<Completion>, n: Completion, aggregate: bool)
    requires forall j :: 0 <= j < |outs| ==> outs[j].index != n.index
    ensures AddOne(outs, n, aggregate) == outs + [n] && AddOk(outs, n)
  {
    if outs != [] {
      AddOneNew(outs[1..], n, aggregate);
      assert outs == [outs[0]] + outs[1..];
    }
  }

  lemma WholeSnoc(cs: seq<Completion>, n: Completion, aggregate: bool)
    requires cs != [] && cs[|cs| - 1].index == n.index
    ensures Whole(cs + [n], aggregate) == Put(Whole(cs, aggregate), n, aggregate)
  {
    assert (cs + [n])[..|cs|] == cs;
    if aggregate && cs[0].logprobs.Some? && n.logprobs.None? {
      assert Logprobs(cs + [n]) == Logprobs(cs);
    }
  }

  lemma WholeOne(n: Completion, aggregate: bool)
    ensures Whole([n], aggregate) == n
  {
    assert [n][..0] == [];
    assert Text([n]) == n.text && TokenIds([n]) == n.tokenIds;
    if n.logprobs.Some? { assert Logprobs([n]) == n.logprobs.value; }
  }

  lemma OfSnoc(cs: seq<Completion>, n: Completion, index: int)
    ensures Of(cs + [n], index) == if n.index == index then Of(cs, index) + [n] else Of(cs, index)
    ensures Indices(cs + [n]) == AddIndex(Indices(cs), n.index)
  {
    assert (cs + [n])[..|cs|] == cs;
  }

  lemma ReassemblesStep(outs: seq<Completion>, cs: seq<Completion>, n: Completion, aggregate: bool)
    requires Reassembles(outs, cs, aggregate)
    ensures Reassembles(AddOne(outs, n, aggregate), cs + [n], aggregate)
    ensures var of := Of(cs, n.index);
      AddOk(outs, n) <==> (of != [] ==> CanCombine(Whole(of, aggregate), n))
  {
    OfSnoc(cs, n, n.index);
    OfIndices(cs, n.index);
    if n.index in Indices(cs) {
      KnownIndex(outs, cs, n, aggregate);
    } else {
      NewIndex(outs, cs, n, aggregate);
    }
  }

  lemma StreamStep(out: Completion, index: int, cs: seq<Completion>, n: Completion, aggregate: bool)
    requires IsStream(out, index, cs, aggregate)
    ensures IsStream(if index == n.index then Put(out, n, aggregate) else out, index, cs + [n], aggregate)
  {
    OfIndices(cs, index);
    OfSnoc(cs, n, index);
    if index == n.index { WholeSnoc(Of(cs, index), n, aggregate); }
  }

  lemma StreamStarts(cs: seq<Completion>, n: Completion, aggregate: bool)
    requires Of(cs, n.index) == []
    ensures IsStream(n, n.index, cs + [n], aggregate)
  {
    OfSnoc(cs, n, n.index);
    WholeOne(n, aggregate);
  }

  lemma KnownIndex(outs: seq<Completion>, cs: seq<Completion>, n: Completion, aggregate: bool)
    requires Reassembles(outs, cs, aggregate) && n.index in Indices(cs)
    ensures Reassembles(AddOne(outs, n, aggregate), cs + [n], aggregate)
    ensures AddOk(outs, n) <==> (Of(cs, n.index) != [] ==> CanCombine(Whole(Of(cs, n.index), aggregate), n))
  {
    hide AddOne, AddOk, Put, CanCombine, Of, Whole, Indices;
    IndicesDistinct(cs);
    OfSnoc(cs, n, n.index);
    var k :| 0 <= k < |outs| && Indices(cs)[k] == n.index;
    assert IsStream(outs[k], n.index, cs, aggregate);
    assert forall j :: 0 <= j < |outs| ==> IsStream(outs[j], Indices(cs)[j], cs, aggregate);
    AddOneAt(outs, n, aggregate, k);
    forall j | 0 <= j < |outs|
      ensures IsStream(if j == k then Put(outs[j], n, aggregate) else outs[j], Indices(cs)[j], cs + [n], aggregate)
    {
      StreamStep(outs[j], Indices(cs)[j], cs, n, aggregate);
    }
  }

  lemma NewIndex(outs: seq<Completion>, cs: seq<Completion>, n: Completion, aggregate: bool)
    requires Reassembles(outs, cs, aggregate) && n.index !in Indices(cs)
    ensures Reassembles(AddOne(outs, n, aggregate), cs + [n], aggregate) && AddOk(outs, n)
  {
    hide AddOne, AddOk, Put, Of, Whole, Indices;
    OfIndices(cs, n.index);
    OfSnoc(cs, n, n.index);
    StreamStarts(cs, n, aggregate);
    assert forall j :: 0 <= j < |outs| ==> IsStream(outs[j], Indices(cs)[j], cs, aggregate);
    AddOneNew(outs, n, aggregate);
    forall j | 0 <= j < |outs|
      ensures IsStream(outs[j], Indices(cs)[j], cs + [n], aggregate)
    {
      StreamStep(outs[j], Indices(cs)[j], cs, n, aggregate);
    }
  }

  /** Folding any sequence of deltas, from nothing, reassembles the streams. */
  lemma {:induction false} MergeReassembles(cs: seq<Completion>, aggregate: bool)
    ensures Reassembles(Merge([], cs, aggregate), cs, aggregate)
  {
    if cs != [] {
      var init, n := cs[..|cs| - 1], cs[|cs| - 1];
      MergeReassembles(init, aggregate);
      ReassemblesStep(Merge([], init, aggregate), init, n, aggregate);
      assert cs == init + [n];
    }
  }

  // ----- when an assertion fails

  /** The deltas of one index whose merge fails: the first has no log probabilities, a later one has. */
  ghost predicate Raises(of: seq<Completion>) {
    of != [] && of[0].logprobs.None? && exists k :: 0 <= k < |of| && HasLogprobs(of[k])
  }

  ghost predicate IndexRaises(cs: seq<Completion>, i: int) { Raises(Of(cs, i)) }

  lemma RaisesMeans(cs: seq<Completion>, i: int)
    ensures IndexRaises(cs, i) <==>
      && Of(cs, i) != [] && Of(cs, i)[0].logprobs == None
      && exists c <- Of(cs, i) :: c.logprobs.Some? && c.logprobs.value != []
  {
    if c :| c in Of(cs, i) && c.logprobs.Some? && c.logprobs.value != [] {
      assert HasLogprobs(c);
    }
  }

  /** Aggregating fails if and only if it fails for some index. */
  lemma {:induction false} MergeOkIff(cs: seq<Completion>)
    ensures MergeOk([], cs) <==> forall i :: !IndexRaises(cs, i)
  {
    if cs != [] {
      var init, n := cs[..|cs| - 1], cs[|cs| - 1];
      MergeOkIff(init);
      MergeReassembles(init, true);
      ReassemblesStep(Merge([], init, true), init, n, true);
      RaisesSnoc(Of(init, n.index), n);
      assert cs == init + [n];
      var ok := AddOk(Merge([], init, true), n);
      forall i
        ensures IndexRaises(cs, i) <==> IndexRaises(init, i) || (i == n.index && !ok)
      {
        OfSnoc(init, n, i);
      }
      if !ok { assert IndexRaises(cs, n.index); }
      if MergeOk([], cs) { assert forall i :: !IndexRaises(init, i); }
    }
  }

  lemma RaisesSnoc(of: seq<Completion>, n: Completion)
    ensures Raises(of + [n]) <==> Raises(of) || (of != [] && !CanCombine(Whole(of, true), n))
  {
    var more := of + [n];
    if Raises(of) {
      var k :| 0 <= k < |of| && HasLogprobs(of[k]);
      assert HasLogprobs(more[k]);
    }
    if of != [] && !CanCombine(Whole(of, true), n) { assert HasLogprobs(more[|of|]); }
    if Raises(more) && of != [] {
      var k :| 0 <= k < |more| && HasLogprobs(more[k]);
      assert k < |of| ==> HasLogprobs(of[k]);
    }
  }

  // ----- coalescing in any grouping

  lemma {:induction false} OfConcat(a: seq<Completion>, b: seq<Completion>, index: int)
    ensures Of(a + b, index) == Of(a, index) + Of(b, index)
  {
    if b == [] {
      assert a + b == a;
    } else {
      hide Of;
      OfConcat(a, b[..|b| - 1], index);
      OfConcatStep(a, b[..|b| - 1], b[|b| - 1], index);
      assert b == b[..|b| - 1] + [b[|b| - 1]];
    }
  }

  lemma OfConcatStep(a: seq<Completion>, b: seq<Completion>, last: Completion, index: int)
    requires Of(a + b, index) == Of(a, index) + Of(b, index)
    ensures Of(a + (b + [last]), index) == Of(a, index) + Of(b + [last], index)
  {
    hide Of, Indices;
    assert a + (b + [last]) == a + b + [last];
    OfSnoc(b, last, index);
    OfSnoc(a + b, last, index);
  }

  /** The members of t that are not in s. */
  function NotIn(t: seq<int>, s: seq<int>): seq<int> {
    if t == [] then [] else NotIn(t[..|t| - 1], s) + if t[|t| - 1] in s then [] else [t[|t| - 1]]
  }

  lemma NotInSnoc(t: seq<int>, i: int, s: seq<int>)
    ensures NotIn(t + [i], s) == NotIn(t, s) + if i in s then [] else [i]
  {
    assert (t + [i])[..|t|] == t;
  }

  lemma {:induction false} NotInMembers(t: seq<int>, s: seq<int>, i: int)
    ensures i in NotIn(t, s) <==> i in t && i !in s
  {
    if t != [] { NotInMembers(t[..|t| - 1], s, i); }
  }

  lemma {:induction false} IndicesConcat(a: seq<Completion>, b: seq<Completion>)
    ensures Indices(a + b) == Indices(a) + NotIn(Indices(b), Indices(a))
  {
    if b == [] {
      assert a + b == a;
    } else {
      hide Indices, NotIn;
      IndicesConcat(a, b[..|b| - 1]);
      IndicesConcatStep(a, b);
    }
  }

  lemma IndicesConcatStep(a: seq<Completion>, b: seq<Completion>)
    requires b != [] && Indices(a + b[..|b| - 1]) == Indices(a) + NotIn(Indices(b[..|b| - 1]), Indices(a))
    ensures Indices(a + b) == Indices(a) + NotIn(Indices(b), Indices(a))
  {
    hide Indices, NotIn, AddIndex;
    var init, index := b[..|b| - 1], b[|b| - 1].index;
    LastOfConcat(a, b);
    IndicesSplit(b);
    IndicesSplit(a + b);
    calc {
      Indices(a + b);
      AddIndex(Indices(a + init), index);
      AddIndex(Indices(a) + NotIn(Indices(init), Indices(a)), index);
      { AddThenNotIn(Indices(init), Indices(a), index); }
      Indices(a) + NotIn(AddIndex(Indices(init), index), Indices(a));
      Indices(a) + NotIn(Indices(b), Indices(a));
    }
  }

  lemma LastOfConcat(a: seq<Completion>, b: seq<Completion>)
    requires b != []
    ensures (a + b)[..|a + b| - 1] == a + b[..|b| - 1] && (a + b)[|a + b| - 1] == b[|b| - 1]
  {
  }

  lemma IndicesSplit(cs: seq<Completion>)
    requires cs != []
    ensures Indices(cs) == AddIndex(Indices(cs[..|cs| - 1]), cs[|cs| - 1].index)
  {
  }

  lemma AddThenNotIn(t: seq<int>, s: seq<int>, i: int)
    ensures s + NotIn(AddIndex(t, i), s) == AddIndex(s + NotIn(t, s), i)
  {
    NotInMembers(t, s, i);
    NotInSnoc(t, i, s);
  }

  /** A list without repeated indices is its own reassembly. */
  lemma {:induction false} OwnIndices(g: seq<Completion>, ids: seq<int>)
    requires Distinct(ids) && |g| == |ids| && forall k :: 0 <= k < |g| ==> g[k].index == ids[k]
    ensures Indices(g) == ids
    ensures forall k :: 0 <= k < |g| ==> Of(g, ids[k]) == [g[k]]
  {
    if g != [] {
      var n := |g| - 1;
      OwnIndices(g[..n], ids[..n]);
      OfIndices(g[..n], ids[n]);
      assert g == g[..n] + [g[n]] && ids == ids[..n] + [ids[n]];
      forall k | 0 <= k < |g|
        ensures Of(g, ids[k]) == [g[k]]
      {
        OfSnoc(g[..n], g[n], ids[k]);
        if k < n { assert ids[..n][k] == ids[k]; }
      }
      OfSnoc(g[..n], g[n], ids[n]);
    }
  }

  /** Merging is associative, provided the two later completions can be merged by themselves. */
  lemma PutAssociative(p: Completion, w: Completion, n: Completion, aggregate: bool)
    requires p.index == w.index == n.index && (aggregate ==> CanCombine(w, n))
    ensures Put(p, Put(w, n, aggregate), aggregate) == Put(Put(p, w, aggregate), n, aggregate)
    ensures aggregate ==> (CanCombine(p, Combine(w, n)) <==> CanCombine(p, w) && CanCombine(Combine(p, w), n))
  {
    if aggregate {
      var l, r := Combine(p, Combine(w, n)), Combine(Combine(p, w), n);
      assert l.text == r.text && l.tokenIds == r.tokenIds;
      if p.logprobs.Some? && n.logprobs.Some? {
        if w.logprobs.Some? {
          assert l.logprobs.value == r.logprobs.value;
        } else {
          assert p.logprobs.value + n.logprobs.value == p.logprobs.value;
        }
      }
    }
  }

  ghost predicate SameIndex(cs: seq<Completion>, i: int) { forall k :: 0 <= k < |cs| ==> cs[k].index == i }

  /** Coalescing the deltas q of one index first makes no difference. */
  lemma {:induction false} WholeOfCoalesced(p: seq<Completion>, q: seq<Completion>, aggregate: bool, i: int)
    requires q != [] && (aggregate ==> !Raises(q)) && SameIndex(p, i) && SameIndex(q, i)
    ensures Whole(p + [Whole(q, aggregate)], aggregate) == Whole(p + q, aggregate)
    ensures aggregate ==> (Raises(p + [Whole(q, true)]) <==> Raises(p + q))
    decreases |q|
  {
    var n, q' := q[|q| - 1], q[..|q| - 1];
    assert q == q' + [n];
    if q' == [] {
      WholeOne(n, aggregate);
    } else if p == [] {
      assert p + q == q && p + [Whole(q, aggregate)] == [Whole(q, aggregate)];
      WholeOne(Whole(q, aggregate), aggregate);
    } else {
      if aggregate { RaisesSnoc(q', n); }
      WholeOfCoalesced(p, q', aggregate, i);
      assert p + q == p + q' + [n];
      WholeSnoc(q', n, aggregate);
      WholeSnoc(p + q', n, aggregate);
      WholeSnoc(p, Whole(q', aggregate), aggregate);
      WholeSnoc(p, Whole(q, aggregate), aggregate);
      PutAssociative(Whole(p, aggregate), Whole(q', aggregate), n, aggregate);
      RaisesSnoc(p, Whole(q', aggregate));
      RaisesSnoc(p, Whole(q, aggregate));
      RaisesSnoc(p + q', n);
    }
  }

  /** What comes later treats equal wholes equally. */
  lemma {:induction false} WholeExtended(x: seq<Completion>, y: seq<Completion>, r: seq<Completion>,
                                         aggregate: bool, i: int)
    requires x != [] && y != [] && SameIndex(x, i) && SameIndex(y, i) && SameIndex(r, i)
    requires Whole(x, aggregate) == Whole(y, aggregate) && (aggregate ==> (Raises(x) <==> Raises(y)))
    ensures Whole(x + r, aggregate) == Whole(y + r, aggregate)
    ensures aggregate ==> (Raises(x + r) <==> Raises(y + r))
    decreases |r|
  {
    if r == [] {
      assert x + r == x && y + r == y;
    } else {
      var n, r' := r[|r| - 1], r[..|r| - 1];
      WholeExtended(x, y, r', aggregate, i);
      assert x + r == x + r' + [n] && y + r == y + r' + [n];
      WholeSnoc(x + r', n, aggregate);
      WholeSnoc(y + r', n, aggregate);
      RaisesSnoc(x + r', n);
      RaisesSnoc(y + r', n);
    }
  }

  /** Coalescing any run of consecutive deltas first, wherever it lies in the stream, gives the same
      outputs, and the same failures, provided the run itself can be merged. */
  lemma GroupingDoesNotMatter(a: seq<Completion>, y: seq<Completion>, z: seq<Completion>, aggregate: bool)
    requires aggregate ==> MergeOk([], y)
    ensures Merge([], a + Merge([], y, aggregate) + z, aggregate) == Merge([], a + y + z, aggregate)
    ensures aggregate ==> (MergeOk([], a + Merge([], y, true) + z) <==> MergeOk([], a + y + z))
  {
    var g := Merge([], y, aggregate);
    var u, v := a + y + z, a + g + z;
    MergeReassembles(y, aggregate);
    IndicesDistinct(y);
    OwnIndices(g, Indices(y));
    if aggregate {
      MergeOkIff(y);
      MergeOkIff(u);
      MergeOkIff(v);
    }
    forall i
      ensures Of(u, i) != [] <==> Of(v, i) != []
      ensures Of(u, i) != [] ==> Whole(Of(u, i), aggregate) == Whole(Of(v, i), aggregate)
      ensures aggregate ==> (IndexRaises(u, i) <==> IndexRaises(v, i))
    {
      assert aggregate ==> !IndexRaises(y, i);
      OfCoalesced(a, y, z, g, aggregate, i);
    }
    SameIndices(a, y, z, g);
    MergeReassembles(u, aggregate);
    MergeReassembles(v, aggregate);
    SameReassembly(Merge([], u, aggregate), u, Merge([], v, aggregate), v, aggregate);
  }

  lemma SameIndices(a: seq<Completion>, y: seq<Completion>, z: seq<Completion>, g: seq<Completion>)
    requires Indices(g) == Indices(y)
    ensures Indices(a + y + z) == Indices(a + g + z)
  {
    IndicesConcat(a, y);
    IndicesConcat(a, g);
    IndicesConcat(a + y, z);
    IndicesConcat(a + g, z);
  }

  lemma SameReassembly(o: seq<Completion>, u: seq<Completion>, o': seq<Completion>, v: seq<Completion>, aggregate: bool)
    requires Reassembles(o, u, aggregate) && Reassembles(o', v, aggregate) && Indices(u) == Indices(v)
    requires forall i :: Of(u, i) != [] ==> Of(v, i) != [] && Whole(Of(u, i), aggregate) == Whole(Of(v, i), aggregate)
    ensures o == o'
  {
    forall k | 0 <= k < |o|
      ensures o[k] == o'[k]
    {
      assert o[k].index == o'[k].index;
    }
  }

  lemma OfCoalesced(a: seq<Completion>, y: seq<Completion>, z: seq<Completion>, g: seq<Completion>,
                    aggregate: bool, i: int)
    requires Reassembles(g, y, aggregate) && Indices(g) == Indices(y)
    requires forall k :: 0 <= k < |g| ==> Of(g, Indices(y)[k]) == [g[k]]
    requires aggregate ==> !Raises(Of(y, i))
    ensures Of(a + y + z, i) != [] <==> Of(a + g + z, i) != []
    ensures Of(a + y + z, i) != [] ==> Whole(Of(a + y + z, i), aggregate) == Whole(Of(a + g + z, i), aggregate)
    ensures aggregate ==> (Raises(Of(a + y + z, i)) <==> Raises(Of(a + g + z, i)))
  {
    hide Of, Whole, Raises, Indices;
    OfThree(a, y, z, i);
    OfThree(a, g, z, i);
    OfIndices(y, i);
    OfIndices(g, i);
    if i in Indices(y) {
      var k :| 0 <= k < |g| && Indices(y)[k] == i;
      assert g[k].index == i;
      OneIndexCoalesced(Of(a, i), Of(y, i), Of(z, i), aggregate, i) by {
        OfIndices(a, i);
        OfIndices(z, i);
      }
    }
  }

  lemma OfThree(a: seq<Completion>, b: seq<Completion>, c: seq<Completion>, i: int)
    ensures Of(a + b + c, i) == Of(a, i) + Of(b, i) + Of(c, i)
  {
    OfConcat(a, b, i);
    OfConcat(a + b, c, i);
  }

  lemma OneIndexCoalesced(p: seq<Completion>, q: seq<Completion>, r: seq<Completion>, aggregate: bool, i: int)
    requires q != [] && (aggregate ==> !Raises(q)) && SameIndex(p, i) && SameIndex(q, i) && SameIndex(r, i)
    ensures Whole(p + [Whole(q, aggregate)] + r, aggregate) == Whole(p + q + r, aggregate)
    ensures aggregate ==> (Raises(p + [Whole(q, true)] + r) <==> Raises(p + q + r))
  {
    WholeOfCoalesced(p, q, aggregate, i);
    WholeExtended(p + [Whole(q, aggregate)], p + q, r, aggregate, i);
  }

  // ----- associativity of whole outputs

  lemma {:induction false} MergeOkPrefix(outs: seq<Completion>, ns: seq<Completion>, k: nat)
    requires k <= |ns| && MergeOk(outs, ns)
    ensures MergeOk(outs, ns[..k])
  {
    if k < |ns| {
      MergeOkPrefix(outs, ns[..|ns| - 1], k);
      assert ns[..|ns| - 1][..k] == ns[..k];
    } else {
      assert ns[..k] == ns;
    }
  }

  lemma MergeStep(outs: seq<Completion>, ns: seq<Completion>, k: nat, aggregate: bool)
    requires k < |ns|
    ensures Merge(outs, ns[..k + 1], aggregate) == AddOne(Merge(outs, ns[..k], aggregate), ns[k], aggregate)
    ensures MergeOk(outs, ns[..k + 1]) <==> MergeOk(outs, ns[..k]) && AddOk(Merge(outs, ns[..k], true), ns[k])
    ensures MergeOk(outs, ns) ==> MergeOk(outs, ns[..k + 1])
  {
    assert ns[..k + 1][..k] == ns[..k];
    if MergeOk(outs, ns) { MergeOkPrefix(outs, ns, k + 1); }
  }

  lemma {:induction false} MergeConcat(outs: seq<Completion>, a: seq<Completion>, b: seq<Completion>, aggregate: bool)
    ensures Merge(outs, a + b, aggregate) == Merge(Merge(outs, a, aggregate), b, aggregate)
    ensures MergeOk(outs, a + b) <==> MergeOk(outs, a) && MergeOk(Merge(outs, a, true), b)
  {
    if b == [] {
      assert a + b == a;
    } else {
      MergeConcat(outs, a, b[..|b| - 1], aggregate);
      MergeConcat(outs, a, b[..|b| - 1], true);
      assert (a + b)[..|a + b| - 1] == a + b[..|b| - 1];
    }
  }

  /** The outputs of one request have different indices. */
  ghost predicate Unique(outs: seq<Completion>) {
    forall i, j :: 0 <= i < j < |outs| ==> outs[i].index != outs[j].index
  }

  lemma {:induction false} MergeOfUnique(outs: seq<Completion>, aggregate: bool)
    requires Unique(outs)
    ensures Merge([], outs, aggregate) == outs && MergeOk([], outs)
  {
    if outs != [] {
      var n, init := |outs| - 1, outs[..|outs| - 1];
      MergeOfUnique(init, aggregate);
      MergeOfUnique(init, true);
      AddOneNew(init, outs[n], aggregate);
      assert outs == init + [outs[n]];
    }
  }

  /** Adding c to b and the result to a succeeds exactly when adding b and then c to a succeeds and c
      can be added to b alone; and then both give the same. */
  lemma MergeAssociative(a: seq<Completion>, b: seq<Completion>, c: seq<Completion>)
    requires forall i, j :: 0 <= i < j < |a| ==> a[i].index != a[j].index
    requires forall i, j :: 0 <= i < j < |b| ==> b[i].index != b[j].index
    ensures MergeOk(b, c) && MergeOk(a, Merge(b, c, true)) <==>
      MergeOk(b, c) && MergeOk(a, b) && MergeOk(Merge(a, b, true), c)
    ensures MergeOk(b, c) ==> Merge(a, Merge(b, c, true), true) == Merge(Merge(a, b, true), c, true)
  {
    if MergeOk(b, c) {
      MergeOfUnique(a, true);
      MergeOfUnique(b, true);
      MergeConcat([], b, c, true);
      GroupingDoesNotMatter(a, b + c, [], true);
      var bc := Merge(b, c, true);
      assert a + bc + [] == a + bc && a + (b + c) + [] == a + (b + c);
      MergeConcat([], a, bc, true);
      MergeConcat([], a, b + c, true);
      MergeConcat(a, b, c, true);
    }
  }

  /** Where they differ: an output without log probabilities in the middle hides those that follow. */
  lemma NotAssociativeWithHole(index: int, p: real, q: real)
    ensures var a := [Completion(index, "", [], None, Some([p]), None, None)];
      var b := [Completion(index, "", [], None, None, None, None)];
      var c := [Completion(index, "", [], None, Some([q]), None, None)];
      !MergeOk(b, c) && MergeOk(a, b) && MergeOk(Merge(a, b, true), c)
  {
    var a := [Completion(index, "", [], None, Some([p]), None, None)];
    var b := [Completion(index, "", [], None, None, None, None)];
    var c := [Completion(index, "", [], None, Some([q]), None, None)];
    assert b[..0] == [] && c[..0] == [];
    AddOneAt(a, b[0], true, 0);
    AddOneAt(b, c[0], true, 0);
    var ab := Merge(a, b, true);
    assert ab == AddOne(Merge(a, b[..0], true), b[0], true) == a[0 := Combine(a[0], b[0])];
    AddOneAt(ab, c[0], true, 0);
  }
}

/** The mutable outputs, merged in place. */
module Outputs {
  import opened OutputValues

  class CompletionOutput {
    const index: int
    var text: string
    var tokenIds: seq<int>
    var cumulativeLogprob: Option<real>
    var logprobs: Option<seq<real>>
    var finishReason: Option<string>
    var stopReason: Option<string>

    constructor (v: Completion)
      ensures Value() == v
    {
      index, text, tokenIds, cumulativeLogprob := v.index, v.text, v.tokenIds, v.cumulativeLogprob;
      logprobs, finishReason, stopReason := v.logprobs, v.finishReason, v.stopReason;
    }

    ghost function Value(): Completion
      reads this
    {
      Completion(index, text, tokenIds, cumulativeLogprob, logprobs, finishReason, stopReason)
    }

    /** Merges a later delta with the same index; false if the assertion on log probabilities fails. */
    method Absorb(next: CompletionOutput) returns (ok: bool)
      requires next != this && next.index == index
      modifies this
      ensures ok <==> old(CanCombine(Value(), next.Value()))
      ensures ok ==> Value() == old(Combine(Value(), next.Value()))
      ensures ok <==> !old(logprobs.None? && next.logprobs.Some? && next.logprobs.value != [])
      ensures ok ==> text == old(text + next.text) && tokenIds == old(tokenIds + next.tokenIds)
      ensures ok && old(logprobs.None? || next.logprobs.None?) ==> logprobs == old(logprobs)
      ensures ok && old(logprobs.Some? && next.logprobs.Some?) ==>
        logprobs == old(Some(logprobs.value + next.logprobs.value))
      ensures ok ==> cumulativeLogprob == old(next.cumulativeLogprob)
      ensures ok ==> finishReason == old(next.finishReason) && stopReason == old(next.stopReason)
    {
      ok := true;
      text := text + next.text;
      tokenIds := tokenIds + next.tokenIds;
      if next.logprobs.Some? && next.logprobs.value != [] {
        if logprobs.None? {
          return false;
        }
        logprobs := Some(logprobs.value + next.logprobs.value);
      } else if logprobs.Some? && next.logprobs.Some? {
        assert logprobs.value + next.logprobs.value == logprobs.value;
      }
      cumulativeLogprob := next.cumulativeLogprob;
      finishReason := next.finishReason;
      stopReason := next.stopReason;
    }
  }

  ghost function Values(os: seq<CompletionOutput>): (vs: seq<Completion>)
    reads os
    ensures |vs| == |os| && forall i :: 0 <= i < |os| ==> vs[i] == os[i].Value()
  {
    seq(|os|, i requires 0 <= i < |os| reads os => os[i].Value())
  }

  class RequestOutput {
    var outputs: seq<CompletionOutput>
    var finished: bool

    constructor (outputs: seq<CompletionOutput>, finished: bool)
      ensures this.outputs == outputs && this.finished == finished
    {
      this.outputs, this.finished := outputs, finished;
    }

    /** The position of the first output with this index. */
    method Find(index: int) returns (r: nat)
      ensures r <= |outputs|
      ensures forall j :: 0 <= j < r ==> outputs[j].index != index
      ensures r < |outputs| ==> outputs[r].index == index
    {
      r := 0;
      while r < |outputs| && outputs[r].index != index
        invariant r <= |outputs| && forall j :: 0 <= j < r ==> outputs[j].index != index
      {
        r := r + 1;
      }
    }

    /** One completion into the outputs: merged into or replacing the one with its index, or appended. */
    method Place(c: CompletionOutput, aggregate: bool) returns (ok: bool)
      requires DistinctObjects(outputs) && c !in outputs
      modifies this`outputs, (set o | o in outputs)
      ensures ok <==> !aggregate || old(AddOk(Values(outputs), c.Value()))
      ensures ok ==> Values(outputs) == old(AddOne(Values(outputs), c.Value(), aggregate))
      ensures DistinctObjects(outputs) && forall o <- outputs :: o in old(outputs) || o == c
      ensures aggregate ==> outputs == old(outputs) || outputs == old(outputs) + [c]
    {
      ghost var vs, v := Values(outputs), c.Value();
      ok := true;
      var i := Find(c.index);
      if i == |outputs| {
        AddOneNew(vs, v, aggregate);
        outputs := outputs + [c];
        assert Values(outputs) == vs + [v];
      } else {
        AddOneAt(vs, v, aggregate, i);
        if aggregate {
          ok := MergeAt(i, c);
        } else {
          outputs := outputs[i := c];
          assert Values(outputs) == vs[i := v];
        }
      }
    }

    method MergeAt(i: nat, c: CompletionOutput) returns (ok: bool)
      requires DistinctObjects(outputs) && c !in outputs && i < |outputs| && outputs[i].index == c.index
      modifies outputs[i]
      ensures ok <==> old(CanCombine(outputs[i].Value(), c.Value()))
      ensures ok ==> Values(outputs) == old(Values(outputs)[i := Combine(outputs[i].Value(), c.Value())])
    {
      ghost var vs := Values(outputs);
      ok := outputs[i].Absorb(c);
      assert forall j :: 0 <= j < |outputs| && j != i ==> outputs[j].Value() == vs[j];
    }

    /** Merges a later output of the same request into this one. New completions are not copied:
        they become shared with next. */
    method Add(next: RequestOutput, aggregate: bool) returns (ok: bool)
      requires next != this && DistinctObjects(outputs + next.outputs)
      modifies this, (set o | o in outputs), (set o | o in next.outputs)
      ensures finished == (old(finished) || old(next.finished))
      ensures ok <==> !aggregate || old(MergeOk(Values(outputs), Values(next.outputs)))
      ensures ok ==> Values(outputs) == old(Merge(Values(outputs), Values(next.outputs), aggregate))
      ensures aggregate ==> old(outputs) <= outputs
      ensures DistinctObjects(outputs) && forall o <- outputs :: o in old(outputs) || o in next.outputs
    {
      finished := finished || next.finished;
      ok := AddAll(next.outputs, aggregate);
    }

    /** The loop of Add over the completions of the later output. */
    method AddAll(ns: seq<CompletionOutput>, aggregate: bool) returns (ok: bool)
      requires DistinctObjects(outputs + ns)
      modifies this`outputs, (set o | o in outputs), (set o | o in ns)
      ensures ok <==> !aggregate || old(MergeOk(Values(outputs), Values(ns)))
      ensures ok ==> Values(outputs) == old(Merge(Values(outputs), Values(ns), aggregate))
      ensures aggregate ==> old(outputs) <= outputs
      ensures DistinctObjects(outputs) && forall o <- outputs :: o in old(outputs) || o in ns
    {
      ok := true;
      ghost var os, mine, theirs := outputs, Values(outputs), Values(ns);
      SplitDistinct(os, ns);
      for k := 0 to |ns|
        invariant DistinctObjects(outputs) && forall o <- outputs :: o in os || o in ns
        invariant forall j :: k <= j < |ns| ==> ns[j] !in outputs && ns[j].Value() == theirs[j]
        invariant Values(outputs) == Merge(mine, theirs[..k], aggregate)
        invariant aggregate ==> MergeOk(mine, theirs[..k]) && os <= outputs
      {
        MergeStep(mine, theirs, k, aggregate);
        ok := Place(ns[k], aggregate);
        if !ok {
          return;
        }
      }
      assert theirs[..|theirs|] == theirs;
    }
  }

  lemma SplitDistinct(os: seq<CompletionOutput>, ns: seq<CompletionOutput>)
    requires DistinctObjects(os + ns)
    ensures DistinctObjects(os) && DistinctObjects(ns) && forall o <- ns :: o !in os
  {
    var all := os + ns;
    assert forall i :: 0 <= i < |os| ==> all[i] == os[i];
    assert forall j :: 0 <= j < |ns| ==> all[|os| + j] == ns[j];
  }

  ghost predicate DistinctObjects(os: seq<CompletionOutput>) {
    forall i, j :: 0 <= i < j < |os| ==> os[i] != os[j]
  }

  // ----- runs of add on the same object

  /** The completions of all the outputs, in arrival order. */
  ghost function AllOf(nexts: seq<RequestOutput>): seq<CompletionOutput>
    reads nexts
  {
    if nexts == [] then [] else nexts[0].outputs + AllOf(nexts[1..])
  }

  lemma {:induction false} AllOfAdds(a: seq<RequestOutput>, b: seq<RequestOutput>)
    ensures AllOf(a + b) == AllOf(a) + AllOf(b)
    ensures |a| == 1 ==> AllOf(a) == a[0].outputs
  {
    if a == [] {
      assert a + b == b;
    } else {
      AllOfAdds(a[1..], b);
      assert (a + b)[1..] == a[1..] + b;
    }
  }

  lemma JoinDistinct(os: seq<CompletionOutput>, ns: seq<CompletionOutput>)
    requires DistinctObjects(os) && DistinctObjects(ns) && forall o <- ns :: o !in os
    ensures DistinctObjects(os + ns)
  {
    forall i, j | 0 <= i < |os| && 0 <= j < |ns|
      ensures os[i] != ns[j]
    {
      assert ns[j] in ns && os[i] in os;
    }
  }

  /** What has arrived and the next output stay apart from what is still to come. */
  lemma PartDistinct(os: seq<CompletionOutput>, ns: seq<CompletionOutput>, rest: seq<CompletionOutput>)
    requires DistinctObjects(os + (ns + rest))
    ensures DistinctObjects(os + ns) && DistinctObjects(rest)
    ensures forall o <- rest :: o !in os && o !in ns
  {
    hide DistinctObjects;
    SplitDistinct(os, ns + rest);
    SplitDistinct(ns, rest);
    assert forall o <- ns :: o in ns + rest;
    assert forall o <- rest :: o in ns + rest;
    JoinDistinct(os, ns);
  }

  lemma ValuesOfConcat(os: seq<CompletionOutput>, ns: seq<CompletionOutput>)
    ensures Values(os + ns) == Values(os) + Values(ns)
  {
  }

  /** Adding a stream of outputs one after the other, in place, to an output that shares their completions.
      The result is one merge of all that ever arrived, failures included; from an empty output, one
      completion an index with everything that arrived for it. */
  method AddEach(r: RequestOutput, nexts: seq<RequestOutput>, aggregate: bool) returns (ok: bool)
    requires r !in nexts && DistinctObjects(r.outputs + AllOf(nexts))
    modifies r, (set o | o in r.outputs), (set o | o in AllOf(nexts))
    ensures ok <==> !aggregate || old(MergeOk(Values(r.outputs), Values(AllOf(nexts))))
    ensures ok ==> Values(r.outputs) == old(Merge(Values(r.outputs), Values(AllOf(nexts)), aggregate))
    ensures old(r.outputs) == [] && ok ==> Reassembles(Values(r.outputs), old(Values(AllOf(nexts))), aggregate)
    ensures ok ==> r.finished == (old(r.finished) || exists n <- nexts :: old(n.finished))
    ensures DistinctObjects(r.outputs) && forall o <- r.outputs :: o in old(r.outputs) || o in old(AllOf(nexts))
    decreases |nexts|
  {
    ghost var mine, theirs := Values(r.outputs), Values(AllOf(nexts));
    MergeReassembles(theirs, aggregate);
    if nexts == [] {
      assert r.outputs + AllOf(nexts) == r.outputs;
      return true;
    }
    hide Merge, MergeOk, Reassembles, DistinctObjects;
    ghost var first, later := Values(nexts[0].outputs), Values(AllOf(nexts[1..]));
    ValuesOfConcat(nexts[0].outputs, AllOf(nexts[1..]));
    MergeConcat(mine, first, later, aggregate);
    MergeConcat(mine, first, later, true);
    ok := AddFirst(r, nexts, aggregate);
    if ok {
      ok := AddEach(r, nexts[1..], aggregate);
    }
  }

  /** The first output of the stream leaves those to come as they were, and apart from what is held. */
  method AddFirst(r: RequestOutput, nexts: seq<RequestOutput>, aggregate: bool) returns (ok: bool)
    requires nexts != [] && r !in nexts && DistinctObjects(r.outputs + AllOf(nexts))
    modifies r, (set o | o in r.outputs), (set o | o in nexts[0].outputs)
    ensures ok <==> !aggregate || old(MergeOk(Values(r.outputs), Values(nexts[0].outputs)))
    ensures ok ==> Values(r.outputs) == old(Merge(Values(r.outputs), Values(nexts[0].outputs), aggregate))
    ensures r.finished == (old(r.finished) || old(nexts[0].finished))
    ensures AllOf(nexts[1..]) == old(AllOf(nexts[1..]))
    ensures Values(AllOf(nexts[1..])) == old(Values(AllOf(nexts[1..])))
    ensures DistinctObjects(r.outputs) && DistinctObjects(r.outputs + AllOf(nexts[1..]))
    ensures forall o <- r.outputs :: o in old(r.outputs) || o in old(nexts[0].outputs)
  {
    hide Merge, MergeOk, DistinctObjects;
    ghost var rest := AllOf(nexts[1..]);
    ghost var later := Values(rest);
    PartDistinct(r.outputs, nexts[0].outputs, rest);
    ok := r.Add(nexts[0], aggregate);
    JoinDistinct(r.outputs, rest);
    assert Values(rest) == later;
  }

  /** What sharing means for a caller that keeps an earlier output: its completion goes on growing. */
  method EarlierOutputGrows(r: RequestOutput, first: RequestOutput, second: RequestOutput,
                            c: CompletionOutput, d: CompletionOutput)
    requires r != first && r != second && c != d && c.index == d.index
    requires r.outputs == [] && first.outputs == [c] && second.outputs == [d]
    requires CanCombine(c.Value(), d.Value())
    modifies r, c, d
    ensures first.outputs == [c] && c.Value() == old(Combine(c.Value(), d.Value()))
  {
    ghost var v, w := c.Value(), d.Value();
    MergeOne(v, w);
    hide Merge, MergeOk, Combine, CanCombine;
    assert Values(r.outputs) == [] && Values(first.outputs) == [v];
    var ok := r.Add(first, true);
    assert r.outputs[0] in r.outputs;
    assert Values(r.outputs) == [v] && Values(second.outputs) == [w];
    ok := r.Add(second, true);
    assert Values(r.outputs) == [Combine(v, w)];
  }

  /** A completion added to nothing, and a later delta of it. */
  lemma MergeOne(v: Completion, w: Completion)
    requires v.index == w.index && CanCombine(v, w)
    ensures MergeOk([], [v]) && Merge([], [v], true) == [v]
    ensures MergeOk([v], [w]) && Merge([v], [w], true) == [Combine(v, w)]
  {
    assert [v][..0] == [] && [w][..0] == [];
    AddOneNew([], v, true);
    AddOneAt([v], w, true, 0);
  }
}
