/** The collector between the producer of a stream of outputs and its consumer. */
module OutputCollector {
  import opened OutputValues
  import opened Outputs

  // ----- what it does to values

  /** What happens to a collector: the producer puts an output, or the consumer takes what there is. */
  datatype Op = Arrive(outs: seq<Completion>) | Take

  /** The output waiting in the collector, all completions handed over so far, those put in before the
      waiting output began, and those put into it. */
  datatype Collected = Collected(
    waiting: Option<seq<Completion>>,
    handedOver: seq<Completion>,
    earlier: seq<Completion>,
    segment: seq<Completion>)

  function Collect(ops: seq<Op>, aggregate: bool): Collected {
    if ops == [] then Collected(None, [], [], [])
    else CollectStep(Collect(ops[..|ops| - 1], aggregate), ops[|ops| - 1], aggregate)
  }

  function CollectStep(c: Collected, op: Op, aggregate: bool): Collected {
    match op
    case Arrive(outs) =>
      c.(waiting := Some(if c.waiting.None? then outs else Merge(c.waiting.value, outs, aggregate)),
         segment := c.segment + outs)
    case Take =>
      if c.waiting.None? then c
      else Collected(None, c.handedOver + c.waiting.value, c.earlier + c.segment, [])
  }

  /** Every output has one completion an index, and no assertion fails in the collector. */
  ghost predicate Collects(ops: seq<Op>, aggregate: bool) {
    ops != [] ==>
      var before, op := ops[..|ops| - 1], ops[|ops| - 1];
      && Collects(before, aggregate)
      && (op.Arrive? ==> Unique(op.outs))
      && (op.Arrive? && aggregate && Collect(before, aggregate).waiting.Some? ==>
            MergeOk(Collect(before, aggregate).waiting.value, op.outs))
  }

  function AllPut(ops: seq<Op>): seq<Completion> {
    if ops == [] then []
    else AllPut(ops[..|ops| - 1]) + if ops[|ops| - 1].Arrive? then ops[|ops| - 1].outs else []
  }

  lemma {:induction false} PutOrder(a: seq<Op>, b: seq<Op>, outs: seq<Completion>)
    ensures AllPut(a + b) == AllPut(a) + AllPut(b)
    ensures AllPut([Arrive(outs)]) == outs && AllPut([Take]) == []
  {
    if b == [] {
      assert a + b == a;
    } else {
      var init, last := b[..|b| - 1], b[|b| - 1];
      PutOrder(a, init, outs);
      assert (a + b)[..|a + b| - 1] == a + init;
      var more := if last.Arrive? then last.outs else [];
      assert AllPut(a) + (AllPut(init) + more) == AllPut(a) + AllPut(init) + more;
    }
  }

  /** Put in terms of what is waiting each time. */
  lemma {:induction false} CollectsMeans(ops: seq<Op>, aggregate: bool)
    ensures Collects(ops, aggregate) <==> forall k :: 0 <= k < |ops| ==> Collectable(ops, k, aggregate)
  {
    if ops != [] {
      var n := |ops| - 1;
      CollectsMeans(ops[..n], aggregate);
      LastCollectable(ops, aggregate);
      forall k | 0 <= k < n
        ensures Collectable(ops[..n], k, aggregate) <==> Collectable(ops, k, aggregate)
      {
        assert ops[..n][..k] == ops[..k] && ops[..n][k] == ops[k];
      }
      hide Collects, Collectable;
    }
  }

  lemma LastCollectable(ops: seq<Op>, aggregate: bool)
    requires ops != []
    ensures Collects(ops, aggregate) <==>
      Collects(ops[..|ops| - 1], aggregate) && Collectable(ops, |ops| - 1, aggregate)
  {
    hide MergeOk, Collect;
  }

  /** Step k is a hand-over, or puts in an output that the collector can take. */
  ghost predicate Collectable(ops: seq<Op>, k: nat, aggregate: bool)
    requires k < |ops|
  {
    ops[k].Arrive? ==>
      && (forall i, j :: 0 <= i < j < |ops[k].outs| ==> ops[k].outs[i].index != ops[k].outs[j].index)
      && var waiting := Collect(ops[..k], aggregate).waiting;
        aggregate && waiting.Some? ==> MergeOk(waiting.value, ops[k].outs)
  }

  /** The waiting output is its segment merged, and what was handed over merges to what was put in before. */
  ghost predicate KeepsAll(c: Collected, aggregate: bool) {
    && (c.waiting.None? ==> c.segment == [])
    && (c.waiting.Some? ==>
          c.waiting.value == Merge([], c.segment, aggregate) && (aggregate ==> MergeOk([], c.segment)))
    && Merge([], c.handedOver, aggregate) == Merge([], c.earlier, aggregate)
    && (aggregate ==> (MergeOk([], c.handedOver) <==> MergeOk([], c.earlier)))
  }

  lemma PutKeepsAll(c: Collected, outs: seq<Completion>, aggregate: bool)
    requires KeepsAll(c, aggregate) && Unique(outs)
    requires aggregate && c.waiting.Some? ==> MergeOk(c.waiting.value, outs)
    ensures KeepsAll(CollectStep(c, Arrive(outs), aggregate), aggregate)
  {
    hide Merge, MergeOk, Unique;
    if c.waiting.None? {
      MergeOfUnique(outs, aggregate);
      assert [] + outs == outs;
    } else {
      MergeConcat([], c.segment, outs, aggregate);
    }
  }

  /** Handing over the waiting output is handing over its segment. */
  lemma HandOver(c: Collected, aggregate: bool)
    requires KeepsAll(c, aggregate) && c.waiting.Some?
    ensures var all, sent := c.earlier + c.segment, c.handedOver + c.waiting.value;
      && Merge([], sent, aggregate) == Merge([], all, aggregate)
      && (aggregate ==> (MergeOk([], sent) <==> MergeOk([], all)))
  {
    hide Merge, MergeOk;
    var y := c.segment;
    GroupingDoesNotMatter(c.handedOver, y, [], aggregate);
    assert c.handedOver + Merge([], y, aggregate) + [] == c.handedOver + c.waiting.value;
    assert c.handedOver + y + [] == c.handedOver + y;
    MergeConcat([], c.handedOver, y, aggregate);
    MergeConcat([], c.earlier, y, aggregate);
  }

  lemma {:induction false} CollectedKeepsAll(ops: seq<Op>, aggregate: bool)
    requires Collects(ops, aggregate)
    ensures KeepsAll(Collect(ops, aggregate), aggregate)
    ensures AllPut(ops) == Collect(ops, aggregate).earlier + Collect(ops, aggregate).segment
  {
    hide KeepsAll, Unique, MergeOk, Merge;
    if ops == [] {
      NothingCollected(aggregate);
    } else {
      var c, op := Collect(ops[..|ops| - 1], aggregate), ops[|ops| - 1];
      CollectedKeepsAll(ops[..|ops| - 1], aggregate);
      if op.Arrive? {
        PutKeepsAll(c, op.outs, aggregate);
      } else {
        GetKeepsAll(c, aggregate);
      }
    }
  }

  lemma NothingCollected(aggregate: bool)
    ensures KeepsAll(Collected(None, [], [], []), aggregate)
  {
  }

  lemma GetKeepsAll(c: Collected, aggregate: bool)
    requires KeepsAll(c, aggregate)
    ensures KeepsAll(CollectStep(c, Take, aggregate), aggregate)
    ensures var d := CollectStep(c, Take, aggregate); d.earlier + d.segment == c.earlier + c.segment
  {
    hide Merge, MergeOk;
    if c.waiting.Some? { HandOver(c, aggregate); }
  }

  /** However the consumer keeps up, merging what it was handed over, and what still waits, gives what merging
      everything the producer put in gives, failures included. */
  lemma CollectorLosesNothing(ops: seq<Op>, aggregate: bool)
    requires Collects(ops, aggregate)
    ensures var c := Collect(ops, aggregate);
      var sent := c.handedOver + if c.waiting.Some? then c.waiting.value else [];
      && Merge([], sent, aggregate) == Merge([], AllPut(ops), aggregate)
      && (aggregate ==> (MergeOk([], sent) <==> MergeOk([], AllPut(ops))))
  {
    hide Merge, MergeOk, Collects;
    CollectedKeepsAll(ops, aggregate);
    var c := Collect(ops, aggregate);
    if c.waiting.Some? {
      HandOver(c, aggregate);
    } else {
      assert c.handedOver + [] == c.handedOver && c.earlier + [] == c.earlier;
    }
  }

  // ----- the collector

  /** Holds the output that waits for the consumer; aggregate is set when the outputs are deltas. */
  class RequestOutputCollector {
    const aggregate: bool
    var output: RequestOutput?

    constructor (aggregate: bool)
      ensures this.aggregate == aggregate && output == null
    {
      this.aggregate, output := aggregate, null;
    }

    ghost function Waiting(): Option<seq<Completion>>
      reads this, output, if output == null then [] else output.outputs
    {
      if output == null then None else Some(Values(output.outputs))
    }

    /** Stores the output itself if none is waiting, and merges it into the waiting one otherwise. */
    method Put(next: RequestOutput) returns (ok: bool)
      requires output != null ==> output != next && DistinctObjects(output.outputs + next.outputs)
      requires DistinctObjects(next.outputs)
      modifies this, output, if output == null then {} else (set o | o in output.outputs + next.outputs)
      ensures ok <==> aggregate && old(output) != null ==> old(MergeOk(Values(output.outputs), Values(next.outputs)))
      ensures output != null && output == if old(output) == null then next else old(output)
      ensures DistinctObjects(output.outputs)
      ensures ok && old(output) == null ==> Values(output.outputs) == old(Values(next.outputs))
      ensures ok && old(output) != null ==>
        Values(output.outputs) == old(Merge(Values(output.outputs), Values(next.outputs), aggregate))
      ensures ok ==>
        var before := Collected(old(Waiting()), [], [], []);
        Waiting() == CollectStep(before, Arrive(old(Values(next.outputs))), aggregate).waiting
    {
      if output == null {
        output := next;
        ok := true;
      } else {
        ok := output.Add(next, aggregate);
      }
    }

    /** Hands over the waiting output, if there is one. */
    method GetNowait() returns (r: RequestOutput?)
      modifies this
      ensures r == old(output) && output == null
    {
      r := output;
      if r != null {
        output := null;
      }
    }
  }
}
