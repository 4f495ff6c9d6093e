/** The online batching loop of the Hugging Face throughput benchmark. */
module Batching {
  import opened GreedyCut

  const TOKEN_CAP: nat := 2048

  datatype Request = Request(prompt: string, promptLen: nat, outputLen: nat)

  /** One call of the model: the batch, and the max_new_tokens it is generated with. */
  datatype ModelCall = ModelCall(batch: seq<Request>, maxNewTokens: nat)

  function Max(a: nat, b: nat): (m: nat)
    ensures a <= m && b <= m && (m == a || m == b)
  {
    if a < b then b else a
  }

  function MaxPrompt(batch: seq<Request>): nat {
    if batch == [] then 0 else Max(MaxPrompt(batch[..|batch| - 1]), batch[|batch| - 1].promptLen)
  }

  function MaxOutput(batch: seq<Request>): nat {
    if batch == [] then 0 else Max(MaxOutput(batch[..|batch| - 1]), batch[|batch| - 1].outputLen)
  }

  /** A batch the benchmark may run: a single request always, several only within both caps. */
  predicate Fits(batch: seq<Request>, maxBatchSize: int) {
    || |batch| == 1
    || (|batch| <= maxBatchSize && MaxPrompt(batch) + MaxOutput(batch) <= TOKEN_CAP)
  }

  function Batches(calls: seq<ModelCall>): (r: seq<seq<Request>>)
    ensures |r| == |calls| && forall i :: 0 <= i < |calls| ==> r[i] == calls[i].batch
  {
    seq(|calls|, i requires 0 <= i < |calls| => calls[i].batch)
  }

  function FitsWithin(maxBatchSize: int): seq<Request> -> bool {
    batch => Fits(batch, maxBatchSize)
  }

  /** Nothing is lost, reordered or duplicated; every batch respects the caps; a batch is closed
      only when the next request would break a cap; generation lengths are the batch maxima. */
  ghost predicate GreedyRun(requests: seq<Request>, maxBatchSize: int, calls: seq<ModelCall>) {
    && Flatten(Batches(calls)) == requests
    && AllFit(Batches(calls), FitsWithin(maxBatchSize))
    && Maximal(Batches(calls), FitsWithin(maxBatchSize))
    && forall c <- calls :: c.maxNewTokens == MaxOutput(c.batch)
  }

  /** Before request i is looked at: the closed batches, and the open batch that request i joins. */
  ghost predicate Pending(requests: seq<Request>, maxBatchSize: int, calls: seq<ModelCall>, batch: seq<Request>, i: nat)
    requires i <= |requests|
  {
    var next := batch + requests[i..];
    && GreedyRun(Flatten(Batches(calls)), maxBatchSize, calls)
    && Flatten(Batches(calls)) + batch == requests[..i]
    && (batch != [] ==> i < |requests| && Fits(batch + [requests[i]], maxBatchSize))
    && (calls != [] && next != [] ==> !Fits(calls[|calls| - 1].batch + [next[0]], maxBatchSize))
  }

  /** Several requests share a call only within both caps, whatever two of them meet in a row of the batch. */
  ghost predicate WithinCaps(batch: seq<Request>, maxBatchSize: int) {
    |batch| > 1 ==>
      && |batch| <= maxBatchSize
      && forall r, s :: r in batch && s in batch ==> r.promptLen + s.outputLen <= 2048
  }

  /** n is the largest output length of the batch. */
  ghost predicate IsLargestOutput(batch: seq<Request>, n: nat) {
    (exists r :: r in batch && r.outputLen == n) && forall r :: r in batch ==> r.outputLen <= n
  }

  /** With one more request the batch is over the size cap, or some two of its requests are over the token cap. */
  ghost predicate IsFull(batch: seq<Request>, next: Request, maxBatchSize: int) {
    || |batch| >= maxBatchSize
    || exists r, s :: r in batch + [next] && s in batch + [next] && r.promptLen + s.outputLen > 2048
  }

  /** The loop. Its calls are consecutive slices of the requests, from the first to the last. */
  method RunHf(requests: seq<Request>, maxBatchSize: int) returns (calls: seq<ModelCall>)
    ensures GreedyRun(requests, maxBatchSize, calls)
    ensures exists cuts: seq<nat> :: AreSlices(requests, Batches(calls), cuts)
    ensures forall c :: c in calls ==>
      && c.batch != [] && (|c.batch| > 1 ==> |c.batch| <= maxBatchSize)
      && (forall r, s :: |c.batch| > 1 && r in c.batch && s in c.batch ==> r.promptLen + s.outputLen <= 2048)
      && (exists r :: r in c.batch && r.outputLen == c.maxNewTokens)
      && forall r :: r in c.batch ==> r.outputLen <= c.maxNewTokens
    ensures forall i, j :: 0 <= i && j == i + 1 && j < |calls| ==>
      calls[j].batch != [] && IsFull(calls[i].batch, calls[j].batch[0], maxBatchSize)
  {
    calls := [];
    var batch: seq<Request> := [];
    var maxPromptLen, maxOutputLen := 0, 0;
    NothingPending(requests, maxBatchSize);
    assert MaxPrompt(batch) == 0 && MaxOutput(batch) == 0;
    hide Pending, GreedyRun, Flatten, MaxPrompt, MaxOutput;
    for i := 0 to |requests|
      invariant Pending(requests, maxBatchSize, calls, batch, i)
      invariant maxPromptLen == MaxPrompt(batch) && maxOutputLen == MaxOutput(batch)
    {
      ghost var open := batch;
      batch := batch + [requests[i]];
      MaximaOfExtension(open, requests[i]);
      maxPromptLen := Max(maxPromptLen, requests[i].promptLen);
      maxOutputLen := Max(maxOutputLen, requests[i].outputLen);
      if i + 1 < |requests| {
        MaximaOfExtension(batch, requests[i + 1]);
      }
      if |batch| < maxBatchSize && i != |requests| - 1 {
        var nextPromptLen, nextOutputLen := requests[i + 1].promptLen, requests[i + 1].outputLen;
        if Max(maxPromptLen, nextPromptLen) + Max(maxOutputLen, nextOutputLen) <= TOKEN_CAP {
          ExtendBatch(requests, maxBatchSize, calls, open, i);
          continue;
        }
      }
      CloseBatch(requests, maxBatchSize, calls, open, i);
      calls := calls + [ModelCall(batch, maxOutputLen)];
      batch := [];
      maxPromptLen, maxOutputLen := 0, 0;
      NoMaxima();
    }
    NothingLeft(requests, maxBatchSize, calls, batch);
    CallsAreSlices(requests, maxBatchSize, calls);
    CallsAreWithinCaps(requests, maxBatchSize, calls);
    CallsAreFull(requests, maxBatchSize, calls);
  }

  /** The maxima are attained and not exceeded. */
  lemma {:induction false} MaximaAre(batch: seq<Request>)
    requires batch != []
    ensures (exists r :: r in batch && r.promptLen == MaxPrompt(batch)) && IsLargestOutput(batch, MaxOutput(batch))
    ensures forall r :: r in batch ==> r.promptLen <= MaxPrompt(batch)
  {
    var n := |batch| - 1;
    assert batch == batch[..n] + [batch[n]] && batch[n] in batch;
    if n > 0 {
      MaximaAre(batch[..n]);
      assert forall r :: r in batch[..n] ==> r in batch;
    } else {
      assert batch[..0] == [];
    }
  }

  lemma FitsMeans(batch: seq<Request>, maxBatchSize: int)
    requires batch != []
    ensures Fits(batch, maxBatchSize) <==> WithinCaps(batch, maxBatchSize)
  {
    MaximaAre(batch);
  }

  lemma CallsAreSlices(requests: seq<Request>, maxBatchSize: int, calls: seq<ModelCall>)
    requires GreedyRun(requests, maxBatchSize, calls)
    ensures exists cuts: seq<nat> :: AreSlices(requests, Batches(calls), cuts)
  {
    var cuts := PiecesAreSlices(Batches(calls));
    hide Flatten;
  }

  lemma CallsAreWithinCaps(requests: seq<Request>, maxBatchSize: int, calls: seq<ModelCall>)
    requires GreedyRun(requests, maxBatchSize, calls)
    ensures forall c :: c in calls ==>
      && c.batch != [] && (|c.batch| > 1 ==> |c.batch| <= maxBatchSize)
      && (forall r, s :: |c.batch| > 1 && r in c.batch && s in c.batch ==> r.promptLen + s.outputLen <= 2048)
      && (exists r :: r in c.batch && r.outputLen == c.maxNewTokens)
      && forall r :: r in c.batch ==> r.outputLen <= c.maxNewTokens
  {
    hide GreedyRun;
    forall c | c in calls
      ensures c.batch != [] && WithinCaps(c.batch, maxBatchSize) && IsLargestOutput(c.batch, c.maxNewTokens)
    {
      var i :| 0 <= i < |calls| && calls[i] == c;
      CallMeans(requests, maxBatchSize, calls, i);
    }
  }

  lemma CallsAreFull(requests: seq<Request>, maxBatchSize: int, calls: seq<ModelCall>)
    requires GreedyRun(requests, maxBatchSize, calls)
    ensures forall i, j :: 0 <= i && j == i + 1 && j < |calls| ==>
      calls[j].batch != [] && IsFull(calls[i].batch, calls[j].batch[0], maxBatchSize)
  {
    forall i, j | 0 <= i && j == i + 1 && j < |calls|
      ensures calls[j].batch != [] && IsFull(calls[i].batch, calls[j].batch[0], maxBatchSize)
    {
      NextCallMeans(requests, maxBatchSize, calls, i);
    }
  }

  /** What being full means: over the size cap, or a pair over the token cap. */
  lemma FullMeans(batch: seq<Request>, next: Request, maxBatchSize: int)
    requires IsFull(batch, next, maxBatchSize) && |batch| < maxBatchSize
    ensures exists r, s :: r in batch + [next] && s in batch + [next] && r.promptLen + s.outputLen > 2048
  {
  }

  lemma CallMeans(requests: seq<Request>, maxBatchSize: int, calls: seq<ModelCall>, i: nat)
    requires GreedyRun(requests, maxBatchSize, calls) && i < |calls|
    ensures calls[i].batch != [] && WithinCaps(calls[i].batch, maxBatchSize)
    ensures IsLargestOutput(calls[i].batch, calls[i].maxNewTokens)
  {
    hide Fits, MaxOutput, Flatten;
    assert Batches(calls)[i] == calls[i].batch && calls[i] in calls;
    FitsMeans(calls[i].batch, maxBatchSize);
    MaximaAre(calls[i].batch);
  }

  lemma NextCallMeans(requests: seq<Request>, maxBatchSize: int, calls: seq<ModelCall>, i: nat)
    requires GreedyRun(requests, maxBatchSize, calls) && i + 1 < |calls|
    ensures calls[i + 1].batch != [] && IsFull(calls[i].batch, calls[i + 1].batch[0], maxBatchSize)
  {
    hide Fits, MaxOutput, Flatten;
    var pieces := Batches(calls);
    assert !FitsWithin(maxBatchSize)(pieces[i] + [pieces[i + 1][0]]);
    FitsMeans(calls[i].batch + [calls[i + 1].batch[0]], maxBatchSize);
  }

  lemma NoMaxima()
    ensures MaxPrompt([]) == 0 && MaxOutput([]) == 0
  {
  }

  lemma NothingPending(requests: seq<Request>, maxBatchSize: int)
    ensures Pending(requests, maxBatchSize, [], [], 0)
  {
  }

  /** After the last request no batch is open. */
  lemma NothingLeft(requests: seq<Request>, maxBatchSize: int, calls: seq<ModelCall>, batch: seq<Request>)
    requires Pending(requests, maxBatchSize, calls, batch, |requests|)
    ensures GreedyRun(requests, maxBatchSize, calls)
  {
    assert requests[..|requests|] == requests;
  }

  lemma MaximaOfExtension(batch: seq<Request>, r: Request)
    ensures MaxPrompt(batch + [r]) == Max(MaxPrompt(batch), r.promptLen)
    ensures MaxOutput(batch + [r]) == Max(MaxOutput(batch), r.outputLen)
  {
    assert (batch + [r])[..|batch|] == batch;
  }

  lemma ExtendBatch(requests: seq<Request>, maxBatchSize: int, calls: seq<ModelCall>, batch: seq<Request>, i: nat)
    requires i + 1 < |requests| && Pending(requests, maxBatchSize, calls, batch, i)
    requires Fits(batch + [requests[i]] + [requests[i + 1]], maxBatchSize)
    ensures Pending(requests, maxBatchSize, calls, batch + [requests[i]], i + 1)
  {
    hide Fits, GreedyRun, Flatten;
    var longer, done := batch + [requests[i]], Flatten(Batches(calls));
    assert (longer + requests[i + 1..])[0] == (batch + requests[i..])[0] by {
      assert batch == [] ==> longer == [requests[i]];
    }
    assert done + longer == requests[..i + 1] by {
      assert requests[..i + 1] == requests[..i] + [requests[i]];
      assert done + longer == done + batch + [requests[i]];
    }
  }

  lemma CloseBatch(requests: seq<Request>, maxBatchSize: int, calls: seq<ModelCall>, batch: seq<Request>, i: nat)
    requires i < |requests| && Pending(requests, maxBatchSize, calls, batch, i)
    requires i + 1 < |requests| ==> !Fits(batch + [requests[i]] + [requests[i + 1]], maxBatchSize)
    ensures var full := batch + [requests[i]];
      Pending(requests, maxBatchSize, calls + [ModelCall(full, MaxOutput(full))], [], i + 1)
  {
    hide Fits, GreedyRun, Flatten, MaxOutput;
    var full := batch + [requests[i]];
    var call := ModelCall(full, MaxOutput(full));
    var done := Flatten(Batches(calls));
    assert (batch + requests[i..])[0] == full[0] by {
      assert batch == [] ==> full == [requests[i]];
    }
    assert done + full == requests[..i + 1] by {
      assert requests[..i + 1] == requests[..i] + [requests[i]];
      assert done + full == done + batch + [requests[i]];
    }
    OneMoreCall(done, maxBatchSize, calls, call);
    var next := [] + requests[i + 1..];
    assert next == requests[i + 1..];
    assert next != [] ==> next[0] == requests[i + 1];
  }

  lemma OneMoreCall(requests: seq<Request>, maxBatchSize: int, calls: seq<ModelCall>, call: ModelCall)
    requires GreedyRun(requests, maxBatchSize, calls)
    requires call.batch != [] && Fits(call.batch, maxBatchSize) && call.maxNewTokens == MaxOutput(call.batch)
    requires calls != [] ==> !Fits(calls[|calls| - 1].batch + [call.batch[0]], maxBatchSize)
    ensures Batches(calls + [call]) == Batches(calls) + [call.batch]
    ensures GreedyRun(requests + call.batch, maxBatchSize, calls + [call])
  {
    assert Batches(calls + [call]) == Batches(calls) + [call.batch];
    FlattenSnoc(Batches(calls), call.batch);
    MaximalSnoc(Batches(calls), call.batch, FitsWithin(maxBatchSize));
  }

  lemma {:induction false} PartMaxima(batch: seq<Request>, i: nat, j: nat)
    requires i <= j <= |batch|
    ensures MaxPrompt(batch[i..j]) <= MaxPrompt(batch) && MaxOutput(batch[i..j]) <= MaxOutput(batch)
    decreases |batch|
  {
    hide MaxPrompt, MaxOutput;
    if i == j {
      assert batch[i..j] == [];
      NoMaxima();
    } else {
      var n := |batch| - 1;
      assert batch == batch[..n] + [batch[n]];
      MaximaOfExtension(batch[..n], batch[n]);
      if j == |batch| {
        PartMaxima(batch[..n], i, n);
        PartOfPrefix(batch, i, n, n);
        PartSnoc(batch, i, j);
        MaximaOfExtension(batch[i..n], batch[n]);
      } else {
        PartMaxima(batch[..n], i, j);
        PartOfPrefix(batch, i, j, n);
      }
    }
  }

  lemma PartOfPrefix(batch: seq<Request>, i: nat, j: nat, n: nat)
    requires i <= j <= n <= |batch|
    ensures batch[..n][i..j] == batch[i..j]
  {
  }

  lemma PartSnoc(batch: seq<Request>, i: nat, j: nat)
    requires i < j <= |batch|
    ensures batch[i..j] == batch[i..j - 1] + [batch[j - 1]]
  {
  }

  lemma FitsIsHereditary(maxBatchSize: int)
    ensures Hereditary(FitsWithin(maxBatchSize))
  {
    forall s: seq<Request>, i: nat, j: nat | i < j <= |s| && Fits(s, maxBatchSize)
      ensures Fits(s[i..j], maxBatchSize)
    {
      PartMaxima(s, i, j);
    }
  }

  /** No way of cutting the same requests, in order, into permitted batches uses fewer model
      calls than the loop. */
  lemma GreedyIsOptimal(requests: seq<Request>, maxBatchSize: int, calls: seq<ModelCall>, other: seq<seq<Request>>)
    requires GreedyRun(requests, maxBatchSize, calls)
    requires Flatten(other) == requests && AllFit(other, FitsWithin(maxBatchSize))
    ensures |calls| <= |other|
  {
    FitsIsHereditary(maxBatchSize);
    NoMorePieces(Batches(calls), other, FitsWithin(maxBatchSize));
  }

  /** The contract of the loop leaves no freedom: two runs that meet it are the same run. */
  lemma GreedyRunIsUnique(requests: seq<Request>, maxBatchSize: int, a: seq<ModelCall>, b: seq<ModelCall>)
    requires GreedyRun(requests, maxBatchSize, a) && GreedyRun(requests, maxBatchSize, b)
    ensures a == b
  {
    FitsIsHereditary(maxBatchSize);
    GreedyIsUnique(Batches(a), Batches(b), FitsWithin(maxBatchSize));
    forall i | 0 <= i < |a|
      ensures a[i] == b[i]
    {
      assert Batches(a)[i] == Batches(b)[i];
      assert a[i] in a && b[i] in b;
    }
  }
}
