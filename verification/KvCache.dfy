/** The attention-sink cache: the first startSize and the last recentSize positions are kept. */
module KvCache {
  import opened GreedyCut
  import opened Tensors

  datatype Layer = Layer(k: Tensor, v: Tensor)

  /** past_key_values: nothing yet, or one pair of tensors a layer. */
  datatype Past = NoPast | Past(layers: seq<Layer>)

  datatype Result<T> = Ok(value: T) | AssertionError

  datatype StartRecent = StartRecent(startSize: nat, recentSize: nat, kDim: nat, vDim: nat) {

    function CacheSize(): nat { startSize + recentSize }

    /** What the model hands over: at least one layer, each tensor with its sequence axis. */
    predicate Shaped(past: Past) {
      past.Past? ==>
        && past.layers != []
        && forall l :: 0 <= l < |past.layers| ==> HasAxis(past.layers[l].k, kDim) && HasAxis(past.layers[l].v, vDim)
    }

    function SeqLen(past: Past): nat
      requires Shaped(past) && past.Past?
    {
      past.layers[0].k.shape[kDim]
    }

    function KeepLayers(layers: seq<Layer>, start: int, from: int, n: int): seq<Layer>
      requires Shaped(Past(layers))
    {
      seq(|layers|, l requires 0 <= l < |layers| =>
        Layer(Keep(layers[l].k, kDim, start, from, n), Keep(layers[l].v, vDim, start, from, n)))
    }

    function Call(past: Past): Past
      requires Shaped(past)
    {
      if past.NoPast? then NoPast else
      var n := SeqLen(past);
      if n <= CacheSize() then past
      else Past(KeepLayers(past.layers, startSize, n - recentSize, n))
    }

    function EvictForSpace(past: Past, numComing: nat): Past
      requires Shaped(past)
    {
      if past.NoPast? then NoPast else
      var n := SeqLen(past);
      if n + numComing <= CacheSize() then past
      else Past(KeepLayers(past.layers, startSize, n - recentSize + numComing, n))
    }

    function EvictRange(past: Past, start: int, end: int): Result<Past>
      requires Shaped(past)
    {
      if past.NoPast? then Ok(NoPast) else
      var n := SeqLen(past);
      if start <= end && end <= n then Ok(Past(KeepLayers(past.layers, start, end, n))) else AssertionError
    }

    // ----- the same operations on a plain sequence of positions

    function CallSeq<T>(s: seq<T>): seq<T> {
      if |s| <= CacheSize() then s else KeepSeq(s, startSize, |s| - recentSize)
    }

    function EvictForSpaceSeq<T>(s: seq<T>, numComing: nat): seq<T> {
      if |s| + numComing <= CacheSize() then s else KeepSeq(s, startSize, |s| - recentSize + numComing)
    }

    function EvictRangeSeq<T>(s: seq<T>, start: int, end: int): Result<seq<T>> {
      if start <= end && end <= |s| then Ok(KeepSeq(s, start, end)) else AssertionError
    }
  }

  /** cat([x[0:start], x[from:n]]) along axis d. */
  function Keep(t: Tensor, d: nat, start: int, from: int, n: int): Tensor
    requires HasAxis(t, d)
  {
    SliceIsPick(t, d, 0, start);
    SliceIsPick(t, d, from, n);
    CatOfPicks(t, d, PySlice(UpTo(t.shape[d]), 0, start), PySlice(UpTo(t.shape[d]), from, n));
    Cat(Slice(t, d, 0, start), Slice(t, d, from, n), d)
  }

  lemma SliceIsPick(t: Tensor, d: nat, lo: int, hi: int)
    requires HasAxis(t, d)
    ensures InRange(PySlice(UpTo(t.shape[d]), lo, hi), t.shape[d])
    ensures Slice(t, d, lo, hi) == Pick(t, d, PySlice(UpTo(t.shape[d]), lo, hi))
  {
    PickEverything(t, d);
    SliceOfPick(t, d, UpTo(t.shape[d]), lo, hi);
  }

  function KeepSeq<T>(s: seq<T>, start: int, from: int): seq<T> {
    PySlice(s, 0, start) + PySlice(s, from, |s|)
  }

  // ----- the tensors follow the positions

  lemma KeepOfPick(t: Tensor, d: nat, ids: seq<nat>, start: int, from: int)
    requires HasAxis(t, d) && InRange(ids, t.shape[d])
    ensures HasAxis(Pick(t, d, ids), d) && InRange(KeepSeq(ids, start, from), t.shape[d])
    ensures Keep(Pick(t, d, ids), d, start, from, |ids|) == Pick(t, d, KeepSeq(ids, start, from))
  {
    SliceOfPick(t, d, ids, 0, start);
    SliceOfPick(t, d, ids, from, |ids|);
    CatOfPicks(t, d, PySlice(ids, 0, start), PySlice(ids, from, |ids|));
  }

  /** Keeping two slices is one remap of the sequence axis, in terms of elements. */
  lemma KeepAt(t: Tensor, d: nat, start: int, from: int, idx: seq<nat>)
    requires HasAxis(t, d)
    requires var kept := KeepSeq(UpTo(t.shape[d]), start, from); InShape(t.shape[d := |kept|], idx)
    ensures var kept := KeepSeq(UpTo(t.shape[d]), start, from);
      var u := Keep(t, d, start, from, t.shape[d]);
      && u.Valid() && u.shape == t.shape[d := |kept|]
      && idx[d] < |kept| && InShape(t.shape, idx[d := kept[idx[d]]])
      && u.At(idx) == t.At(idx[d := kept[idx[d]]])
  {
    var ids := UpTo(t.shape[d]);
    PickEverything(t, d);
    KeepOfPick(t, d, ids, start, from);
    var kept := KeepSeq(ids, start, from);
    RowsOfPick(t, d, kept);
    PickAt(t, d, kept, idx);
  }

  /** All the keys and values that are ever computed in a run, a pair of tensors a layer. The cache
      holds positions of this history: the same positions in every layer, of K and of V alike. */
  ghost predicate Holds(c: StartRecent, past: Past, history: seq<Layer>, ids: seq<nat>) {
    && c.Shaped(Past(history))
    && InHistory(c, history, ids)
    && match past
       case NoPast => ids == []
       case Past(layers) => layers == PickLayers(c, history, ids)
  }

  ghost predicate InHistory(c: StartRecent, history: seq<Layer>, ids: seq<nat>)
    requires c.Shaped(Past(history))
  {
    forall l :: 0 <= l < |history| ==>
      InRange(ids, history[l].k.shape[c.kDim]) && InRange(ids, history[l].v.shape[c.vDim])
  }

  function PickLayers(c: StartRecent, history: seq<Layer>, ids: seq<nat>): seq<Layer>
    requires c.Shaped(Past(history)) && InHistory(c, history, ids)
  {
    seq(|history|, l requires 0 <= l < |history| =>
      Layer(Pick(history[l].k, c.kDim, ids), Pick(history[l].v, c.vDim, ids)))
  }

  /** What is held, tensor by tensor: K along its sequence axis, V along its own, in each layer. */
  lemma HoldsMeans(c: StartRecent, past: Past, history: seq<Layer>, ids: seq<nat>)
    requires Holds(c, past, history, ids)
    ensures past.NoPast? ==> ids == []
    ensures past.Past? ==>
      && |past.layers| == |history| > 0
      && forall l :: 0 <= l < |history| ==>
        && HasAxis(history[l].k, c.kDim) && InRange(ids, history[l].k.shape[c.kDim])
        && past.layers[l].k == Pick(history[l].k, c.kDim, ids)
        && HasAxis(history[l].v, c.vDim) && InRange(ids, history[l].v.shape[c.vDim])
        && past.layers[l].v == Pick(history[l].v, c.vDim, ids)
  {
  }

  lemma PickLayersShaped(c: StartRecent, history: seq<Layer>, ids: seq<nat>)
    requires c.Shaped(Past(history)) && InHistory(c, history, ids)
    ensures c.Shaped(Past(PickLayers(c, history, ids)))
    ensures c.SeqLen(Past(PickLayers(c, history, ids))) == |ids|
  {
    forall l | 0 <= l < |history|
      ensures HasAxis(PickLayers(c, history, ids)[l].k, c.kDim)
      ensures HasAxis(PickLayers(c, history, ids)[l].v, c.vDim)
      ensures PickLayers(c, history, ids)[l].k.shape[c.kDim] == |ids|
    {
      RowsOfPick(history[l].k, c.kDim, ids);
      RowsOfPick(history[l].v, c.vDim, ids);
    }
  }

  lemma KeepLayersOfPick(c: StartRecent, history: seq<Layer>, ids: seq<nat>, start: int, from: int)
    requires c.Shaped(Past(history)) && InHistory(c, history, ids)
    ensures c.Shaped(Past(PickLayers(c, history, ids)))
    ensures InHistory(c, history, KeepSeq(ids, start, from))
    ensures c.KeepLayers(PickLayers(c, history, ids), start, from, |ids|)
      == PickLayers(c, history, KeepSeq(ids, start, from))
  {
    hide PySlice, KeepSeq, Keep, Pick;
    PickLayersShaped(c, history, ids);
    var layers := PickLayers(c, history, ids);
    forall l | 0 <= l < |history|
      ensures InRange(KeepSeq(ids, start, from), history[l].k.shape[c.kDim])
      ensures InRange(KeepSeq(ids, start, from), history[l].v.shape[c.vDim])
      ensures Keep(layers[l].k, c.kDim, start, from, |ids|) == Pick(history[l].k, c.kDim, KeepSeq(ids, start, from))
      ensures Keep(layers[l].v, c.vDim, start, from, |ids|) == Pick(history[l].v, c.vDim, KeepSeq(ids, start, from))
    {
      KeepOfPick(history[l].k, c.kDim, ids, start, from);
      KeepOfPick(history[l].v, c.vDim, ids, start, from);
    }
  }

  /** Keeping the same two slices of every tensor keeps the same positions everywhere. */
  lemma KeepFollows(c: StartRecent, past: Past, history: seq<Layer>, ids: seq<nat>, start: int, from: int)
    requires Holds(c, past, history, ids) && past.Past?
    ensures c.Shaped(past) && c.SeqLen(past) == |ids|
    ensures Holds(c, Past(c.KeepLayers(past.layers, start, from, |ids|)), history, KeepSeq(ids, start, from))
  {
    PickLayersShaped(c, history, ids);
    KeepLayersOfPick(c, history, ids, start, from);
  }

  lemma CallFollows(c: StartRecent, past: Past, history: seq<Layer>, ids: seq<nat>)
    requires Holds(c, past, history, ids)
    ensures c.Shaped(past) && Holds(c, c.Call(past), history, c.CallSeq(ids))
  {
    hide PySlice, KeepSeq, Keep, PickLayers, InHistory, StartRecent.KeepLayers;
    if past.Past? { KeepFollows(c, past, history, ids, c.startSize, |ids| - c.recentSize); }
  }

  lemma EvictForSpaceFollows(c: StartRecent, past: Past, history: seq<Layer>, ids: seq<nat>, numComing: nat)
    requires Holds(c, past, history, ids)
    ensures c.Shaped(past) && Holds(c, c.EvictForSpace(past, numComing), history, c.EvictForSpaceSeq(ids, numComing))
  {
    hide PySlice, KeepSeq, Keep, PickLayers, InHistory, StartRecent.KeepLayers;
    if past.NoPast? {
      NothingToEvict<nat>(c, numComing);
    } else {
      KeepFollows(c, past, history, ids, c.startSize, |ids| - c.recentSize + numComing);
    }
  }

  lemma NothingToEvict<T>(c: StartRecent, numComing: nat)
    ensures c.EvictForSpaceSeq<T>([], numComing) == []
  {
  }

  lemma EvictRangeFollows(c: StartRecent, past: Past, history: seq<Layer>, ids: seq<nat>, start: int, end: int)
    requires Holds(c, past, history, ids) && past.Past?
    ensures c.Shaped(past)
    ensures match (c.EvictRange(past, start, end), c.EvictRangeSeq(ids, start, end))
      case (Ok(past'), Ok(ids')) => Holds(c, past', history, ids') && past'.Past?
      case (AssertionError, AssertionError) => true
      case _ => false
  {
    hide PySlice, KeepSeq, Keep, PickLayers, InHistory, StartRecent.KeepLayers;
    KeepFollows(c, past, history, ids, start, end);
  }

  // ----- whole runs

  /** A step of a run: the model computes q more positions, or the cache is evicted from. */
  datatype Op = Forward(q: nat) | Evict | MakeRoom(numComing: nat) | DropRange(start: int, end: int)

  predicate LongEnough(c: StartRecent, history: seq<Layer>, n: nat)
    requires c.Shaped(Past(history))
  {
    forall l :: 0 <= l < |history| ==> n <= history[l].k.shape[c.kDim] && n <= history[l].v.shape[c.vDim]
  }

  function Positions(from: nat, q: nat): (ids: seq<nat>)
    ensures |ids| == q && forall i :: 0 <= i < q ==> ids[i] == from + i
  {
    seq(q, i requires 0 <= i => from + i)
  }

  predicate Appendable(c: StartRecent, past: Past, history: seq<Layer>, next: nat, q: nat)
    requires c.Shaped(Past(history))
  {
    past.Past? ==>
      && |past.layers| == |history|
      && forall l :: 0 <= l < |history| ==>
        && Joinable(past.layers[l].k, Slice(history[l].k, c.kDim, next, next + q), c.kDim)
        && Joinable(past.layers[l].v, Slice(history[l].v, c.vDim, next, next + q), c.vDim)
  }

  /** A forward pass on q tokens joins the next q positions of the history to every tensor. */
  function Append(c: StartRecent, past: Past, history: seq<Layer>, next: nat, q: nat): Past
    requires c.Shaped(Past(history)) && Appendable(c, past, history, next, q)
  {
    Past(seq(|history|, l requires 0 <= l < |history| =>
      var (k, v) := (Slice(history[l].k, c.kDim, next, next + q), Slice(history[l].v, c.vDim, next, next + q));
      if past.NoPast? then Layer(k, v)
      else Layer(Cat(past.layers[l].k, k, c.kDim), Cat(past.layers[l].v, v, c.vDim))))
  }

  lemma NextSlice(t: Tensor, d: nat, ids: seq<nat>, next: nat, q: nat)
    requires HasAxis(t, d) && InRange(ids, t.shape[d]) && next + q <= t.shape[d]
    ensures InRange(Positions(next, q), t.shape[d])
    ensures Slice(t, d, next, next + q) == Pick(t, d, Positions(next, q))
    ensures InRange(ids + Positions(next, q), t.shape[d])
    ensures Joinable(Pick(t, d, ids), Pick(t, d, Positions(next, q)), d)
    ensures Cat(Pick(t, d, ids), Pick(t, d, Positions(next, q)), d) == Pick(t, d, ids + Positions(next, q))
  {
    hide Pick, Slice, Cat, PySlice, Joinable;
    SliceIsPick(t, d, next, next + q);
    SliceOfAll(t.shape[d], next, q);
    CatOfPicks(t, d, ids, Positions(next, q));
  }

  lemma SliceOfAll(n: nat, next: nat, q: nat)
    requires next + q <= n
    ensures PySlice(UpTo(n), next, next + q) == Positions(next, q)
  {
    assert |UpTo(n)| == n;
  }

  lemma AppendFollows(c: StartRecent, past: Past, history: seq<Layer>, ids: seq<nat>, next: nat, q: nat)
    requires Holds(c, past, history, ids) && LongEnough(c, history, next + q)
    ensures Appendable(c, past, history, next, q)
    ensures Holds(c, Append(c, past, history, next, q), history, ids + Positions(next, q))
  {
    var coming := Positions(next, q);
    forall l | 0 <= l < |history|
      ensures InRange(ids + coming, history[l].k.shape[c.kDim]) && InRange(ids + coming, history[l].v.shape[c.vDim])
      ensures past.Past? ==> Joinable(past.layers[l].k, Slice(history[l].k, c.kDim, next, next + q), c.kDim)
      ensures past.Past? ==> Joinable(past.layers[l].v, Slice(history[l].v, c.vDim, next, next + q), c.vDim)
    {
      NextSlice(history[l].k, c.kDim, ids, next, q);
      NextSlice(history[l].v, c.vDim, ids, next, q);
    }
    var r := Append(c, past, history, next, q);
    if past.NoPast? { assert ids + coming == coming; }
    forall l | 0 <= l < |history|
      ensures r.layers[l] == PickLayers(c, history, ids + coming)[l]
    {
      NextSlice(history[l].k, c.kDim, ids, next, q);
      NextSlice(history[l].v, c.vDim, ids, next, q);
    }
  }

  /** One step on positions; started tells whether there is a cache yet. */
  function StepSeq(c: StartRecent, started: bool, ids: seq<nat>, next: nat, op: Op): Result<seq<nat>> {
    match op
    case Forward(q) => Ok(ids + Positions(next, q))
    case Evict => Ok(c.CallSeq(ids))
    case MakeRoom(n) => Ok(c.EvictForSpaceSeq(ids, n))
    case DropRange(a, b) => if started then c.EvictRangeSeq(ids, a, b) else Ok(ids)
  }

  function Coming(op: Op): nat { if op.Forward? then op.q else 0 }

  /** One step on tensors: it fails if and only if the step on positions fails, and otherwise every K
      and every V of every layer holds exactly the positions that the step on positions gives. */
  function Step(c: StartRecent, past: Past, history: seq<Layer>, ghost ids: seq<nat>, next: nat, op: Op)
    : (r: Result<Past>)
    requires Holds(c, past, history, ids) && LongEnough(c, history, next + Coming(op))
    ensures match (r, StepSeq(c, past.Past?, ids, next, op))
      case (Ok(past'), Ok(ids')) => Holds(c, past', history, ids') && past'.Past? == (past.Past? || op.Forward?)
      case (AssertionError, AssertionError) => true
      case _ => false
  {
    match op
    case Forward(q) => AppendFollows(c, past, history, ids, next, q); Ok(Append(c, past, history, next, q))
    case Evict => CallFollows(c, past, history, ids); Ok(c.Call(past))
    case MakeRoom(n) => EvictForSpaceFollows(c, past, history, ids, n); Ok(c.EvictForSpace(past, n))
    case DropRange(a, b) =>
      if past.NoPast? then Ok(past) else EvictRangeFollows(c, past, history, ids, a, b); c.EvictRange(past, a, b)
  }

  /** The positions held after a run; a failed assertion ends the run. */
  function RunSeq(c: StartRecent, started: bool, ids: seq<nat>, next: nat, ops: seq<Op>): seq<nat>
    decreases |ops|
  {
    if ops == [] then ids else
    match StepSeq(c, started, ids, next, ops[0])
    case Ok(ids') => RunSeq(c, started || ops[0].Forward?, ids', next + Coming(ops[0]), ops[1..])
    case AssertionError => ids
  }

  function Computed(ops: seq<Op>): nat {
    if ops == [] then 0 else Computed(ops[1..]) + Coming(ops[0])
  }

  /** No step drops a range, so that none can fail. */
  predicate NoDrops(ops: seq<Op>) { forall i :: 0 <= i < |ops| ==> !ops[i].DropRange? }

  /** The same run on the tensors. Through any run, however long and however mixed, every K and every
      V of every layer holds exactly the positions that the run on positions holds. */
  function Run(c: StartRecent, past: Past, history: seq<Layer>, ghost ids: seq<nat>, next: nat, ops: seq<Op>): (r: Past)
    requires Holds(c, past, history, ids) && LongEnough(c, history, next + Computed(ops))
    ensures Holds(c, r, history, RunSeq(c, past.Past?, ids, next, ops))
    ensures NoDrops(ops) && (past.Past? || Computed(ops) > 0) ==> r.Past?
    decreases |ops|
  {
    if ops == [] then past else
    match Step(c, past, history, ids, next, ops[0])
    case Ok(past') =>
      ghost var ids' := StepSeq(c, past.Past?, ids, next, ops[0]).value;
      Run(c, past', history, ids', next + Coming(ops[0]), ops[1..])
    case AssertionError => past
  }

  // ----- the positions themselves

  /** The shape of the kept positions, for any prefix of the history fed so far. */
  lemma CallSeqKeepsEnds<T>(c: StartRecent, s: seq<T>)
    ensures |s| <= c.startSize + c.recentSize ==> c.CallSeq(s) == s
    ensures |s| > c.startSize + c.recentSize ==> c.CallSeq(s) == s[..c.startSize] + s[|s| - c.recentSize..]
  {
  }

  lemma EvictForSpaceSeqKeepsEnds<T>(c: StartRecent, s: seq<T>, numComing: nat)
    ensures var r := c.EvictForSpaceSeq(s, numComing);
      var room := if numComing <= c.recentSize then c.recentSize - numComing else 0;
      if |s| + numComing <= c.startSize + c.recentSize || |s| <= c.startSize then r == s
      else room < |s| - c.startSize && r == s[..c.startSize] + s[|s| - room..]
  {
    if |s| + numComing > c.CacheSize() && |s| <= c.startSize {
      assert c.EvictForSpaceSeq(s, numComing) == s + [];
    }
  }

  /** With bounds in range exactly the positions [start, end) are dropped. */
  lemma EvictRangeSeqDrops<T>(c: StartRecent, s: seq<T>, start: nat, end: nat)
    ensures c.EvictRangeSeq(s, start, end) ==
      if start <= end <= |s| then Ok(s[..start] + s[end..]) else AssertionError
  {
    if start <= end <= |s| { assert KeepSeq(s, start, end) == s[..start] + s[end..]; }
  }

  /** The assertion also admits negative bounds, which count from the end. The result is shorter by
      exactly end - start if and only if the bounds do not straddle zero and start is not before the
      sequence (or nothing is dropped); otherwise positions are repeated or too many survive. */
  lemma EvictRangeSeqLength<T>(c: StartRecent, s: seq<T>, start: int, end: int)
    requires start <= end <= |s|
    ensures |c.EvictRangeSeq(s, start, end).value| == |s| - (end - start) <==>
      start >= 0 || (end < 0 && (-|s| <= start || start == end))
    ensures -|s| <= start && end < 0 ==>
      c.EvictRangeSeq(s, start, end) == Ok(s[..|s| + start] + s[|s| + end..])
  {
    if -|s| <= start && end < 0 { assert KeepSeq(s, start, end) == s[..|s| + start] + s[|s| + end..]; }
  }

  /** Streaming equals one-shot: evicting early loses nothing that evicting late would keep. */
  lemma StreamingEqualsOneShot<T>(c: StartRecent, a: seq<T>, b: seq<T>)
    ensures c.CallSeq(c.CallSeq(a) + b) == c.CallSeq(a + b)
  {
    hide PySlice, KeepSeq, StartRecent.CallSeq;
    CallSeqKeepsEnds(c, a);
    if |a| > c.CacheSize() {
      var kept := c.CallSeq(a);
      SameEnds(a, kept, b, c.startSize, c.recentSize);
      CallSeqKeepsEnds(c, a + b);
      CallSeqKeepsEnds(c, kept + b);
      if b == [] { assert kept + b == kept && a + b == a; }
    }
  }

  lemma SameEnds<T>(a: seq<T>, kept: seq<T>, b: seq<T>, s: nat, r: nat)
    requires s + r <= |a| && kept == a[..s] + a[|a| - r..]
    ensures (kept + b)[..s] == (a + b)[..s]
    ensures (kept + b)[|kept + b| - r..] == (a + b)[|a + b| - r..]
  {
    var x, y := (kept + b)[|kept + b| - r..], (a + b)[|a + b| - r..];
    forall i | 0 <= i < r
      ensures x[i] == y[i]
    {
      assert x[i] == (kept + b)[s + |b| + i] && y[i] == (a + b)[|a| + |b| - r + i];
    }
  }

  /** Feeding a history in chunks, with an eviction after each. */
  function Feed<T>(c: StartRecent, cache: seq<T>, chunks: seq<seq<T>>): seq<T>
    decreases |chunks|
  {
    if chunks == [] then cache else Feed(c, c.CallSeq(cache + chunks[0]), chunks[1..])
  }

  lemma {:induction false} ChunkingDoesNotMatter<T>(c: StartRecent, before: seq<T>, chunks: seq<seq<T>>)
    ensures Feed(c, c.CallSeq(before), chunks) == c.CallSeq(before + Flatten(chunks))
    decreases |chunks|
  {
    if chunks == [] {
      assert before + Flatten(chunks) == before;
    } else {
      var fed, rest := before + chunks[0], Flatten(chunks[1..]);
      calc {
        Feed(c, c.CallSeq(before), chunks);
        Feed(c, c.CallSeq(c.CallSeq(before) + chunks[0]), chunks[1..]);
        { StreamingEqualsOneShot(c, before, chunks[0]); }
        Feed(c, c.CallSeq(fed), chunks[1..]);
        { ChunkingDoesNotMatter(c, fed, chunks[1..]); }
        c.CallSeq(fed + rest);
        { assert fed + rest == before + (chunks[0] + rest); }
        c.CallSeq(before + (chunks[0] + rest));
      }
    }
  }

  // ----- streaming on tensors

  /** A run is its first step and the rest of the run. */
  lemma RunFirst(c: StartRecent, started: bool, ids: seq<nat>, next: nat, ops: seq<Op>)
    requires ops != [] && !ops[0].DropRange?
    ensures var step := StepSeq(c, started, ids, next, ops[0]);
      step.Ok? && RunSeq(c, started, ids, next, ops)
        == RunSeq(c, started || ops[0].Forward?, step.value, next + Coming(ops[0]), ops[1..])
  {
  }

  lemma {:induction false} OneMoreOp(c: StartRecent, started: bool, ids: seq<nat>, next: nat, ops: seq<Op>, op: Op)
    requires NoDrops(ops) && !op.DropRange?
    ensures Computed(ops + [op]) == Computed(ops) + Coming(op)
    ensures Ok(RunSeq(c, started, ids, next, ops + [op]))
      == StepSeq(c, started, RunSeq(c, started, ids, next, ops), next + Computed(ops), op)
    decreases |ops|
  {
    hide StartRecent.CallSeq, StartRecent.EvictForSpaceSeq, StartRecent.EvictRangeSeq;
    if ops == [] {
      assert ops + [op] == [op];
      RunFirst(c, started, ids, next, [op]);
    } else {
      var first, rest := ops[0], ops[1..];
      assert (ops + [op])[1..] == rest + [op] && !first.DropRange?;
      var ids', next' := StepSeq(c, started, ids, next, first).value, next + Coming(first);
      RunFirst(c, started, ids, next, ops);
      RunFirst(c, started, ids, next, ops + [op]);
      OneMoreOp(c, started || first.Forward?, ids', next', rest, op);
    }
  }

  lemma PositionsSplit(from: nat, p: nat, q: nat)
    ensures Positions(from, p + q) == Positions(from, p) + Positions(from + p, q)
  {
  }

  /** A forward pass or an eviction changes nothing for an eviction later. */
  lemma StepThenCall(c: StartRecent, started: bool, ids: seq<nat>, next: nat, op: Op, later: seq<nat>)
    requires op.Forward? || op.Evict?
    ensures StepSeq(c, started, ids, next, op).Ok?
    ensures c.CallSeq(StepSeq(c, started, ids, next, op).value + later)
      == c.CallSeq(ids + (Positions(next, Coming(op)) + later))
  {
    if op.Forward? {
      assert ids + Positions(next, op.q) + later == ids + (Positions(next, op.q) + later);
    } else {
      assert Positions(next, 0) + later == later;
      StreamingEqualsOneShot(c, ids, later);
    }
  }

  /** However forward passes and evictions are mixed, one more eviction leaves the same positions. */
  lemma {:induction false} MixingDoesNotMatter(c: StartRecent, started: bool, ids: seq<nat>, next: nat, ops: seq<Op>)
    requires forall i :: 0 <= i < |ops| ==> ops[i].Forward? || ops[i].Evict?
    ensures c.CallSeq(RunSeq(c, started, ids, next, ops)) == c.CallSeq(ids + Positions(next, Computed(ops)))
    decreases |ops|
  {
    hide StartRecent.CallSeq, StartRecent.EvictForSpaceSeq, StartRecent.EvictRangeSeq;
    if ops == [] {
      assert ids + Positions(next, 0) == ids;
    } else {
      var op, rest := ops[0], ops[1..];
      var ids', next' := StepSeq(c, started, ids, next, op).value, next + Coming(op);
      var later := Positions(next', Computed(rest));
      RunFirst(c, started, ids, next, ops);
      calc {
        c.CallSeq(RunSeq(c, started, ids, next, ops));
        c.CallSeq(RunSeq(c, started || op.Forward?, ids', next', rest));
        { MixingDoesNotMatter(c, started || op.Forward?, ids', next', rest); }
        c.CallSeq(ids' + later);
        { StepThenCall(c, started, ids, next, op, later); }
        c.CallSeq(ids + (Positions(next, Coming(op)) + later));
        { PositionsSplit(next, Coming(op), Computed(rest)); }
        c.CallSeq(ids + Positions(next, Computed(ops)));
      }
    }
  }

  lemma StreamedPositions(c: StartRecent, ops: seq<Op>)
    requires forall i :: 0 <= i < |ops| ==> ops[i].Forward? || ops[i].Evict?
    ensures NoDrops(ops + [Evict]) && Computed(ops + [Evict]) == Computed(ops)
    ensures RunSeq(c, false, [], 0, ops + [Evict]) == c.CallSeq(Positions(0, Computed(ops)))
  {
    hide RunSeq, Computed, StartRecent.CallSeq, StartRecent.EvictForSpaceSeq, StartRecent.EvictRangeSeq;
    OneMoreOp(c, false, [], 0, ops, Evict);
    MixingDoesNotMatter(c, false, [], 0, ops);
    assert [] + Positions(0, Computed(ops)) == Positions(0, Computed(ops));
  }

  /** The whole history: every sequence axis has exactly n entries. */
  predicate IsWhole(c: StartRecent, history: seq<Layer>, n: nat)
    requires c.Shaped(Past(history))
  {
    forall l :: 0 <= l < |history| ==> history[l].k.shape[c.kDim] == n && history[l].v.shape[c.vDim] == n
  }

  lemma WholeHoldsAll(c: StartRecent, history: seq<Layer>, n: nat)
    requires c.Shaped(Past(history)) && IsWhole(c, history, n)
    ensures Holds(c, Past(history), history, Positions(0, n))
  {
    forall l | 0 <= l < |history|
      ensures InRange(Positions(0, n), history[l].k.shape[c.kDim])
      ensures InRange(Positions(0, n), history[l].v.shape[c.vDim])
      ensures Pick(history[l].k, c.kDim, Positions(0, n)) == history[l].k
      ensures Pick(history[l].v, c.vDim, Positions(0, n)) == history[l].v
    {
      assert Positions(0, n) == UpTo(n);
      PickEverything(history[l].k, c.kDim);
      PickEverything(history[l].v, c.vDim);
    }
    assert PickLayers(c, history, Positions(0, n)) == history;
  }

  /** One call, element by element, with n positions cached: nothing changes up to the cache size; above it
      every entry of every K and V is the entry of the input at the same index, moved along the sequence
      axis past what was dropped. */
  lemma CallAt(c: StartRecent, layers: seq<Layer>, n: nat, l: nat, idx: seq<nat>)
    requires l < |layers| && forall l :: 0 <= l < |layers| ==> var k, v := layers[l].k, layers[l].v;
      && |k.data| == Prod(k.shape) && c.kDim < |k.shape| && k.shape[c.kDim] == n
      && |v.data| == Prod(v.shape) && c.vDim < |v.shape| && v.shape[c.vDim] == n
    ensures c.Shaped(Past(layers))
    ensures n <= c.startSize + c.recentSize ==> c.Call(Past(layers)) == Past(layers)
    ensures n > c.startSize + c.recentSize ==>
      && c.Call(Past(layers)).Past? && |c.Call(Past(layers)).layers| == |layers|
      && EndsAt(c, layers[l].k, c.kDim, c.Call(Past(layers)).layers[l].k, n, idx)
      && EndsAt(c, layers[l].v, c.vDim, c.Call(Past(layers)).layers[l].v, n, idx)
  {
    hide EndsAt, Keep, PySlice, KeepSeq;
    if n > c.startSize + c.recentSize {
      KeptEndsAt(c, layers[l].k, c.kDim, n, idx);
      KeptEndsAt(c, layers[l].v, c.vDim, n, idx);
    }
  }

  /** u is t with only the ends of axis d, at one index. */
  predicate EndsAt(c: StartRecent, t: Tensor, d: nat, u: Tensor, n: nat, idx: seq<nat>)
    requires n >= c.startSize + c.recentSize
  {
    && HasAxis(t, d) && u.Valid() && u.shape == t.shape[d := c.startSize + c.recentSize]
    && (InShape(u.shape, idx) ==>
      var from := idx[d := if idx[d] < c.startSize then idx[d] else idx[d] + (n - c.startSize - c.recentSize)];
      InShape(t.shape, from) && u.At(idx) == t.At(from))
  }

  /** Which is to say: below startSize the same entry, from there on the one past what was dropped. */
  lemma EndsAtMeans(c: StartRecent, t: Tensor, d: nat, u: Tensor, n: nat, idx: seq<nat>) returns (from: seq<nat>)
    requires n >= c.startSize + c.recentSize && EndsAt(c, t, d, u, n, idx)
    requires |idx| == |u.shape| && forall a :: 0 <= a < |idx| ==> idx[a] < u.shape[a]
    ensures d < |t.shape| && |u.data| == Prod(u.shape) && u.shape == t.shape[d := c.startSize + c.recentSize]
    ensures idx[d] < c.startSize ==> from == idx
    ensures idx[d] >= c.startSize ==> from == idx[d := n - c.recentSize + (idx[d] - c.startSize)]
    ensures Offset(u.shape, idx) < |u.data| && |from| == |t.shape| && Offset(t.shape, from) < |t.data|
    ensures u.data[Offset(u.shape, idx)] == t.data[Offset(t.shape, from)]
  {
    hide Offset, Prod;
    from := idx[d := if idx[d] < c.startSize then idx[d] else idx[d] + (n - c.startSize - c.recentSize)];
    OffsetInRange(u.shape, idx);
    OffsetInRange(t.shape, from);
  }

  lemma KeptEndsAt(c: StartRecent, t: Tensor, d: nat, n: nat, idx: seq<nat>)
    requires HasAxis(t, d) && t.shape[d] == n > c.startSize + c.recentSize
    ensures EndsAt(c, t, d, Keep(t, d, c.startSize, n - c.recentSize, n), n, idx)
  {
    hide *;
    var kept := EndsOfAll(c, n);
    KeepIsPick(t, d, c.startSize, n - c.recentSize, n, kept);
    PickedEndsAt(c, t, d, n, kept, idx);
  }

  lemma KeepIsPick(t: Tensor, d: nat, start: int, from: int, n: nat, kept: seq<nat>)
    requires HasAxis(t, d) && t.shape[d] == n && kept == KeepSeq(UpTo(n), start, from)
    ensures InRange(kept, t.shape[d]) && Keep(t, d, start, from, n) == Pick(t, d, kept)
  {
    hide PySlice, KeepSeq, Keep, Pick;
    PickEverything(t, d);
    KeepOfPick(t, d, UpTo(n), start, from);
  }

  lemma PickedEndsAt(c: StartRecent, t: Tensor, d: nat, n: nat, kept: seq<nat>, idx: seq<nat>)
    requires HasAxis(t, d) && t.shape[d] == n > c.startSize + c.recentSize && InRange(kept, n)
    requires |kept| == c.startSize + c.recentSize
    requires forall i :: 0 <= i < |kept| ==>
      kept[i] == if i < c.startSize then i else i + (n - c.startSize - c.recentSize)
    ensures EndsAt(c, t, d, Pick(t, d, kept), n, idx)
  {
    hide Pick, Tensor.Valid, Tensor.At, InShape;
    RowsOfPick(t, d, kept);
    if InShape(t.shape[d := |kept|], idx) {
      PickAt(t, d, kept, idx);
    }
  }

  lemma EndsOfAll(c: StartRecent, n: nat) returns (kept: seq<nat>)
    requires n > c.startSize + c.recentSize
    ensures kept == KeepSeq(UpTo(n), c.startSize, n - c.recentSize)
    ensures |kept| == c.startSize + c.recentSize
    ensures forall i :: 0 <= i < |kept| ==>
      kept[i] == if i < c.startSize then i else i + (n - c.startSize - c.recentSize)
  {
    kept := KeepSeq(UpTo(n), c.startSize, n - c.recentSize);
    assert |UpTo(n)| == n;
  }

  /** Streaming equals one-shot on the tensors of all layers: any run of forward passes and evictions
      that ends with an eviction leaves exactly what one call on the whole history leaves. */
  lemma StreamedTensorsEqualOneShot(c: StartRecent, history: seq<Layer>, ops: seq<Op>)
    requires forall i :: 0 <= i < |ops| ==> ops[i].Forward? || ops[i].Evict?
    requires Computed(ops) > 0 && history != []
    requires forall l :: 0 <= l < |history| ==>
      && HasAxis(history[l].k, c.kDim) && history[l].k.shape[c.kDim] == Computed(ops)
      && HasAxis(history[l].v, c.vDim) && history[l].v.shape[c.vDim] == Computed(ops)
    ensures c.Shaped(Past(history))
    ensures Holds(c, NoPast, history, []) && LongEnough(c, history, Computed(ops + [Evict]))
    ensures Run(c, NoPast, history, [], 0, ops + [Evict]) == c.Call(Past(history))
  {
    StreamedPositions(c, ops);
    WholeHoldsAll(c, history, Computed(ops));
    CallFollows(c, Past(history), history, Positions(0, Computed(ops)));
    SamePositions(c, Run(c, NoPast, history, [], 0, ops + [Evict]), c.Call(Past(history)), history,
                  c.CallSeq(Positions(0, Computed(ops))));
  }

  lemma SamePositions(c: StartRecent, past: Past, past': Past, history: seq<Layer>, ids: seq<nat>)
    requires Holds(c, past, history, ids) && Holds(c, past', history, ids) && past.Past? && past'.Past?
    ensures past == past'
  {
  }

  // ----- the positions as the tokens they belong to

  /** Keeping positions keeps the tokens at them. */
  lemma PickOfKeep<T>(h: seq<T>, ids: seq<nat>, start: int, from: int)
    requires InRange(ids, |h|)
    ensures InRange(KeepSeq(ids, start, from), |h|)
    ensures PickSeq(h, KeepSeq(ids, start, from)) == KeepSeq(PickSeq(h, ids), start, from)
  {
    PickOfSlice(h, ids, 0, start);
    PickOfSlice(h, ids, from, |ids|);
    hide PySlice;
    assert PickSeq(h, PySlice(ids, 0, start) + PySlice(ids, from, |ids|))
      == PickSeq(h, PySlice(ids, 0, start)) + PickSeq(h, PySlice(ids, from, |ids|));
  }

  lemma PickOfSlice<T>(h: seq<T>, ids: seq<nat>, lo: int, hi: int)
    requires InRange(ids, |h|)
    ensures InRange(PySlice(ids, lo, hi), |h|)
    ensures PickSeq(h, PySlice(ids, lo, hi)) == PySlice(PickSeq(h, ids), lo, hi)
  {
  }

  /** The run on positions holds exactly the tokens of cache, out of the tokens h fed in it. */
  ghost predicate Mirrors<T(!new)>(c: StartRecent, ops: seq<Op>, h: seq<T>, cache: seq<T>) {
    && NoDrops(ops) && Computed(ops) == |h|
    && var ids := RunSeq(c, false, [], 0, ops);
      InRange(ids, |h|) && PickSeq(h, ids) == cache
  }

  lemma MirrorsMean<T(!new)>(c: StartRecent, ops: seq<Op>, h: seq<T>, cache: seq<T>)
    requires Mirrors(c, ops, h, cache)
    ensures var ids := RunSeq(c, false, [], 0, ops);
      |ids| == |cache| && forall i :: 0 <= i < |ids| ==> ids[i] < |h| && cache[i] == h[ids[i]]
    ensures forall i :: 0 <= i < |ops| ==> !ops[i].DropRange?
  {
  }

  lemma MirrorForward<T(!new)>(c: StartRecent, ops: seq<Op>, h: seq<T>, cache: seq<T>, b: seq<T>)
    requires Mirrors(c, ops, h, cache)
    ensures Mirrors(c, ops + [Forward(|b|)], h + b, cache + b)
  {
    hide RunSeq, Computed, StartRecent.CallSeq, StartRecent.EvictForSpaceSeq, StartRecent.EvictRangeSeq;
    OneMoreOp(c, false, [], 0, ops, Forward(|b|));
  }

  lemma MirrorEvict<T(!new)>(c: StartRecent, ops: seq<Op>, h: seq<T>, cache: seq<T>)
    requires Mirrors(c, ops, h, cache)
    ensures Mirrors(c, ops + [Evict], h, c.CallSeq(cache))
  {
    hide RunSeq, Computed, KeepSeq, StartRecent.EvictForSpaceSeq, StartRecent.EvictRangeSeq;
    OneMoreOp(c, false, [], 0, ops, Evict);
    var ids := RunSeq(c, false, [], 0, ops);
    PickOfKeep(h, ids, c.startSize, |ids| - c.recentSize);
  }

  lemma MirrorMakeRoom<T(!new)>(c: StartRecent, ops: seq<Op>, h: seq<T>, cache: seq<T>, numComing: nat)
    requires Mirrors(c, ops, h, cache)
    ensures Mirrors(c, ops + [MakeRoom(numComing)], h, c.EvictForSpaceSeq(cache, numComing))
  {
    hide RunSeq, Computed, KeepSeq, StartRecent.CallSeq, StartRecent.EvictRangeSeq;
    OneMoreOp(c, false, [], 0, ops, MakeRoom(numComing));
    var ids := RunSeq(c, false, [], 0, ops);
    PickOfKeep(h, ids, c.startSize, |ids| - c.recentSize + numComing);
  }
}
