/** The batch sizes for which CUDA graphs are captured, and the table that pads a batch to one of them. */
module GraphSizes {
  import Bits

  datatype Option<T> = None | Some(value: T)

  // ----- the padding table

  /** What a padded size should be: the least size that a batch of bs fits in, an empty batch counting as a size. */
  ghost predicate IsPadded(sizes: seq<nat>, bs: nat, p: nat) {
    && bs <= p && (p == 0 || p in sizes)
    && (bs == 0 ==> p == 0) && forall s :: s in sizes && bs <= s ==> p <= s
  }

  ghost predicate IsTable(sizes: seq<nat>, table: seq<nat>) {
    && table != []
    && (|table| == 1 || |table| - 1 in sizes)
    && (forall s :: s in sizes ==> s < |table|)
    && forall bs :: 0 <= bs < |table| ==> IsPadded(sizes, bs, table[bs])
  }

  predicate Descending(s: seq<nat>) {
    forall i, j :: 0 <= i < j < |s| ==> s[i] >= s[j]
  }

  /** The size after the i-th in descending order, 0 at the end. */
  function Next(sizes: seq<nat>, i: nat): nat { if i < |sizes| then sizes[i] else 0 }

  /** list(set(sizes)): each element once, in an order that the source does not fix. */
  method Deduplicated(sizes: seq<nat>) returns (r: seq<nat>)
    ensures forall x :: x in r <==> x in sizes
    ensures forall i, j :: 0 <= i < j < |r| ==> r[i] != r[j]
  {
    r := [];
    var rest := set x | x in sizes;
    while rest != {}
      invariant forall x :: x in sizes <==> x in r || x in rest
      invariant forall x :: x in rest ==> x !in r
      invariant forall i, j :: 0 <= i < j < |r| ==> r[i] != r[j]
      decreases |rest|
    {
      var x :| x in rest;
      r, rest := r + [x], rest - {x};
    }
  }

  /** The list's own sort, in descending order. */
  method SortDescending(sizes: seq<nat>) returns (r: seq<nat>)
    ensures Descending(r) && multiset(r) == multiset(sizes)
    ensures forall i, j :: 0 <= i < j < |r| ==> r[i] >= r[j]
  {
    r := [];
    for i := 0 to |sizes|
      invariant Descending(r) && multiset(r) == multiset(sizes[..i])
    {
      var k := 0;
      while k < |r| && r[k] >= sizes[i]
        invariant k <= |r| && forall j :: 0 <= j < k ==> r[j] >= sizes[i]
      {
        k := k + 1;
      }
      InsertedAt(r, k, sizes[i]);
      assert sizes[..i + 1] == sizes[..i] + [sizes[i]];
      r := r[..k] + [sizes[i]] + r[k..];
    }
    assert sizes[..|sizes|] == sizes;
  }

  /** Sorting a list without repetitions. */
  lemma SortedDistinct(s: seq<nat>, r: seq<nat>)
    requires Descending(r) && multiset(r) == multiset(s)
    ensures (forall i, j :: 0 <= i < j < |s| ==> s[i] != s[j]) ==> forall i, j :: 0 <= i < j < |r| ==> r[i] > r[j]
  {
    if forall i, j :: 0 <= i < j < |s| ==> s[i] != s[j] {
      forall i, j | 0 <= i < j < |r|
        ensures r[i] > r[j]
      {
        if r[i] == r[j] {
          OccursTwice(r, i, j);
          OccursOnce(s, r[i]);
        }
      }
    }
  }

  lemma OccursTwice(s: seq<nat>, i: nat, j: nat)
    requires i < j < |s| && s[i] == s[j]
    ensures multiset(s)[s[i]] >= 2
  {
    assert s == s[..i] + [s[i]] + s[i + 1..j] + [s[j]] + s[j + 1..];
  }

  lemma OccursOnce(s: seq<nat>, x: nat)
    requires forall i, j :: 0 <= i < j < |s| ==> s[i] != s[j]
    ensures multiset(s)[x] <= 1
  {
    if k: nat :| k < |s| && s[k] == x {
      assert s == s[..k] + [x] + s[k + 1..];
    }
  }

  lemma InsertedAt(s: seq<nat>, k: nat, x: nat)
    requires Descending(s) && k <= |s|
    requires (forall j :: 0 <= j < k ==> s[j] >= x) && (k < |s| ==> s[k] < x)
    ensures Descending(s[..k] + [x] + s[k..])
    ensures multiset(s[..k] + [x] + s[k..]) == multiset(s) + multiset{x}
  {
    assert s == s[..k] + s[k..];
  }

  class CompilationConfig {
    var captureSizes: Option<seq<nat>>
    var maxCaptureSize: nat
    var bsToPaddedGraphSize: array<nat>

    constructor (userSizes: Option<seq<nat>>)
      ensures captureSizes == userSizes && fresh(bsToPaddedGraphSize)
    {
      captureSizes := userSizes;
      maxCaptureSize := 0;
      bsToPaddedGraphSize := new nat[0];
    }

    ghost predicate Ready()
      reads this, bsToPaddedGraphSize
    {
      && captureSizes.Some? && Descending(captureSizes.value)
      && maxCaptureSize == Next(captureSizes.value, 0)
      && bsToPaddedGraphSize.Length == maxCaptureSize + 1
      && IsTable(captureSizes.value, bsToPaddedGraphSize[..])
    }

    /** Sizes given by the user take precedence over the ones computed by the runner. */
    method InitWithCudagraphSizes(runnerSizes: seq<nat>)
      modifies this
      ensures Ready() && fresh(bsToPaddedGraphSize)
      ensures forall x :: x in captureSizes.value <==>
        x in if old(captureSizes).Some? then old(captureSizes).value else runnerSizes
      ensures forall i, j :: 0 <= i < j < |captureSizes.value| ==>
        if old(captureSizes).Some? then captureSizes.value[i] > captureSizes.value[j]
        else captureSizes.value[i] >= captureSizes.value[j]
      ensures old(captureSizes).None? ==> multiset(captureSizes.value) == multiset(runnerSizes)
      ensures maxCaptureSize == if captureSizes.value == [] then 0 else captureSizes.value[0]
    {
      var sizes := runnerSizes;
      if captureSizes.Some? {
        sizes := Deduplicated(captureSizes.value);
      }
      ghost var given := sizes;
      sizes := SortDescending(sizes);
      SortedDistinct(given, sizes);
      assert forall x :: x in given <==> x in multiset(given);
      assert forall x :: x in sizes <==> x in multiset(sizes);
      captureSizes := Some(sizes);
      maxCaptureSize := if sizes != [] then sizes[0] else 0;
      bsToPaddedGraphSize := FillTable(sizes, maxCaptureSize);
    }

    /** bs_to_padded_graph_size[batch_size]; no value stands for the IndexError. */
    method PadForCudagraph(batchSize: nat) returns (r: Option<nat>)
      requires Ready()
      ensures r.Some? <==> batchSize == 0 || exists s :: s in captureSizes.value && batchSize <= s
      ensures r.Some? ==> batchSize <= r.value && (r.value == 0 || r.value in captureSizes.value)
      ensures r.Some? ==> forall s :: s in captureSizes.value && batchSize <= s ==> r.value <= s
      ensures batchSize == 0 ==> r == Some(0)
    {
      if batchSize >= bsToPaddedGraphSize.Length {
        return None;
      }
      assert IsPadded(captureSizes.value, batchSize, bsToPaddedGraphSize[..][batchSize]);
      r := Some(bsToPaddedGraphSize[batchSize]);
    }
  }

  /** The nested loops over neighbouring sizes. Each pass fills the entries from one size up to the next. */
  method FillTable(sizes: seq<nat>, maxSize: nat) returns (table: array<nat>)
    requires Descending(sizes) && maxSize == Next(sizes, 0)
    ensures fresh(table) && table.Length == maxSize + 1 && IsTable(sizes, table[..])
  {
    table := new nat[maxSize + 1](_ => 0);
    for i := 0 to |sizes|
      invariant forall bs :: Next(sizes, i) <= bs < maxSize ==> IsPadded(sizes, bs, table[bs])
    {
      var end, start := sizes[i], Next(sizes, i + 1);
      for bs := start to end
        invariant forall b :: start <= b < bs || end <= b < maxSize ==> IsPadded(sizes, b, table[b])
      {
        PaddedBetween(sizes, i, bs);
        if bs == start {
          table[bs] := start;
        } else {
          table[bs] := end;
        }
      }
    }
    table[maxSize] := maxSize;
    forall bs | 0 <= bs <= maxSize
      ensures IsPadded(sizes, bs, table[bs])
    {
    }
  }

  lemma PaddedBetween(sizes: seq<nat>, i: nat, bs: nat)
    requires Descending(sizes) && i < |sizes| && Next(sizes, i + 1) <= bs < sizes[i]
    ensures IsPadded(sizes, bs, if bs == Next(sizes, i + 1) then bs else sizes[i])
  {
    forall s | s in sizes && bs <= s && bs != Next(sizes, i + 1)
      ensures sizes[i] <= s
    {
      var k :| 0 <= k < |sizes| && sizes[k] == s;
      assert k <= i;
    }
  }

  /** The table is monotone and idempotent, and its fixed points are exactly 0 and the captured sizes. */
  lemma TableIsClosure(sizes: seq<nat>, table: seq<nat>)
    requires IsTable(sizes, table)
    ensures forall bs :: 0 <= bs < |table| ==> bs <= table[bs] < |table| && table[table[bs]] == table[bs]
    ensures forall a, b :: 0 <= a <= b < |table| ==> table[a] <= table[b]
    ensures forall bs :: 0 <= bs < |table| ==> (table[bs] == bs <==> bs == 0 || bs in sizes)
  {
    forall a, b | 0 <= a <= b < |table|
      ensures table[a] <= table[b]
    {
      assert IsPadded(sizes, a, table[a]) && IsPadded(sizes, b, table[b]);
    }
    forall bs | 0 <= bs < |table|
      ensures bs <= table[bs] < |table| && table[table[bs]] == table[bs]
      ensures table[bs] == bs <==> bs == 0 || bs in sizes
    {
      assert IsPadded(sizes, bs, table[bs]);
      assert IsPadded(sizes, table[bs], table[table[bs]]);
    }
  }

  /** Neither the order of the sizes nor repetitions show in the table. */
  lemma TableIsUnique(sizes: seq<nat>, table: seq<nat>, sizes': seq<nat>, table': seq<nat>)
    requires IsTable(sizes, table) && IsTable(sizes', table') && forall s :: s in sizes <==> s in sizes'
    ensures table == table'
  {
    assert |table| == |table'|;
    forall bs | 0 <= bs < |table|
      ensures table[bs] == table'[bs]
    {
      assert IsPadded(sizes, bs, table[bs]) && IsPadded(sizes', bs, table'[bs]);
    }
  }

  // ----- the default sizes

  datatype Scheduler = Scheduler(maxNumSeqs: nat, maxNumBatchedTokens: nat)

  datatype Model = Model(enforceEager: bool)

  datatype VllmConfig = VllmConfig(
    useV1: bool,
    scheduler: Option<Scheduler>,
    model: Option<Model>,
    tensorParallelSize: nat,
    enableSequenceParallelism: bool)
  {
    /** Graphs are captured at all. */
    predicate Captures() { model.Some? && !model.value.enforceEager && (useV1 || scheduler.Some?) }

    predicate Filters() { tensorParallelSize > 1 && enableSequenceParallelism }

    /** The largest candidate is 8 * Eighths(). */
    function Eighths(): nat { if useV1 then 64 else 1024 }
  }

  datatype Outcome = Done | IndexError | AttributeError

  /** 1, 2, 4 and the multiples of 8 up to 8 * n. */
  function Candidates(n: nat): (r: seq<nat>)
    ensures |r| == n + 3
  {
    [1, 2, 4] + seq(n, i requires 0 <= i < n => 8 * (i + 1))
  }

  predicate Ascending(s: seq<nat>) {
    forall i, j :: 0 <= i < j < |s| ==> s[i] < s[j]
  }

  /** A list comprehension with a condition. */
  function Filter(s: seq<nat>, keep: nat -> bool): (r: seq<nat>)
    ensures forall x :: x in r <==> x in s && keep(x)
  {
    if s == [] then [] else
      var n := |s| - 1;
      assert s == s[..n] + [s[n]];
      Filter(s[..n], keep) + if keep(s[n]) then [s[n]] else []
  }

  /** The positions of the elements that satisfy the condition. */
  function KeptAt(s: seq<nat>, keep: nat -> bool): seq<nat> {
    if s == [] then [] else KeptAt(s[..|s| - 1], keep) + if keep(s[|s| - 1]) then [|s| - 1] else []
  }

  /** r is the elements of s at these positions, which are all those where the condition holds, in order. */
  ghost predicate Selects(s: seq<nat>, keep: nat -> bool, r: seq<nat>, at: seq<nat>) {
    && Ascending(at) && |at| == |r|
    && (forall i :: 0 <= i < |at| ==> at[i] < |s| && r[i] == s[at[i]])
    && forall j :: 0 <= j < |s| ==> (keep(s[j]) <==> j in at)
  }

  lemma {:induction false} FilterSelects(s: seq<nat>, keep: nat -> bool)
    ensures Selects(s, keep, Filter(s, keep), KeptAt(s, keep))
  {
    if s != [] {
      hide Selects;
      var n := |s| - 1;
      FilterSelects(s[..n], keep);
      if keep(s[n]) {
        SelectsOneMore(s[..n], s[n], keep, Filter(s[..n], keep), KeptAt(s[..n], keep));
      } else {
        SelectsNoMore(s[..n], s[n], keep, Filter(s[..n], keep), KeptAt(s[..n], keep));
      }
      assert s == s[..n] + [s[n]];
    }
  }

  lemma SelectsNoMore(s: seq<nat>, x: nat, keep: nat -> bool, r: seq<nat>, at: seq<nat>)
    requires Selects(s, keep, r, at) && !keep(x)
    ensures Selects(s + [x], keep, r + [], at + [])
  {
    hide Ascending;
    assert r + [] == r && at + [] == at;
  }

  lemma SelectsOneMore(s: seq<nat>, x: nat, keep: nat -> bool, r: seq<nat>, at: seq<nat>)
    requires Selects(s, keep, r, at) && keep(x)
    ensures Selects(s + [x], keep, r + [x], at + [|s|])
  {
    AscendingSnoc(at, |s|);
    hide Ascending;
    assert forall j :: j in at + [|s|] <==> j in at || j == |s|;
  }

  lemma AscendingSnoc(s: seq<nat>, x: nat)
    requires Ascending(s) && forall i :: 0 <= i < |s| ==> s[i] < x
    ensures Ascending(s + [x])
  {
  }

  lemma FilterAscending(s: seq<nat>, keep: nat -> bool)
    requires Ascending(s)
    ensures Ascending(Filter(s, keep))
  {
    FilterSelects(s, keep);
  }

  function MultipleOf(m: nat): nat -> bool
    requires m > 0
  {
    size => size % m == 0
  }

  function AtLeast(n: nat): nat -> bool { size => size >= n }

  function AtMost(n: nat): nat -> bool { size => size <= n }

  /** The sizes whose parts are equal on all ranks, in the order of the list and as often as in it. */
  function UpdateSizesForSequenceParallelism(sizes: seq<nat>, tensorParallelSize: nat): (r: seq<nat>)
    requires tensorParallelSize > 0
    ensures forall x :: x in r <==> x in sizes && x % tensorParallelSize == 0
    ensures exists at: seq<nat> ::
      && |at| == |r|
      && (forall i, j :: 0 <= i < j < |at| ==> at[i] < at[j])
      && (forall i :: 0 <= i < |at| ==> at[i] < |sizes| && r[i] == sizes[at[i]])
      && (forall j :: 0 <= j < |sizes| ==> (sizes[j] % tensorParallelSize == 0 <==> j in at))
  {
    FilterSelects(sizes, MultipleOf(tensorParallelSize));
    SelectsMultiples(sizes, tensorParallelSize, Filter(sizes, MultipleOf(tensorParallelSize)),
                     KeptAt(sizes, MultipleOf(tensorParallelSize)));
    Filter(sizes, MultipleOf(tensorParallelSize))
  }

  lemma SelectsMultiples(s: seq<nat>, m: nat, r: seq<nat>, at: seq<nat>)
    requires m > 0 && Selects(s, MultipleOf(m), r, at)
    ensures |at| == |r|
    ensures forall i, j :: 0 <= i < j < |at| ==> at[i] < at[j]
    ensures forall i :: 0 <= i < |at| ==> at[i] < |s| && r[i] == s[at[i]]
    ensures forall j :: 0 <= j < |s| ==> (s[j] % m == 0 <==> j in at)
  {
  }

  lemma CandidatesAre(n: nat)
    ensures Ascending(Candidates(n))
    ensures forall x :: x in Candidates(n) <==> x == 1 || x == 2 || x == 4 || (8 <= x <= 8 * n && x % 8 == 0)
  {
    forall x: nat | 8 <= x <= 8 * n && x % 8 == 0
      ensures x in Candidates(n)
    {
      assert Candidates(n)[x / 8 + 2] == x;
    }
  }

  /** A size that the configuration allows, before the limits of the scheduler. */
  ghost predicate Kept(c: VllmConfig, x: nat) {
    && (x == 1 || x == 2 || x == 4 || (8 <= x <= 8 * c.Eighths() && x % 8 == 0))
    && (c.Filters() ==> x % c.tensorParallelSize == 0)
  }

  /** V0 captures up to the first size that holds max_num_seqs; V1 up to max_num_batched_tokens. */
  ghost predicate Captured(c: VllmConfig, x: nat) {
    && c.Captures() && c.scheduler.Some? && Kept(c, x)
    && if c.useV1 then x <= c.scheduler.value.maxNumBatchedTokens
       else forall y: nat :: Kept(c, y) && y < x ==> y < c.scheduler.value.maxNumSeqs
  }

  ghost predicate IsDefault(c: VllmConfig, sizes: seq<nat>) { forall x :: x in sizes <==> Captured(c, x) }

  /** The candidates, without the ones that the filter removes. */
  function PossibleSizes(c: VllmConfig): (r: seq<nat>)
    ensures Ascending(r) && forall x :: x in r <==> Kept(c, x)
  {
    CandidatesAre(c.Eighths());
    var sizes := Candidates(c.Eighths());
    if c.Filters() then
      FilterAscending(sizes, MultipleOf(c.tensorParallelSize));
      UpdateSizesForSequenceParallelism(sizes, c.tensorParallelSize)
    else sizes
  }

  /** Computes the default sizes and completes the compilation config with them. It fails when the filter
      leaves nothing to take the last element of, and on V1 when there is no scheduler config. */
  method SetCudagraphSizes(c: VllmConfig, compilation: CompilationConfig) returns (r: Outcome)
    modifies compilation
    ensures r == IndexError <==>
      && !c.useV1 && c.scheduler.Some? && c.model.Some? && !c.model.value.enforceEager
      && forall x: nat :: !Kept(c, x)
    ensures r == AttributeError <==>
      c.useV1 && c.scheduler.None? && c.model.Some? && !c.model.value.enforceEager
    ensures r != Done ==> unchanged(compilation)
    ensures r == Done ==> compilation.Ready()
    ensures r == Done ==> var sizes := compilation.captureSizes.value;
      forall i, j :: 0 <= i < j < |sizes| ==> sizes[i] > sizes[j]
    ensures r == Done && old(compilation.captureSizes).Some? ==>
      forall x :: x in compilation.captureSizes.value <==> x in old(compilation.captureSizes).value
    ensures r == Done && old(compilation.captureSizes).None? ==> IsDefault(c, compilation.captureSizes.value)
    ensures c.scheduler.None? || c.model.None? || c.model.value.enforceEager ==>
      r == Done && old(compilation.captureSizes).None? ==> compilation.captureSizes.value == []
  {
    hide Captured, Kept, IsDefault, IsTable, Descending, Ascending;
    var batchSizeCaptureList: seq<nat> := [];
    if !c.useV1 {
      var maxBatchsizeToCapture := 0;
      if c.scheduler.Some? && c.model.Some? && !c.model.value.enforceEager {
        var possibleSizes := PossibleSizes(c);
        var maxNumSeqs := c.scheduler.value.maxNumSeqs;
        var largerSizes := Filter(possibleSizes, AtLeast(maxNumSeqs));
        if largerSizes != [] {
          maxBatchsizeToCapture := largerSizes[0];
        } else if possibleSizes != [] {
          maxBatchsizeToCapture := possibleSizes[|possibleSizes| - 1];
        } else {
          NothingKept(c);
          return IndexError;
        }
        batchSizeCaptureList := Filter(possibleSizes, AtMost(maxBatchsizeToCapture));
        CutIsDefault(c, possibleSizes, maxBatchsizeToCapture, largerSizes);
      }
    } else if c.model.Some? && !c.model.value.enforceEager {
      batchSizeCaptureList := PossibleSizes(c);
      if c.scheduler.None? {
        return AttributeError;
      }
      var maxNumTokens := c.scheduler.value.maxNumBatchedTokens;
      batchSizeCaptureList := Filter(batchSizeCaptureList, AtMost(maxNumTokens));
      CutAtTokens(c);
    }
    NothingCaptured(c, batchSizeCaptureList);
    ghost var given := compilation.captureSizes;
    compilation.InitWithCudagraphSizes(batchSizeCaptureList);
    if given.None? { DefaultCompleted(c, batchSizeCaptureList, compilation.captureSizes.value); }
    r := Done;
  }

  /** Without a model or a scheduler, or when the model is to run eagerly, there is nothing to capture. */
  lemma NothingCaptured(c: VllmConfig, sizes: seq<nat>)
    ensures c.scheduler.None? || c.model.None? || c.model.value.enforceEager ==> (IsDefault(c, sizes) <==> sizes == [])
    ensures Ascending([])
  {
    if sizes != [] { assert sizes[0] in sizes; }
  }

  lemma CutAtTokens(c: VllmConfig)
    requires c.useV1 && c.Captures() && c.scheduler.Some?
    ensures var sizes := Filter(PossibleSizes(c), AtMost(c.scheduler.value.maxNumBatchedTokens));
      IsDefault(c, sizes) && Ascending(sizes)
  {
    FilterAscending(PossibleSizes(c), AtMost(c.scheduler.value.maxNumBatchedTokens));
  }

  lemma DefaultCompleted(c: VllmConfig, sizes: seq<nat>, completed: seq<nat>)
    requires IsDefault(c, sizes) && Ascending(sizes)
    requires Descending(completed) && multiset(completed) == multiset(sizes)
    ensures IsDefault(c, completed) && forall i, j :: 0 <= i < j < |completed| ==> completed[i] > completed[j]
    ensures sizes == [] ==> completed == []
  {
    SortedDistinct(sizes, completed);
    assert forall x :: x in completed <==> x in multiset(completed);
    if completed != [] { assert completed[0] in completed; }
  }

  lemma CutIsDefault(c: VllmConfig, possibleSizes: seq<nat>, cut: nat, largerSizes: seq<nat>)
    requires !c.useV1 && c.Captures() && possibleSizes == PossibleSizes(c) != []
    requires largerSizes == Filter(possibleSizes, AtLeast(c.scheduler.value.maxNumSeqs))
    requires cut == if largerSizes != [] then largerSizes[0] else possibleSizes[|possibleSizes| - 1]
    ensures IsDefault(c, Filter(possibleSizes, AtMost(cut))) && Ascending(Filter(possibleSizes, AtMost(cut)))
    ensures exists x: nat :: Kept(c, x)
  {
    hide *;
    CutAtFirstLarger(c, possibleSizes, cut, largerSizes);
    FilterAscending(possibleSizes, AtMost(cut));
    KeptAndCut(c, possibleSizes, cut);
  }

  lemma KeptAndCut(c: VllmConfig, possibleSizes: seq<nat>, cut: nat)
    requires possibleSizes == PossibleSizes(c) && forall x: nat :: Captured(c, x) <==> Kept(c, x) && x <= cut
    ensures IsDefault(c, Filter(possibleSizes, AtMost(cut)))
  {
    hide Captured, Kept, Filter, PossibleSizes;
    forall x: nat
      ensures x in Filter(possibleSizes, AtMost(cut)) <==> Captured(c, x)
    {
      assert x in possibleSizes <==> Kept(c, x);
    }
  }

  lemma NothingKept(c: VllmConfig)
    requires PossibleSizes(c) == []
    ensures forall x: nat :: !Kept(c, x)
  {
  }

  /** Up to the first larger size, or else the last one, is up to the first size that no smaller one makes needless. */
  lemma CutAtFirstLarger(c: VllmConfig, possibleSizes: seq<nat>, cut: nat, largerSizes: seq<nat>)
    requires !c.useV1 && c.Captures() && possibleSizes == PossibleSizes(c) != []
    requires largerSizes == Filter(possibleSizes, AtLeast(c.scheduler.value.maxNumSeqs))
    requires cut == if largerSizes != [] then largerSizes[0] else possibleSizes[|possibleSizes| - 1]
    ensures Kept(c, cut) && forall x: nat :: Captured(c, x) <==> Kept(c, x) && x <= cut
  {
    var n := c.scheduler.value.maxNumSeqs;
    FilterAscending(possibleSizes, AtLeast(n));
    FirstOrLast(possibleSizes, largerSizes, n, cut);
    hide Kept;
    assert forall x: nat :: Captured(c, x) <==> IsNeeded(possibleSizes, n, x);
  }

  /** No smaller size holds n. */
  ghost predicate IsNeeded(sizes: seq<nat>, n: nat, x: nat) {
    x in sizes && forall y :: y in sizes && y < x ==> y < n
  }

  lemma FirstOrLast(sizes: seq<nat>, larger: seq<nat>, n: nat, cut: nat)
    requires Ascending(sizes) && Ascending(larger) && sizes != []
    requires forall x :: x in larger <==> x in sizes && x >= n
    requires cut == if larger != [] then larger[0] else sizes[|sizes| - 1]
    ensures cut in sizes && forall x: nat :: IsNeeded(sizes, n, x) <==> x in sizes && x <= cut
  {
    LastIsGreatest(sizes);
    if larger != [] {
      FirstIsLeast(larger);
      assert cut in larger;
    }
  }

  lemma FirstIsLeast(s: seq<nat>)
    requires Ascending(s) && s != []
    ensures forall x :: x in s ==> s[0] <= x
  {
  }

  lemma LastIsGreatest(s: seq<nat>)
    requires Ascending(s) && s != []
    ensures forall x :: x in s ==> x <= s[|s| - 1]
  {
  }

  /** The padded size that a full list of candidates gives. */
  function RoundUp(bs: nat): nat {
    if bs <= 2 then bs else if bs <= 4 then 4 else (bs + 7) / 8 * 8
  }

  function Min(a: nat, b: nat): nat { if a <= b then a else b }

  /** Rounding up gives the least of 0, 1, 2, 4 and the multiples of 8 that is large enough. */
  lemma RoundUpIsLeast(bs: nat)
    ensures bs <= RoundUp(bs) <= bs + 7
    ensures RoundUp(bs) == 1 || RoundUp(bs) == 2 || RoundUp(bs) == 4 || RoundUp(bs) % 8 == 0
    ensures forall y: nat :: bs <= y && (y == 1 || y == 2 || y == 4 || y % 8 == 0) ==> RoundUp(bs) <= y
  {
  }

  /** What the configuration allows, in its own fields. */
  lemma KeptMeans(c: VllmConfig, x: nat)
    ensures c.useV1 ==> (Kept(c, x) <==>
      && (x == 1 || x == 2 || x == 4 || (8 <= x <= 512 && x % 8 == 0))
      && (c.tensorParallelSize <= 1 || !c.enableSequenceParallelism || x % c.tensorParallelSize == 0))
    ensures !c.useV1 ==> (Kept(c, x) <==>
      && (x == 1 || x == 2 || x == 4 || (8 <= x <= 8192 && x % 8 == 0))
      && (c.tensorParallelSize <= 1 || !c.enableSequenceParallelism || x % c.tensorParallelSize == 0))
  {
  }

  lemma RoundUpIsKept(c: VllmConfig, bs: nat)
    requires !c.Filters() && 1 <= bs <= 8 * c.Eighths()
    ensures Kept(c, RoundUp(bs))
    ensures forall y: nat :: Kept(c, y) && bs <= y ==> RoundUp(bs) <= y
  {
    RoundUpIsLeast(bs);
  }

  /** Without the filter, padding only rounds up to 1, 2, 4 or a multiple of 8, so it wastes at most 7. V0
      covers max_num_seqs, as far as 8192; V1 stops at the last candidate within max_num_batched_tokens. */
  lemma DefaultTableRoundsUp(c: VllmConfig, sizes: seq<nat>, table: seq<nat>)
    requires IsDefault(c, sizes) && IsTable(sizes, table)
    requires c.model.Some? && !c.model.value.enforceEager && c.scheduler.Some?
    requires c.tensorParallelSize <= 1 || !c.enableSequenceParallelism
    ensures forall bs :: 0 <= bs < |table| ==> table[bs] == RoundUp(bs) <= bs + 7
    ensures !c.useV1 ==> var n := c.scheduler.value.maxNumSeqs;
      |table| - 1 == RoundUp(if n == 0 then 1 else Min(n, 8192))
    ensures c.useV1 ==> var n := Min(c.scheduler.value.maxNumBatchedTokens, 512); |table| - 1 <= n < RoundUp(|table|)
  {
    var last := |table| - 1;
    forall bs | 1 <= bs < |table|
      ensures table[bs] == RoundUp(bs) <= bs + 7
    {
      RoundUpIsKept(c, bs);
      RoundUpIsLeast(bs);
      assert Captured(c, last);
      assert Captured(c, RoundUp(bs));
      assert IsPadded(sizes, bs, table[bs]);
    }
    assert IsPadded(sizes, 0, table[0]);
    if c.useV1 {
      var n := Min(c.scheduler.value.maxNumBatchedTokens, 512);
      if |table| <= n {
        RoundUpIsKept(c, |table|);
        RoundUpIsLeast(|table|);
        assert !Captured(c, RoundUp(|table|));
      }
    } else {
      var n := c.scheduler.value.maxNumSeqs;
      var covered := if n == 0 then 1 else Min(n, 8192);
      RoundUpIsKept(c, covered);
      RoundUpIsLeast(covered);
      assert Captured(c, RoundUp(covered));
    }
  }

  /** With the filter, every padded size can be split evenly. V0 then covers max_num_seqs only if some size
      that is left does. */
  lemma FilteredTableSplitsEvenly(c: VllmConfig, sizes: seq<nat>, table: seq<nat>)
    requires IsDefault(c, sizes) && IsTable(sizes, table)
    requires c.model.Some? && !c.model.value.enforceEager && c.scheduler.Some?
    requires c.tensorParallelSize > 1 && c.enableSequenceParallelism
    ensures forall bs :: 0 <= bs < |table| ==> table[bs] % c.tensorParallelSize == 0
    ensures c.useV1 ==> |table| - 1 <= c.scheduler.value.maxNumBatchedTokens
    ensures !c.useV1 ==> var n := c.scheduler.value.maxNumSeqs;
      n < |table| <==> n == 0 || exists x: nat :: Kept(c, x) && x >= n
  {
    forall bs | 0 <= bs < |table|
      ensures table[bs] % c.tensorParallelSize == 0
    {
      assert IsPadded(sizes, bs, table[bs]);
    }
    if !c.useV1 { CoversIfKept(c, sizes, table); }
  }

  /** A multiple of 8 and of the tensor parallel size. */
  predicate IsCommonMultiple(c: VllmConfig, m: nat) {
    m % 8 == 0 && c.tensorParallelSize > 0 && m % c.tensorParallelSize == 0
  }

  /** With the filter, batches above 4 are padded to the least common multiple of 8 and the tensor parallel
      size that holds them, and so by less than any positive common multiple. */
  lemma FilteredTableRoundsUp(c: VllmConfig, sizes: seq<nat>, table: seq<nat>, bs: nat)
    requires IsDefault(c, sizes) && IsTable(sizes, table)
    requires c.model.Some? && !c.model.value.enforceEager && c.scheduler.Some?
    requires c.tensorParallelSize > 1 && c.enableSequenceParallelism
    requires 4 < bs < |table|
    ensures IsCommonMultiple(c, table[bs]) && bs <= table[bs]
    ensures forall m: nat :: IsCommonMultiple(c, m) && bs <= m ==> table[bs] <= m
    ensures forall m: nat :: IsCommonMultiple(c, m) && m > 0 ==> table[bs] < bs + m
  {
    var p := table[bs];
    assert IsPadded(sizes, bs, p);
    assert p in sizes && Captured(c, p);
    forall m: nat | IsCommonMultiple(c, m) && bs <= m
      ensures p <= m
    {
      if m < p {
        CommonMultipleIsKept(c, m);
        CapturedBelow(c, m, p);
      }
    }
    forall m: nat | IsCommonMultiple(c, m) && m > 0
      ensures p < bs + m
    {
      var y := NextMultiple(c, m, bs);
      assert p <= y;
    }
  }

  lemma CommonMultipleIsKept(c: VllmConfig, m: nat)
    requires IsCommonMultiple(c, m) && 4 < m <= 8 * c.Eighths()
    ensures Kept(c, m)
  {
  }

  /** The captured sizes are the smallest of those left. */
  lemma CapturedBelow(c: VllmConfig, x: nat, y: nat)
    requires Captured(c, y) && Kept(c, x) && x <= y
    ensures Captured(c, x)
  {
    hide Kept;
  }

  /** The first multiple of m from bs on. */
  lemma NextMultiple(c: VllmConfig, m: nat, bs: nat) returns (y: nat)
    requires IsCommonMultiple(c, m) && m > 0
    ensures IsCommonMultiple(c, y) && bs <= y < bs + m
  {
    if bs == 0 {
      y := 0;
      Bits.DivModUnique(0, c.tensorParallelSize, 0, 0);
    } else if bs <= m {
      y := m;
    } else {
      var z := NextMultiple(c, m, bs - m);
      y := z + m;
      SumOfMultiples(z, m, c.tensorParallelSize);
    }
  }

  lemma SumOfMultiples(x: nat, y: nat, t: nat)
    requires t > 0 && x % t == 0 && y % t == 0
    ensures (x + y) % t == 0
  {
    assert x + y == (x / t + y / t) * t;
    Bits.DivModUnique(x + y, t, x / t + y / t, 0);
  }

  lemma CoversIfKept(c: VllmConfig, sizes: seq<nat>, table: seq<nat>)
    requires IsDefault(c, sizes) && IsTable(sizes, table) && c.Captures() && !c.useV1
    ensures var n := c.scheduler.value.maxNumSeqs;
      n < |table| <==> n == 0 || exists x: nat :: Kept(c, x) && x >= n
  {
    hide Kept;
    var n := c.scheduler.value.maxNumSeqs;
    if n > 0 && n < |table| {
      assert Captured(c, |table| - 1);
    }
    if x: nat :| Kept(c, x) && x >= n {
      var y := LeastKept(c, x, n);
      assert Captured(c, y);
      assert y in sizes;
    }
  }

  /** Of the sizes left that are at least n, one is the least. */
  lemma LeastKept(c: VllmConfig, x: nat, n: nat) returns (y: nat)
    requires Kept(c, x) && x >= n
    ensures Kept(c, y) && y >= n && forall z: nat :: Kept(c, z) && z < y ==> z < n
  {
    if z: nat :| Kept(c, z) && n <= z < x {
      y := LeastKept(c, z, n);
    } else {
      y := x;
    }
  }

  /** 8 * i is a multiple of the parallel size. */
  ghost predicate KeptEighth(c: VllmConfig, i: nat) {
    c.tensorParallelSize > 1 && c.enableSequenceParallelism ==> 8 * i % c.tensorParallelSize == 0
  }

  lemma EightIsMultiple(x: nat, t: nat)
    requires t > 0 && x % t == 0 && (x == 1 || x == 2 || x == 4)
    ensures 8 % t == 0
  {
    assert t == 1 || t == 2 || t == 3 || t == 4;
  }

  /** The filter leaves something exactly when it leaves a multiple of 8, which it does up to 1024 ranks on V0. */
  lemma SomeSizeIsKept(c: VllmConfig)
    ensures (exists x: nat :: Kept(c, x)) <==>
      exists i :: 1 <= i <= (if c.useV1 then 64 else 1024) && KeptEighth(c, i)
    ensures c.tensorParallelSize <= (if c.useV1 then 64 else 1024) ==> exists x: nat :: Kept(c, x)
  {
    forall i | 1 <= i <= c.Eighths() && KeptEighth(c, i)
      ensures Kept(c, 8 * i)
    {
    }
    forall x: nat | Kept(c, x)
      ensures exists i :: 1 <= i <= c.Eighths() && KeptEighth(c, i)
    {
      if x >= 8 {
        assert x == 8 * (x / 8);
        assert KeptEighth(c, x / 8);
      } else {
        if c.Filters() { EightIsMultiple(x, c.tensorParallelSize); }
        assert KeptEighth(c, 1);
      }
    }
    if c.tensorParallelSize <= c.Eighths() {
      if c.Filters() {
        Bits.DivModUnique(8 * c.tensorParallelSize, c.tensorParallelSize, 8, 0);
        assert KeptEighth(c, c.tensorParallelSize);
      } else {
        assert KeptEighth(c, 1);
      }
    }
  }

  /** Above 1024 ranks nothing may be left: 1025 has no multiple among the V0 candidates. */
  lemma NothingLeftFor1025(c: VllmConfig)
    requires !c.useV1 && c.tensorParallelSize == 1025 && c.enableSequenceParallelism
    ensures forall x: nat :: !Kept(c, x)
  {
  }
}
