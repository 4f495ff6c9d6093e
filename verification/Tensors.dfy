/** Row-major tensors, and slicing, joining and picking along one axis. */
module Tensors {
  import opened GreedyCut

  /** The elements of a tensor, last axis fastest. */
  datatype Tensor = Tensor(shape: seq<nat>, data: seq<real>) {
    predicate Valid() { |data| == Prod(shape) }

    /** The element at a multi-index. */
    function At(idx: seq<nat>): real
      requires Valid() && InShape(shape, idx)
    {
      OffsetInRange(shape, idx);
      data[Offset(shape, idx)]
    }
  }

  /** Multiplication, by repeated addition: the layout arguments below need only its two laws. */
  function Mul(a: nat, b: nat): nat {
    if a == 0 then 0 else Mul(a - 1, b) + b
  }

  lemma {:induction false} MulIsProduct(a: nat, b: nat)
    ensures Mul(a, b) == a * b
  {
    if a > 0 { MulIsProduct(a - 1, b); }
  }

  lemma {:induction false} MulAdd(a: nat, b: nat, c: nat)
    ensures Mul(a + b, c) == Mul(a, c) + Mul(b, c)
  {
    if b > 0 { MulAdd(a, b - 1, c); }
  }

  lemma {:induction false} MulAssoc(a: nat, b: nat, c: nat)
    ensures Mul(Mul(a, b), c) == Mul(a, Mul(b, c))
  {
    if a > 0 {
      MulAssoc(a - 1, b, c);
      MulAdd(Mul(a - 1, b), b, c);
    }
  }

  /** An element of row i < m lies within m rows of length k. */
  lemma MulRow(i: nat, m: nat, k: nat, j: nat)
    requires i < m && j < k
    ensures Mul(i, k) + j < Mul(m, k)
  {
    MulAdd(i + 1, m - i - 1, k);
  }

  function Prod(shape: seq<nat>): nat {
    if shape == [] then 1 else Mul(shape[0], Prod(shape[1..]))
  }

  predicate InShape(shape: seq<nat>, idx: seq<nat>) {
    |idx| == |shape| && forall a :: 0 <= a < |idx| ==> idx[a] < shape[a]
  }

  /** Row-major position of a multi-index. */
  function Offset(shape: seq<nat>, idx: seq<nat>): nat
    requires |idx| == |shape|
  {
    if shape == [] then 0 else Mul(idx[0], Prod(shape[1..])) + Offset(shape[1..], idx[1..])
  }

  lemma {:induction false} OffsetInRange(shape: seq<nat>, idx: seq<nat>)
    requires InShape(shape, idx)
    ensures Offset(shape, idx) < Prod(shape)
  {
    if shape != [] {
      OffsetInRange(shape[1..], idx[1..]);
      MulRow(idx[0], shape[0], Prod(shape[1..]), Offset(shape[1..], idx[1..]));
    }
  }

  /** The layout of four axes, as keys and values have them, in plain arithmetic. */
  lemma FourAxes(a: nat, b: nat, c: nat, d: nat, idx: seq<nat>)
    requires |idx| == 4
    ensures Prod([a, b, c, d]) == a * (b * (c * d))
    ensures Offset([a, b, c, d], idx) == idx[0] * (b * (c * d)) + idx[1] * (c * d) + idx[2] * d + idx[3]
  {
    FirstAxis([a, b, c, d], idx);
    FirstAxis([b, c, d], idx[1..]);
    FirstAxis([c, d], idx[1..][1..]);
    FirstAxis([d], idx[1..][1..][1..]);
  }

  lemma FirstAxis(shape: seq<nat>, idx: seq<nat>)
    requires |shape| == |idx| > 0
    ensures Prod(shape) == shape[0] * Prod(shape[1..])
    ensures Offset(shape, idx) == idx[0] * Prod(shape[1..]) + Offset(shape[1..], idx[1..])
    ensures |shape| == 1 ==> Prod(shape[1..]) == 1 && Offset(shape[1..], idx[1..]) == 0
  {
    MulIsProduct(shape[0], Prod(shape[1..]));
    MulIsProduct(idx[0], Prod(shape[1..]));
  }

  lemma {:induction false} ProdSplit(shape: seq<nat>, d: nat)
    requires d < |shape|
    ensures Prod(shape) == Mul(Prod(shape[..d]), Mul(shape[d], Prod(shape[d + 1..])))
  {
    if d == 0 {
      assert shape[..0] == [];
    } else {
      var rest := shape[1..];
      ProdSplit(rest, d - 1);
      assert rest[..d - 1] == shape[..d][1..] && rest[d..] == shape[d + 1..];
      MulAssoc(shape[0], Prod(rest[..d - 1]), Mul(shape[d], Prod(shape[d + 1..])));
    }
  }

  /** The position, seen from axis d: which row, which entry of the axis, where in its block. */
  lemma {:induction false} OffsetSplit(shape: seq<nat>, idx: seq<nat>, d: nat)
    requires |idx| == |shape| && d < |shape|
    ensures Offset(shape, idx) ==
      Mul(Offset(shape[..d], idx[..d]), Mul(shape[d], Prod(shape[d + 1..])))
      + Mul(idx[d], Prod(shape[d + 1..])) + Offset(shape[d + 1..], idx[d + 1..])
  {
    if d == 0 {
      assert shape[..0] == [];
    } else {
      var rest, at := shape[1..], idx[1..];
      OffsetSplit(rest, at, d - 1);
      ProdSplit(rest, d - 1);
      assert rest[..d - 1] == shape[..d][1..] && rest[d..] == shape[d + 1..];
      assert at[..d - 1] == idx[..d][1..] && at[d..] == idx[d + 1..];
      var p, b := Prod(rest[..d - 1]), Mul(shape[d], Prod(shape[d + 1..]));
      MulAssoc(idx[0], p, b);
      MulAdd(Mul(idx[0], p), Offset(rest[..d - 1], at[..d - 1]), b);
    }
  }

  lemma OffsetAlongAxis(shape: seq<nat>, idx: seq<nat>, d: nat)
    requires |idx| == |shape| && d < |shape|
    ensures Offset(shape, idx) ==
      Mul(Mul(Offset(shape[..d], idx[..d]), shape[d]) + idx[d], Prod(shape[d + 1..]))
      + Offset(shape[d + 1..], idx[d + 1..])
  {
    var o, w := Offset(shape[..d], idx[..d]), Prod(shape[d + 1..]);
    OffsetSplit(shape, idx, d);
    MulAssoc(o, shape[d], w);
    MulAdd(Mul(o, shape[d]), idx[d], w);
  }

  // ----- cutting into equal pieces and joining them again

  predicate AllLength<T>(bs: seq<seq<T>>, k: nat) { forall i :: 0 <= i < |bs| ==> |bs[i]| == k }

  function Chunks<T>(data: seq<T>, m: nat, k: nat): (bs: seq<seq<T>>)
    requires |data| == Mul(m, k)
    ensures |bs| == m && AllLength(bs, k)
  {
    if m == 0 then [] else [data[..k]] + Chunks(data[k..], m - 1, k)
  }

  lemma {:induction false} ChunksOfJoined<T>(bs: seq<seq<T>>, k: nat)
    requires AllLength(bs, k)
    ensures |Flatten(bs)| == Mul(|bs|, k) && Chunks(Flatten(bs), |bs|, k) == bs
  {
    if bs != [] {
      ChunksOfJoined(bs[1..], k);
      assert Flatten(bs)[..k] == bs[0] && Flatten(bs)[k..] == Flatten(bs[1..]);
    }
  }

  lemma {:induction false} JoinedChunks<T>(data: seq<T>, m: nat, k: nat)
    requires |data| == Mul(m, k)
    ensures Flatten(Chunks(data, m, k)) == data
  {
    if m > 0 {
      JoinedChunks(data[k..], m - 1, k);
      assert Chunks(data, m, k)[1..] == Chunks(data[k..], m - 1, k);
    }
  }

  lemma ChunksFirst<T>(data: seq<T>, m: nat, k: nat)
    requires m > 0 && |data| == Mul(m, k)
    ensures |data[k..]| == Mul(m - 1, k) && Mul(1, k) == k
    ensures Chunks(data, m, k) == [data[..k]] + Chunks(data[k..], m - 1, k)
  {
  }

  lemma {:induction false} ChunkAt<T>(data: seq<T>, m: nat, k: nat, i: nat, j: nat)
    requires |data| == Mul(m, k) && i < m && j < k
    ensures Mul(i, k) + j < Mul(m, k) && |Chunks(data, m, k)[i]| == k
    ensures Chunks(data, m, k)[i][j] == data[Mul(i, k) + j]
  {
    MulRow(i, m, k, j);
    ChunksFirst(data, m, k);
    hide Chunks;
    if i == 0 {
      assert Mul(i, k) == 0;
    } else {
      var rest := data[k..];
      ChunkAt(rest, m - 1, k, i - 1, j);
      MulAdd(i - 1, 1, k);
      hide Mul;
      assert Chunks(data, m, k)[i] == Chunks(rest, m - 1, k)[i - 1];
      assert rest[Mul(i - 1, k) + j] == data[k + (Mul(i - 1, k) + j)];
    }
  }

  // ----- tables: rows of entries

  type Table<T> = seq<seq<T>>

  /** A slice bound as Python reads it: negative counts from the end, and out of range is clamped. */
  function Clamp(i: int, n: nat): (r: nat)
    ensures r <= n
  {
    if i < 0 then (if i + n < 0 then 0 else i + n) else if i > n then n else i
  }

  /** s[lo:hi] in Python. */
  function PySlice<T>(s: seq<T>, lo: int, hi: int): seq<T> {
    var a, b := Clamp(lo, |s|), Clamp(hi, |s|);
    if a <= b then s[a..b] else []
  }

  /** What Python promises of a slice, for any bounds. */
  lemma PySliceMeans<T>(s: seq<T>, lo: int, hi: int)
    ensures 0 <= lo <= hi <= |s| ==> PySlice(s, lo, hi) == s[lo..hi]
    ensures 0 <= hi <= lo || lo > |s| || hi < -|s| ==> PySlice(s, lo, hi) == []
    ensures -|s| <= lo < 0 ==> PySlice(s, lo, hi) == PySlice(s, lo + |s|, hi)
    ensures -|s| <= hi < 0 ==> PySlice(s, lo, hi) == PySlice(s, lo, hi + |s|)
    ensures lo < -|s| ==> PySlice(s, lo, hi) == PySlice(s, 0, hi)
    ensures hi > |s| ==> PySlice(s, lo, hi) == PySlice(s, lo, |s|)
  {
  }

  function SliceRows<T>(rows: Table<T>, lo: int, hi: int): Table<T> {
    seq(|rows|, o requires 0 <= o < |rows| => PySlice(rows[o], lo, hi))
  }

  function CatRows<T>(a: Table<T>, b: Table<T>): Table<T>
    requires |a| == |b|
  {
    seq(|a|, o requires 0 <= o < |a| => a[o] + b[o])
  }

  predicate InRange(ids: seq<nat>, n: nat) { forall j :: 0 <= j < |ids| ==> ids[j] < n }

  function PickSeq<T>(s: seq<T>, ids: seq<nat>): seq<T>
    requires InRange(ids, |s|)
  {
    seq(|ids|, j requires 0 <= j < |ids| => s[ids[j]])
  }

  function PickRows<T>(rows: Table<T>, n: nat, ids: seq<nat>): Table<T>
    requires AllLength(rows, n) && InRange(ids, n)
  {
    seq(|rows|, o requires 0 <= o < |rows| => PickSeq(rows[o], ids))
  }

  lemma PickRowsFits<T>(rows: Table<T>, n: nat, ids: seq<nat>)
    requires AllLength(rows, n) && InRange(ids, n)
    ensures AllLength(PickRows(rows, n, ids), |ids|)
  {
  }

  lemma SliceOfPickRows<T>(rows: Table<T>, n: nat, ids: seq<nat>, lo: int, hi: int)
    requires AllLength(rows, n) && InRange(ids, n)
    ensures InRange(PySlice(ids, lo, hi), n)
    ensures SliceRows(PickRows(rows, n, ids), lo, hi) == PickRows(rows, n, PySlice(ids, lo, hi))
  {
    forall o | 0 <= o < |rows|
      ensures PySlice(PickRows(rows, n, ids)[o], lo, hi) == PickRows(rows, n, PySlice(ids, lo, hi))[o]
    {}
  }

  lemma CatOfPickRows<T>(rows: Table<T>, n: nat, a: seq<nat>, b: seq<nat>)
    requires AllLength(rows, n) && InRange(a, n) && InRange(b, n)
    ensures InRange(a + b, n)
    ensures CatRows(PickRows(rows, n, a), PickRows(rows, n, b)) == PickRows(rows, n, a + b)
  {
    forall o | 0 <= o < |rows|
      ensures PickRows(rows, n, a)[o] + PickRows(rows, n, b)[o] == PickRows(rows, n, a + b)[o]
    {}
  }

  // ----- a tensor seen from one axis

  predicate HasAxis(t: Tensor, d: nat) { t.Valid() && d < |t.shape| }

  /** Number of settings of the axes before d, and size of one entry of axis d. */
  function Lead(shape: seq<nat>, d: nat): nat
    requires d < |shape|
  {
    Prod(shape[..d])
  }

  function Block(shape: seq<nat>, d: nat): nat
    requires d < |shape|
  {
    Prod(shape[d + 1..])
  }

  /** For each setting of the axes before d, the entries along axis d, each a block of the rest. */
  function Rows(t: Tensor, d: nat): (rows: Table<seq<real>>)
    requires HasAxis(t, d)
    ensures |rows| == Lead(t.shape, d) && AllLength(rows, t.shape[d])
  {
    ProdSplit(t.shape, d);
    MulAssoc(Lead(t.shape, d), t.shape[d], Block(t.shape, d));
    Chunks(Chunks(t.data, Mul(Lead(t.shape, d), t.shape[d]), Block(t.shape, d)), Lead(t.shape, d), t.shape[d])
  }

  /** The tensor like t whose axis d has n entries, given row by row. */
  function FromRows(t: Tensor, d: nat, n: nat, rows: Table<seq<real>>): Tensor
    requires HasAxis(t, d)
  {
    Tensor(t.shape[d := n], Flatten(Flatten(rows)))
  }

  predicate Fits(t: Tensor, d: nat, n: nat, rows: Table<seq<real>>)
    requires HasAxis(t, d)
  {
    |rows| == Lead(t.shape, d) && AllLength(rows, n) && AllLength(Flatten(rows), Block(t.shape, d))
  }

  lemma SameElsewhere(shape: seq<nat>, d: nat, n: nat)
    requires d < |shape|
    ensures Lead(shape[d := n], d) == Lead(shape, d) && Block(shape[d := n], d) == Block(shape, d)
  {
    assert shape[d := n][..d] == shape[..d] && shape[d := n][d + 1..] == shape[d + 1..];
  }

  lemma RowsOfFromRows(t: Tensor, d: nat, n: nat, rows: Table<seq<real>>)
    requires HasAxis(t, d) && Fits(t, d, n, rows)
    ensures HasAxis(FromRows(t, d, n, rows), d) && Rows(FromRows(t, d, n, rows), d) == rows
  {
    var shape := t.shape[d := n];
    SameElsewhere(t.shape, d, n);
    ChunksOfJoined(rows, n);
    ChunksOfJoined(Flatten(rows), Block(shape, d));
    ProdSplit(shape, d);
    MulAssoc(Lead(shape, d), n, Block(shape, d));
  }

  lemma FromOwnRows(t: Tensor, d: nat)
    requires HasAxis(t, d)
    ensures FromRows(t, d, t.shape[d], Rows(t, d)) == t && Fits(t, d, t.shape[d], Rows(t, d))
  {
    var m, n, w := Lead(t.shape, d), t.shape[d], Block(t.shape, d);
    ProdSplit(t.shape, d);
    MulAssoc(m, n, w);
    JoinedChunks(Chunks(t.data, Mul(m, n), w), m, n);
    JoinedChunks(t.data, Mul(m, n), w);
  }

  /** What Rows means: the element at a multi-index, found through axis d. */
  lemma RowsAt(t: Tensor, d: nat, idx: seq<nat>)
    requires HasAxis(t, d) && InShape(t.shape, idx)
    ensures var o, i := Offset(t.shape[..d], idx[..d]), Offset(t.shape[d + 1..], idx[d + 1..]);
      && o < |Rows(t, d)| && idx[d] < |Rows(t, d)[o]| && i < |Rows(t, d)[o][idx[d]]|
      && Rows(t, d)[o][idx[d]][i] == t.At(idx)
  {
    var m, n, w := Lead(t.shape, d), t.shape[d], Block(t.shape, d);
    var o, i := Offset(t.shape[..d], idx[..d]), Offset(t.shape[d + 1..], idx[d + 1..]);
    OffsetInRange(t.shape[..d], idx[..d]);
    OffsetInRange(t.shape[d + 1..], idx[d + 1..]);
    OffsetInRange(t.shape, idx);
    ProdSplit(t.shape, d);
    MulAssoc(m, n, w);
    ChunkAt(Chunks(t.data, Mul(m, n), w), m, n, o, idx[d]);
    ChunkAt(t.data, Mul(m, n), w, Mul(o, n) + idx[d], i);
    OffsetAlongAxis(t.shape, idx, d);
  }

  // ----- slicing, joining and picking along an axis

  function SliceLength(n: nat, lo: int, hi: int): nat {
    var a, b := Clamp(lo, n), Clamp(hi, n);
    if a <= b then b - a else 0
  }

  /** The slice [lo:hi] of axis d, all other axes in full. */
  function Slice(t: Tensor, d: nat, lo: int, hi: int): Tensor
    requires HasAxis(t, d)
  {
    FromRows(t, d, SliceLength(t.shape[d], lo, hi), SliceRows(Rows(t, d), lo, hi))
  }

  /** Tensors that may be joined along axis d: their shapes agree everywhere else. */
  predicate Joinable(t: Tensor, u: Tensor, d: nat) {
    HasAxis(t, d) && HasAxis(u, d) && t.shape == u.shape[d := t.shape[d]]
  }

  function Cat(t: Tensor, u: Tensor, d: nat): Tensor
    requires Joinable(t, u, d)
  {
    SameElsewhere(u.shape, d, t.shape[d]);
    FromRows(t, d, t.shape[d] + u.shape[d], CatRows(Rows(t, d), Rows(u, d)))
  }

  /** The tensor whose entry j along axis d is the entry ids[j] of t. */
  function Pick(t: Tensor, d: nat, ids: seq<nat>): Tensor
    requires HasAxis(t, d) && InRange(ids, t.shape[d])
  {
    FromRows(t, d, |ids|, PickRows(Rows(t, d), t.shape[d], ids))
  }

  lemma RowsOfPick(t: Tensor, d: nat, ids: seq<nat>)
    requires HasAxis(t, d) && InRange(ids, t.shape[d])
    ensures HasAxis(Pick(t, d, ids), d) && Pick(t, d, ids).shape == t.shape[d := |ids|]
    ensures Rows(Pick(t, d, ids), d) == PickRows(Rows(t, d), t.shape[d], ids)
  {
    var rows := Rows(t, d);
    PickRowsFits(rows, t.shape[d], ids);
    FromOwnRows(t, d);
    PickedBlocks(rows, t.shape[d], ids, Block(t.shape, d));
    RowsOfFromRows(t, d, |ids|, PickRows(rows, t.shape[d], ids));
  }

  /** Picking brings in no blocks of another size. */
  lemma PickedBlocks<T>(rows: Table<seq<T>>, n: nat, ids: seq<nat>, w: nat)
    requires AllLength(rows, n) && InRange(ids, n) && AllLength(Flatten(rows), w)
    ensures AllLength(Flatten(PickRows(rows, n, ids)), w)
  {
    BlocksOfRows(rows, w);
    BlocksOfRows(PickRows(rows, n, ids), w);
  }

  lemma {:induction false} BlocksOfRows<T>(rows: Table<seq<T>>, w: nat)
    ensures AllLength(Flatten(rows), w) <==> forall o :: 0 <= o < |rows| ==> AllLength(rows[o], w)
  {
    if rows != [] {
      var rest := rows[1..];
      BlocksOfRows(rest, w);
      assert forall o :: 0 < o < |rows| ==> rows[o] == rest[o - 1];
      assert forall k :: 0 <= k < |rows[0]| ==> Flatten(rows)[k] == rows[0][k];
      assert forall k :: 0 <= k < |Flatten(rest)| ==> Flatten(rest)[k] == Flatten(rows)[|rows[0]| + k];
      if AllLength(Flatten(rows), w) {
        forall o | 0 <= o < |rows| ensures AllLength(rows[o], w) {}
      }
    }
  }

  /** The meaning of picking: one remap of the index on axis d, nothing else moves. */
  lemma PickAt(t: Tensor, d: nat, ids: seq<nat>, idx: seq<nat>)
    requires HasAxis(t, d) && InRange(ids, t.shape[d])
    requires InShape(t.shape[d := |ids|], idx)
    ensures var p := Pick(t, d, ids);
      && p.Valid() && InShape(p.shape, idx)
      && idx[d] < |ids| && InShape(t.shape, idx[d := ids[idx[d]]])
      && p.At(idx) == t.At(idx[d := ids[idx[d]]])
  {
    RowsOfPick(t, d, ids);
    var p, from := Pick(t, d, ids), idx[d := ids[idx[d]]];
    assert p.shape[..d] == t.shape[..d] && p.shape[d + 1..] == t.shape[d + 1..];
    assert from[..d] == idx[..d] && from[d + 1..] == idx[d + 1..];
    RowsAt(p, d, idx);
    RowsAt(t, d, from);
  }

  /** Slicing what was picked picks the slice of the positions. */
  lemma SliceOfPick(t: Tensor, d: nat, ids: seq<nat>, lo: int, hi: int)
    requires HasAxis(t, d) && InRange(ids, t.shape[d])
    ensures HasAxis(Pick(t, d, ids), d) && InRange(PySlice(ids, lo, hi), t.shape[d])
    ensures Slice(Pick(t, d, ids), d, lo, hi) == Pick(t, d, PySlice(ids, lo, hi))
  {
    RowsOfPick(t, d, ids);
    SliceOfPickRows(Rows(t, d), t.shape[d], ids, lo, hi);
    assert t.shape[d := |ids|][d := |PySlice(ids, lo, hi)|] == t.shape[d := |PySlice(ids, lo, hi)|];
  }

  /** Joining what was picked picks the joined positions. */
  lemma CatOfPicks(t: Tensor, d: nat, a: seq<nat>, b: seq<nat>)
    requires HasAxis(t, d) && InRange(a, t.shape[d]) && InRange(b, t.shape[d])
    ensures Joinable(Pick(t, d, a), Pick(t, d, b), d) && InRange(a + b, t.shape[d])
    ensures Cat(Pick(t, d, a), Pick(t, d, b), d) == Pick(t, d, a + b)
  {
    RowsOfPick(t, d, a);
    RowsOfPick(t, d, b);
    CatOfPickRows(Rows(t, d), t.shape[d], a, b);
    assert t.shape[d := |a|] == t.shape[d := |b|][d := |a|];
    assert t.shape[d := |a|][d := |a + b|] == t.shape[d := |a + b|];
  }

  function UpTo(n: nat): (ids: seq<nat>)
    ensures InRange(ids, n)
  {
    seq(n, i => i)
  }

  lemma PickEverything(t: Tensor, d: nat)
    requires HasAxis(t, d)
    ensures Pick(t, d, UpTo(t.shape[d])) == t
  {
    var ids, rows := UpTo(t.shape[d]), Rows(t, d);
    forall o | 0 <= o < |rows|
      ensures PickRows(rows, t.shape[d], ids)[o] == rows[o]
    {}
    assert PickRows(rows, t.shape[d], ids) == rows;
    FromOwnRows(t, d);
  }
}
