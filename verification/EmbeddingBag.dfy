/**
 The bag kernels: every thread sums one dimension over one bag of ids, finding each id's row in
 the block that holds it. Arithmetic on elements is abstract.
 */
module EmbeddingBag {
  import opened Recency
  import opened FifoRounds
  import opened SlotCache
  import opened Storage
  import opened BlockFile
  import opened BlockCaches
  import opened CopyCoherence
  import opened BlockRuntime

  datatype Arith<!F> = Arith(zero: F, add: (F, F) -> F, div: (F, nat) -> F, half: Data -> F, single: Data -> F) {
    /** Two bytes are a half, anything else a single. */
    function Decode(elemBytes: nat, data: Data): F {
      if elemBytes == 2 then half(data) else single(data)
    }
  }

  /** Rows of dim elements of elemBytes each, rows of them to a block. */
  datatype Layout = Layout(rows: nat, dim: nat, elemBytes: nat) {
    predicate Proper() {
      rows > 0 && dim > 0 && elemBytes > 0
    }

    function BlockBytes(): nat {
      rows * dim * elemBytes
    }
  }

  /** Element k of a run of elements. */
  function Elem(data: Data, k: nat, elemBytes: nat): Data {
    if k * elemBytes + elemBytes <= |data| then data[k * elemBytes..k * elemBytes + elemBytes] else []
  }

  /** The table is the file read row by row: row id, column dim. */
  function TableElem(l: Layout, file: File, id: nat, dim: nat): Data {
    Elem(file, id * l.dim + dim, l.elemBytes)
  }

  /** The in-order sum of column dim over ids of the table. */
  function TableSum<F(!new)>(ar: Arith<F>, l: Layout, file: File, ids: seq<nat>, dim: nat): F
    decreases |ids|
  {
    if ids == [] then ar.zero
    else
      var n := |ids| - 1;
      ar.add(TableSum(ar, l, file, ids[..n], dim), ar.Decode(l.elemBytes, TableElem(l, file, ids[n], dim)))
  }

  function TableBag<F(!new)>(ar: Arith<F>, l: Layout, file: File, ids: seq<nat>, dim: nat, mean: bool): F {
    var sum := TableSum(ar, l, file, ids, dim);
    if mean && |ids| > 0 then ar.div(sum, |ids|) else sum
  }

  // ---------------------------------------------------------------- index arithmetic

  lemma {:induction false} ElemBounds(k: nat, n: nat, e: nat)
    requires k < n
    ensures k * e + e <= n * e
  {
    assert (k + 1) * e <= n * e;
  }

  lemma {:induction false} RowInBlock(l: Layout, id: nat, dim: nat)
    requires l.Proper() && dim < l.dim
    ensures id % l.rows * l.dim + dim < l.rows * l.dim
  {
    var row := id % l.rows;
    assert (row + 1) * l.dim <= l.rows * l.dim;
  }

  lemma {:induction false} Reassociate(a: nat, b: nat, c: nat, d: nat)
    ensures (a * b + c) * d == a * (b * d) + c * d
  {
  }

  /** The element's place in the file: its block's start, and its place in the block. */
  lemma {:induction false} RowMajor(l: Layout, id: nat, dim: nat)
    requires l.Proper()
    ensures (id * l.dim + dim) * l.elemBytes ==
            id / l.rows * l.BlockBytes() + (id % l.rows * l.dim + dim) * l.elemBytes
  {
    var b, row, d := id / l.rows, id % l.rows, l.dim;
    assert id == b * l.rows + row;
    Reassociate(b, l.rows, row, d);
    assert id * d + dim == b * (l.rows * d) + (row * d + dim);
    Reassociate(b, l.rows * d, row * d + dim, l.elemBytes);
  }

  /** The row of the block is the row of the table. */
  lemma {:induction false} BlockElemIsTableElem(l: Layout, disk: Disk, id: nat, dim: nat)
    requires l.Proper() && dim < l.dim && disk.blockBytes == l.BlockBytes() && disk.Has(id / l.rows)
    ensures Elem(disk.Block(id / l.rows), id % l.rows * l.dim + dim, l.elemBytes) == TableElem(l, disk.file, id, dim)
  {
    var b, k, bb, e := id / l.rows, id % l.rows * l.dim + dim, l.BlockBytes(), l.elemBytes;
    RowInBlock(l, id, dim);
    ElemBounds(k, l.rows * l.dim, e);
    TimesIsProduct(b, bb);
    RowMajor(l, id, dim);
    SubSlice(disk.file, b * bb, b * bb + bb, k * e, k * e + e);
  }

  // ---------------------------------------------------------------- the kernel

  /** The bytes of an element to the kernel that is launched: the half kernel for two-byte elements,
      the single kernel for all others. */
  function KernelBytes(elemBytes: nat): nat {
    if elemBytes == 2 then 2 else 4
  }

  /** The kernel, given the right block, reads the table's element. */
  ghost predicate ReadsRight(l: Layout, disk: Disk, id: nat, dim: nat)
    requires l.rows > 0
  {
    disk.Has(id / l.rows) && dim < l.dim ==>
      Elem(disk.Block(id / l.rows), id % l.rows * l.dim + dim, KernelBytes(l.elemBytes)) == TableElem(l, disk.file, id, dim)
  }

  /** The initialiser takes any element size; the kernels read the table's elements exactly when it is
      2 or 4. */
  lemma {:induction false} KernelsReadTableIff(l: Layout, disk: Disk)
    requires l.Proper() && disk.blockBytes == l.BlockBytes() && disk.Has(0)
    ensures (forall id: nat, dim: nat :: ReadsRight(l, disk, id, dim)) <==> l.elemBytes == 2 || l.elemBytes == 4
  {
    if l.elemBytes == 2 || l.elemBytes == 4 {
      forall id: nat, dim: nat ensures ReadsRight(l, disk, id, dim) {
        if disk.Has(id / l.rows) && dim < l.dim {
          BlockElemIsTableElem(l, disk, id, dim);
        }
      }
    } else {
      FirstElem(l, disk);
      assert !ReadsRight(l, disk, 0, 0);
    }
  }

  lemma {:induction false} FirstElem(l: Layout, disk: Disk)
    requires l.Proper() && disk.blockBytes == l.BlockBytes() && disk.Has(0)
    ensures 0 / l.rows == 0 && 0 % l.rows == 0 && |TableElem(l, disk.file, 0, 0)| == l.elemBytes
  {
    RowInBlock(l, 0, 0);
    ElemBounds(0, l.rows * l.dim, l.elemBytes);
  }

  method FindBlock(b: Block, blockIds: seq<Block>) returns (i: int)
    ensures -1 <= i < |blockIds|
    ensures i >= 0 ==> blockIds[i] == b && b !in blockIds[..i]
    ensures i < 0 ==> b !in blockIds
  {
    i := 0;
    while i < |blockIds|
      invariant 0 <= i <= |blockIds| && b !in blockIds[..i]
    {
      if blockIds[i] == b {
        return;
      }
      i := i + 1;
    }
    i := -1;
  }

  /** Every listed block's pointer leads to the block's bytes. */
  ghost predicate Resident(disk: Disk, hmem: seq<Data>, blockIds: seq<Block>, ptrs: seq<Ptr>) {
    |ptrs| == |blockIds| && forall i :: 0 <= i < |blockIds| ==> LeadsTo(disk, hmem, ptrs[i], blockIds[i])
  }

  predicate LeadsTo(disk: Disk, hmem: seq<Data>, p: Ptr, b: Block) {
    p.At? && p.slot < |hmem| && disk.Has(b) && hmem[p.slot] == disk.Block(b)
  }

  /** The ids whose block is listed; the kernel passes over the others. */
  function Found(l: Layout, ids: seq<nat>, blockIds: seq<Block>): (r: seq<nat>)
    requires l.rows > 0
    ensures |r| == |ids| ==> r == ids
    ensures |r| <= |ids|
    ensures (forall j :: 0 <= j < |ids| ==> ids[j] / l.rows in blockIds) ==> r == ids
    decreases |ids|
  {
    if ids == [] then []
    else
      var n := |ids| - 1;
      assert ids == ids[..n] + [ids[n]];
      Found(l, ids[..n], blockIds) + if ids[n] / l.rows in blockIds then [ids[n]] else []
  }

  /** What one thread computes: its column summed over the ids it finds, the mean taken over the
      whole bag. */
  function BagValue<F(!new)>(ar: Arith<F>, l: Layout, file: File, bag: seq<nat>, blockIds: seq<Block>,
                             dim: nat, mean: bool): F
    requires l.rows > 0
  {
    var sum := TableSum(ar, l, file, Found(l, bag, blockIds), dim);
    if mean && |bag| > 0 then ar.div(sum, |bag|) else sum
  }

  /** With every block listed that is the direct embedding bag over the table. */
  lemma {:induction false} BlockedIsDirect<F(!new)>(ar: Arith<F>, l: Layout, file: File, bag: seq<nat>,
      blockIds: seq<Block>,
                                 dim: nat, mean: bool)
    requires l.rows > 0 && forall j :: 0 <= j < |bag| ==> bag[j] / l.rows in blockIds
    ensures BagValue(ar, l, file, bag, blockIds, dim, mean) == TableBag(ar, l, file, bag, dim, mean)
  {
  }

  lemma {:induction false} FoundConcat(l: Layout, a: seq<nat>, b: seq<nat>, blockIds: seq<Block>)
    requires l.rows > 0
    ensures Found(l, a + b, blockIds) == Found(l, a, blockIds) + Found(l, b, blockIds)
    decreases |b|
  {
    if b == [] {
      assert a + b == a;
    } else {
      assert (a + b)[..|a + b| - 1] == a + b[..|b| - 1];
      FoundConcat(l, a, b[..|b| - 1], blockIds);
    }
  }

  lemma {:induction false} FoundOne(l: Layout, id: nat, blockIds: seq<Block>)
    requires l.rows > 0
    ensures Found(l, [id], blockIds) == if id / l.rows in blockIds then [id] else []
  {
    assert [id][..0] == [];
  }

  /** An id whose block is not listed adds nothing to the sum, wherever it stands in the bag; in mean
      mode it still counts in the divisor. */
  lemma {:induction false} UnlistedSkipped<F(!new)>(ar: Arith<F>, l: Layout, file: File, a: seq<nat>, id: nat, b: seq<nat>,
                                                    blockIds: seq<Block>, dim: nat)
    requires l.rows > 0 && id / l.rows !in blockIds
    ensures BagValue(ar, l, file, a + [id] + b, blockIds, dim, false) == BagValue(ar, l, file, a + b, blockIds, dim, false)
    ensures BagValue(ar, l, file, a + [id] + b, blockIds, dim, true) ==
            ar.div(BagValue(ar, l, file, a + b, blockIds, dim, false), |a| + |b| + 1)
  {
    hide TableSum, Found;
    FoundOne(l, id, blockIds);
    FoundConcat(l, a + [id], b, blockIds);
    FoundConcat(l, a, [id], blockIds);
    FoundConcat(l, a, b, blockIds);
    assert Found(l, a, blockIds) + [] == Found(l, a, blockIds);
  }

  /** A listed id adds its element at its place: the bag's value grows by it when it comes last. */
  lemma {:induction false} ListedAdds<F(!new)>(ar: Arith<F>, l: Layout, file: File, a: seq<nat>, id: nat,
                                               blockIds: seq<Block>, dim: nat)
    requires l.rows > 0 && id / l.rows in blockIds
    ensures BagValue(ar, l, file, [], blockIds, dim, false) == ar.zero
    ensures BagValue(ar, l, file, a + [id], blockIds, dim, false) ==
            ar.add(BagValue(ar, l, file, a, blockIds, dim, false), ar.Decode(l.elemBytes, TableElem(l, file, id, dim)))
  {
    FoundOne(l, id, blockIds);
    FoundConcat(l, a, [id], blockIds);
    var found := Found(l, a, blockIds);
    assert (found + [id])[..|found|] == found;
  }

  lemma {:induction false} FoundNext<F(!new)>(ar: Arith<F>, l: Layout, file: File, bag: seq<nat>,
      blockIds: seq<Block>, dim: nat, j: nat)
    requires l.rows > 0 && j < |bag|
    ensures TableSum(ar, l, file, Found(l, bag[..j + 1], blockIds), dim) ==
            var sum := TableSum(ar, l, file, Found(l, bag[..j], blockIds), dim);
            if bag[j] / l.rows in blockIds then ar.add(sum, ar.Decode(l.elemBytes, TableElem(l, file, bag[j], dim))) else sum
  {
    assert bag[..j + 1][..j] == bag[..j];
    var found := Found(l, bag[..j], blockIds);
    assert found + [] == found && (found + [bag[j]])[..|found|] == found;
  }

  /** One thread of the half or the single kernel: the bag's ids, in order, through the blocks. */
  method Thread<F(!new)>(ar: Arith<F>, half: bool, l: Layout, ghost disk: Disk, hmem: seq<Data>, bag: seq<nat>,
                         blockIds: seq<Block>, ptrs: seq<Ptr>, dim: nat, mean: bool) returns (acc: F)
    requires l.Proper() && dim < l.dim && disk.blockBytes == l.BlockBytes()
    requires Resident(disk, hmem, blockIds, ptrs)
    ensures l.elemBytes == (if half then 2 else 4) ==> acc == BagValue(ar, l, disk.file, bag, blockIds, dim, mean)
  {
    hide Found, TableSum, TableElem, Elem;
    var width := if half then 2 else 4;
    acc := ar.zero;
    SumOfNone(ar, l, disk.file, blockIds, bag, dim);
    for j := 0 to |bag|
      invariant l.elemBytes == width ==> acc == TableSum(ar, l, disk.file, Found(l, bag[..j], blockIds), dim)
    {
      var id := bag[j];
      FoundNext(ar, l, disk.file, bag, blockIds, dim, j);
      var at := FindBlock(id / l.rows, blockIds);
      if at >= 0 {
        assert LeadsTo(disk, hmem, ptrs[at], blockIds[at]);
        BlockElemIsTableElem(l, disk, id, dim);
        var elem := Elem(hmem[ptrs[at].slot], id % l.rows * l.dim + dim, width);
        acc := ar.add(acc, if half then ar.half(elem) else ar.single(elem));
      }
    }
    assert bag[..|bag|] == bag;
    if mean && |bag| > 0 {
      acc := ar.div(acc, |bag|);
    }
  }

  lemma {:induction false} SumOfNone<F(!new)>(ar: Arith<F>, l: Layout, file: File, blockIds: seq<Block>,
      bag: seq<nat>, dim: nat)
    requires l.rows > 0
    ensures TableSum(ar, l, file, Found(l, bag[..0], blockIds), dim) == ar.zero
  {
  }

  // ---------------------------------------------------------------- the grid

  /** Where a thread writes. */
  function Cell(l: Layout, bag: nat, dim: nat): nat {
    bag * l.dim + dim
  }

  lemma {:induction false} CellInjective(l: Layout, bag: nat, dim: nat, bag': nat, dim': nat)
    requires dim < l.dim && dim' < l.dim && (bag, dim) != (bag', dim')
    ensures Cell(l, bag, dim) != Cell(l, bag', dim')
  {
    if bag < bag' {
      assert (bag + 1) * l.dim <= bag' * l.dim;
    } else if bag' < bag {
      assert (bag' + 1) * l.dim <= bag * l.dim;
    }
  }

  lemma {:induction false} CellBounds(l: Layout, bag: nat, dim: nat, batchSize: nat)
    requires bag < batchSize && dim < l.dim
    ensures Cell(l, bag, dim) < batchSize * l.dim
  {
    assert (bag + 1) * l.dim <= batchSize * l.dim;
  }

  /** The ids of one bag. */
  function Bag(ids: seq<nat>, batchSize: nat, bagSize: nat, bag: nat): (r: seq<nat>)
    requires bag < batchSize && |ids| == batchSize * bagSize
    ensures |r| == bagSize
  {
    assert bag * bagSize + bagSize <= batchSize * bagSize by {
      ElemBounds(bag, batchSize, bagSize);
    }
    ids[bag * bagSize..bag * bagSize + bagSize]
  }

  lemma {:induction false} Multiples(a: nat, b: nat, e: nat)
    ensures a <= b ==> a * e <= b * e
  {
  }

  /** Division locates a position in a row-major layout of n rows. */
  lemma {:induction false} QuotientBelow(p: nat, n: nat, e: nat)
    requires p < n * e
    ensures e > 0 && p / e < n && p == p / e * e + p % e
  {
    assert e > 0;
    assert p == p / e * e + p % e;
    Multiples(n, p / e, e);
  }

  /** A launch reads its ids row by row: the id at any position is in the bag and place that division
      and remainder tell. */
  lemma {:induction false} BagAt(ids: seq<nat>, batchSize: nat, bagSize: nat, p: nat)
    requires p < |ids| == batchSize * bagSize
    ensures bagSize > 0 && p / bagSize < batchSize && Bag(ids, batchSize, bagSize, p / bagSize)[p % bagSize] == ids[p]
  {
    hide Bag;
    QuotientBelow(p, batchSize, bagSize);
    InBag(ids, batchSize, bagSize, p / bagSize, p % bagSize);
  }

  lemma {:induction false} InBag(ids: seq<nat>, batchSize: nat, bagSize: nat, bag: nat, j: nat)
    requires bag < batchSize && |ids| == batchSize * bagSize && j < bagSize
    ensures bag * bagSize + j < |ids| && Bag(ids, batchSize, bagSize, bag)[j] == ids[bag * bagSize + j]
  {
    ElemBounds(bag, batchSize, bagSize);
  }

  /** It writes row by row too: each place of the output is the cell of one bag and one dimension. */
  lemma {:induction false} CellAt(l: Layout, batchSize: nat, p: nat)
    requires p < batchSize * l.dim
    ensures l.dim > 0 && p / l.dim < batchSize && Cell(l, p / l.dim, p % l.dim) == p
  {
    QuotientBelow(p, batchSize, l.dim);
  }

  /** What a launch is to compute in the cell of a bag and a dimension. */
  function CellValue<F(!new)>(ar: Arith<F>, l: Layout, file: File, ids: seq<nat>, batchSize: nat, bagSize: nat,
                              blockIds: seq<Block>, mean: bool, bag: nat, dim: nat): F
    requires l.rows > 0 && bag < batchSize && |ids| == batchSize * bagSize
  {
    BagValue(ar, l, file, Bag(ids, batchSize, bagSize, bag), blockIds, dim, mean)
  }

  /** launch_embedding_bag: a grid of threads, in blocks of 128 over the dimensions, which run in
      any order; those past the last dimension do nothing. Element sizes other than 2 and 4 are
      launched too, with the single kernel (KernelsReadTableIff). */
  method Launch<F(!new)>(ar: Arith<F>, l: Layout, ghost disk: Disk, hmem: seq<Data>, ids: seq<nat>,
                         batchSize: nat, bagSize: nat, blockIds: seq<Block>, ptrs: seq<Ptr>, mean: bool,
                         output: array<F>)
    requires l.Proper() && disk.blockBytes == l.BlockBytes() && Resident(disk, hmem, blockIds, ptrs)
    requires |ids| == batchSize * bagSize && output.Length == batchSize * l.dim
    modifies output
    ensures l.elemBytes == 2 || l.elemBytes == 4 ==>
              forall bag, dim :: 0 <= bag < batchSize && 0 <= dim < l.dim ==>
              Cell(l, bag, dim) < output.Length &&
              output[Cell(l, bag, dim)] ==
                CellValue(ar, l, disk.file, ids, batchSize, bagSize, blockIds, mean, bag, dim)
  {
    hide Cell, Resident, CellValue;
    forall bag, dim | 0 <= bag < batchSize && 0 <= dim < l.dim ensures Cell(l, bag, dim) < output.Length {
      CellBounds(l, bag, dim, batchSize);
    }
    var width := (l.dim + 127) / 128 * 128;
    var todo := set bag: nat, t: nat | bag < batchSize && t < width :: (bag, t);
    while todo != {}
      invariant l.elemBytes == 2 || l.elemBytes == 4 ==>
                  forall bag, dim :: 0 <= bag < batchSize && 0 <= dim < l.dim && (bag, dim) !in todo ==>
                  output[Cell(l, bag, dim)] ==
                    CellValue(ar, l, disk.file, ids, batchSize, bagSize, blockIds, mean, bag, dim)
      invariant forall p :: p in todo ==> p.0 < batchSize
      decreases todo
    {
      var p :| p in todo;
      todo := todo - {p};
      if p.1 < l.dim {
        RunThread(ar, l.elemBytes == 2, l, disk, hmem, ids, batchSize, bagSize, blockIds, ptrs, mean, output, p.0, p.1);
      }
    }
  }

  /** A thread's store changes its own cell and no other thread's. */
  method RunThread<F(!new)>(ar: Arith<F>, half: bool, l: Layout, ghost disk: Disk, hmem: seq<Data>, ids: seq<nat>,
                            batchSize: nat, bagSize: nat, blockIds: seq<Block>, ptrs: seq<Ptr>, mean: bool,
                            output: array<F>, bag: nat, dim: nat)
    requires l.Proper() && disk.blockBytes == l.BlockBytes() && Resident(disk, hmem, blockIds, ptrs)
    requires |ids| == batchSize * bagSize && output.Length == batchSize * l.dim
    requires bag < batchSize && dim < l.dim && Cell(l, bag, dim) < output.Length
    modifies output
    ensures l.elemBytes == (if half then 2 else 4) ==>
              output[Cell(l, bag, dim)] == CellValue(ar, l, disk.file, ids, batchSize, bagSize, blockIds, mean, bag, dim)
    ensures forall b, d :: 0 <= b < batchSize && 0 <= d < l.dim && (b, d) != (bag, dim) && Cell(l, b, d) < output.Length ==>
              output[Cell(l, b, d)] == old(output[Cell(l, b, d)])
  {
    hide Cell, Resident, BagValue;
    var acc := Thread(ar, half, l, disk, hmem, Bag(ids, batchSize, bagSize, bag), blockIds, ptrs, dim, mean);
    forall b, d | 0 <= b < batchSize && 0 <= d < l.dim && (b, d) != (bag, dim)
      ensures Cell(l, b, d) != Cell(l, bag, dim)
    {
      CellInjective(l, b, d, bag, dim);
    }
    output[Cell(l, bag, dim)] := acc;
  }

  // ---------------------------------------------------------------- from lookup to output

  /** After a batch lookup whose pointers and contents are good, the kernel reads the right bytes. */
  lemma {:induction false} LookedUpIsResident(disk: Disk, s: Tiers, blockIds: seq<Block>, ts: seq<Timing>,
      ptrs: seq<Ptr>, n: nat)
    requires Shaped(s) && |ts| == |blockIds| == |ptrs| && Coherent(disk, s) && s.pending == [] && Cyclic(s.hbm, n)
    requires Needed(s, blockIds) <= s.dram.cap
    requires forall i :: 0 <= i < |blockIds| ==> StaysFrom(s.hbm.cap, s.hbm.lru, blockIds, i)
    requires forall i :: 0 <= i < |blockIds| ==> disk.Has(blockIds[i])
    requires forall i :: 0 <= i < |blockIds| ==> ptrs[i] == PtrAt(disk, s, blockIds, ts, i)
    ensures Resident(disk, Sync(Batch(disk, s, blockIds, ts)).hmem, blockIds, ptrs)
  {
    hide Batch, PtrAt, Needed, StaysFrom, FifoRun, Cyclic, Slots.Injective, Slots.Occupied;
    var r := Sync(Batch(disk, s, blockIds, ts));
    CopiesSafe(disk, s, blockIds, ts);
    AllPointersGoodIff(disk, s, blockIds, ts, n);
    forall i | 0 <= i < |blockIds| ensures LeadsTo(disk, r.hmem, ptrs[i], blockIds[i]) {
      assert PointerGood(disk, s, blockIds, ts, i);
    }
  }
}
