/** How a byte range is cut at chunk boundaries. Fit(x, c) is the quotient x / c (FitIsQuotient). */
module ChunkMath {
  import opened Storage
  import opened ChunkCache

  /** Offset of a byte inside its chunk. */
  function InChunk(x: nat, c: nat): (r: nat)
    requires c > 0
    ensures r < c && x == Times(Fit(x, c), c) + r
  {
    FitBounds(x, c);
    x - Times(Fit(x, c), c)
  }

  lemma {:induction false} FitBounds(x: nat, c: nat)
    requires c > 0
    ensures Times(Fit(x, c), c) <= x < Times(Fit(x, c), c) + c
  {
    TimesFit(Fit(x, c), c, x);
    TimesFit(Fit(x, c) + 1, c, x);
  }

  /** The division and remainder the program computes. */
  method Locate(x: nat, c: nat) returns (chunk: nat, inChunk: nat)
    requires c > 0
    ensures chunk == Fit(x, c) && inChunk == InChunk(x, c)
  {
    FitIsQuotient(x, c);
    TimesIsProduct(x / c, c);
    chunk, inChunk := x / c, x % c;
  }

  lemma {:induction false} FitIs(x: nat, c: nat, q: nat)
    requires c > 0 && Times(q, c) <= x < Times(q, c) + c
    ensures Fit(x, c) == q
  {
    TimesFit(q, c, x);
    TimesFit(q + 1, c, x);
  }

  lemma {:induction false} FitMono(a: nat, b: nat, c: nat)
    requires c > 0 && a <= b
    ensures Fit(a, c) <= Fit(b, c)
  {
    FitBounds(a, c);
    TimesFit(Fit(a, c), c, b);
  }

  /** Number of chunks a non-empty range touches. */
  function ChunkCount(offset: nat, size: nat, c: nat): nat
    requires c > 0 && size > 0
  {
    FitMono(offset, offset + size - 1, c);
    Fit(offset + size - 1, c) - Fit(offset, c) + 1
  }

  /** count consecutive chunks of a file. */
  function KeyRange(file: Path, first: nat, count: nat): (r: seq<Key>)
    ensures |r| == count
    ensures forall i :: 0 <= i < count ==> r[i] == Key(file, first + i)
  {
    if count == 0 then [] else KeyRange(file, first, count - 1) + [Key(file, first + count - 1)]
  }

  lemma {:induction false} KeyRangeNext(file: Path, first: nat, count: nat)
    ensures var ks := KeyRange(file, first, count + 1);
            && ks == KeyRange(file, first, count) + [Key(file, first + count)]
            && ks[..count] == KeyRange(file, first, count)
  {
  }

  /** The keys a range touches, in order. */
  function ChunkKeys(file: Path, offset: nat, size: nat, c: nat): seq<Key>
    requires c > 0 && size > 0
  {
    KeyRange(file, Fit(offset, c), ChunkCount(offset, size, c))
  }

  /** Bytes of the range before its i-th chunk. */
  function Cut(offset: nat, size: nat, c: nat, i: nat): (n: nat)
    requires c > 0
  {
    if i == 0 then 0 else
      FitBounds(offset, c);
      TimesMono(Fit(offset, c) + 1, Fit(offset, c) + i, c);
      Min(size, Times(Fit(offset, c) + i, c) - offset)
  }

  /** The loop over pieces has made i turns and covered cut bytes. */
  ghost predicate AtCut(offset: nat, size: nat, c: nat, cut: nat, i: nat)
    requires c > 0 && size > 0
  {
    && cut <= size && cut == Cut(offset, size, c, i)
    && (cut == size ==> i == ChunkCount(offset, size, c))
  }

  /** Length of the piece at a cut. */
  function Piece(offset: nat, size: nat, c: nat, cut: nat): (need: nat)
    requires c > 0 && cut < size
    ensures need > 0 && InChunk(offset + cut, c) + need <= c && cut + need <= size
  {
    Min(c - InChunk(offset + cut, c), size - cut)
  }

  lemma {:induction false} CutChunk(offset: nat, size: nat, c: nat, i: nat)
    requires c > 0 && Cut(offset, size, c, i) < size
    ensures Fit(offset + Cut(offset, size, c, i), c) == Fit(offset, c) + i
  {
    FitBounds(offset, c);
    if i > 0 {
      FitIs(offset + Cut(offset, size, c, i), c, Fit(offset, c) + i);
    }
  }

  lemma {:induction false} CutEnd(offset: nat, size: nat, c: nat, i: nat)
    requires c > 0 && Cut(offset, size, c, i) < size && Cut(offset, size, c, i + 1) == size
    ensures i + 1 == ChunkCount(offset, size, c)
  {
    FitBounds(offset, c);
    CutChunk(offset, size, c, i);
    FitIs(offset + size - 1, c, Fit(offset, c) + i);
  }

  /** The piece at the i-th cut lies in the i-th chunk of the range and ends at the next cut. */
  lemma {:induction false} CutNext(offset: nat, size: nat, c: nat, i: nat, cut: nat)
    requires c > 0 && cut < size && AtCut(offset, size, c, cut, i)
    ensures Fit(offset + cut, c) == Fit(offset, c) + i
    ensures AtCut(offset, size, c, cut + Piece(offset, size, c, cut), i + 1)
  {
    CutChunk(offset, size, c, i);
    FitBounds(offset, c);
    if Cut(offset, size, c, i + 1) == size {
      CutEnd(offset, size, c, i);
    }
  }

  /** How much of a range is delivered before a read of a file of this length gives up. */
  function Served(offset: nat, size: nat, c: nat, len: nat): nat
    requires c > 0
  {
    if offset + size <= len then size
    else if len / c * c > offset then len / c * c - offset
    else 0
  }

  /** The first piece that does not fit the file starts where Served says. */
  lemma {:induction false} FailsAtServed(offset: nat, size: nat, c: nat, len: nat, cut: nat, i: nat)
    requires c > 0 && cut < size && AtCut(offset, size, c, cut, i)
    requires cut > 0 ==> offset + cut <= len
    requires offset + cut + Piece(offset, size, c, cut) > len
    ensures offset + size > len && cut == Served(offset, size, c, len)
  {
    var q := Fit(offset, c);
    FitBounds(offset, c);
    FitIsQuotient(len, c);
    TimesIsProduct(Fit(len, c), c);
    CutNext(offset, size, c, i, cut);
    if i > 0 {
      TimesMono(q + 1, q + i, c);
      FitIs(len, c, q + i);
    } else {
      TimesFit(q + 1, c, len);
      TimesMono(Fit(len, c), q, c);
    }
  }
}
