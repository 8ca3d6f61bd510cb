/** Files, read outcomes and the buffered read that both runtimes share. */
module Storage {

  newtype byte = x: int | 0 <= x < 256
  /** A path stands for the canonical name it resolves to; names are numbered in the order the
      program compares them. */
  type Path = nat
  type File = seq<byte>

  datatype Status = Ok | Invalid | Io | Unsupported | GdsError | CudaError | Internal

  /** The world the runtime reads: fixed file contents, and whether the device never fails. */
  datatype Env = Env(files: map<Path, File>, reliable: bool)

  function Min(a: nat, b: nat): nat {
    if a <= b then a else b
  }

  /** n times c as repeated addition, which keeps products out of the solver's way. */
  function Times(n: nat, c: nat): nat {
    if n == 0 then 0 else Times(n - 1, c) + c
  }

  lemma {:induction false} TimesIsProduct(n: nat, c: nat)
    ensures Times(n, c) == n * c
  {
    if n > 0 {
      TimesIsProduct(n - 1, c);
      assert n * c == (n - 1) * c + c;
    }
  }

  /** limit divided by c as repeated subtraction, for the same reason. */
  function Fit(limit: nat, c: nat): nat {
    if c == 0 || limit < c then 0 else 1 + Fit(limit - c, c)
  }

  lemma {:induction false} TimesMono(a: nat, b: nat, c: nat)
    requires a <= b
    ensures Times(a, c) <= Times(b, c)
  {
    if a < b {
      TimesMono(a, b - 1, c);
    }
  }

  lemma {:induction false} TimesFit(n: nat, c: nat, limit: nat)
    requires c > 0
    ensures Times(n, c) <= limit <==> n <= Fit(limit, c)
  {
    if limit >= c && n > 0 {
      TimesFit(n - 1, c, limit - c);
    } else if n > 0 {
      TimesMono(1, n, c);
    }
  }

  lemma {:induction false} FitIsQuotient(limit: nat, c: nat)
    requires c > 0
    ensures Fit(limit, c) == limit / c
  {
    var q := limit / c;
    TimesIsProduct(q, c);
    TimesFit(q, c, limit);
    TimesFit(q + 1, c, limit);
  }

  /** Bytes of a request that lie inside a file of the given length. */
  function Avail(len: nat, offset: nat, size: nat): nat {
    if offset >= len then 0 else Min(size, len - offset)
  }

  /** A slice of a slice is a slice. */
  lemma {:induction false} SubSlice<T>(s: seq<T>, a: nat, b: nat, i: nat, j: nat)
    requires a <= b <= |s| && i <= j <= b - a
    ensures s[a..b][i..j] == s[a + i..a + j]
  {
    forall k | 0 <= k < j - i ensures s[a..b][i..j][k] == s[a + i..a + j][k] {
      assert s[a..b][i + k] == s[a + i + k];
    }
  }

  /** The buffer cells from at on hold n bytes of the file; the others are as before. */
  ghost predicate Filled(file: File, offset: nat, n: nat, before: seq<byte>, after: seq<byte>, at: nat) {
    && |after| == |before| && at + n <= |before| && (n == 0 || offset + n <= |file|)
    && forall i :: 0 <= i < |after| ==>
         after[i] == if at <= i < at + n then file[offset + i - at] else before[i]
  }

  lemma {:induction false} FilledInFile(file: File, offset: nat, n: nat, before: seq<byte>, after: seq<byte>, at: nat)
    requires Filled(file, offset, n, before, after, at) && n > 0
    ensures offset + n <= |file|
  {
  }

  lemma {:induction false} FilledNone(file: File, offset: nat, buffer: seq<byte>)
    ensures Filled(file, offset, 0, buffer, buffer, 0)
  {
  }

  /** Filling the next cells of a partly filled buffer. */
  lemma {:induction false} FilledNext(file: File, offset: nat, m: nat, n: nat, init: seq<byte>, mid: seq<byte>,
      after: seq<byte>)
    requires Filled(file, offset, m, init, mid, 0) && Filled(file, offset + m, n, mid, after, m)
    ensures Filled(file, offset, m + n, init, after, 0)
  {
  }

  /** The pread system call: an error, or any non-empty prefix of what is available (nothing
      only when nothing is). */
  method Pread(file: File, reliable: bool, dst: array<byte>, at: nat, want: nat, offset: nat) returns (n: int)
    requires at + want <= dst.Length
    modifies dst
    ensures -1 <= n <= Avail(|file|, offset, want)
    ensures reliable ==> n >= 0
    ensures n == 0 ==> Avail(|file|, offset, want) == 0
    ensures n >= 0 ==> Filled(file, offset, n, old(dst[..]), dst[..], at)
    ensures n < 0 ==> dst[..] == old(dst[..])
  {
    var fails: bool := *;
    if fails && !reliable {
      return -1;
    }
    var avail := Avail(|file|, offset, want);
    if avail == 0 {
      return 0;
    }
    var got: nat :| 1 <= got <= avail;
    forall i | 0 <= i < got {
      dst[at + i] := file[offset + i];
    }
    return got;
  }

  /** posix_pread_full: short reads are continued, end of file clips. */
  method PreadFull(env: Env, path: Path, offset: nat, size: nat, dst: array<byte>) returns (rc: Status, bytesRead: nat)
    requires size <= dst.Length
    modifies dst
    ensures rc == Ok || rc == Io
    ensures env.reliable ==> (rc == Ok <==> path in env.files)
    ensures rc == Ok ==> path in env.files && bytesRead == Avail(|env.files[path]|, offset, size)
    ensures rc == Ok ==> Filled(env.files[path], offset, bytesRead, old(dst[..]), dst[..], 0)
    ensures rc != Ok ==> bytesRead == 0
  {
    if path !in env.files {
      return Io, 0;
    }
    var file := env.files[path];
    var total: nat := 0;
    while total < size
      invariant total <= Avail(|file|, offset, size)
      invariant Filled(file, offset, total, old(dst[..]), dst[..], 0)
      decreases size - total
    {
      var n := Pread(file, env.reliable, dst, total, size - total, offset + total);
      if n == 0 {
        break;
      }
      if n < 0 {
        return Io, 0;
      }
      total := total + n;
    }
    return Ok, total;
  }
}
