/** The embedding file as a row of blocks, and the exact-read loop that loads one. */
module BlockFile {
  import opened Storage

  type Data = seq<byte>

  /** A file cut into blocks of blockBytes. */
  datatype Disk = Disk(file: File, blockBytes: nat, reliable: bool) {
    predicate Has(b: nat) {
      Times(b, blockBytes) + blockBytes <= |file|
    }

    function Block(b: nat): (r: Data)
      ensures Has(b) ==> |r| == blockBytes
    {
      if Has(b) then file[Times(b, blockBytes)..Times(b, blockBytes) + blockBytes] else []
    }
  }

  /** load_block: all the bytes of the block, or a failure. */
  method LoadBlock(disk: Disk, b: nat, dst: array<byte>) returns (ok: bool)
    requires dst.Length == disk.blockBytes
    modifies dst
    ensures ok ==> disk.Has(b) && dst[..] == disk.Block(b)
    ensures !ok ==> disk.blockBytes > 0 && (disk.Has(b) ==> !disk.reliable)
  {
    TimesIsProduct(b, disk.blockBytes);
    var offset := b * disk.blockBytes;
    var total := 0;
    while total < disk.blockBytes
      invariant total <= disk.blockBytes
      invariant Filled(disk.file, offset, total, old(dst[..]), dst[..], 0)
    {
      var got := Pread(disk.file, disk.reliable, dst, total, disk.blockBytes - total, offset + total);
      if got <= 0 {
        return false;
      }
      total := total + got;
    }
    return true;
  }
}
