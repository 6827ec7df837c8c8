/**
 * The transfer descriptor (`struct bio`) as far as the strategy routine uses
 * it, and the effect of a write on the backing memory.
 */
module Transfer {
  import opened Base

  /** `bio_cmd` values of FreeBSD's <sys/bio.h>. */
  const BIO_READ: nat := 0x01
  const BIO_WRITE: nat := 0x02

  /** `bio_flags` bits of FreeBSD's <sys/bio.h>. */
  const BIO_ERROR: bv32 := 0x01
  const BIO_DONE: bv32 := 0x02

  /** One block request: command, byte range, data buffer and completion fields. */
  class Bio {
    var cmd: nat
    var offset: nat
    var length: nat
    var data: array<byte>
    var error: int
    var resid: nat
    var flags: bv32

    constructor (cmd: nat, offset: nat, length: nat, data: array<byte>)
      ensures this.cmd == cmd && this.offset == offset && this.length == length && this.data == data
      ensures error == 0 && resid == 0 && flags == 0
    {
      this.cmd, this.offset, this.length, this.data := cmd, offset, length, data;
      error, resid, flags := 0, 0, 0;
    }

    /** The request has been completed with `BIO_DONE`. */
    predicate Done()
      reads this
    {
      flags & BIO_DONE == BIO_DONE
    }
  }

  /**
   * Memory `mem` after copying `src` into it at `off`: the copied range
   * holds `src`, every other byte is unchanged.
   */
  function Written(mem: seq<byte>, off: nat, src: seq<byte>): (r: seq<byte>)
    requires off + |src| <= |mem|
    ensures |r| == |mem|
    ensures r[off..off + |src|] == src
    ensures forall k :: 0 <= k < |mem| && !(off <= k < off + |src|) ==> r[k] == mem[k]
  {
    mem[..off] + src + mem[off + |src|..]
  }

  /** Writing back what a read of the same range returned changes nothing. */
  lemma WriteBackUnchanged(mem: seq<byte>, off: nat, len: nat)
    requires off + len <= |mem|
    ensures Written(mem, off, mem[off..off + len]) == mem
  {
    var r := Written(mem, off, mem[off..off + len]);
    forall k | 0 <= k < |mem| ensures r[k] == mem[k] {
      if off <= k < off + len {
        assert r[k] == r[off..off + len][k - off];
      }
    }
  }

  /** Of two writes to the same range, the second wins. */
  lemma LastWriteWins(mem: seq<byte>, off: nat, a: seq<byte>, b: seq<byte>)
    requires off + |a| <= |mem| && |a| == |b|
    ensures Written(Written(mem, off, a), off, b) == Written(mem, off, b)
  {
    var r, s := Written(Written(mem, off, a), off, b), Written(mem, off, b);
    forall k | 0 <= k < |mem| ensures r[k] == s[k] {
      if off <= k < off + |b| {
        assert r[k] == r[off..off + |b|][k - off];
        assert s[k] == s[off..off + |b|][k - off];
      }
    }
  }
}
