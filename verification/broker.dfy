/**
 * The hypervisor memory broker of `ps3vram_init`: ask for 256 MiB of GPU
 * memory and, on every refusal, ask again for 1 MiB less; give up (panic)
 * once the request has dropped to zero. The hypervisor call is an oracle:
 * a function from the requested size to the status, handle and physical
 * base it reports.
 */
module Broker {
  import opened Base

  const MiB: nat := 1024 * 1024

  /** The first size the driver asks for. */
  const INITIAL_DDR_SIZE: nat := 256 * MiB

  /** What `lv1_gpu_memory_allocate` reports: a status (0 is success), a handle and a physical base. */
  datatype Alloc = Alloc(status: int, handle: nat, lpar: nat)

  predicate Accepts(allocate: nat -> Alloc, size: nat)
  {
    allocate(size).status == 0
  }

  /** The size the step-down loop obtains from `size` downwards, or None when it panics. */
  function Negotiate(allocate: nat -> Alloc, size: nat): Option<nat>
    requires size % MiB == 0
    decreases size
  {
    if size == 0 then None
    else if Accepts(allocate, size) then Some(size)
    else Negotiate(allocate, size - MiB)
  }

  /** The sizes the step-down loop passes to the allocator, in order. */
  function Attempts(allocate: nat -> Alloc, size: nat): seq<nat>
    requires size % MiB == 0
    decreases size
  {
    if size == 0 then []
    else if Accepts(allocate, size) then [size]
    else [size] + Attempts(allocate, size - MiB)
  }

  /**
   * A granted size is a nonzero multiple of 1 MiB, no larger than the first
   * request, accepted by the allocator, and the largest such size: every
   * larger candidate was refused.
   */
  lemma {:induction false} NegotiateGrantsLargest(allocate: nat -> Alloc, size: nat, granted: nat)
    requires size % MiB == 0
    requires Negotiate(allocate, size) == Some(granted)
    ensures 0 < granted <= size && granted % MiB == 0
    ensures Accepts(allocate, granted)
    ensures forall h :: granted < h <= size && h % MiB == 0 ==> !Accepts(allocate, h)
    decreases size
  {
    if !Accepts(allocate, size) {
      NegotiateGrantsLargest(allocate, size - MiB, granted);
      forall h | granted < h <= size && h % MiB == 0
        ensures !Accepts(allocate, h)
      {
        if h != size {
          assert h <= size - MiB;
        }
      }
    }
  }

  /** The loop panics exactly when the allocator refuses every size from `size` down to 1 MiB. */
  lemma {:induction false} NegotiateFailsIffAllRefused(allocate: nat -> Alloc, size: nat)
    requires size % MiB == 0
    ensures Negotiate(allocate, size) == None <==>
      forall h :: 0 < h <= size && h % MiB == 0 ==> !Accepts(allocate, h)
    decreases size
  {
    if size > 0 && !Accepts(allocate, size) {
      NegotiateFailsIffAllRefused(allocate, size - MiB);
      if Negotiate(allocate, size) == None {
        forall h | 0 < h <= size && h % MiB == 0
          ensures !Accepts(allocate, h)
        {
          if h != size {
            assert h <= size - MiB;
          }
        }
      }
    }
  }

  /**
   * The requests go down from `size` in steps of exactly 1 MiB, none of them
   * is zero, and they end with the granted size, or, when every request was
   * refused, with 1 MiB after `size / MiB` attempts.
   */
  lemma {:induction false} AttemptsStepDown(allocate: nat -> Alloc, size: nat)
    requires size % MiB == 0
    ensures forall k :: 0 <= k < |Attempts(allocate, size)| ==>
      Attempts(allocate, size)[k] == size - k * MiB && Attempts(allocate, size)[k] > 0
    ensures Negotiate(allocate, size) == None ==> |Attempts(allocate, size)| == size / MiB
    ensures Negotiate(allocate, size).Some? ==>
      |Attempts(allocate, size)| > 0 &&
      Attempts(allocate, size)[|Attempts(allocate, size)| - 1] == Negotiate(allocate, size).value
    decreases size
  {
    if size > 0 && !Accepts(allocate, size) {
      AttemptsStepDown(allocate, size - MiB);
      var rest := Attempts(allocate, size - MiB);
      assert Attempts(allocate, size) == [size] + rest;
      forall k | 0 < k < |Attempts(allocate, size)|
        ensures Attempts(allocate, size)[k] == size - k * MiB
      {
        assert Attempts(allocate, size)[k] == rest[k - 1];
      }
    }
  }
}
