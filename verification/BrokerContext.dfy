/** Packing, allocation and derivation of broker contexts. The 16 + 16 bit halves are
    written with quotient and remainder by 2^16. */
module BrokerContexts {
  import opened Integers
  import opened Sequences

  const HALF_SIZE: int := 0x1_0000

  type Half = x: int | 0 <= x < HALF_SIZE
  type Context = u32

  function ClassCtx(bc: Context): Half {
    bc % HALF_SIZE
  }

  function InstanceCtx(bc: Context): Half {
    bc / HALF_SIZE % HALF_SIZE
  }

  function MakeBrokerContext(classCtx: Half, instanceCtx: Half): Context {
    instanceCtx * HALF_SIZE + classCtx
  }

  const DEFAULT_CONTEXT: Context := MakeBrokerContext(1, 0)

  /** The masks and shifts of the packing, on 32-bit vectors, are these quotients and
      remainders. */
  lemma BitFormsAreArithmetic(bc: bv32, classCtx: bv32, instanceCtx: bv32)
    requires classCtx <= 0xFFFF && instanceCtx <= 0xFFFF
    ensures bc & 0xFFFF == bc % 0x1_0000
    ensures (bc >> 16) & 0xFFFF == bc / 0x1_0000
    ensures (instanceCtx << 16) | classCtx == instanceCtx * 0x1_0000 + classCtx
  {
  }

  /** Packing and unpacking are inverse on every pair of halves and every word. */
  lemma PackUnpack(bc: Context, c: Half, i: Half)
    ensures ClassCtx(MakeBrokerContext(c, i)) == c && InstanceCtx(MakeBrokerContext(c, i)) == i
    ensures MakeBrokerContext(ClassCtx(bc), InstanceCtx(bc)) == bc
  {
    assert (i * HALF_SIZE + c) / HALF_SIZE == i;
    assert bc == bc / HALF_SIZE * HALF_SIZE + bc % HALF_SIZE;
    assert bc / HALF_SIZE < HALF_SIZE;
  }

  /** What newClassCtx makes of the value it fetched: a class id, or the failed assertion. */
  function ClassIdOf(fetched: u32): Option<Half> {
    var id := (fetched + 2) % TWO_TO_32;
    if id < 0xFFFF then Some(id) else None
  }

  function InstanceIdOf(fetched: u32): Option<Half> {
    var id := (fetched + 1) % TWO_TO_32;
    if id < 0x1_0000 then Some(id) else None
  }

  /** The class id handed to the k-th caller (from 0), over all threads. */
  function ClassIdOfCall(k: nat): Option<Half> {
    ClassIdOf(k % TWO_TO_32)
  }

  function InstanceIdOfCall(k: nat): Option<Half> {
    InstanceIdOf(k % TWO_TO_32)
  }

  lemma ClassIdOfEarlyCall(k: nat)
    requires k < TWO_TO_32 - 2
    ensures ClassIdOfCall(k) == if k < 65533 then Some(k + 2) else None
  {
    assert k % TWO_TO_32 == k && (k + 2) % TWO_TO_32 == k + 2;
  }

  lemma InstanceIdOfEarlyCall(k: nat)
    requires k < TWO_TO_32 - 1
    ensures InstanceIdOfCall(k) == if k < 65535 then Some(k + 1) else None
  {
    assert k % TWO_TO_32 == k && (k + 1) % TWO_TO_32 == k + 1;
  }

  ghost predicate ClassIdsSound(n: nat) {
    && (forall k: nat :: k < n && ClassIdOfCall(k).Some? ==> 2 <= ClassIdOfCall(k).value <= 0xFFFE)
    && (forall j: nat, k: nat :: j < k < n && ClassIdOfCall(j).Some? && ClassIdOfCall(k).Some?
          ==> ClassIdOfCall(j) != ClassIdOfCall(k))
  }

  ghost predicate InstanceIdsSound(n: nat) {
    && (forall k: nat :: k < n && InstanceIdOfCall(k).Some? ==> 1 <= InstanceIdOfCall(k).value <= 0xFFFF)
    && (forall j: nat, k: nat :: j < k < n && InstanceIdOfCall(j).Some? && InstanceIdOfCall(k).Some?
          ==> InstanceIdOfCall(j) != InstanceIdOfCall(k))
  }

  /** Class ids stay distinct and in range for exactly the first 2^32 - 2 calls: the
      next one wraps to 0, the reserved nil class, and passes the assertion. */
  lemma ClassIdsSoundIff(n: nat)
    ensures ClassIdsSound(n) <==> n <= TWO_TO_32 - 2
    ensures ClassIdOfCall(TWO_TO_32 - 2) == Some(0)
  {
    if n <= TWO_TO_32 - 2 {
      forall k: nat | k < n
        ensures ClassIdOfCall(k) == if k < 65533 then Some(k + 2) else None
      {
        ClassIdOfEarlyCall(k);
      }
    } else {
      var k := TWO_TO_32 - 2;
      assert ClassIdOfCall(k) == Some(0);
    }
  }

  /** Instance ids stay distinct and in range for exactly the first 2^32 - 1 calls. */
  lemma InstanceIdsSoundIff(n: nat)
    ensures InstanceIdsSound(n) <==> n <= TWO_TO_32 - 1
    ensures InstanceIdOfCall(TWO_TO_32 - 1) == Some(0)
  {
    if n <= TWO_TO_32 - 1 {
      forall k: nat | k < n
        ensures InstanceIdOfCall(k) == if k < 65535 then Some(k + 1) else None
      {
        InstanceIdOfEarlyCall(k);
      }
    } else {
      var k := TWO_TO_32 - 1;
      assert InstanceIdOfCall(k) == Some(0);
    }
  }

  /** The two process-wide counters. Each method is one atomic fetchAdd followed by
      code that touches only the fetched value. */
  class ContextAllocator {
    var classCounter: u32
    var instanceCounter: u32

    constructor ()
      ensures classCounter == 0 && instanceCounter == 0
    {
      classCounter, instanceCounter := 0, 0;
    }

    method NewClassCtx() returns (id: Option<Half>)
      modifies this
      ensures classCounter == (old(classCounter) + 1) % TWO_TO_32
      ensures instanceCounter == old(instanceCounter)
      ensures id == ClassIdOf(old(classCounter))
    {
      var fetched := classCounter;
      classCounter := (classCounter + 1) % TWO_TO_32;
      var n: u32 := (fetched + 2) % TWO_TO_32;
      if n >= 0xFFFF {
        return None;
      }
      id := Some(n);
    }

    method NewBrokerContext() returns (bc: Option<Context>)
      modifies this
      ensures classCounter == (old(classCounter) + 1) % TWO_TO_32
      ensures instanceCounter == old(instanceCounter)
      ensures bc.Some? <==> ClassIdOf(old(classCounter)).Some?
      ensures bc.Some? ==> InstanceCtx(bc.value) == 0 && Some(ClassCtx(bc.value)) == ClassIdOf(old(classCounter))
    {
      var id := NewClassCtx();
      if id.None? {
        return None;
      }
      PackUnpack(0, id.value, 0);
      bc := Some(MakeBrokerContext(id.value, 0));
    }

    method NewInstanceCtx(parent: Context) returns (bc: Option<Context>)
      modifies this
      ensures instanceCounter == (old(instanceCounter) + 1) % TWO_TO_32
      ensures classCounter == old(classCounter)
      ensures bc.Some? <==> InstanceIdOf(old(instanceCounter)).Some?
      ensures bc.Some? ==> ClassCtx(bc.value) == ClassCtx(parent)
                           && Some(InstanceCtx(bc.value)) == InstanceIdOf(old(instanceCounter))
    {
      var fetched := instanceCounter;
      instanceCounter := (instanceCounter + 1) % TWO_TO_32;
      var n: u32 := (fetched + 1) % TWO_TO_32;
      if n >= 0x1_0000 {
        return None;
      }
      PackUnpack(0, ClassCtx(parent), n);
      bc := Some(MakeBrokerContext(ClassCtx(parent), n));
    }
  }
}
