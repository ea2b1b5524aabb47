/** Vocabulary shared by the models: optional values, bytes and 32-bit counters. */
module Common {

  datatype Option<+T> = None | Some(value: T) {
    function GetOr(default: T): T {
      if Some? then value else default
    }
  }

  newtype byte = b: int | 0 <= b < 256

  type Bytes = seq<byte>

  const TWO_32: nat := 0x1_0000_0000

  type uint32 = n: nat | n < TWO_32

  /** `n >>> 0` for a number that is not negative. */
  function Wrap(n: nat): uint32 {
    n % TWO_32
  }

  lemma WrapAdd(a: nat, b: nat)
    ensures Wrap(Wrap(a) + b) == Wrap(a + b)
  {
  }
}
