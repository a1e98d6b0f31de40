// What several of the models share.
module Common {

  datatype Option<+T> = None | Some(value: T)

  /** The modulus of uint32_t arithmetic. */
  const U32 := 0x1_0000_0000

  lemma WrapSucc(n: nat)
    ensures (n % U32 + 1) % U32 == (n + 1) % U32
  {
  }
}
