/** What the Stellar host and its cryptography provide. All of it is left abstract:
    every theorem holds for every choice of these functions. */
module Host {
  import opened Outcomes
  import opened Bytes

  type Address = Bytes32

  /** Decoded call arguments. Only the shapes the verifier contract accepts are told apart. */
  datatype Val = BytesVal(bytes: Bytes) | U64Val(n: nat) | OtherVal

  datatype Host = Host(
    keccak: Bytes -> Bytes32,
    /** Public-key recovery; `None` where the host traps. */
    recover: (Bytes32, Bytes64, nat) -> Option<Bytes65>,
    /** Strkey decoding; `None` where the host traps. */
    strkey: Bytes -> Option<Address>,
    /** XDR decoding of a vector of values; `None` where it fails. */
    argsOf: Bytes -> Option<seq<Val>>
  ) {
    /** The Ethereum address of an uncompressed public key. */
    function EthAddress(pk: Bytes65): Bytes20 {
      keccak(pk[1..65])[12..32]
    }

    /** Wormhole's double hash of a VAA body. */
    function Digest(body: Bytes): Bytes32 {
      keccak(keccak(body))
    }
  }

  /** A storage entry. An archived entry keeps its value, reads as missing, and can be restored. */
  datatype Cell<T> = Absent | Live(value: T) | Archived(value: T) {
    function Read(): Option<T> {
      if Live? then Some(value) else None
    }

    function Archive(): Cell<T> {
      if Live? then Archived(value) else this
    }

    function Restore(): Cell<T> {
      if Archived? then Live(value) else this
    }

    /** `this` and `that` hold the same value and differ at most in being archived. */
    ghost predicate SameValue(that: Cell<T>) {
      Absent? == that.Absent? && (!Absent? ==> value == that.value)
    }
  }
}
