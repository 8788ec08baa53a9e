/** The Pyth Lazer verifier contract on Stellar: the trusted-signer map and the check of
    signed updates (`lib.rs`, `state.rs` and `verify.rs` of pyth-lazer-stellar). */
module Verifier {
  import opened Outcomes
  import opened Bytes
  import opened Host

  datatype VerifierError =
    | AlreadyInitialized | NotInitialized | InvalidMagic | TruncatedData | InvalidPayloadLength
    | SignerNotTrusted | SignerExpired | InvalidRecoveryId

  const LE_ECDSA_FORMAT_MAGIC := 1_296_547_300
  const MIN_ENVELOPE_SIZE := 71

  type SignerMap = map<Bytes33, nat>

  /** The contract's storage: the executor in instance storage, the signer map a persistent entry. */
  datatype State = State(executor: Option<Address>, signers: Cell<SignerMap>) {
    /** The map as the contract reads it: a missing entry counts as the empty map. */
    function Signers(): SignerMap {
      if signers.Live? then signers.value else map[]
    }
  }

  /** One write to the signer map; an expiry of zero removes the signer. */
  function SetSigner(m: SignerMap, pubkey: Bytes33, expiresAt: nat): SignerMap {
    if expiresAt == 0 then m - {pubkey} else m[pubkey := expiresAt]
  }

  function Construction(s: State, executor: Address, signer: Option<Bytes33>, expiresAt: Option<nat>)
    : Outcome<State, VerifierError>
  {
    if s.executor.Some? then Fail(AlreadyInitialized)
    else if signer.Some? && expiresAt.Some? then
      Done(State(Some(executor), Live(SetSigner(s.Signers(), signer.value, expiresAt.value))))
    else Done(State(Some(executor), s.signers))
  }

  /** `update_trusted_signer` invoked by `caller`; authorization as anyone but the executor traps. */
  function SignerUpdate(s: State, caller: Address, pubkey: Bytes33, expiresAt: nat): Outcome<State, VerifierError> {
    if s.executor.None? then Fail(NotInitialized)
    else if s.executor.value != caller then Trap
    else Done(s.(signers := Live(SetSigner(s.Signers(), pubkey, expiresAt))))
  }

  /** Point compression, section 2.3.3 of SEC 1: a parity byte and the x coordinate. */
  function Compressed(pk: Bytes65): Bytes33 {
    [if pk[64] % 2 == 0 then 2 else 3] + pk[1..33]
  }

  /** The key an envelope's signature recovers to, over the hash of its payload. */
  function RecoveredKey(host: Host, signature: Bytes64, recoveryId: nat, payload: Bytes): Option<Bytes33> {
    match host.recover(host.keccak(payload), signature, recoveryId)
    case None => None
    case Some(pk) => Some(Compressed(pk))
  }

  function UpdateVerification(host: Host, s: State, now: nat, data: Bytes): Outcome<Bytes, VerifierError> {
    if |data| < MIN_ENVELOPE_SIZE then Fail(TruncatedData)
    else if FromLE(data[0..4]) != LE_ECDSA_FORMAT_MAGIC then Fail(InvalidMagic)
    else if data[68] > 3 then Fail(InvalidRecoveryId)
    else if MIN_ENVELOPE_SIZE + FromLE(data[69..71]) != |data| then Fail(InvalidPayloadLength)
    else
      match RecoveredKey(host, data[4..68], data[68], data[71..])
      case None => Trap
      case Some(key) =>
        if key !in s.Signers() then Fail(SignerNotTrusted)
        else if now >= s.Signers()[key] then Fail(SignerExpired)
        else Done(data[71..])
  }

  class VerifierContract {
    const host: Host
    var executor: Option<Address>
    var signers: Cell<SignerMap>

    /** A deployed contract before its constructor entry point has run. */
    constructor (host: Host)
      ensures this.host == host && Storage() == State(None, Absent)
    {
      this.host := host;
      executor, signers := None, Absent;
    }

    ghost function Storage(): State
      reads this
    {
      State(executor, signers)
    }

    function GetTrustedSigners(): (m: SignerMap)
      reads this
      ensures m == Storage().Signers()
    {
      match signers.Read() case Some(m) => m case None => map[]
    }

    /** `set_trusted_signer`: reads the map, changes it, writes it back. */
    method SetTrustedSigner(pubkey: Bytes33, expiresAt: nat)
      modifies this`signers
      ensures signers == Live(SetSigner(old(Storage()).Signers(), pubkey, expiresAt))
    {
      var m: SignerMap := GetTrustedSigners();
      if expiresAt == 0 {
        var removed: set<Bytes33> := {pubkey};
        m := m - removed;
      } else {
        m := m[pubkey := expiresAt];
      }
      signers := Live(m);
    }

    /** `__constructor` */
    method Construct(executor: Address, initialSigner: Option<Bytes33>, initialExpiry: Option<nat>)
      returns (r: Outcome<(), VerifierError>)
      modifies this
      ensures match Construction(old(Storage()), executor, initialSigner, initialExpiry)
              case Done(s) => r == Done(()) && Storage() == s
              case Fail(e) => r == Fail(e) && Storage() == old(Storage())
              case Trap => r == Trap
    {
      if this.executor.Some? {
        return Fail(AlreadyInitialized);
      }
      this.executor := Some(executor);
      if initialSigner.Some? && initialExpiry.Some? {
        SetTrustedSigner(initialSigner.value, initialExpiry.value);
      }
      return Done(());
    }

    /** `update_trusted_signer` */
    method UpdateTrustedSigner(caller: Address, pubkey: Bytes33, expiresAt: nat)
      returns (r: Outcome<(), VerifierError>)
      modifies this`signers
      ensures match SignerUpdate(old(Storage()), caller, pubkey, expiresAt)
              case Done(s) => r == Done(()) && Storage() == s
              case Fail(e) => r == Fail(e) && Storage() == old(Storage())
              case Trap => r == Trap && Storage() == old(Storage())
    {
      if executor.None? {
        return Fail(NotInitialized);
      }
      if caller != executor.value {
        return Trap;
      }
      SetTrustedSigner(pubkey, expiresAt);
      return Done(());
    }

    /** `verify_update` */
    method VerifyUpdate(now: nat, data: Bytes) returns (r: Outcome<Bytes, VerifierError>)
      ensures r == UpdateVerification(host, Storage(), now, data)
    {
      if |data| < MIN_ENVELOPE_SIZE {
        return Fail(TruncatedData);
      }
      LeReadersAgree(data, 0);
      if ReadLeU32(data, 0).value != LE_ECDSA_FORMAT_MAGIC {
        return Fail(InvalidMagic);
      }
      var signature := ReadArray(data, 4, 64);
      var recoveryId: nat := data[68];
      if recoveryId > 3 {
        return Fail(InvalidRecoveryId);
      }
      LeReadersAgree(data, 69);
      var payloadLen := ReadLeU16(data, 69).value;
      var expectedEnd := MIN_ENVELOPE_SIZE + payloadLen;
      if expectedEnd != |data| {
        return Fail(InvalidPayloadLength);
      }
      var payload := data[MIN_ENVELOPE_SIZE..expectedEnd];
      assert payload == data[MIN_ENVELOPE_SIZE..];
      var pk := host.recover(host.keccak(payload), signature.value, recoveryId);
      if pk.None? {
        return Trap;
      }
      var key := CompressPubkey(pk.value);
      var m := GetTrustedSigners();
      if key !in m {
        return Fail(SignerNotTrusted);
      }
      if now >= m[key] {
        return Fail(SignerExpired);
      }
      return Done(payload);
    }
  }

  /** `compress_pubkey`: fills the 33 output bytes in a loop. */
  method CompressPubkey(pk: Bytes65) returns (r: Bytes33)
    ensures r[0] == if pk[64] % 2 == 0 then 2 else 3
    ensures forall i :: 1 <= i < 33 ==> r[i] == pk[i]
    ensures r == Compressed(pk)
  {
    var out := new byte[33];
    out[0] := if pk[64] % 2 == 0 then 2 else 3;
    var i := 0;
    while i < 32
      invariant 0 <= i <= 32 && out[0] == if pk[64] % 2 == 0 then 2 else 3
      invariant forall k :: 1 <= k <= i ==> out[k] == pk[k]
    {
      out[i + 1] := pk[1 + i];
      i := i + 1;
    }
    r := out[..];
    CompressedExactly(pk, r);
  }

  /** The compressed form, byte by byte: it is the only key with the x coordinate behind the parity of y. */
  lemma CompressedExactly(pk: Bytes65, key: Bytes33)
    ensures key == Compressed(pk) <==>
            key[0] == (if pk[64] % 2 == 0 then 2 else 3) && forall i :: 1 <= i < 33 ==> key[i] == pk[i]
  {
    var r := Compressed(pk);
    assert forall i :: 1 <= i < 33 ==> r[i] == pk[1..33][i - 1] == pk[i];
    if key[0] == r[0] && forall i :: 1 <= i < 33 ==> key[i] == pk[i] {
      assert forall i :: 0 <= i < 33 ==> key[i] == r[i];
    }
  }

  /** Two keys compress alike if and only if they have the same x coordinate and a y of the same parity. */
  lemma CompressAlike(a: Bytes65, b: Bytes65)
    ensures Compressed(a) == Compressed(b) <==> a[1..33] == b[1..33] && a[64] % 2 == b[64] % 2
  {
    CompressedExactly(a, Compressed(b));
    CompressedExactly(b, Compressed(b));
    if a[1..33] == b[1..33] {
      assert forall i :: 1 <= i < 33 ==> a[i] == a[1..33][i - 1] == b[1..33][i - 1] == b[i];
    }
  }

  /** Reading an archived map as empty is harmless exactly when the entry is live
      or holds no other signer: otherwise the write forgets every other signer. */
  lemma ArchivedMapWrite(s: State, caller: Address, pubkey: Bytes33, expiresAt: nat)
    requires s.executor == Some(caller) && !s.signers.Absent?
    ensures SignerUpdate(s, caller, pubkey, expiresAt).Done?
    ensures SignerUpdate(s, caller, pubkey, expiresAt).value.signers.value
            == SetSigner(s.signers.value, pubkey, expiresAt)
            <==> s.signers.Live? || s.signers.value.Keys <= {pubkey}
  {
    var m := s.signers.value;
    if !s.signers.Live? {
      if m.Keys <= {pubkey} {
        assert SetSigner(map[], pubkey, expiresAt) == SetSigner(m, pubkey, expiresAt);
      } else {
        var k :| k in m.Keys && k != pubkey;
        assert k in SetSigner(m, pubkey, expiresAt);
        assert k !in SetSigner(map[], pubkey, expiresAt);
      }
    }
  }
}
