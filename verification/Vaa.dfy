/** Wormhole VAAs: the parser, its encoder, and the guardian-quorum check
    (`vaa.rs` and the pure part of `guardian.rs`). */
module Vaa {
  import opened Outcomes
  import opened Bytes
  import opened Host
  import opened Sets

  datatype ContractError =
    | InvalidVaaVersion | TruncatedData | InvalidGuardianIndex | NoQuorum
    | GuardianSignatureMismatch | InvalidEmitterChain | InvalidEmitterAddress | StaleSequence
    | AlreadyInitialized | NotInitialized | DuplicateGuardianSignature | InvalidGuardianSetIndex
    | InvalidGuardianSetUpgrade | EmptyGuardianSet | InvalidPtgmMagic | InvalidPtgmModule
    | InvalidTargetChain | InvalidGovernanceAction | InvalidExecutorAddress | InvalidRecoveryId
    | InvalidGovernanceModule | InvalidTargetContract | GuardianSetNotFound | GuardianSetExpired
    | InvalidFunctionName | InvalidArgsEncoding | SequenceNotFound

  type Call<T> = Outcome<T, ContractError>

  const SIGNATURE_ENTRY_SIZE := 66
  const HEADER_SIZE := 6
  const MIN_BODY_SIZE := 51

  datatype GuardianSignature = GuardianSignature(guardianIndex: nat, signature: Bytes64, recoveryId: nat)

  datatype VaaBody = VaaBody(
    timestamp: nat, nonce: nat, emitterChain: nat, emitterAddress: Bytes32,
    sequence: nat, consistencyLevel: nat, payload: Bytes)

  datatype Vaa = Vaa(guardianSetIndex: nat, signatures: seq<GuardianSignature>, body: VaaBody, bodyBytes: Bytes)

  // ----- The wire format -----

  ghost predicate BodyFits(b: VaaBody) {
    && b.timestamp <= U32_MAX && b.nonce <= U32_MAX && b.emitterChain <= U16_MAX
    && b.sequence <= U64_MAX && b.consistencyLevel < 256
  }

  ghost predicate SignatureFits(s: GuardianSignature) {
    s.guardianIndex < 256 && s.recoveryId < 256
  }

  /** A VAA that has a wire form, with `bodyBytes` the encoding of its body. */
  ghost predicate WellFormed(v: Vaa) {
    && v.guardianSetIndex <= U32_MAX
    && |v.signatures| < 256
    && (forall i :: 0 <= i < |v.signatures| ==> SignatureFits(v.signatures[i]))
    && BodyFits(v.body)
    && v.bodyBytes == EncodeBody(v.body)
  }

  ghost function EncodeBody(b: VaaBody): (r: Bytes)
    requires BodyFits(b)
    ensures |r| == MIN_BODY_SIZE + |b.payload|
  {
    ToBE(b.timestamp, 4) + ToBE(b.nonce, 4) + ToBE(b.emitterChain, 2) + b.emitterAddress
    + ToBE(b.sequence, 8) + [b.consistencyLevel] + b.payload
  }

  ghost function EncodeSignature(s: GuardianSignature): (r: Bytes)
    requires SignatureFits(s)
    ensures |r| == SIGNATURE_ENTRY_SIZE
  {
    [s.guardianIndex] + s.signature + [s.recoveryId]
  }

  ghost function EncodeSignatures(ss: seq<GuardianSignature>): (r: Bytes)
    requires forall i :: 0 <= i < |ss| ==> SignatureFits(ss[i])
    ensures |r| == |ss| * SIGNATURE_ENTRY_SIZE
  {
    if ss == [] then [] else EncodeSignatures(ss[..|ss| - 1]) + EncodeSignature(ss[|ss| - 1])
  }

  ghost function EncodeVaa(v: Vaa): Bytes
    requires WellFormed(v)
  {
    [1] + ToBE(v.guardianSetIndex, 4) + [|v.signatures|] + EncodeSignatures(v.signatures) + v.bodyBytes
  }

  // ----- Decoding, by slices -----

  function BodyOf(b: Bytes): VaaBody
    requires |b| >= MIN_BODY_SIZE
  {
    VaaBody(FromBE(b[0..4]), FromBE(b[4..8]), FromBE(b[8..10]), b[10..42], FromBE(b[42..50]), b[50], b[51..])
  }

  function SignatureAt(data: Bytes, i: nat): GuardianSignature
    requires HEADER_SIZE + (i + 1) * SIGNATURE_ENTRY_SIZE <= |data|
  {
    var o := HEADER_SIZE + i * SIGNATURE_ENTRY_SIZE;
    GuardianSignature(data[o], data[o + 1..o + 65], data[o + 65])
  }

  function DecodeVaa(data: Bytes): Call<Vaa> {
    if |data| < HEADER_SIZE then Fail(TruncatedData)
    else if data[0] != 1 then Fail(InvalidVaaVersion)
    else
      var n: nat := data[5];
      var o := HEADER_SIZE + n * SIGNATURE_ENTRY_SIZE;
      if |data| < o + MIN_BODY_SIZE then Fail(TruncatedData)
      else Done(Vaa(FromBE(data[1..5]), seq(n, i requires 0 <= i < n => SignatureAt(data, i)),
                    BodyOf(data[o..]), data[o..]))
  }

  /** `parse_vaa`: reads the input byte by byte into fixed buffers. */
  method ParseVaa(data: Bytes) returns (r: Call<Vaa>)
    ensures r == DecodeVaa(data)
  {
    if |data| < HEADER_SIZE {
      return Fail(TruncatedData);
    }
    var version := GetByte(data, 0);
    if version != Some(1) {
      return Fail(InvalidVaaVersion);
    }
    BeReadersAgree(data, 1);
    var guardianSetIndex := ReadBeU32(data, 1).value;
    var numSignatures: nat := data[5];
    var bodyOffset := HEADER_SIZE + numSignatures * SIGNATURE_ENTRY_SIZE;
    if |data| < bodyOffset + MIN_BODY_SIZE {
      return Fail(TruncatedData);
    }
    var signatures := ParseSignatures(data, numSignatures);
    var body := ParseBody(data, bodyOffset);
    return Done(Vaa(guardianSetIndex, signatures, body, data[bodyOffset..]));
  }

  method ParseSignatures(data: Bytes, n: nat) returns (signatures: seq<GuardianSignature>)
    requires HEADER_SIZE + n * SIGNATURE_ENTRY_SIZE <= |data|
    ensures signatures == seq(n, i requires 0 <= i < n => SignatureAt(data, i))
  {
    signatures := [];
    var i := 0;
    while i < n
      invariant 0 <= i <= n && |signatures| == i
      invariant forall k :: 0 <= k < i ==> signatures[k] == SignatureAt(data, k)
    {
      var o := HEADER_SIZE + i * SIGNATURE_ENTRY_SIZE;
      var sig := ReadArray(data, o + 1, 64);
      signatures := signatures + [GuardianSignature(data[o], sig.value, data[o + 65])];
      i := i + 1;
    }
  }

  method ParseBody(data: Bytes, o: nat) returns (b: VaaBody)
    requires o + MIN_BODY_SIZE <= |data|
    ensures b == BodyOf(data[o..])
  {
    BeReadersAgree(data, o);
    BeReadersAgree(data, o + 4);
    BeReadersAgree(data, o + 8);
    BeReadersAgree(data, o + 42);
    ghost var d := data[o..];
    assert data[o..o + 4] == d[0..4] && data[o + 4..o + 8] == d[4..8] && data[o + 8..o + 10] == d[8..10];
    assert data[o + 42..o + 50] == d[42..50] && data[o + 10..o + 42] == d[10..42] && data[o + 51..] == d[51..];
    var address := ReadArray(data, o + 10, 32);
    var payload := if o + 51 < |data| then data[o + 51..] else [];
    return VaaBody(ReadBeU32(data, o).value, ReadBeU32(data, o + 4).value, ReadBeU16(data, o + 8).value,
                   address.value, ReadBeU64(data, o + 42).value, data[o + 50], payload);
  }

  // ----- The parser and the encoder are inverse to each other -----

  lemma BodyRoundTrip(b: VaaBody)
    requires BodyFits(b)
    ensures BodyOf(EncodeBody(b)) == b
  {
    var e := EncodeBody(b);
    Pow256Values();
    BEOfValue(b.timestamp, 4);
    BEOfValue(b.nonce, 4);
    BEOfValue(b.emitterChain, 2);
    BEOfValue(b.sequence, 8);
    assert e[0..4] == ToBE(b.timestamp, 4) && e[4..8] == ToBE(b.nonce, 4) && e[8..10] == ToBE(b.emitterChain, 2);
    assert e[10..42] == b.emitterAddress && e[42..50] == ToBE(b.sequence, 8) && e[51..] == b.payload;
  }

  lemma BodyBytesRoundTrip(s: Bytes)
    requires |s| >= MIN_BODY_SIZE
    ensures BodyFits(BodyOf(s)) && EncodeBody(BodyOf(s)) == s
  {
    Pow256Values();
    BEOfBytes(s[0..4]);
    BEOfBytes(s[4..8]);
    BEOfBytes(s[8..10]);
    BEOfBytes(s[42..50]);
    assert s == s[0..4] + s[4..8] + s[8..10] + s[10..42] + s[42..50] + [s[50]] + s[51..];
  }

  lemma {:induction false} SignaturesEncoded(ss: seq<GuardianSignature>, i: nat)
    requires i < |ss|
    requires forall i :: 0 <= i < |ss| ==> SignatureFits(ss[i])
    ensures |EncodeSignatures(ss)| == |ss| * SIGNATURE_ENTRY_SIZE
    ensures EncodeSignatures(ss)[i * SIGNATURE_ENTRY_SIZE..(i + 1) * SIGNATURE_ENTRY_SIZE] == EncodeSignature(ss[i])
  {
    var n := |ss| - 1;
    if i < n {
      SignaturesEncoded(ss[..n], i);
      var a := EncodeSignatures(ss[..n]);
      assert (a + EncodeSignature(ss[n]))[i * SIGNATURE_ENTRY_SIZE..(i + 1) * SIGNATURE_ENTRY_SIZE]
          == a[i * SIGNATURE_ENTRY_SIZE..(i + 1) * SIGNATURE_ENTRY_SIZE];
    }
  }

  /** Where the parts of an encoded VAA lie. */
  lemma EncodingLayout(v: Vaa)
    requires WellFormed(v)
    ensures var e, o := EncodeVaa(v), HEADER_SIZE + |v.signatures| * SIGNATURE_ENTRY_SIZE;
            && |e| == o + |v.bodyBytes|
            && e[0] == 1 && e[1..5] == ToBE(v.guardianSetIndex, 4) && e[5] == |v.signatures|
            && e[HEADER_SIZE..o] == EncodeSignatures(v.signatures) && e[o..] == v.bodyBytes
  {
    var h := [1] + ToBE(v.guardianSetIndex, 4) + [|v.signatures|];
    assert |h| == HEADER_SIZE && h[1..5] == ToBE(v.guardianSetIndex, 4);
    assert EncodeVaa(v) == h + EncodeSignatures(v.signatures) + v.bodyBytes;
  }

  lemma SignatureOfEntry(e: Bytes, q: nat, s: GuardianSignature)
    requires SignatureFits(s) && q + SIGNATURE_ENTRY_SIZE <= |e|
    requires e[q..q + SIGNATURE_ENTRY_SIZE] == EncodeSignature(s)
    ensures e[q] == s.guardianIndex && e[q + 1..q + 65] == s.signature && e[q + 65] == s.recoveryId
  {
    var es := EncodeSignature(s);
    SliceOfSlice(e, q, q + SIGNATURE_ENTRY_SIZE, 1, 65);
    assert es[0] == s.guardianIndex && es[1..65] == s.signature && es[65] == s.recoveryId;
    assert e[q] == es[0] && e[q + 65] == es[65];
  }

  lemma SignatureEncoding(v: Vaa, i: nat)
    requires WellFormed(v) && i < |v.signatures|
    ensures HEADER_SIZE + (i + 1) * SIGNATURE_ENTRY_SIZE <= |EncodeVaa(v)|
    ensures SignatureAt(EncodeVaa(v), i) == v.signatures[i]
  {
    var e, sigs := EncodeVaa(v), EncodeSignatures(v.signatures);
    EncodingLayout(v);
    SignaturesEncoded(v.signatures, i);
    var k, q := i * SIGNATURE_ENTRY_SIZE, HEADER_SIZE + i * SIGNATURE_ENTRY_SIZE;
    SliceOfSlice(e, HEADER_SIZE, HEADER_SIZE + |sigs|, k, k + SIGNATURE_ENTRY_SIZE);
    SignatureOfEntry(e, q, v.signatures[i]);
  }

  /** Parsing an encoded VAA gives it back. */
  lemma ParseOfEncoding(v: Vaa)
    requires WellFormed(v)
    ensures DecodeVaa(EncodeVaa(v)) == Done(v)
  {
    var e, n := EncodeVaa(v), |v.signatures|;
    EncodingLayout(v);
    Pow256Values();
    BEOfValue(v.guardianSetIndex, 4);
    BodyRoundTrip(v.body);
    forall i | 0 <= i < n
      ensures SignatureAt(e, i) == v.signatures[i]
    {
      SignatureEncoding(v, i);
    }
    assert seq(n, i requires 0 <= i < n => SignatureAt(e, i)) == v.signatures;
  }

  lemma {:induction false} SignaturesReencode(data: Bytes, ss: seq<GuardianSignature>)
    requires HEADER_SIZE + |ss| * SIGNATURE_ENTRY_SIZE <= |data|
    requires forall i :: 0 <= i < |ss| ==> ss[i] == SignatureAt(data, i)
    ensures forall i :: 0 <= i < |ss| ==> SignatureFits(ss[i])
    ensures EncodeSignatures(ss) == data[HEADER_SIZE..HEADER_SIZE + |ss| * SIGNATURE_ENTRY_SIZE]
  {
    if ss != [] {
      var n := |ss| - 1;
      SignaturesReencode(data, ss[..n]);
      var q := HEADER_SIZE + n * SIGNATURE_ENTRY_SIZE;
      assert EncodeSignature(ss[n]) == data[q..q + SIGNATURE_ENTRY_SIZE];
      assert data[HEADER_SIZE..q] + data[q..q + SIGNATURE_ENTRY_SIZE] == data[HEADER_SIZE..q + SIGNATURE_ENTRY_SIZE];
    }
  }

  /** The body acted on is decoded from the hashed bytes alone. */
  lemma BodyOfParse(data: Bytes)
    requires DecodeVaa(data).Done?
    ensures var v := DecodeVaa(data).value;
            |v.bodyBytes| >= MIN_BODY_SIZE && v.body == BodyOf(v.bodyBytes)
  {
  }

  /** Re-encoding anything the parser accepts gives back the very input, so no two
      inputs parse to the same VAA; and the body acted on is decoded from the hashed bytes alone. */
  lemma EncodingOfParse(data: Bytes)
    requires DecodeVaa(data).Done?
    ensures var v := DecodeVaa(data).value;
            && WellFormed(v)
            && EncodeVaa(v) == data
            && |v.bodyBytes| >= MIN_BODY_SIZE
            && v.body == BodyOf(v.bodyBytes)
  {
    var v := DecodeVaa(data).value;
    var n := |v.signatures|;
    var o := HEADER_SIZE + n * SIGNATURE_ENTRY_SIZE;
    Pow256Values();
    BEOfBytes(data[1..5]);
    BodyBytesRoundTrip(data[o..]);
    SignaturesReencode(data, v.signatures);
    HeaderSplits(data, o);
  }

  lemma HeaderSplits(data: Bytes, o: nat)
    requires HEADER_SIZE <= o <= |data|
    ensures data == [data[0]] + data[1..5] + [data[5]] + data[HEADER_SIZE..o] + data[o..]
  {
  }

  // ----- Quorum -----

  /** `quorum`: the fixed-point formula, `None` where the 32-bit product overflows and the contract traps. */
  function Quorum(n: nat): Option<nat> {
    if n * 10 > U32_MAX then None else Some(n * 10 / 3 * 2 / 10 + 1)
  }

  /** The fixed-point formula is two thirds rounded down, plus one; it is reachable exactly by non-empty sets. */
  lemma QuorumIsTwoThirdsPlusOne(n: nat)
    requires n * 10 <= U32_MAX
    ensures Quorum(n) == Some(2 * n / 3 + 1)
    ensures Quorum(n).value <= n <==> n >= 1
    ensures 3 * Quorum(n).value > 2 * n
  {
    var k, m := n / 3, n % 3;
    assert n == 3 * k + m;
    assert n * 10 / 3 == 10 * k + m * 10 / 3;
  }

  // ----- Verification -----

  datatype StoredGuardianSet = StoredGuardianSet(keys: seq<Bytes20>, expirationTime: Option<nat>) {
    /** Usable at ledger time `now`. */
    predicate Usable(now: nat) {
      expirationTime.Some? ==> now < expirationTime.value
    }
  }

  /** One signature passes: its index is a member, and it recovers to that member's key. */
  ghost predicate Signs(host: Host, digest: Bytes32, keys: seq<Bytes20>, sig: GuardianSignature) {
    && sig.guardianIndex < |keys|
    && sig.recoveryId <= 3
    && var pk := host.recover(digest, sig.signature, sig.recoveryId);
      pk.Some? && host.keccak(pk.value[1..65])[12..32] == keys[sig.guardianIndex]
  }

  /** The guardian indices of a list of signatures. */
  ghost function Signers(ss: seq<GuardianSignature>): set<nat> {
    set i | 0 <= i < |ss| :: ss[i].guardianIndex
  }

  /** What a quorum certificate is: enough signatures over the body's digest, at pairwise
      different guardian indices, each recovering to the key stored at its index. */
  ghost predicate Certified(host: Host, keys: seq<Bytes20>, vaa: Vaa) {
    && |keys| * 10 <= U32_MAX
    && |vaa.signatures| >= 2 * |keys| / 3 + 1
    && (forall i, j :: 0 <= i < j < |vaa.signatures| ==>
          vaa.signatures[i].guardianIndex < vaa.signatures[j].guardianIndex)
    && (forall i :: 0 <= i < |vaa.signatures| ==>
          Signs(host, host.keccak(host.keccak(vaa.bodyBytes)), keys, vaa.signatures[i]))
  }

  /** The outcome of the signature loop from position `i`, `last` being the previous index. */
  function CheckSignatures(host: Host, digest: Bytes32, keys: seq<Bytes20>, ss: seq<GuardianSignature>,
                           i: nat, last: Option<nat>): Call<()>
    requires i <= |ss|
    decreases |ss| - i
  {
    if i == |ss| then Done(())
    else
      var sig := ss[i];
      if last.Some? && sig.guardianIndex <= last.value then Fail(DuplicateGuardianSignature)
      else if sig.guardianIndex >= |keys| then Fail(InvalidGuardianIndex)
      else if sig.recoveryId > 3 then Fail(InvalidRecoveryId)
      else
        match host.recover(digest, sig.signature, sig.recoveryId)
        case None => Trap
        case Some(pk) =>
          if host.EthAddress(pk) != keys[sig.guardianIndex] then Fail(GuardianSignatureMismatch)
          else CheckSignatures(host, digest, keys, ss, i + 1, Some(sig.guardianIndex))
  }

  function Verification(host: Host, stored: Option<StoredGuardianSet>, now: nat, vaa: Vaa): Call<()> {
    if stored.None? then Fail(GuardianSetNotFound)
    else if !stored.value.Usable(now) then Fail(GuardianSetExpired)
    else
      match Quorum(|stored.value.keys|)
      case None => Trap
      case Some(required) =>
        if |vaa.signatures| < required then Fail(NoQuorum)
        else CheckSignatures(host, host.Digest(vaa.bodyBytes), stored.value.keys, vaa.signatures, 0, None)
  }

  /** `verify_vaa`: one pass over the signatures, remembering only the last guardian index. */
  method VerifyVaa(host: Host, stored: Option<StoredGuardianSet>, now: nat, vaa: Vaa) returns (r: Call<()>)
    ensures r == Verification(host, stored, now, vaa)
  {
    if stored.None? {
      return Fail(GuardianSetNotFound);
    }
    if stored.value.expirationTime.Some? && now >= stored.value.expirationTime.value {
      return Fail(GuardianSetExpired);
    }
    var keys := stored.value.keys;
    var required := Quorum(|keys|);
    if required.None? {
      return Trap;
    }
    if |vaa.signatures| < required.value {
      return Fail(NoQuorum);
    }
    var digest := host.Digest(vaa.bodyBytes);
    var lastIndex: Option<nat> := None;
    var i := 0;
    while i < |vaa.signatures|
      invariant 0 <= i <= |vaa.signatures|
      invariant CheckSignatures(host, digest, keys, vaa.signatures, 0, None)
             == CheckSignatures(host, digest, keys, vaa.signatures, i, lastIndex)
    {
      var sig := vaa.signatures[i];
      var gi := sig.guardianIndex;
      if lastIndex.Some? && gi <= lastIndex.value {
        return Fail(DuplicateGuardianSignature);
      }
      lastIndex := Some(gi);
      if gi >= |keys| {
        return Fail(InvalidGuardianIndex);
      }
      if sig.recoveryId > 3 {
        return Fail(InvalidRecoveryId);
      }
      var pk := host.recover(digest, sig.signature, sig.recoveryId);
      if pk.None? {
        return Trap;
      }
      if host.EthAddress(pk.value) != keys[gi] {
        return Fail(GuardianSignatureMismatch);
      }
      i := i + 1;
    }
    return Done(());
  }

  lemma {:induction false} CheckedSignatures(host: Host, digest: Bytes32, keys: seq<Bytes20>,
                                             ss: seq<GuardianSignature>, i: nat, last: Option<nat>)
    requires i <= |ss|
    ensures CheckSignatures(host, digest, keys, ss, i, last).Done? <==>
            && (forall j :: i <= j < |ss| ==> Signs(host, digest, keys, ss[j]))
            && (forall j, k :: i <= j < k < |ss| ==> ss[j].guardianIndex < ss[k].guardianIndex)
            && (last.Some? ==> forall j :: i <= j < |ss| ==> last.value < ss[j].guardianIndex)
    decreases |ss| - i
  {
    if i < |ss| {
      CheckedSignatures(host, digest, keys, ss, i + 1, Some(ss[i].guardianIndex));
    }
  }

  /** The one-pass check with a remembered index accepts exactly the certified VAAs of a stored, unexpired set. */
  lemma VerifiedIffCertified(host: Host, stored: Option<StoredGuardianSet>, now: nat, vaa: Vaa)
    ensures Verification(host, stored, now, vaa).Done? <==>
            && stored.Some?
            && (stored.value.expirationTime.Some? ==> now < stored.value.expirationTime.value)
            && Certified(host, stored.value.keys, vaa)
  {
    if stored.Some? {
      var keys := stored.value.keys;
      if |keys| * 10 <= U32_MAX {
        QuorumIsTwoThirdsPlusOne(|keys|);
      }
      CheckedSignatures(host, host.Digest(vaa.bodyBytes), keys, vaa.signatures, 0, None);
    }
  }

  // ----- Quorum intersection -----

  lemma {:induction false} AscendingCount(ss: seq<GuardianSignature>)
    requires forall i, j :: 0 <= i < j < |ss| ==> ss[i].guardianIndex < ss[j].guardianIndex
    ensures |Signers(ss)| == |ss|
  {
    if ss == [] {
      assert Signers(ss) == {};
    } else {
      var n := |ss| - 1;
      AscendingCount(ss[..n]);
      assert Signers(ss) == Signers(ss[..n]) + {ss[n].guardianIndex};
    }
  }

  /** A certificate names exactly as many guardians as it carries signatures, all of them members. */
  lemma CertificateSigners(host: Host, keys: seq<Bytes20>, vaa: Vaa)
    requires Certified(host, keys, vaa)
    ensures |Signers(vaa.signatures)| == |vaa.signatures|
    ensures 2 * |keys| / 3 + 1 <= |Signers(vaa.signatures)| <= |keys|
    ensures forall g :: g in Signers(vaa.signatures) ==> g < |keys|
  {
    AscendingCount(vaa.signatures);
    SubsetSize(Signers(vaa.signatures), Below(|keys|));
  }

  /** Any two certificates of one guardian set share more than a third of its members. */
  lemma QuorumsIntersect(host: Host, keys: seq<Bytes20>, a: Vaa, b: Vaa)
    requires Certified(host, keys, a) && Certified(host, keys, b)
    ensures 3 * |Signers(a.signatures) * Signers(b.signatures)| > |keys|
  {
    var x, y := Signers(a.signatures), Signers(b.signatures);
    CertificateSigners(host, keys, a);
    CertificateSigners(host, keys, b);
    SubsetSize(x + y, Below(|keys|));
    assert |x + y| == |x| + |y| - |x * y|;
  }
}
