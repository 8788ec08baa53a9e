/** The four signature envelopes, the JSON message, and dispatch on the format magic (`message.rs`). */
module Messages {
  import opened Outcomes
  import opened Bytes
  import opened Codec

  const JSON_FORMAT_MAGIC := 3_302_625_434
  const EVM_FORMAT_MAGIC := 2_593_727_018
  const SOLANA_FORMAT_MAGIC := 2_182_742_457
  const LE_ECDSA_FORMAT_MAGIC := 1_296_547_300
  const LE_UNSIGNED_FORMAT_MAGIC := 1_499_680_012

  datatype EvmMessage = EvmMessage(payload: Bytes, signature: Bytes64, recoveryId: byte)
  datatype SolanaMessage = SolanaMessage(payload: Bytes, signature: Bytes64, publicKey: Bytes32)
  datatype LeEcdsaMessage = LeEcdsaMessage(payload: Bytes, signature: Bytes64, recoveryId: byte)
  datatype LeUnsignedMessage = LeUnsignedMessage(payload: Bytes)

  /** A message; `J` is the parsed JSON payload. */
  datatype Message<J> =
    | Evm(evm: EvmMessage) | Solana(solana: SolanaMessage)
    | LeEcdsa(leEcdsa: LeEcdsaMessage) | LeUnsigned(leUnsigned: LeUnsignedMessage)
    | Json(json: J)

  /** The JSON library, left abstract. */
  datatype JsonCodec<!J> = JsonCodec(toBytes: J -> Bytes, fromBytes: Bytes -> Option<J>)

  ghost predicate Faithful<J(!new)>(c: JsonCodec<J>) {
    forall j :: c.fromBytes(c.toBytes(j)) == Some(j)
  }

  // ----- The common envelope shape -----

  /** Magic, a fixed part (signature and key material), a 16-bit payload length, the payload.
      Writing fails when the length does not fit. */
  function EncodeEnvelope(magic: nat, fixed: Bytes, bo: ByteOrder, payload: Bytes): Result<Bytes> {
    if |payload| > U16_MAX then Err
    else Ok(ToLE(magic, 4) + fixed + Put(bo, |payload|, 2) + payload)
  }

  /** The fixed part and the payload of an envelope; bytes after the payload are not looked at. */
  function ReadEnvelope(magic: nat, fixedLen: nat, bo: ByteOrder, data: Bytes): (r: Parse<(Bytes, Bytes)>)
    ensures r.Parsed? ==> |r.value.0| == fixedLen
  {
    match ReadUint(LE, data, 0, 4)
    case Failed => Failed
    case Parsed(m, p) =>
      if m != magic then Failed
      else
        match ReadBytes(data, p, fixedLen)
        case Failed => Failed
        case Parsed(fixed, p) =>
          match ReadUint(bo, data, p, 2)
          case Failed => Failed
          case Parsed(n, p) =>
            match ReadBytes(data, p, n)
            case Failed => Failed
            case Parsed(payload, end) => Parsed((fixed, payload), end)
  }

  /** The writes of one `serialize`, in order. */
  method WriteEnvelope(magic: nat, fixed: Bytes, bo: ByteOrder, payload: Bytes) returns (r: Result<Bytes>)
    ensures r == EncodeEnvelope(magic, fixed, bo, payload)
  {
    var out := ToLE(magic, 4);
    out := out + fixed;
    if |payload| > U16_MAX {
      return Err;
    }
    out := out + Put(bo, |payload|, 2);
    out := out + payload;
    return Ok(out);
  }

  /** Reading an envelope back from wherever it starts a byte string. */
  lemma EnvelopeAt(magic: nat, fixed: Bytes, bo: ByteOrder, payload: Bytes, data: Bytes)
    requires magic < Pow256(4) && |payload| <= U16_MAX
    requires HasAt(data, 0, EncodeEnvelope(magic, fixed, bo, payload).value)
    ensures ReadEnvelope(magic, |fixed|, bo, data) ==
            Parsed((fixed, payload), |EncodeEnvelope(magic, fixed, bo, payload).value|)
  {
    var m, n := ToLE(magic, 4), Put(bo, |payload|, 2);
    HasBoth(data, 0, m + fixed + n, payload);
    HasBoth(data, 0, m + fixed, n);
    HasBoth(data, 0, m, fixed);
    UintAt(LE, data, 0, magic, 4);
    Pow256Values();
    UintAt(bo, data, 4 + |fixed|, |payload|, 2);
  }

  /** What the reader accepts is exactly the encoding of what it returns. */
  lemma EnvelopeOfRead(magic: nat, fixedLen: nat, bo: ByteOrder, data: Bytes)
    requires ReadEnvelope(magic, fixedLen, bo, data).Parsed?
    ensures var r := ReadEnvelope(magic, fixedLen, bo, data);
            && r.next <= |data|
            && EncodeEnvelope(magic, r.value.0, bo, r.value.1) == Ok(data[..r.next])
  {
    var r := ReadEnvelope(magic, fixedLen, bo, data);
    var o := 4 + fixedLen;
    PutGet(LE, data[0..4]);
    PutGet(bo, data[o..o + 2]);
    Pow256Values();
    SliceJoin(data, 0, 4, o);
    SliceJoin(data, 0, o, o + 2);
    SliceJoin(data, 0, o + 2, r.next);
    assert data[..r.next] == data[0..r.next];
  }

  // ----- The envelopes -----

  function EncodeEvm(m: EvmMessage): Result<Bytes> {
    EncodeEnvelope(EVM_FORMAT_MAGIC, m.signature + [m.recoveryId], BE, m.payload)
  }

  function DecodeEvm(data: Bytes): Result<EvmMessage> {
    match ReadEnvelope(EVM_FORMAT_MAGIC, 65, BE, data)
    case Failed => Err
    case Parsed((fixed, payload), _) => Ok(EvmMessage(payload, fixed[..64], fixed[64]))
  }

  function EncodeSolana(m: SolanaMessage): Result<Bytes> {
    EncodeEnvelope(SOLANA_FORMAT_MAGIC, m.signature + m.publicKey, LE, m.payload)
  }

  function DecodeSolana(data: Bytes): Result<SolanaMessage> {
    match ReadEnvelope(SOLANA_FORMAT_MAGIC, 96, LE, data)
    case Failed => Err
    case Parsed((fixed, payload), _) => Ok(SolanaMessage(payload, fixed[..64], fixed[64..]))
  }

  function EncodeLeEcdsa(m: LeEcdsaMessage): Result<Bytes> {
    EncodeEnvelope(LE_ECDSA_FORMAT_MAGIC, m.signature + [m.recoveryId], LE, m.payload)
  }

  function DecodeLeEcdsa(data: Bytes): Result<LeEcdsaMessage> {
    match ReadEnvelope(LE_ECDSA_FORMAT_MAGIC, 65, LE, data)
    case Failed => Err
    case Parsed((fixed, payload), _) => Ok(LeEcdsaMessage(payload, fixed[..64], fixed[64]))
  }

  function EncodeLeUnsigned(m: LeUnsignedMessage): Result<Bytes> {
    EncodeEnvelope(LE_UNSIGNED_FORMAT_MAGIC, [], LE, m.payload)
  }

  function DecodeLeUnsigned(data: Bytes): Result<LeUnsignedMessage> {
    match ReadEnvelope(LE_UNSIGNED_FORMAT_MAGIC, 0, LE, data)
    case Failed => Err
    case Parsed((_, payload), _) => Ok(LeUnsignedMessage(payload))
  }

  lemma EvmRoundTrip(m: EvmMessage, data: Bytes)
    requires EncodeEvm(m).Ok? && HasAt(data, 0, EncodeEvm(m).value)
    ensures DecodeEvm(data) == Ok(m)
  {
    Pow256Values();
    EnvelopeAt(EVM_FORMAT_MAGIC, m.signature + [m.recoveryId], BE, m.payload, data);
  }

  lemma SolanaRoundTrip(m: SolanaMessage, data: Bytes)
    requires EncodeSolana(m).Ok? && HasAt(data, 0, EncodeSolana(m).value)
    ensures DecodeSolana(data) == Ok(m)
  {
    Pow256Values();
    EnvelopeAt(SOLANA_FORMAT_MAGIC, m.signature + m.publicKey, LE, m.payload, data);
  }

  lemma LeEcdsaRoundTrip(m: LeEcdsaMessage, data: Bytes)
    requires EncodeLeEcdsa(m).Ok? && HasAt(data, 0, EncodeLeEcdsa(m).value)
    ensures DecodeLeEcdsa(data) == Ok(m)
  {
    Pow256Values();
    EnvelopeAt(LE_ECDSA_FORMAT_MAGIC, m.signature + [m.recoveryId], LE, m.payload, data);
  }

  lemma LeUnsignedRoundTrip(m: LeUnsignedMessage, data: Bytes)
    requires EncodeLeUnsigned(m).Ok? && HasAt(data, 0, EncodeLeUnsigned(m).value)
    ensures DecodeLeUnsigned(data) == Ok(m)
  {
    Pow256Values();
    EnvelopeAt(LE_UNSIGNED_FORMAT_MAGIC, [], LE, m.payload, data);
  }

  // ----- Dispatch -----

  function EncodeMessage<J>(c: JsonCodec<J>, m: Message<J>): Result<Bytes> {
    match m
    case Evm(e) => EncodeEvm(e)
    case Solana(s) => EncodeSolana(s)
    case LeEcdsa(e) => EncodeLeEcdsa(e)
    case LeUnsigned(u) => EncodeLeUnsigned(u)
    case Json(j) => Ok(ToLE(JSON_FORMAT_MAGIC, 4) + c.toBytes(j))
  }

  function Lift<A, B>(r: Result<A>, f: A -> B): Result<B> {
    match r case Err => Err case Ok(v) => Ok(f(v))
  }

  /** `Message::deserialize_slice` */
  function DecodeMessage<J>(c: JsonCodec<J>, data: Bytes): Result<Message<J>> {
    match ReadUint(LE, data, 0, 4)
    case Failed => Err
    case Parsed(magic, _) =>
      if magic == JSON_FORMAT_MAGIC then
        (match c.fromBytes(data[4..]) case None => Err case Some(j) => Ok(Json(j)))
      else if magic == EVM_FORMAT_MAGIC then Lift(DecodeEvm(data), (m: EvmMessage) => Evm(m))
      else if magic == SOLANA_FORMAT_MAGIC then Lift(DecodeSolana(data), (m: SolanaMessage) => Solana(m))
      else if magic == LE_ECDSA_FORMAT_MAGIC then Lift(DecodeLeEcdsa(data), (m: LeEcdsaMessage) => LeEcdsa(m))
      else if magic == LE_UNSIGNED_FORMAT_MAGIC then
        Lift(DecodeLeUnsigned(data), (m: LeUnsignedMessage) => LeUnsigned(m))
      else Err
  }

  lemma {:induction false} MagicOf(magic: nat, rest: Bytes)
    requires magic < Pow256(4)
    ensures ReadUint(LE, ToLE(magic, 4) + rest, 0, 4) == Parsed(magic, 4)
  {
    var data := ToLE(magic, 4) + rest;
    assert data[0..4] == ToLE(magic, 4);
    UintAt(LE, data, 0, magic, 4);
  }

  lemma EnvelopeMagic(magic: nat, fixed: Bytes, bo: ByteOrder, payload: Bytes)
    requires magic < Pow256(4) && |payload| <= U16_MAX
    ensures ReadUint(LE, EncodeEnvelope(magic, fixed, bo, payload).value, 0, 4) == Parsed(magic, 4)
  {
    var rest := fixed + Put(bo, |payload|, 2) + payload;
    assert EncodeEnvelope(magic, fixed, bo, payload).value == ToLE(magic, 4) + rest;
    MagicOf(magic, rest);
  }

  /** Every message that serializes is read back by dispatch on its magic. */
  lemma MessageRoundTrip<J(!new)>(c: JsonCodec<J>, m: Message<J>)
    requires Faithful(c) && EncodeMessage(c, m).Ok?
    ensures DecodeMessage(c, EncodeMessage(c, m).value) == Ok(m)
  {
    Pow256Values();
    var data := EncodeMessage(c, m).value;
    match m
    case Evm(e) =>
      EnvelopeMagic(EVM_FORMAT_MAGIC, e.signature + [e.recoveryId], BE, e.payload);
      EvmRoundTrip(e, data);
    case Solana(s) =>
      EnvelopeMagic(SOLANA_FORMAT_MAGIC, s.signature + s.publicKey, LE, s.payload);
      SolanaRoundTrip(s, data);
    case LeEcdsa(e) =>
      EnvelopeMagic(LE_ECDSA_FORMAT_MAGIC, e.signature + [e.recoveryId], LE, e.payload);
      LeEcdsaRoundTrip(e, data);
    case LeUnsigned(u) =>
      EnvelopeMagic(LE_UNSIGNED_FORMAT_MAGIC, [], LE, u.payload);
      LeUnsignedRoundTrip(u, data);
    case Json(j) =>
      MagicOf(JSON_FORMAT_MAGIC, c.toBytes(j));
      assert data[4..] == c.toBytes(j);
  }

  /** `Message::serialize` on an empty writer: what is written is read back as the message, and writing fails exactly
      when an envelope's payload is too long for its 16-bit length. */
  method Serialize<J(!new)>(c: JsonCodec<J>, m: Message<J>) returns (r: Result<Bytes>)
    ensures r == EncodeMessage(c, m)
    ensures r.Err? <==> match m
                        case Evm(e) => |e.payload| > U16_MAX
                        case Solana(s) => |s.payload| > U16_MAX
                        case LeEcdsa(e) => |e.payload| > U16_MAX
                        case LeUnsigned(u) => |u.payload| > U16_MAX
                        case Json(_) => false
    ensures r.Ok? && Faithful(c) ==> DecodeMessage(c, r.value) == Ok(m)
  {
    match m {
      case Evm(e) =>
        r := WriteEnvelope(EVM_FORMAT_MAGIC, e.signature + [e.recoveryId], BE, e.payload);
      case Solana(s) =>
        r := WriteEnvelope(SOLANA_FORMAT_MAGIC, s.signature + s.publicKey, LE, s.payload);
      case LeEcdsa(e) =>
        r := WriteEnvelope(LE_ECDSA_FORMAT_MAGIC, e.signature + [e.recoveryId], LE, e.payload);
      case LeUnsigned(u) =>
        r := WriteEnvelope(LE_UNSIGNED_FORMAT_MAGIC, [], LE, u.payload);
      case Json(j) =>
        r := Ok(ToLE(JSON_FORMAT_MAGIC, 4) + c.toBytes(j));
    }
    if r.Ok? && Faithful(c) {
      MessageRoundTrip(c, m);
    }
  }

  lemma {:induction false} MagicIs(magic: nat, a: byte, b: byte, c: byte, d: byte)
    requires magic == a + 0x100 * At([b], 0) + 0x1_0000 * At([c], 0) + 0x100_0000 * At([d], 0)
    ensures ToLE(magic, 4) == [a, b, c, d]
  {
    FromLE4([a, b, c, d]);
    LEOfBytes([a, b, c, d]);
  }

  /** The first four bytes of each kind of message on the wire. */
  lemma FirstBytes<J>(codec: JsonCodec<J>, m: Message<J>)
    requires EncodeMessage(codec, m).Ok?
    ensures EncodeMessage(codec, m).value[..4] ==
            match m
            case Json(_) => [0x9A, 0x10, 0xDA, 0xC4]
            case Evm(_) => [0x2A, 0x22, 0x99, 0x9A]
            case Solana(_) => [0xB9, 0x01, 0x1A, 0x82]
            case LeEcdsa(_) => [0xE4, 0xBD, 0x47, 0x4D]
            case LeUnsigned(_) => [0x0C, 0x4D, 0x63, 0x59]
  {
    MagicIs(JSON_FORMAT_MAGIC, 0x9A, 0x10, 0xDA, 0xC4);
    MagicIs(EVM_FORMAT_MAGIC, 0x2A, 0x22, 0x99, 0x9A);
    MagicIs(SOLANA_FORMAT_MAGIC, 0xB9, 0x01, 0x1A, 0x82);
    MagicIs(LE_ECDSA_FORMAT_MAGIC, 0xE4, 0xBD, 0x47, 0x4D);
    MagicIs(LE_UNSIGNED_FORMAT_MAGIC, 0x0C, 0x4D, 0x63, 0x59);
    match m
    case Json(j) =>
    case Evm(e) => FirstFour(EVM_FORMAT_MAGIC, e.signature + [e.recoveryId], BE, e.payload);
    case Solana(s) => FirstFour(SOLANA_FORMAT_MAGIC, s.signature + s.publicKey, LE, s.payload);
    case LeEcdsa(e) => FirstFour(LE_ECDSA_FORMAT_MAGIC, e.signature + [e.recoveryId], LE, e.payload);
    case LeUnsigned(u) => FirstFour(LE_UNSIGNED_FORMAT_MAGIC, [], LE, u.payload);
  }

  lemma {:induction false} FirstFour(magic: nat, fixed: Bytes, bo: ByteOrder, payload: Bytes)
    requires |payload| <= U16_MAX
    ensures EncodeEnvelope(magic, fixed, bo, payload).value[..4] == ToLE(magic, 4)
  {
  }
}
