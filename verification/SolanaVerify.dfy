/** Verification of a signed message inside a Solana transaction, by pinning down which bytes the
    built-in ed25519 program checked (`signature.rs`). */
module SolanaVerify {
  import opened Outcomes
  import opened Bytes
  import opened Codec
  import opened Messages
  import opened SolanaTable

  const ED25519_PROGRAM_INPUT_HEADER_LEN := 2
  const OFFSETS_LEN := 14
  const SIGNATURE_LEN := 64
  const PUBKEY_LEN := 32
  const MAGIC_LEN := 4
  const MESSAGE_SIZE_LEN := 2

  datatype Instruction = Instruction(programId: Bytes32, data: Bytes)

  /** A transaction, the index of the running instruction, and the id of the ed25519 program. */
  datatype Transaction = Transaction(instructions: seq<Instruction>, current: nat, ed25519: Bytes32)

  /** Where one signature check finds its inputs. */
  datatype Offsets = Offsets(
    signatureOffset: nat, signatureInstruction: nat, publicKeyOffset: nat, publicKeyInstruction: nat,
    messageOffset: nat, messageSize: nat, messageInstruction: nat)

  datatype VerifiedMessage = VerifiedMessage(publicKey: Bytes32, payload: Bytes)

  datatype VerifyError =
    | Ed25519InstructionMustPrecedeCurrentInstruction | LoadInstructionAtFailed
    | InvalidEd25519InstructionProgramId | InvalidEd25519InstructionDataLength | InvalidSignatureIndex
    | MessageOffsetOverflow | InvalidMessageOffset | InvalidMessageData | FormatMagicMismatch
    | InvalidPublicKeyOffset | InvalidMessageDataSize | InvalidInstructionIndex | NotTrustedSigner

  // ----- The ed25519 program's input -----

  ghost predicate OffsetsFit(o: Offsets) {
    && o.signatureOffset <= U16_MAX && o.signatureInstruction <= U16_MAX && o.publicKeyOffset <= U16_MAX
    && o.publicKeyInstruction <= U16_MAX && o.messageOffset <= U16_MAX && o.messageSize <= U16_MAX
    && o.messageInstruction <= U16_MAX
  }

  function EncodeOffsets(o: Offsets): (r: Bytes)
    ensures |r| == OFFSETS_LEN
  {
    ToLE(o.signatureOffset, 2) + ToLE(o.signatureInstruction, 2) + ToLE(o.publicKeyOffset, 2)
    + ToLE(o.publicKeyInstruction, 2) + ToLE(o.messageOffset, 2) + ToLE(o.messageSize, 2)
    + ToLE(o.messageInstruction, 2)
  }

  function DecodeOffsets(b: Bytes): (o: Offsets)
    requires |b| == OFFSETS_LEN
  {
    Offsets(FromLE(b[0..2]), FromLE(b[2..4]), FromLE(b[4..6]), FromLE(b[6..8]), FromLE(b[8..10]),
            FromLE(b[10..12]), FromLE(b[12..14]))
  }

  /** Entry `k` of the ed25519 program's input. */
  function EntryAt(data: Bytes, k: nat): Offsets
    requires ED25519_PROGRAM_INPUT_HEADER_LEN + (k + 1) * OFFSETS_LEN <= |data|
  {
    var p := ED25519_PROGRAM_INPUT_HEADER_LEN + k * OFFSETS_LEN;
    DecodeOffsets(data[p..p + OFFSETS_LEN])
  }

  function Entries(entries: seq<Offsets>): (r: Bytes)
    ensures |r| == OFFSETS_LEN * |entries|
  {
    if entries == [] then [] else Entries(entries[..|entries| - 1]) + EncodeOffsets(entries[|entries| - 1])
  }

  /** `ed25519_program_args` as a whole; more than 255 entries panic. */
  function ProgramArgs(entries: seq<Offsets>): Result<Bytes> {
    if |entries| > 255 then Err else Ok([|entries|, 0] + Entries(entries))
  }

  method BuildProgramArgs(entries: seq<Offsets>) returns (r: Result<Bytes>)
    ensures r == ProgramArgs(entries)
  {
    if |entries| > 255 {
      return Err;
    }
    var args: Bytes := [|entries|, 0];
    var i := 0;
    while i < |entries|
      invariant 0 <= i <= |entries|
      invariant args == [|entries|, 0] + Entries(entries[..i])
    {
      assert entries[..i + 1][..i] == entries[..i];
      ConcatAssoc([|entries|, 0], Entries(entries[..i]), EncodeOffsets(entries[i]));
      args := args + EncodeOffsets(entries[i]);
      i := i + 1;
    }
    assert entries[..i] == entries;
    return Ok(args);
  }

  /** `Ed25519SignatureOffsets::new`; `None` where 16-bit arithmetic overflows or the message is too short. */
  function NewOffsets(message: Bytes, instruction: nat, start: nat): Option<Offsets> {
    var signature := start + MAGIC_LEN;
    var publicKey := signature + SIGNATURE_LEN;
    var size := publicKey + PUBKEY_LEN;
    var data := size + MESSAGE_SIZE_LEN;
    if data > U16_MAX || |message| < data - start then None
    else
      var messageSize := FromLE(message[size - start..data - start]);
      Some(Offsets(signature, instruction, publicKey, instruction, data, messageSize, instruction))
  }

  // ----- verify_message -----

  /** The checks on the ed25519 instruction, up to the selected entry. */
  function SelectEntry(tx: Transaction, edIndex: nat, sigIndex: nat): Outcome<Offsets, VerifyError> {
    if edIndex >= tx.current then Fail(Ed25519InstructionMustPrecedeCurrentInstruction)
    else if edIndex >= |tx.instructions| then Fail(LoadInstructionAtFailed)
    else
      var ix := tx.instructions[edIndex];
      if ix.programId != tx.ed25519 then Fail(InvalidEd25519InstructionProgramId)
      else if |ix.data| < ED25519_PROGRAM_INPUT_HEADER_LEN then Fail(InvalidEd25519InstructionDataLength)
      else if sigIndex >= ix.data[0] then Fail(InvalidSignatureIndex)
      else if (|ix.data| - ED25519_PROGRAM_INPUT_HEADER_LEN) % OFFSETS_LEN != 0 then
        Fail(InvalidEd25519InstructionDataLength)
      else
        var count := (|ix.data| - ED25519_PROGRAM_INPUT_HEADER_LEN) / OFFSETS_LEN;
        if count > 255 then Fail(InvalidEd25519InstructionDataLength)
        else if sigIndex >= count then Fail(InvalidSignatureIndex)
        else Done(EntryAt(ix.data, sigIndex))
  }

  /** The checks that tie the entry to the message; offsets are 16-bit and checked for overflow. */
  function CheckMessage(tx: Transaction, o: Offsets, message: Bytes): Outcome<(), VerifyError> {
    if o.signatureOffset < MAGIC_LEN then Fail(MessageOffsetOverflow)
    else if tx.current >= |tx.instructions| then Fail(LoadInstructionAtFailed)
    else
      var data, start := tx.instructions[tx.current].data, o.signatureOffset - MAGIC_LEN;
      var end := o.messageOffset + o.messageSize;
      if end > U16_MAX then Fail(MessageOffsetOverflow)
      else if start > end || end > |data| then Fail(InvalidMessageOffset)
      else if data[start..end] != message then Fail(InvalidMessageData)
      else if |message| < MAGIC_LEN then Trap
      else if FromLE(message[..MAGIC_LEN]) != SOLANA_FORMAT_MAGIC then Fail(FormatMagicMismatch)
      else
        var publicKey := o.signatureOffset + SIGNATURE_LEN;
        if publicKey > U16_MAX then Fail(MessageOffsetOverflow)
        else if o.publicKeyOffset != publicKey then Fail(InvalidPublicKeyOffset)
        else if publicKey + PUBKEY_LEN > U16_MAX then Fail(MessageOffsetOverflow)
        else if publicKey + PUBKEY_LEN + MESSAGE_SIZE_LEN > U16_MAX then Fail(MessageOffsetOverflow)
        else if o.messageOffset != publicKey + PUBKEY_LEN + MESSAGE_SIZE_LEN then Fail(InvalidMessageOffset)
        else if |message| < 102 then Trap
        else if o.messageSize != FromLE(message[100..102]) then Fail(InvalidMessageDataSize)
        else if o.signatureInstruction != tx.current || o.publicKeyInstruction != tx.current
                || o.messageInstruction != tx.current then Fail(InvalidInstructionIndex)
        else Done(())
  }

  /** `verify_message`; a slice out of range is a failed transaction (`Trap`). */
  ghost function VerifyMessage(tx: Transaction, storage: Table<Bytes32>, now: int, message: Bytes, edIndex: nat,
                               sigIndex: nat)
    : Outcome<VerifiedMessage, VerifyError>
    requires storage.num <= |storage.items|
  {
    match SelectEntry(tx, edIndex, sigIndex)
    case Fail(e) => Fail(e)
    case Trap => Trap
    case Done(o) =>
      match CheckMessage(tx, o, message)
      case Fail(e) => Fail(e)
      case Trap => Trap
      case Done(_) =>
        if |message| < 100 then Trap
        else if !storage.IsTrusted(message[68..100], now) then Fail(NotTrustedSigner)
        else if |message| < 102 + o.messageSize then Trap
        else Done(VerifiedMessage(message[68..100], message[102..102 + o.messageSize]))
  }

  // ----- What the ed25519 program guarantees -----

  /** The bytes an entry names; index 65535 stands for the ed25519 instruction itself. */
  ghost function Named(tx: Transaction, own: nat, instruction: nat, offset: nat, size: nat): Option<Bytes>
    requires own < |tx.instructions|
  {
    var i := if instruction == U16_MAX then own else instruction;
    if i < |tx.instructions| && offset + size <= |tx.instructions[i].data|
    then Some(tx.instructions[i].data[offset..offset + size]) else None
  }

  /** The ed25519 program accepted instruction `own`: every entry it announces names bytes that verify. */
  ghost predicate Checked(tx: Transaction, verify: (Bytes, Bytes, Bytes) -> bool, own: nat) {
    && own < |tx.instructions|
    && var data := tx.instructions[own].data;
    && |data| >= ED25519_PROGRAM_INPUT_HEADER_LEN
    && forall k: nat :: k < data[0] && ED25519_PROGRAM_INPUT_HEADER_LEN + (k + 1) * OFFSETS_LEN <= |data| ==>
         var o := EntryAt(data, k);
         var s := Named(tx, own, o.signatureInstruction, o.signatureOffset, SIGNATURE_LEN);
         var p := Named(tx, own, o.publicKeyInstruction, o.publicKeyOffset, PUBKEY_LEN);
         var m := Named(tx, own, o.messageInstruction, o.messageOffset, o.messageSize);
         s.Some? && p.Some? && m.Some? && verify(p.value, m.value, s.value)
  }

  // ----- Soundness -----

  /** An entry that passes the checks names exactly the fields of the message, in the running instruction. */
  lemma CheckedMessageLayout(tx: Transaction, o: Offsets, message: Bytes)
    requires CheckMessage(tx, o, message).Done?
    ensures tx.current < |tx.instructions| && |message| == 102 + o.messageSize
    ensures var data := tx.instructions[tx.current].data;
            && o.messageOffset + o.messageSize <= |data|
            && o.signatureInstruction == o.publicKeyInstruction == o.messageInstruction == tx.current
            && data[o.signatureOffset..o.signatureOffset + 64] == message[4..68]
            && data[o.publicKeyOffset..o.publicKeyOffset + 32] == message[68..100]
            && data[o.messageOffset..o.messageOffset + o.messageSize] == message[102..]
  {
    var data, start := tx.instructions[tx.current].data, o.signatureOffset - MAGIC_LEN;
    var end := o.messageOffset + o.messageSize;
    SliceOfSlice(data, start, end, 4, 68);
    SliceOfSlice(data, start, end, 68, 100);
    SliceOfSlice(data, start, end, 102, end - start);
  }

  /** What the ed25519 program checked for the selected entry are the fields of the message. */
  lemma CheckedSignature(tx: Transaction, o: Offsets, message: Bytes, edIndex: nat, sigIndex: nat,
                         verify: (Bytes, Bytes, Bytes) -> bool)
    requires |tx.instructions| < U16_MAX && SelectEntry(tx, edIndex, sigIndex) == Done(o)
    requires CheckMessage(tx, o, message).Done? && Checked(tx, verify, edIndex)
    ensures |message| >= 102 && verify(message[68..100], message[102..], message[4..68])
  {
    CheckedMessageLayout(tx, o, message);
    assert o == EntryAt(tx.instructions[edIndex].data, sigIndex);
  }

  lemma MessageIsEnvelope(message: Bytes)
    requires |message| >= 102 && FromLE(message[..4]) == SOLANA_FORMAT_MAGIC
    requires |message| == 102 + FromLE(message[100..102])
    ensures EncodeSolana(SolanaMessage(message[102..], message[4..68], message[68..100])) == Ok(message)
  {
    LEOfBytes(message[..4]);
    LEOfBytes(message[100..102]);
    Pow256Values();
    assert message == message[..4] + (message[4..68] + message[68..100]) + message[100..102] + message[102..];
  }

  /** Soundness: a verified message is exactly one serialized Solana envelope, deserialization gives the same key and
      payload, the key was trusted, and what the ed25519 program checked was this signature, by this key, over
      this payload. */
  lemma VerifyIsSound(tx: Transaction, storage: Table<Bytes32>, now: int, message: Bytes, edIndex: nat, sigIndex: nat,
                      verify: (Bytes, Bytes, Bytes) -> bool)
    requires storage.num <= |storage.items| && |tx.instructions| < U16_MAX
    requires VerifyMessage(tx, storage, now, message, edIndex, sigIndex).Done?
    requires Checked(tx, verify, edIndex)
    ensures |message| >= 102
    ensures var vm := VerifyMessage(tx, storage, now, message, edIndex, sigIndex).value;
            var envelope := SolanaMessage(vm.payload, message[4..68], vm.publicKey);
            && EncodeSolana(envelope) == Ok(message)
            && DecodeSolana(message) == Ok(envelope)
            && storage.IsTrusted(vm.publicKey, now)
            && edIndex < tx.current && tx.instructions[edIndex].programId == tx.ed25519
            && verify(vm.publicKey, vm.payload, message[4..68])
  {
    var o := SelectEntry(tx, edIndex, sigIndex).value;
    CheckedMessageLayout(tx, o, message);
    CheckedSignature(tx, o, message, edIndex, sigIndex, verify);
    MessageIsEnvelope(message);
    assert message[102..102 + o.messageSize] == message[102..];
    var envelope := SolanaMessage(message[102..], message[4..68], message[68..100]);
    SolanaRoundTrip(envelope, message);
  }

  // ----- Completeness -----

  /** A 16-bit word that stands at `pos` is read from there. */
  lemma {:induction false} WordAt(data: Bytes, pos: nat, n: nat)
    requires n <= U16_MAX && HasAt(data, pos, ToLE(n, 2))
    ensures FromLE(data[pos..pos + 2]) == n
  {
    Pow256Values();
    LEOfValue(n, 2);
  }

  /** Four words and three words, each where it is read from. */
  lemma {:induction false} FourWords(data: Bytes, pos: nat, a: nat, b: nat, c: nat, d: nat)
    requires a <= U16_MAX && b <= U16_MAX && c <= U16_MAX && d <= U16_MAX
    requires HasAt(data, pos, ToLE(a, 2) + ToLE(b, 2) + ToLE(c, 2) + ToLE(d, 2))
    ensures FromLE(data[pos..pos + 2]) == a && FromLE(data[pos + 2..pos + 4]) == b
    ensures FromLE(data[pos + 4..pos + 6]) == c && FromLE(data[pos + 6..pos + 8]) == d
  {
    HasBoth(data, pos, ToLE(a, 2) + ToLE(b, 2) + ToLE(c, 2), ToLE(d, 2));
    ThreeWords(data, pos, a, b, c);
    WordAt(data, pos + 6, d);
  }

  lemma {:induction false} ThreeWords(data: Bytes, pos: nat, a: nat, b: nat, c: nat)
    requires a <= U16_MAX && b <= U16_MAX && c <= U16_MAX
    requires HasAt(data, pos, ToLE(a, 2) + ToLE(b, 2) + ToLE(c, 2))
    ensures FromLE(data[pos..pos + 2]) == a && FromLE(data[pos + 2..pos + 4]) == b
    ensures FromLE(data[pos + 4..pos + 6]) == c
  {
    HasBoth(data, pos, ToLE(a, 2) + ToLE(b, 2), ToLE(c, 2));
    HasBoth(data, pos, ToLE(a, 2), ToLE(b, 2));
    WordAt(data, pos, a);
    WordAt(data, pos + 2, b);
    WordAt(data, pos + 4, c);
  }

  lemma OffsetsRoundTrip(o: Offsets)
    requires OffsetsFit(o)
    ensures DecodeOffsets(EncodeOffsets(o)) == o
  {
    var four := ToLE(o.signatureOffset, 2) + ToLE(o.signatureInstruction, 2) + ToLE(o.publicKeyOffset, 2)
                + ToLE(o.publicKeyInstruction, 2);
    var three := ToLE(o.messageOffset, 2) + ToLE(o.messageSize, 2) + ToLE(o.messageInstruction, 2);
    var e := EncodeOffsets(o);
    assert e == four + three && HasAt(e, 0, four + three);
    HasBoth(e, 0, four, three);
    FourWords(e, 0, o.signatureOffset, o.signatureInstruction, o.publicKeyOffset, o.publicKeyInstruction);
    ThreeWords(e, 8, o.messageOffset, o.messageSize, o.messageInstruction);
  }

  lemma {:induction false} EntryEncoded(entries: seq<Offsets>, k: nat)
    requires k < |entries|
    ensures |Entries(entries)| == OFFSETS_LEN * |entries|
    ensures Entries(entries)[OFFSETS_LEN * k..OFFSETS_LEN * k + OFFSETS_LEN] == EncodeOffsets(entries[k])
  {
    var n := |entries| - 1;
    if k < n {
      EntryEncoded(entries[..n], k);
      var a := Entries(entries[..n]);
      assert (a + EncodeOffsets(entries[n]))[OFFSETS_LEN * k..OFFSETS_LEN * k + OFFSETS_LEN]
          == a[OFFSETS_LEN * k..OFFSETS_LEN * k + OFFSETS_LEN];
    }
  }

  /** The entries put into the ed25519 program's input are the entries read from it. */
  lemma ArgsHoldEntries(entries: seq<Offsets>, k: nat)
    requires k < |entries| <= 255 && OffsetsFit(entries[k])
    ensures EntryAt(ProgramArgs(entries).value, k) == entries[k]
  {
    EntryEncoded(entries, k);
    OffsetsRoundTrip(entries[k]);
    var args, p := ProgramArgs(entries).value, 2 + k * OFFSETS_LEN;
    SliceInside([|entries|, 0], Entries(entries), [], OFFSETS_LEN * k, OFFSETS_LEN * k + OFFSETS_LEN);
    assert args == [|entries|, 0] + (Entries(entries) + []);
    assert args[p..p + OFFSETS_LEN] == EncodeOffsets(entries[k]);
  }

  lemma EnvelopeFields(m: SolanaMessage)
    requires EncodeSolana(m).Ok?
    ensures var message := EncodeSolana(m).value;
            && |message| == 102 + |m.payload|
            && FromLE(message[..4]) == SOLANA_FORMAT_MAGIC && message[4..68] == m.signature
            && message[68..100] == m.publicKey && FromLE(message[100..102]) == |m.payload|
            && message[102..] == m.payload
  {
    var message := EncodeSolana(m).value;
    var a, n := ToLE(SOLANA_FORMAT_MAGIC, 4), ToLE(|m.payload|, 2);
    assert message == a + m.signature + m.publicKey + n + m.payload;
    assert message[..4] == a && message[4..68] == m.signature && message[68..100] == m.publicKey;
    assert message[100..102] == n && message[102..] == m.payload;
    Pow256Values();
    LEOfValue(SOLANA_FORMAT_MAGIC, 4);
    LEOfValue(|m.payload|, 2);
  }

  /** Completeness, exactly: an honestly built transaction for a serialized message of a trusted, unexpired key is
      accepted if and only if the message ends within the 16-bit offset range. */
  lemma VerifyIsComplete(tx: Transaction, storage: Table<Bytes32>, now: int, m: SolanaMessage, start: nat,
                         entries: seq<Offsets>, edIndex: nat, sigIndex: nat)
    requires storage.num <= |storage.items| && storage.IsTrusted(m.publicKey, now)
    requires EncodeSolana(m).Ok? && edIndex < tx.current < |tx.instructions| < U16_MAX
    requires HasAt(tx.instructions[tx.current].data, start, EncodeSolana(m).value)
    requires NewOffsets(EncodeSolana(m).value, tx.current, start).Some?
    requires sigIndex < |entries| <= 255
    requires entries[sigIndex] == NewOffsets(EncodeSolana(m).value, tx.current, start).value
    requires tx.instructions[edIndex] == Instruction(tx.ed25519, ProgramArgs(entries).value)
    ensures VerifyMessage(tx, storage, now, EncodeSolana(m).value, edIndex, sigIndex) ==
            if start + |EncodeSolana(m).value| <= U16_MAX then Done(VerifiedMessage(m.publicKey, m.payload))
            else Fail(MessageOffsetOverflow)
  {
    var message, o := EncodeSolana(m).value, entries[sigIndex];
    EnvelopeFields(m);
    assert message[100..102] == message[100 + start - start..102 + start - start];
    assert o == Offsets(start + 4, tx.current, start + 68, tx.current, start + 102, |m.payload|, tx.current);
    ArgsHoldEntries(entries, sigIndex);
    var args := tx.instructions[edIndex].data;
    assert |args| == 2 + OFFSETS_LEN * |entries|;
    assert SelectEntry(tx, edIndex, sigIndex) == Done(o);
    assert message[102..102 + |m.payload|] == m.payload;
  }

  // ----- Exactly what is accepted -----

  lemma OffsetsOfBytes(b: Bytes)
    requires |b| == OFFSETS_LEN
    ensures OffsetsFit(DecodeOffsets(b)) && EncodeOffsets(DecodeOffsets(b)) == b
  {
    Pow256Values();
    LEOfBytes(b[0..2]);
    LEOfBytes(b[2..4]);
    LEOfBytes(b[4..6]);
    LEOfBytes(b[6..8]);
    LEOfBytes(b[8..10]);
    LEOfBytes(b[10..12]);
    LEOfBytes(b[12..14]);
    SevenWords(b);
  }

  lemma SevenWords(b: Bytes)
    requires |b| == OFFSETS_LEN
    ensures b == b[0..2] + b[2..4] + b[4..6] + b[6..8] + b[8..10] + b[10..12] + b[12..14]
  {
  }

  ghost predicate AllFit(entries: seq<Offsets>) {
    forall i :: 0 <= i < |entries| ==> OffsetsFit(entries[i])
  }

  lemma {:induction false} EntriesSnoc(init: seq<Offsets>, last: Offsets)
    ensures Entries(init + [last]) == Entries(init) + EncodeOffsets(last)
    ensures AllFit(init) && OffsetsFit(last) ==> AllFit(init + [last])
  {
    assert (init + [last])[..|init|] == init;
  }

  /** Any bytes of the right length are a list of entries. */
  lemma {:induction false} EntriesOfBytes(b: Bytes, n: nat) returns (entries: seq<Offsets>)
    requires |b| == OFFSETS_LEN * n
    ensures |entries| == n && AllFit(entries) && Entries(entries) == b
    decreases n
  {
    if n == 0 {
      entries := [];
    } else {
      var k := OFFSETS_LEN * (n - 1);
      var init := EntriesOfBytes(b[..k], n - 1);
      OffsetsOfBytes(b[k..]);
      entries := init + [DecodeOffsets(b[k..])];
      EntriesSnoc(init, DecodeOffsets(b[k..]));
      assert b[..k] + b[k..] == b;
    }
  }

  /** `data` is an ed25519 input that lists `entries` and announces more than `sigIndex` signatures; the announced
      number and the padding byte are otherwise free. */
  ghost predicate Lists(data: Bytes, entries: seq<Offsets>, sigIndex: nat) {
    && |data| >= ED25519_PROGRAM_INPUT_HEADER_LEN && data[ED25519_PROGRAM_INPUT_HEADER_LEN..] == Entries(entries)
    && AllFit(entries) && sigIndex < |entries| <= 255 && sigIndex < data[0]
  }

  lemma ListedEntry(data: Bytes, entries: seq<Offsets>, k: nat)
    requires Lists(data, entries, k)
    ensures |data| == ED25519_PROGRAM_INPUT_HEADER_LEN + OFFSETS_LEN * |entries| && EntryAt(data, k) == entries[k]
  {
    EntryEncoded(entries, k);
    OffsetsRoundTrip(entries[k]);
    var p := ED25519_PROGRAM_INPUT_HEADER_LEN + k * OFFSETS_LEN;
    SliceOfSlice(data, ED25519_PROGRAM_INPUT_HEADER_LEN, |data|, OFFSETS_LEN * k, OFFSETS_LEN * k + OFFSETS_LEN);
    assert data[p..p + OFFSETS_LEN] == EncodeOffsets(entries[k]);
  }

  /** An ed25519 instruction before the running one lists `entries`. */
  ghost predicate Precedes(tx: Transaction, edIndex: nat, entries: seq<Offsets>, sigIndex: nat) {
    && edIndex < tx.current && edIndex < |tx.instructions| && tx.instructions[edIndex].programId == tx.ed25519
    && Lists(tx.instructions[edIndex].data, entries, sigIndex)
  }

  lemma SelectedIsListed(tx: Transaction, edIndex: nat, sigIndex: nat, o: Offsets) returns (entries: seq<Offsets>)
    requires SelectEntry(tx, edIndex, sigIndex) == Done(o)
    ensures Precedes(tx, edIndex, entries, sigIndex) && entries[sigIndex] == o
  {
    var data := tx.instructions[edIndex].data;
    var n := (|data| - ED25519_PROGRAM_INPUT_HEADER_LEN) / OFFSETS_LEN;
    entries := EntriesOfBytes(data[ED25519_PROGRAM_INPUT_HEADER_LEN..], n);
    ListedEntry(data, entries, sigIndex);
  }

  lemma ListedIsSelected(tx: Transaction, edIndex: nat, sigIndex: nat, entries: seq<Offsets>)
    requires Precedes(tx, edIndex, entries, sigIndex)
    ensures SelectEntry(tx, edIndex, sigIndex) == Done(entries[sigIndex])
  {
    ListedEntry(tx.instructions[edIndex].data, entries, sigIndex);
  }

  lemma SelectIffListed(tx: Transaction, edIndex: nat, sigIndex: nat, o: Offsets)
    ensures SelectEntry(tx, edIndex, sigIndex) == Done(o) <==>
            exists entries :: Precedes(tx, edIndex, entries, sigIndex) && entries[sigIndex] == o
  {
    if SelectEntry(tx, edIndex, sigIndex) == Done(o) {
      var entries := SelectedIsListed(tx, edIndex, sigIndex, o);
    }
    if entries :| Precedes(tx, edIndex, entries, sigIndex) && entries[sigIndex] == o {
      ListedIsSelected(tx, edIndex, sigIndex, entries);
    }
  }

  /** `message` is the envelope of `m` and stands at `start` in the running instruction, ending within the 16-bit
      range. */
  ghost predicate Stands(tx: Transaction, m: SolanaMessage, message: Bytes, start: nat) {
    && EncodeSolana(m) == Ok(message)
    && tx.current < |tx.instructions| && HasAt(tx.instructions[tx.current].data, start, message)
    && start + |message| <= U16_MAX
  }

  lemma BuiltOffsets(m: SolanaMessage, message: Bytes, instruction: nat, start: nat)
    requires EncodeSolana(m) == Ok(message) && start + |message| <= U16_MAX
    ensures NewOffsets(message, instruction, start) ==
            Some(Offsets(start + 4, instruction, start + 68, instruction, start + 102, |m.payload|, instruction))
  {
    EnvelopeFields(m);
  }

  /** What the checks say about an entry and its message. */
  lemma CheckedOffsets(tx: Transaction, o: Offsets, message: Bytes)
    requires CheckMessage(tx, o, message).Done?
    ensures tx.current < |tx.instructions| && |message| == 102 + o.messageSize
    ensures o.signatureOffset >= 4 && o.signatureOffset - 4 + |message| <= U16_MAX
    ensures HasAt(tx.instructions[tx.current].data, o.signatureOffset - 4, message)
    ensures FromLE(message[..4]) == SOLANA_FORMAT_MAGIC && FromLE(message[100..102]) == o.messageSize
    ensures var start := o.signatureOffset - 4;
            o == Offsets(start + 4, tx.current, start + 68, tx.current, start + 102, o.messageSize, tx.current)
  {
  }

  lemma CheckedStands(tx: Transaction, o: Offsets, message: Bytes) returns (m: SolanaMessage, start: nat)
    requires CheckMessage(tx, o, message).Done?
    ensures Stands(tx, m, message, start) && NewOffsets(message, tx.current, start) == Some(o)
  {
    CheckedOffsets(tx, o, message);
    MessageIsEnvelope(message);
    m, start := SolanaMessage(message[102..], message[4..68], message[68..100]), o.signatureOffset - MAGIC_LEN;
    BuiltOffsets(m, message, tx.current, start);
  }

  lemma StandsIsChecked(tx: Transaction, o: Offsets, m: SolanaMessage, message: Bytes, start: nat)
    requires Stands(tx, m, message, start) && NewOffsets(message, tx.current, start) == Some(o)
    ensures CheckMessage(tx, o, message).Done?
  {
    EnvelopeFields(m);
    BuiltOffsets(m, message, tx.current, start);
  }

  /** The transaction, message and indices under which `m` is verified. */
  ghost predicate Verifies(tx: Transaction, storage: Table<Bytes32>, now: int, message: Bytes, edIndex: nat,
                           sigIndex: nat,
                           m: SolanaMessage, start: nat, entries: seq<Offsets>)
    requires storage.num <= |storage.items|
  {
    && Stands(tx, m, message, start)
    && Precedes(tx, edIndex, entries, sigIndex)
    && NewOffsets(message, tx.current, start) == Some(entries[sigIndex])
    && storage.IsTrusted(m.publicKey, now)
  }

  lemma VerifiedFields(m: SolanaMessage, message: Bytes, size: nat)
    requires EncodeSolana(m) == Ok(message)
    ensures |message| == 102 + |m.payload| && message[68..100] == m.publicKey
    ensures size == |m.payload| ==> message[102..102 + size] == m.payload
  {
    EnvelopeFields(m);
    assert size == |m.payload| ==> message[102..102 + size] == message[102..];
  }

  lemma VerifiedHas(tx: Transaction, storage: Table<Bytes32>, now: int, message: Bytes, edIndex: nat, sigIndex: nat,
                    vm: VerifiedMessage)
    returns (m: SolanaMessage, start: nat, entries: seq<Offsets>)
    requires storage.num <= |storage.items|
    requires VerifyMessage(tx, storage, now, message, edIndex, sigIndex) == Done(vm)
    ensures Verifies(tx, storage, now, message, edIndex, sigIndex, m, start, entries)
    ensures vm == VerifiedMessage(m.publicKey, m.payload)
  {
    var o := SelectEntry(tx, edIndex, sigIndex).value;
    entries := SelectedIsListed(tx, edIndex, sigIndex, o);
    m, start := CheckedStands(tx, o, message);
    BuiltOffsets(m, message, tx.current, start);
    VerifiedFields(m, message, o.messageSize);
  }

  lemma VerifiesIsDone(tx: Transaction, storage: Table<Bytes32>, now: int, message: Bytes, edIndex: nat, sigIndex: nat,
                       m: SolanaMessage, start: nat, entries: seq<Offsets>)
    requires storage.num <= |storage.items|
    requires Verifies(tx, storage, now, message, edIndex, sigIndex, m, start, entries)
    ensures VerifyMessage(tx, storage, now, message, edIndex, sigIndex)
         == Done(VerifiedMessage(m.publicKey, m.payload))
  {
    ListedIsSelected(tx, edIndex, sigIndex, entries);
    StandsIsChecked(tx, entries[sigIndex], m, message, start);
    BuiltOffsets(m, message, tx.current, start);
    VerifiedFields(m, message, |m.payload|);
  }

  /** Exactly what is accepted: `verify_message` returns a key and a payload if and only if the message is their
      envelope under some signature, stands in the running instruction within the 16-bit range, the key is trusted, and
      an earlier ed25519 instruction lists at that index the very offsets that the builder makes for it. */
  lemma VerifiedExactly(tx: Transaction, storage: Table<Bytes32>, now: int, message: Bytes, edIndex: nat, sigIndex: nat,
                        vm: VerifiedMessage)
    requires storage.num <= |storage.items|
    ensures VerifyMessage(tx, storage, now, message, edIndex, sigIndex) == Done(vm) <==>
            exists m, start, entries ::
              Verifies(tx, storage, now, message, edIndex, sigIndex, m, start, entries)
              && vm == VerifiedMessage(m.publicKey, m.payload)
  {
    if VerifyMessage(tx, storage, now, message, edIndex, sigIndex) == Done(vm) {
      var m, start, entries := VerifiedHas(tx, storage, now, message, edIndex, sigIndex, vm);
    }
    if m, start, entries :|
      Verifies(tx, storage, now, message, edIndex, sigIndex, m, start, entries)
      && vm == VerifiedMessage(m.publicKey, m.payload)
    {
      VerifiesIsDone(tx, storage, now, message, edIndex, sigIndex, m, start, entries);
    }
  }
}
