/** Binary WebSocket updates: a header, then messages each behind a back-patched
    two-byte length (`binary_update.rs`). */
module Frames {
  import opened Outcomes
  import opened Bytes
  import opened Codec
  import opened Messages

  const BINARY_UPDATE_FORMAT_MAGIC := 461_928_307

  /** How single messages are written and read. */
  datatype MessageCodec<!M> = MessageCodec(encode: M -> Result<Bytes>, decode: Bytes -> Result<M>)

  ghost predicate RoundTrips<M(!new)>(c: MessageCodec<M>) {
    forall m :: c.encode(m).Ok? ==> c.decode(c.encode(m).value) == Ok(m)
  }

  /** The protocol's messages over a JSON library. */
  function Standard<J>(json: JsonCodec<J>): MessageCodec<Message<J>> {
    MessageCodec((m: Message<J>) => EncodeMessage(json, m), (data: Bytes) => DecodeMessage(json, data))
  }

  lemma StandardRoundTrips<J(!new)>(json: JsonCodec<J>)
    requires Faithful(json)
    ensures RoundTrips(Standard(json))
  {
    forall m: Message<J> | EncodeMessage(json, m).Ok?
      ensures DecodeMessage(json, EncodeMessage(json, m).value) == Ok(m)
    {
      MessageRoundTrip(json, m);
    }
  }

  datatype BinaryUpdate<M> = BinaryUpdate(subscriptionId: nat, messages: seq<M>)

  /** A message with its big-endian length in front. */
  function Frame<M>(c: MessageCodec<M>, m: M): Bytes {
    match c.encode(m) case Err => [] case Ok(e) => ToBE(|e|, 2) + e
  }

  function Framer<M>(c: MessageCodec<M>): M -> Bytes {
    (m: M) => Frame(c, m)
  }

  /** The message serializes, and to at most 65535 bytes. */
  predicate Framable<M>(c: MessageCodec<M>, m: M) {
    c.encode(m).Ok? && |c.encode(m).value| <= U16_MAX
  }

  function UpdateHeader(subscriptionId: nat): Bytes {
    ToLE(BINARY_UPDATE_FORMAT_MAGIC, 4) + ToBE(subscriptionId, 8)
  }

  function EncodeUpdate<M>(c: MessageCodec<M>, u: BinaryUpdate<M>): Bytes {
    UpdateHeader(u.subscriptionId) + Concat(Framer(c), u.messages)
  }

  // ----- Writing into a buffer -----

  ghost predicate AllFramable<M>(c: MessageCodec<M>, ms: seq<M>) {
    forall i :: 0 <= i < |ms| ==> c.encode(ms[i]).Ok? && |c.encode(ms[i]).value| <= 65_535
  }

  class Buffer {
    var bytes: Bytes

    constructor ()
      ensures bytes == []
    {
      bytes := [];
    }

    method Write(s: Bytes)
      modifies this
      ensures bytes == old(bytes) + s
    {
      bytes := bytes + s;
    }

    /** `write_with_len_header`: reserves two bytes, writes the message, then patches the two bytes.
        It keeps every byte that was there before, also when it fails. */
    method WriteWithLenHeader<M>(c: MessageCodec<M>, m: M) returns (ok: bool)
      modifies this
      ensures old(bytes) <= bytes
      ensures ok <==> c.encode(m).Ok? && |c.encode(m).value| <= 65_535
      ensures ok ==> bytes == old(bytes) + Frame(c, m)
    {
      var lenIndex := |bytes|;
      Write([0, 0]);
      var dataStart := |bytes|;
      var e := c.encode(m);
      if e.Err? {
        return false;
      }
      Write(e.value);
      var len := |bytes| - dataStart;
      if len > U16_MAX {
        return false;
      }
      var header := ToBE(len, 2);
      bytes := bytes[lenIndex := header[0]][lenIndex + 1 := header[1]];
      assert bytes == old(bytes) + (header + e.value);
      return true;
    }

    method WriteFrames<M>(c: MessageCodec<M>, messages: seq<M>) returns (ok: bool)
      modifies this
      ensures old(bytes) <= bytes
      ensures ok <==> AllFramable(c, messages)
      ensures ok ==> bytes == old(bytes) + Concat(Framer(c), messages)
    {
      ghost var start := bytes;
      assert start + [] == start;
      var i := 0;
      while i < |messages|
        invariant 0 <= i <= |messages|
        invariant forall k :: 0 <= k < i ==> Framable(c, messages[k])
        invariant bytes == start + Concat(Framer(c), messages[..i])
      {
        var written := WriteWithLenHeader(c, messages[i]);
        if !written {
          return false;
        }
        ConcatNext(Framer(c), messages, i);
        ConcatAssoc(start, Concat(Framer(c), messages[..i]), Frame(c, messages[i]));
        i := i + 1;
      }
      assert messages[..i] == messages;
      return true;
    }

    /** `BinaryWsUpdate::serialize` */
    method Serialize<M>(c: MessageCodec<M>, u: BinaryUpdate<M>) returns (ok: bool)
      modifies this
      ensures old(bytes) <= bytes
      ensures ok <==> AllFramable(c, u.messages)
      ensures ok ==> bytes == old(bytes) + EncodeUpdate(c, u)
    {
      Write(ToLE(BINARY_UPDATE_FORMAT_MAGIC, 4));
      Write(ToBE(u.subscriptionId, 8));
      ConcatAssoc(old(bytes), ToLE(BINARY_UPDATE_FORMAT_MAGIC, 4), ToBE(u.subscriptionId, 8));
      ok := WriteFrames(c, u.messages);
      ConcatAssoc(old(bytes), UpdateHeader(u.subscriptionId), Concat(Framer(c), u.messages));
    }
  }

  // ----- Reading -----

  function Joined<T>(xs: seq<T>, r: Result<seq<T>>): Result<seq<T>> {
    match r case Err => Err case Ok(ys) => Ok(xs + ys)
  }

  lemma JoinedMore<T>(xs: seq<T>, x: T, r: Result<seq<T>>)
    ensures Joined(xs, Joined([x], r)) == Joined(xs + [x], r)
  {
    if r.Ok? {
      assert xs + ([x] + r.value) == xs + [x] + r.value;
    }
  }

  /** The framed messages from `pos` to the end of the data. */
  function ReadFrames<M>(c: MessageCodec<M>, data: Bytes, pos: nat): Result<seq<M>>
    requires pos <= |data|
    decreases |data| - pos
  {
    if pos == |data| then Ok([])
    else
      match ReadUint(BE, data, pos, 2)
      case Failed => Err
      case Parsed(n, p) =>
        match ReadBytes(data, p, n)
        case Failed => Err
        case Parsed(bytes, next) =>
          match c.decode(bytes)
          case Err => Err
          case Ok(m) => Joined([m], ReadFrames(c, data, next))
  }

  function DecodeUpdate<M>(c: MessageCodec<M>, data: Bytes): Result<BinaryUpdate<M>> {
    if |data| < 12 || FromLE(data[0..4]) != BINARY_UPDATE_FORMAT_MAGIC then Err
    else
      match ReadFrames(c, data, 12)
      case Err => Err
      case Ok(ms) => Ok(BinaryUpdate(FromBE(data[4..12]), ms))
  }

  /** One turn of the reading loop: a message and the position after it. */
  method NextFrame<M>(c: MessageCodec<M>, data: Bytes, pos: nat) returns (r: Result<(M, nat)>)
    requires pos < |data|
    ensures r.Err? ==> ReadFrames(c, data, pos).Err?
    ensures r.Ok? ==> pos < r.value.1 <= |data|
                      && ReadFrames(c, data, pos) == Joined([r.value.0], ReadFrames(c, data, r.value.1))
  {
    if |data| < pos + 2 {
      return Err;
    }
    var len := FromBE(data[pos..pos + 2]);
    if |data| < pos + 2 + len {
      return Err;
    }
    var m := c.decode(data[pos + 2..pos + 2 + len]);
    if m.Err? {
      return Err;
    }
    return Ok((m.value, pos + 2 + len));
  }

  /** `BinaryWsUpdate::deserialize_slice`: a position that moves over the data, pushing messages. */
  method Deserialize<M>(c: MessageCodec<M>, data: Bytes) returns (r: Result<BinaryUpdate<M>>)
    ensures r == DecodeUpdate(c, data)
  {
    if |data| < 4 || FromLE(data[0..4]) != BINARY_UPDATE_FORMAT_MAGIC || |data| < 12 {
      return Err;
    }
    var pos := 12;
    var messages: seq<M> := [];
    ghost var all := ReadFrames(c, data, 12);
    assert all.Ok? ==> [] + all.value == all.value;
    while pos < |data|
      invariant 12 <= pos <= |data|
      invariant ReadFrames(c, data, 12) == Joined(messages, ReadFrames(c, data, pos))
    {
      var frame := NextFrame(c, data, pos);
      if frame.Err? {
        return Err;
      }
      JoinedMore(messages, frame.value.0, ReadFrames(c, data, frame.value.1));
      messages := messages + [frame.value.0];
      pos := frame.value.1;
    }
    assert messages + [] == messages;
    return Ok(BinaryUpdate(FromBE(data[4..12]), messages));
  }

  // ----- Round trip -----

  lemma {:induction false} ConcatCons<T>(enc: T -> Bytes, xs: seq<T>)
    requires xs != []
    ensures Concat(enc, xs) == enc(xs[0]) + Concat(enc, xs[1..])
  {
    var n := |xs| - 1;
    if n == 0 {
      assert xs[..0] == [] && xs[1..] == [];
    } else {
      var init, rest := xs[..n], xs[1..];
      ConcatCons(enc, init);
      assert init[0] == xs[0] && init[1..] == rest[..n - 1] && rest[n - 1] == xs[n];
      assert Concat(enc, rest) == Concat(enc, rest[..n - 1]) + enc(xs[n]);
      ConcatAssoc(enc(xs[0]), Concat(enc, rest[..n - 1]), enc(xs[n]));
    }
  }

  /** A frame at `pos` is read as its message, and reading goes on after it. */
  lemma FrameAt<M(!new)>(c: MessageCodec<M>, data: Bytes, pos: nat, m: M)
    requires RoundTrips(c) && Framable(c, m) && HasAt(data, pos, Frame(c, m))
    ensures ReadFrames(c, data, pos) == Joined([m], ReadFrames(c, data, pos + |Frame(c, m)|))
  {
    var e := c.encode(m).value;
    HasBoth(data, pos, ToBE(|e|, 2), e);
    Pow256Values();
    UintAt(BE, data, pos, |e|, 2);
  }

  lemma {:induction false} ConcatAt<T>(enc: T -> Bytes, data: Bytes, pos: nat, xs: seq<T>)
    requires xs != [] && HasAt(data, pos, Concat(enc, xs))
    ensures HasAt(data, pos, enc(xs[0])) && HasAt(data, pos + |enc(xs[0])|, Concat(enc, xs[1..]))
    ensures |Concat(enc, xs)| == |enc(xs[0])| + |Concat(enc, xs[1..])|
  {
    ConcatCons(enc, xs);
    HasBoth(data, pos, enc(xs[0]), Concat(enc, xs[1..]));
  }

  lemma FrameThenRest<M(!new)>(c: MessageCodec<M>, data: Bytes, pos: nat, m: M, rest: seq<M>)
    requires RoundTrips(c) && Framable(c, m) && HasAt(data, pos, Frame(c, m))
    requires ReadFrames(c, data, pos + |Frame(c, m)|) == Ok(rest)
    ensures ReadFrames(c, data, pos) == Ok([m] + rest)
  {
    FrameAt(c, data, pos, m);
  }

  /** The frames of `ms`, one after the other, fill the data from `pos` on. */
  ghost predicate FramedAt<M>(c: MessageCodec<M>, data: Bytes, pos: nat, ms: seq<M>)
    decreases |ms|
  {
    if ms == [] then pos == |data|
    else HasAt(data, pos, Frame(c, ms[0])) && FramedAt(c, data, pos + |Frame(c, ms[0])|, ms[1..])
  }

  lemma {:induction false} FramedFirst<M>(c: MessageCodec<M>, data: Bytes, pos: nat, ms: seq<M>)
    requires ms != [] && HasAt(data, pos, Frame(c, ms[0])) && FramedAt(c, data, pos + |Frame(c, ms[0])|, ms[1..])
    ensures FramedAt(c, data, pos, ms)
  {
  }

  /** Bytes laid out as the concatenated encodings, cut at the first. */
  ghost predicate Fills<T>(enc: T -> Bytes, data: Bytes, pos: nat, xs: seq<T>) {
    HasAt(data, pos, Concat(enc, xs)) && pos + |Concat(enc, xs)| == |data|
  }

  lemma {:induction false} FillsRest<T>(enc: T -> Bytes, data: Bytes, pos: nat, xs: seq<T>)
    requires xs != [] && Fills(enc, data, pos, xs)
    ensures HasAt(data, pos, enc(xs[0])) && Fills(enc, data, pos + |enc(xs[0])|, xs[1..])
  {
    ConcatAt(enc, data, pos, xs);
  }

  lemma {:induction false} FramesAt<M>(c: MessageCodec<M>, data: Bytes, pos: nat, ms: seq<M>)
    requires Fills(Framer(c), data, pos, ms)
    ensures FramedAt(c, data, pos, ms)
    decreases |ms|
  {
    if ms != [] {
      FillsRest(Framer(c), data, pos, ms);
      assert Framer(c)(ms[0]) == Frame(c, ms[0]);
      FramesAt(c, data, pos + |Frame(c, ms[0])|, ms[1..]);
      FramedFirst(c, data, pos, ms);
    }
  }

  lemma {:induction false} ReadFramesAt<M(!new)>(c: MessageCodec<M>, data: Bytes, pos: nat, ms: seq<M>)
    requires RoundTrips(c) && AllFramable(c, ms) && FramedAt(c, data, pos, ms) && pos <= |data|
    ensures ReadFrames(c, data, pos) == Ok(ms)
    decreases |ms|
  {
    if ms != [] {
      var m, rest := ms[0], ms[1..];
      ReadFramesAt(c, data, pos + |Frame(c, m)|, rest);
      FrameThenRest(c, data, pos, m, rest);
      assert [m] + rest == ms;
    }
  }

  /** Binary update round trip: decoding what was written into an empty buffer gives the update back. */
  lemma UpdateRoundTrip<M(!new)>(c: MessageCodec<M>, u: BinaryUpdate<M>)
    requires RoundTrips(c) && u.subscriptionId <= U64_MAX
    requires AllFramable(c, u.messages)
    ensures DecodeUpdate(c, EncodeUpdate(c, u)) == Ok(u)
  {
    var data, body := EncodeUpdate(c, u), Concat(Framer(c), u.messages);
    var magic, id := ToLE(BINARY_UPDATE_FORMAT_MAGIC, 4), ToBE(u.subscriptionId, 8);
    assert data == magic + (id + body);
    assert data[0..4] == magic && data[4..12] == id && data[12..] == body;
    Pow256Values();
    LEOfValue(BINARY_UPDATE_FORMAT_MAGIC, 4);
    BEOfValue(u.subscriptionId, 8);
    FramesAt(c, data, 12, u.messages);
    ReadFramesAt(c, data, 12, u.messages);
  }

  /** The same for the protocol's own messages, over any JSON library whose reader undoes its writer. */
  lemma StandardUpdateRoundTrip<J(!new)>(json: JsonCodec<J>, u: BinaryUpdate<Message<J>>)
    requires Faithful(json) && u.subscriptionId <= U64_MAX
    requires AllFramable(Standard(json), u.messages)
    ensures DecodeUpdate(Standard(json), EncodeUpdate(Standard(json), u)) == Ok(u)
  {
    StandardRoundTrips(json);
    UpdateRoundTrip(Standard(json), u);
  }

  // ----- Exactly what is decoded -----

  /** A body behind its two-byte length. */
  ghost function Framed(): Bytes -> Bytes {
    (body: Bytes) => ToBE(|body|, 2) + body
  }

  /** Each body fits its two-byte length and decodes to its message. */
  ghost predicate AllDecode<M>(c: MessageCodec<M>, ms: seq<M>, bodies: seq<Bytes>) {
    && |bodies| == |ms|
    && forall i :: 0 <= i < |bodies| ==> |bodies[i]| <= 65_535 && c.decode(bodies[i]) == Ok(ms[i])
  }

  /** `data` is the bytes 73 77 88 1B, a subscription id and a list of length-prefixed bodies that the codec decodes to
      the messages. */
  ghost predicate Frames<M>(c: MessageCodec<M>, data: Bytes, u: BinaryUpdate<M>, bodies: seq<Bytes>) {
    && u.subscriptionId <= U64_MAX && AllDecode(c, u.messages, bodies)
    && data == [0x73, 0x77, 0x88, 0x1B] + ToBE(u.subscriptionId, 8) + Concat(Framed(), bodies)
  }

  /** The bodies from `pos` to the end of the data, one behind the other, and the messages they decode to. */
  ghost predicate BodiesAt<M>(c: MessageCodec<M>, data: Bytes, pos: nat, ms: seq<M>, bodies: seq<Bytes>)
    decreases |bodies|
  {
    if bodies == [] then ms == [] && pos == |data|
    else ms != [] && BodyAt(c, data, pos, ms[0], bodies[0])
         && BodiesAt(c, data, pos + 2 + |bodies[0]|, ms[1..], bodies[1..])
  }

  ghost predicate BodyAt<M>(c: MessageCodec<M>, data: Bytes, pos: nat, m: M, body: Bytes) {
    && pos + 2 + |body| <= |data| && |body| <= U16_MAX
    && FromBE(data[pos..pos + 2]) == |body| && data[pos + 2..pos + 2 + |body|] == body
    && c.decode(body) == Ok(m)
  }

  lemma {:induction false} FirstBody<M>(c: MessageCodec<M>, data: Bytes, pos: nat, ms: seq<M>) returns (body: Bytes)
    requires pos < |data| && ReadFrames(c, data, pos) == Ok(ms)
    ensures ms != [] && BodyAt(c, data, pos, ms[0], body) && ReadFrames(c, data, pos + 2 + |body|) == Ok(ms[1..])
  {
    body := data[pos + 2..pos + 2 + FromBE(data[pos..pos + 2])];
    BEOfBytes(data[pos..pos + 2]);
    Pow256Values();
  }

  lemma {:induction false} SplitBodies<M>(c: MessageCodec<M>, data: Bytes, pos: nat, ms: seq<M>)
    returns (bodies: seq<Bytes>)
    requires pos <= |data| && ReadFrames(c, data, pos) == Ok(ms)
    ensures BodiesAt(c, data, pos, ms, bodies)
    decreases |data| - pos
  {
    if pos == |data| {
      bodies := [];
    } else {
      var body := FirstBody(c, data, pos, ms);
      var rest := SplitBodies(c, data, pos + 2 + |body|, ms[1..]);
      bodies := [body] + rest;
      assert bodies[1..] == rest;
    }
  }

  lemma {:induction false} ReadMore<M>(c: MessageCodec<M>, data: Bytes, pos: nat, body: Bytes, m: M, rest: seq<M>)
    requires BodyAt(c, data, pos, m, body) && ReadFrames(c, data, pos + 2 + |body|) == Ok(rest)
    ensures ReadFrames(c, data, pos) == Ok([m] + rest)
  {
  }

  lemma {:induction false} JoinBodies<M>(c: MessageCodec<M>, data: Bytes, pos: nat, ms: seq<M>, bodies: seq<Bytes>)
    requires BodiesAt(c, data, pos, ms, bodies)
    ensures pos <= |data| && ReadFrames(c, data, pos) == Ok(ms)
    decreases |bodies|
  {
    if bodies != [] {
      JoinBodies(c, data, pos + 2 + |bodies[0]|, ms[1..], bodies[1..]);
      ReadMore(c, data, pos, bodies[0], ms[0], ms[1..]);
      assert ms == [ms[0]] + ms[1..];
    }
  }

  lemma AllDecodeCons<M>(c: MessageCodec<M>, ms: seq<M>, bodies: seq<Bytes>)
    requires ms != [] && bodies != []
    ensures AllDecode(c, ms, bodies) <==>
            |bodies[0]| <= U16_MAX && c.decode(bodies[0]) == Ok(ms[0]) && AllDecode(c, ms[1..], bodies[1..])
  {
    if AllDecode(c, ms[1..], bodies[1..]) {
      assert forall i :: 1 <= i < |bodies| ==> bodies[i] == bodies[1..][i - 1] && ms[i] == ms[1..][i - 1];
    }
  }

  lemma {:induction false} FramedExactly(data: Bytes, pos: nat, body: Bytes, rest: Bytes)
    requires pos <= |data| && |body| <= U16_MAX
    ensures data[pos..] == Framed()(body) + rest <==>
            && pos + 2 + |body| <= |data| && FromBE(data[pos..pos + 2]) == |body|
            && data[pos + 2..pos + 2 + |body|] == body && data[pos + 2 + |body|..] == rest
  {
    Pow256Values();
    BEOfValue(|body|, 2);
    var tail := data[pos..];
    if tail == Framed()(body) + rest {
      assert tail == ToBE(|body|, 2) + (body + rest);
      assert tail[..2] == ToBE(|body|, 2) && tail[2..2 + |body|] == body && tail[2 + |body|..] == rest;
      assert data[pos..pos + 2] == tail[..2] && data[pos + 2..pos + 2 + |body|] == tail[2..2 + |body|];
    }
    if pos + 2 + |body| <= |data| && FromBE(data[pos..pos + 2]) == |body| && data[pos + 2..pos + 2 + |body|] == body {
      BEOfBytes(data[pos..pos + 2]);
      SliceJoin(data, pos, pos + 2, pos + 2 + |body|);
      SliceJoin(data, pos, pos + 2 + |body|, |data|);
    }
  }

  lemma {:induction false} FirstExactly<M>(c: MessageCodec<M>, data: Bytes, pos: nat, ms: seq<M>, bodies: seq<Bytes>)
    requires pos <= |data| && ms != [] && bodies != []
    ensures AllDecode(c, ms, bodies) && data[pos..] == Concat(Framed(), bodies) <==>
            && BodyAt(c, data, pos, ms[0], bodies[0]) && AllDecode(c, ms[1..], bodies[1..])
            && data[pos + 2 + |bodies[0]|..] == Concat(Framed(), bodies[1..])
  {
    AllDecodeCons(c, ms, bodies);
    ConcatCons(Framed(), bodies);
    if |bodies[0]| <= U16_MAX {
      FramedExactly(data, pos, bodies[0], Concat(Framed(), bodies[1..]));
    }
  }

  /** The same as one concatenation. */
  lemma {:induction false} BodiesExactly<M>(c: MessageCodec<M>, data: Bytes, pos: nat, ms: seq<M>, bodies: seq<Bytes>)
    requires pos <= |data|
    ensures BodiesAt(c, data, pos, ms, bodies) <==> AllDecode(c, ms, bodies) && data[pos..] == Concat(Framed(), bodies)
    decreases |bodies|
  {
    if bodies == [] {
      assert pos == |data| <==> data[pos..] == [];
    } else if ms != [] {
      FirstExactly(c, data, pos, ms, bodies);
      if pos + 2 + |bodies[0]| <= |data| {
        BodiesExactly(c, data, pos + 2 + |bodies[0]|, ms[1..], bodies[1..]);
      }
    }
  }

  lemma {:induction false} HeaderExactly(data: Bytes, id: nat, rest: Bytes)
    requires id <= U64_MAX
    ensures data == [0x73, 0x77, 0x88, 0x1B] + ToBE(id, 8) + rest <==>
            && |data| >= 12 && FromLE(data[0..4]) == BINARY_UPDATE_FORMAT_MAGIC && FromBE(data[4..12]) == id
            && data[12..] == rest
  {
    MagicIs(BINARY_UPDATE_FORMAT_MAGIC, 0x73, 0x77, 0x88, 0x1B);
    Pow256Values();
    LEOfValue(BINARY_UPDATE_FORMAT_MAGIC, 4);
    BEOfValue(id, 8);
    if data == [0x73, 0x77, 0x88, 0x1B] + ToBE(id, 8) + rest {
      assert data[0..4] == [0x73, 0x77, 0x88, 0x1B] && data[4..12] == ToBE(id, 8) && data[12..] == rest;
    }
    if |data| >= 12 && FromLE(data[0..4]) == BINARY_UPDATE_FORMAT_MAGIC && FromBE(data[4..12]) == id {
      LEOfBytes(data[0..4]);
      BEOfBytes(data[4..12]);
      assert data == data[0..4] + data[4..12] + data[12..];
    }
  }

  lemma {:induction false} HeaderOfRead<M>(c: MessageCodec<M>, data: Bytes, u: BinaryUpdate<M>)
    ensures DecodeUpdate(c, data) == Ok(u) <==>
            && |data| >= 12 && FromLE(data[0..4]) == BINARY_UPDATE_FORMAT_MAGIC
            && FromBE(data[4..12]) == u.subscriptionId && ReadFrames(c, data, 12) == Ok(u.messages)
  {
  }

  /** The decoder returns an update if and only if the data are laid out so, from the first byte to the last. */
  lemma DecodedExactly<M>(c: MessageCodec<M>, data: Bytes, u: BinaryUpdate<M>)
    ensures DecodeUpdate(c, data) == Ok(u) <==> exists bodies :: Frames(c, data, u, bodies)
  {
    HeaderOfRead(c, data, u);
    if DecodeUpdate(c, data) == Ok(u) {
      var bodies := SplitBodies(c, data, 12, u.messages);
      BodiesExactly(c, data, 12, u.messages, bodies);
      BEOfBytes(data[4..12]);
      Pow256Values();
      HeaderExactly(data, u.subscriptionId, Concat(Framed(), bodies));
      assert Frames(c, data, u, bodies);
    }
    if bodies :| Frames(c, data, u, bodies) {
      HeaderExactly(data, u.subscriptionId, Concat(Framed(), bodies));
      BodiesExactly(c, data, 12, u.messages, bodies);
      JoinBodies(c, data, 12, u.messages, bodies);
    }
  }
}
