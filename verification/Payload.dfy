/** The signable price payload: its data, its encoding in either byte order, and the protocol
    crate's decoder (`payload/standard.rs`). */
module Payload {
  import opened Outcomes
  import opened Bytes
  import opened Codec

  const M16: nat := 0x1_0000
  const M64: nat := 0x1_0000_0000_0000_0000
  const PAYLOAD_FORMAT_MAGIC := 2_479_346_549

  type u16 = n: int | 0 <= n < M16
  type u32 = n: int | 0 <= n < 0x1_0000_0000
  type u64 = n: int | 0 <= n < M64
  type i16 = n: int | -0x8000 <= n < 0x8000
  type i64 = n: int | -0x8000_0000_0000_0000 <= n < 0x8000_0000_0000_0000
  /** A price mantissa is never zero: zero on the wire means absent. */
  type Price = n: int | -0x8000_0000_0000_0000 <= n < 0x8000_0000_0000_0000 && n != 0 witness 1

  datatype MarketSession = Regular | PreMarket | PostMarket | OverNight | Closed

  datatype Property =
    | Price | BestBidPrice | BestAskPrice | PublisherCount | Exponent | Confidence
    | FundingRate | FundingTimestamp | FundingRateInterval | MarketSession
    | EmaPrice | EmaConfidence | FeedUpdateTimestamp

  datatype PropertyValue =
    | PriceV(price: Option<Price>)
    | BestBidPriceV(price: Option<Price>)
    | BestAskPriceV(price: Option<Price>)
    | PublisherCountV(count: u16)
    | ExponentV(exponent: i16)
    | ConfidenceV(price: Option<Price>)
    | FundingRateV(rate: Option<i64>)
    | FundingTimestampV(time: Option<u64>)
    | FundingRateIntervalV(time: Option<u64>)
    | MarketSessionV(session: MarketSession)
    | EmaPriceV(price: Option<Price>)
    | EmaConfidenceV(price: Option<Price>)
    | FeedUpdateTimestampV(time: Option<u64>)

  /** A delivery channel of the protocol: as fast as possible, or at a fixed rate. */
  datatype ProtocolChannel = AsFastAsPossible | FixedRate(ms: nat)

  /** `Channel::id`; `None` where it panics. */
  function ChannelId(c: ProtocolChannel): Option<byte> {
    match c
    case AsFastAsPossible => Some(1)
    case FixedRate(ms) =>
      if ms == 50 then Some(2) else if ms == 200 then Some(3) else if ms == 1000 then Some(4) else None
  }

  /** `TryFrom<ChannelId>` */
  function ChannelOf(id: byte): Option<ProtocolChannel> {
    match id
    case 1 => Some(AsFastAsPossible)
    case 2 => Some(FixedRate(50))
    case 3 => Some(FixedRate(200))
    case 4 => Some(FixedRate(1000))
    case _ => None
  }

  /** The two conversions are inverse to each other, and the ids are those of the protocol. */
  lemma ChannelIdExactly(c: ProtocolChannel, id: byte)
    ensures ChannelId(c) == Some(id) <==> ChannelOf(id) == Some(c)
    ensures ChannelId(c) == Some(id) <==>
            (id, c) in {(1, AsFastAsPossible), (2, FixedRate(50)), (3, FixedRate(200)), (4, FixedRate(1000))}
  {
  }

  datatype FeedData = FeedData(feedId: u32, properties: seq<PropertyValue>)
  datatype PayloadData = PayloadData(timestampUs: u64, channelId: byte, feeds: seq<FeedData>)

  /** `From<MarketSession> for i16` */
  function SessionCode(s: MarketSession): i16 {
    match s case Regular => 0 case PreMarket => 1 case PostMarket => 2 case OverNight => 3 case Closed => 4
  }

  /** `TryFrom<i16> for MarketSession` */
  function SessionOf(v: i16): (r: Option<MarketSession>)
    ensures r.Some? ==> SessionCode(r.value) == v
    ensures r.None? ==> forall s :: SessionCode(s) != v
  {
    match v
    case 0 => Some(Regular) case 1 => Some(PreMarket) case 2 => Some(PostMarket)
    case 3 => Some(OverNight) case 4 => Some(Closed) case _ => None
  }

  // ----- Encoding -----

  function EncodePrice(bo: ByteOrder, p: Option<Price>): Bytes {
    var mantissa: int := match p case None => 0 case Some(v) => v;
    Put(bo, Unsigned(mantissa, M64), 8)
  }

  function EncodeFlagged(bo: ByteOrder, v: Option<u64>): Bytes {
    match v case None => [0] case Some(n) => [1] + Put(bo, n, 8)
  }

  /** The 64-bit word of an optional rate. */
  function RateWord(r: Option<i64>): Option<u64> {
    match r case None => None case Some(v) => Some(Unsigned(v, M64))
  }

  function EncodeValue(bo: ByteOrder, v: PropertyValue): (r: Bytes)
    ensures |r| > 0
  {
    match v
    case PriceV(p) => [0] + EncodePrice(bo, p)
    case BestBidPriceV(p) => [1] + EncodePrice(bo, p)
    case BestAskPriceV(p) => [2] + EncodePrice(bo, p)
    case PublisherCountV(c) => [3] + Put(bo, c, 2)
    case ExponentV(e) => [4] + Put(bo, Unsigned(e, M16), 2)
    case ConfidenceV(p) => [5] + EncodePrice(bo, p)
    case FundingRateV(rate) => [6] + EncodeFlagged(bo, RateWord(rate))
    case FundingTimestampV(t) => [7] + EncodeFlagged(bo, t)
    case FundingRateIntervalV(t) => [8] + EncodeFlagged(bo, t)
    case MarketSessionV(s) => [9] + Put(bo, Unsigned(SessionCode(s), M16), 2)
    case EmaPriceV(p) => [10] + EncodePrice(bo, p)
    case EmaConfidenceV(p) => [11] + EncodePrice(bo, p)
    case FeedUpdateTimestampV(t) => [12] + EncodeFlagged(bo, t)
  }

  function ValueEncoder(bo: ByteOrder): PropertyValue -> Bytes {
    (v: PropertyValue) => EncodeValue(bo, v)
  }

  predicate FeedFits(f: FeedData) {
    |f.properties| < 256
  }

  predicate FeedsFit(feeds: seq<FeedData>) {
    forall i :: 0 <= i < |feeds| ==> FeedFits(feeds[i])
  }

  predicate Fits(d: PayloadData) {
    |d.feeds| < 256 && FeedsFit(d.feeds)
  }

  function FeedHeader(bo: ByteOrder, f: FeedData): Bytes {
    Put(bo, f.feedId, 4) + [|f.properties| % 256]
  }

  function EncodeFeed(bo: ByteOrder, f: FeedData): Bytes {
    FeedHeader(bo, f) + Concat(ValueEncoder(bo), f.properties)
  }

  function FeedEncoder(bo: ByteOrder): FeedData -> Bytes {
    (f: FeedData) => EncodeFeed(bo, f)
  }

  function EncodeHeader(bo: ByteOrder, d: PayloadData): Bytes {
    Put(bo, PAYLOAD_FORMAT_MAGIC, 4) + Put(bo, d.timestampUs, 8) + [d.channelId] + [|d.feeds| % 256]
  }

  /** `serialize` as a whole: it fails exactly when a count does not fit its byte. */
  function EncodePayload(bo: ByteOrder, d: PayloadData): Result<Bytes> {
    if Fits(d) then Ok(EncodeHeader(bo, d) + Concat(FeedEncoder(bo), d.feeds)) else Err
  }

  /** `serialize`: appends to a writer, feed by feed and property by property. */
  method Serialize(bo: ByteOrder, d: PayloadData) returns (r: Result<Bytes>)
    ensures r == EncodePayload(bo, d)
  {
    if |d.feeds| > 255 {
      return Err;
    }
    var header := WriteHeader(bo, d);
    var feeds := WriteFeeds(bo, d.feeds);
    match feeds
    case Err => return Err;
    case Ok(body) => return Ok(header + body);
  }

  lemma FitsNext(feeds: seq<FeedData>, i: nat)
    requires i < |feeds| && FeedsFit(feeds[..i]) && FeedFits(feeds[i])
    ensures FeedsFit(feeds[..i + 1])
  {
  }

  method WriteFeeds(bo: ByteOrder, feeds: seq<FeedData>) returns (r: Result<Bytes>)
    ensures r == if FeedsFit(feeds) then Ok(Concat(FeedEncoder(bo), feeds)) else Err
  {
    var out := [];
    var i := 0;
    while i < |feeds|
      invariant 0 <= i <= |feeds|
      invariant FeedsFit(feeds[..i])
      invariant out == Concat(FeedEncoder(bo), feeds[..i])
    {
      if |feeds[i].properties| > 255 {
        assert !FeedFits(feeds[i]);
        return Err;
      }
      var written := WriteFeed(bo, feeds[i]);
      ConcatNext(FeedEncoder(bo), feeds, i);
      out := out + written;
      FitsNext(feeds, i);
      i := i + 1;
    }
    assert feeds[..i] == feeds;
    return Ok(out);
  }

  method WriteHeader(bo: ByteOrder, d: PayloadData) returns (out: Bytes)
    requires |d.feeds| < 256
    ensures out == EncodeHeader(bo, d)
  {
    out := Put(bo, PAYLOAD_FORMAT_MAGIC, 4);
    out := out + Put(bo, d.timestampUs, 8);
    out := out + [d.channelId];
    out := out + [|d.feeds|];
  }

  method WriteFeed(bo: ByteOrder, feed: FeedData) returns (out: Bytes)
    requires FeedFits(feed)
    ensures out == FeedEncoder(bo)(feed)
  {
    out := Put(bo, feed.feedId, 4) + [|feed.properties|];
    var j := 0;
    while j < |feed.properties|
      invariant 0 <= j <= |feed.properties|
      invariant out == FeedHeader(bo, feed) + Concat(ValueEncoder(bo), feed.properties[..j])
    {
      var written := EncodeValue(bo, feed.properties[j]);
      ConcatAssoc(FeedHeader(bo, feed), Concat(ValueEncoder(bo), feed.properties[..j]), written);
      ConcatNext(ValueEncoder(bo), feed.properties, j);
      out := out + written;
      j := j + 1;
    }
    assert feed.properties[..j] == feed.properties;
  }

  // ----- Decoding from a position -----

  function ReadU64(bo: ByteOrder, data: Bytes, pos: nat): (r: Parse<u64>)
    ensures r.Parsed? ==> r.next == pos + 8 <= |data|
  {
    Pow256Values();
    match ReadUint(bo, data, pos, 8) case Failed => Failed case Parsed(n, next) => Parsed(n, next)
  }

  function ReadU16(bo: ByteOrder, data: Bytes, pos: nat): (r: Parse<u16>)
    ensures r.Parsed? ==> r.next == pos + 2 <= |data|
  {
    Pow256Values();
    match ReadUint(bo, data, pos, 2) case Failed => Failed case Parsed(n, next) => Parsed(n, next)
  }

  function ReadPrice(bo: ByteOrder, data: Bytes, pos: nat): (r: Parse<Option<Price>>)
    ensures r.Parsed? ==> pos < r.next <= |data|
  {
    match ReadU64(bo, data, pos)
    case Failed => Failed
    case Parsed(n, next) => Parsed(if Signed(n, M64) == 0 then None else Some(Signed(n, M64)), next)
  }

  function ReadFlagged(bo: ByteOrder, data: Bytes, pos: nat): (r: Parse<Option<u64>>)
    ensures r.Parsed? ==> pos < r.next <= |data|
  {
    if pos >= |data| then Failed
    else if data[pos] == 0 then Parsed(None, pos + 1)
    else match ReadU64(bo, data, pos + 1) case Failed => Failed case Parsed(n, next) => Parsed(Some(n), next)
  }

  function ReadValue(bo: ByteOrder, data: Bytes, pos: nat): (r: Parse<PropertyValue>)
    ensures r.Parsed? ==> pos < r.next <= |data|
  {
    if pos >= |data| then Failed
    else
      var id, p := data[pos], pos + 1;
      if id in {0, 1, 2, 5, 10, 11} then
        match ReadPrice(bo, data, p)
        case Failed => Failed
        case Parsed(v, next) =>
          Parsed(if id == 0 then PriceV(v) else if id == 1 then BestBidPriceV(v) else if id == 2 then BestAskPriceV(v)
                 else if id == 5 then ConfidenceV(v) else if id == 10 then EmaPriceV(v) else EmaConfidenceV(v), next)
      else if id in {3, 4, 9} then
        match ReadU16(bo, data, p)
        case Failed => Failed
        case Parsed(n, next) =>
          if id == 3 then Parsed(PublisherCountV(n), next)
          else if id == 4 then Parsed(ExponentV(Signed(n, M16)), next)
          else (match SessionOf(Signed(n, M16)) case None => Failed case Some(s) => Parsed(MarketSessionV(s), next))
      else if id in {6, 7, 8, 12} then
        match ReadFlagged(bo, data, p)
        case Failed => Failed
        case Parsed(v, next) =>
          Parsed(if id == 6 then FundingRateV(match v case None => None case Some(n) => Some(Signed(n, M64)))
                 else if id == 7 then FundingTimestampV(v) else if id == 8 then FundingRateIntervalV(v)
                 else FeedUpdateTimestampV(v), next)
      else Failed
  }

  function ValueReader(bo: ByteOrder, data: Bytes): nat -> Parse<PropertyValue> {
    (pos: nat) => ReadValue(bo, data, pos)
  }

  function ReadFeed(bo: ByteOrder, data: Bytes, pos: nat): (r: Parse<FeedData>)
    ensures r.Parsed? ==> FeedFits(r.value)
  {
    Pow256Values();
    match ReadUint(bo, data, pos, 4)
    case Failed => Failed
    case Parsed(id, p) =>
      if p >= |data| then Failed
      else
        match Many(ValueReader(bo, data), p + 1, data[p])
        case Failed => Failed
        case Parsed(vs, next) => Parsed(FeedData(id, vs), next)
  }

  function FeedReader(bo: ByteOrder, data: Bytes): nat -> Parse<FeedData> {
    (pos: nat) => ReadFeed(bo, data, pos)
  }

  /** `deserialize` as a whole: the payload and the position after it. Bytes after it are not looked at. */
  function ReadPayload(bo: ByteOrder, data: Bytes): Parse<PayloadData> {
    match ReadUint(bo, data, 0, 4)
    case Failed => Failed
    case Parsed(magic, _) =>
      if magic != PAYLOAD_FORMAT_MAGIC then Failed
      else
        match ReadU64(bo, data, 4)
        case Failed => Failed
        case Parsed(time, _) =>
          if |data| < 14 then Failed
          else
            match Many(FeedReader(bo, data), 14, data[13])
            case Failed => Failed
            case Parsed(fs, end) => Parsed(PayloadData(time, data[12], fs), end)
  }

  /** `deserialize`: a cursor and two nested loops that push what they read. */
  method Deserialize(bo: ByteOrder, data: Bytes) returns (r: Parse<PayloadData>)
    ensures r == ReadPayload(bo, data)
  {
    var magic := ReadUint(bo, data, 0, 4);
    if magic.Failed? || magic.value != PAYLOAD_FORMAT_MAGIC {
      return Failed;
    }
    var time := ReadU64(bo, data, 4);
    if time.Failed? || |data| < 14 {
      return Failed;
    }
    var numFeeds: nat := data[13];
    var feeds: seq<FeedData> := [];
    var pos: nat := 14;
    var i := 0;
    while i < numFeeds
      invariant 0 <= i <= numFeeds
      invariant Many(FeedReader(bo, data), 14, i) == Parsed(feeds, pos)
    {
      ManyNext(FeedReader(bo, data), 14, i, feeds, pos);
      var feed := DeserializeFeed(bo, data, pos);
      if feed.Failed? {
        ManyFails(FeedReader(bo, data), 14, i + 1, numFeeds);
        return Failed;
      }
      feeds, pos := feeds + [feed.value], feed.next;
      i := i + 1;
    }
    return Parsed(PayloadData(time.value, data[12], feeds), pos);
  }

  method DeserializeFeed(bo: ByteOrder, data: Bytes, start: nat) returns (r: Parse<FeedData>)
    ensures r == FeedReader(bo, data)(start)
  {
    var id := ReadUint(bo, data, start, 4);
    if id.Failed? || id.next >= |data| {
      return Failed;
    }
    var numProperties: nat := data[id.next];
    var values: seq<PropertyValue> := [];
    var pos: nat := id.next + 1;
    var j := 0;
    while j < numProperties
      invariant 0 <= j <= numProperties
      invariant Many(ValueReader(bo, data), id.next + 1, j) == Parsed(values, pos)
    {
      ManyNext(ValueReader(bo, data), id.next + 1, j, values, pos);
      var v := ReadValue(bo, data, pos);
      if v.Failed? {
        ManyFails(ValueReader(bo, data), id.next + 1, j + 1, numProperties);
        return Failed;
      }
      values, pos := values + [v.value], v.next;
      j := j + 1;
    }
    Pow256Values();
    return Parsed(FeedData(id.value, values), pos);
  }

  // ----- Round trip -----

  lemma PriceAt(bo: ByteOrder, data: Bytes, pos: nat, p: Option<Price>)
    requires HasAt(data, pos, EncodePrice(bo, p))
    ensures ReadPrice(bo, data, pos) == Parsed(p, pos + 8)
  {
    Pow256Values();
    UintAt(bo, data, pos, Unsigned(match p case None => 0 case Some(v) => v, M64), 8);
  }

  lemma FlaggedAt(bo: ByteOrder, data: Bytes, pos: nat, v: Option<u64>)
    requires HasAt(data, pos, EncodeFlagged(bo, v))
    ensures ReadFlagged(bo, data, pos) == Parsed(v, pos + |EncodeFlagged(bo, v)|)
  {
    match v
    case None => HasByte(data, pos, 0);
    case Some(n) =>
      HasBoth(data, pos, [1], Put(bo, n, 8));
      HasByte(data, pos, 1);
      Pow256Values();
      UintAt(bo, data, pos + 1, n, 8);
  }

  lemma TaggedPriceAt(bo: ByteOrder, data: Bytes, pos: nat, tag: byte, p: Option<Price>)
    requires HasAt(data, pos, [tag] + EncodePrice(bo, p))
    ensures pos < |data| && data[pos] == tag && ReadPrice(bo, data, pos + 1) == Parsed(p, pos + 9)
  {
    HasBoth(data, pos, [tag], EncodePrice(bo, p));
    HasByte(data, pos, tag);
    PriceAt(bo, data, pos + 1, p);
  }

  lemma TaggedWordAt(bo: ByteOrder, data: Bytes, pos: nat, tag: byte, n: u16)
    requires HasAt(data, pos, [tag] + Put(bo, n, 2))
    ensures pos < |data| && data[pos] == tag && ReadU16(bo, data, pos + 1) == Parsed(n, pos + 3)
  {
    HasBoth(data, pos, [tag], Put(bo, n, 2));
    HasByte(data, pos, tag);
    Pow256Values();
    UintAt(bo, data, pos + 1, n, 2);
  }

  lemma TaggedFlaggedAt(bo: ByteOrder, data: Bytes, pos: nat, tag: byte, v: Option<u64>)
    requires HasAt(data, pos, [tag] + EncodeFlagged(bo, v))
    ensures pos < |data| && data[pos] == tag
    ensures ReadFlagged(bo, data, pos + 1) == Parsed(v, pos + |[tag] + EncodeFlagged(bo, v)|)
  {
    HasBoth(data, pos, [tag], EncodeFlagged(bo, v));
    HasByte(data, pos, tag);
    FlaggedAt(bo, data, pos + 1, v);
  }

  lemma PriceValueAt(bo: ByteOrder, data: Bytes, pos: nat, v: PropertyValue)
    requires v.PriceV? || v.BestBidPriceV? || v.BestAskPriceV? || v.ConfidenceV? || v.EmaPriceV? || v.EmaConfidenceV?
    requires HasAt(data, pos, EncodeValue(bo, v))
    ensures ReadValue(bo, data, pos) == Parsed(v, pos + |EncodeValue(bo, v)|)
  {
    TaggedPriceAt(bo, data, pos, EncodeValue(bo, v)[0], v.price);
  }

  lemma WordValueAt(bo: ByteOrder, data: Bytes, pos: nat, v: PropertyValue)
    requires v.PublisherCountV? || v.ExponentV? || v.MarketSessionV?
    requires HasAt(data, pos, EncodeValue(bo, v))
    ensures ReadValue(bo, data, pos) == Parsed(v, pos + |EncodeValue(bo, v)|)
  {
    match v
    case PublisherCountV(c) => TaggedWordAt(bo, data, pos, 3, c);
    case ExponentV(x) => TaggedWordAt(bo, data, pos, 4, Unsigned(x, M16));
    case MarketSessionV(s) => TaggedWordAt(bo, data, pos, 9, Unsigned(SessionCode(s), M16));
  }

  lemma FlaggedValueAt(bo: ByteOrder, data: Bytes, pos: nat, v: PropertyValue)
    requires v.FundingRateV? || v.FundingTimestampV? || v.FundingRateIntervalV? || v.FeedUpdateTimestampV?
    requires HasAt(data, pos, EncodeValue(bo, v))
    ensures ReadValue(bo, data, pos) == Parsed(v, pos + |EncodeValue(bo, v)|)
  {
    match v
    case FundingRateV(rate) => TaggedFlaggedAt(bo, data, pos, 6, RateWord(rate));
    case FundingTimestampV(t) => TaggedFlaggedAt(bo, data, pos, 7, t);
    case FundingRateIntervalV(t) => TaggedFlaggedAt(bo, data, pos, 8, t);
    case FeedUpdateTimestampV(t) => TaggedFlaggedAt(bo, data, pos, 12, t);
  }

  /** Every property value reads back from where it was written. */
  lemma ValueAt(bo: ByteOrder, data: Bytes, pos: nat, v: PropertyValue)
    requires HasAt(data, pos, EncodeValue(bo, v))
    ensures ReadValue(bo, data, pos) == Parsed(v, pos + |EncodeValue(bo, v)|)
  {
    if v.PublisherCountV? || v.ExponentV? || v.MarketSessionV? {
      WordValueAt(bo, data, pos, v);
    } else if v.FundingRateV? || v.FundingTimestampV? || v.FundingRateIntervalV? || v.FeedUpdateTimestampV? {
      FlaggedValueAt(bo, data, pos, v);
    } else {
      PriceValueAt(bo, data, pos, v);
    }
  }

  lemma FeedAt(bo: ByteOrder, data: Bytes, pos: nat, f: FeedData)
    requires FeedFits(f) && HasAt(data, pos, EncodeFeed(bo, f))
    ensures ReadFeed(bo, data, pos) == Parsed(f, pos + |EncodeFeed(bo, f)|)
  {
    var h, enc, read := Put(bo, f.feedId, 4), ValueEncoder(bo), ValueReader(bo, data);
    HasBoth(data, pos, FeedHeader(bo, f), Concat(enc, f.properties));
    HasBoth(data, pos, h, [|f.properties|]);
    HasByte(data, pos + 4, |f.properties|);
    Pow256Values();
    UintAt(bo, data, pos, f.feedId, 4);
    forall v, p: nat | v in f.properties && HasAt(data, p, enc(v))
      ensures read(p) == Parsed(v, p + |enc(v)|)
    {
      ValueAt(bo, data, p, v);
    }
    ManyAt(enc, read, data, pos + 5, f.properties);
  }

  lemma HeaderAt(bo: ByteOrder, data: Bytes, d: PayloadData)
    requires |d.feeds| < 256 && HasAt(data, 0, EncodeHeader(bo, d))
    ensures |data| >= 14
    ensures ReadUint(bo, data, 0, 4) == Parsed(PAYLOAD_FORMAT_MAGIC, 4)
    ensures ReadU64(bo, data, 4) == Parsed(d.timestampUs, 12)
    ensures data[12] == d.channelId && data[13] == |d.feeds|
  {
    var m, t := Put(bo, PAYLOAD_FORMAT_MAGIC, 4), Put(bo, d.timestampUs, 8);
    HasBoth(data, 0, m + t + [d.channelId], [|d.feeds|]);
    HasBoth(data, 0, m + t, [d.channelId]);
    HasBoth(data, 0, m, t);
    HasByte(data, 12, d.channelId);
    HasByte(data, 13, |d.feeds|);
    Pow256Values();
    UintAt(bo, data, 0, PAYLOAD_FORMAT_MAGIC, 4);
    UintAt(bo, data, 4, d.timestampUs, 8);
  }

  lemma {:induction false} FeedsAt(bo: ByteOrder, data: Bytes, pos: nat, feeds: seq<FeedData>)
    requires forall i :: 0 <= i < |feeds| ==> FeedFits(feeds[i])
    requires HasAt(data, pos, Concat(FeedEncoder(bo), feeds))
    ensures Many(FeedReader(bo, data), pos, |feeds|) == Parsed(feeds, pos + |Concat(FeedEncoder(bo), feeds)|)
  {
    var enc, read := FeedEncoder(bo), FeedReader(bo, data);
    forall f, p: nat | f in feeds && HasAt(data, p, enc(f))
      ensures read(p) == Parsed(f, p + |enc(f)|)
    {
      FeedAt(bo, data, p, f);
    }
    ManyAt(enc, read, data, pos, feeds);
  }

  lemma PayloadAt(bo: ByteOrder, data: Bytes, d: PayloadData)
    requires Fits(d) && HasAt(data, 0, EncodePayload(bo, d).value)
    ensures ReadPayload(bo, data) == Parsed(d, |EncodePayload(bo, d).value|)
  {
    HasBoth(data, 0, EncodeHeader(bo, d), Concat(FeedEncoder(bo), d.feeds));
    HeaderAt(bo, data, d);
    FeedsAt(bo, data, 14, d.feeds);
  }

  /** Payload round trip: in both byte orders, decoding an encoding followed by anything
      returns the payload and stops right after it. */
  lemma PayloadRoundTrip(bo: ByteOrder, d: PayloadData, trailing: Bytes)
    requires Fits(d)
    ensures var e := EncodePayload(bo, d).value;
            ReadPayload(bo, e + trailing) == Parsed(d, |e|)
  {
    var e := EncodePayload(bo, d).value;
    assert (e + trailing)[0..|e|] == e;
    PayloadAt(bo, e + trailing, d);
  }

  /** The encoding is injective and prefix-free: no encoding is a prefix of a different payload's encoding. */
  lemma EncodingIsPrefixFree(bo: ByteOrder, a: PayloadData, b: PayloadData)
    requires Fits(a) && Fits(b)
    requires EncodePayload(bo, a).value <= EncodePayload(bo, b).value
    ensures a == b
  {
    PayloadAt(bo, EncodePayload(bo, b).value, a);
    PayloadAt(bo, EncodePayload(bo, b).value, b);
  }

  lemma MagicBytes(bo: ByteOrder)
    ensures Put(bo, PAYLOAD_FORMAT_MAGIC, 4) ==
            match bo case LE => [0x75, 0xD3, 0xC7, 0x93] case BE => [0x93, 0xC7, 0xD3, 0x75]
  {
    match bo
    case LE =>
      FromLE4([0x75, 0xD3, 0xC7, 0x93]);
      LEOfBytes([0x75, 0xD3, 0xC7, 0x93]);
    case BE =>
      FromBE4([0x93, 0xC7, 0xD3, 0x75]);
      BEOfBytes([0x93, 0xC7, 0xD3, 0x75]);
  }

  lemma HeaderSplits(magic: Bytes, time: Bytes, channel: byte, count: byte, rest: Bytes)
    requires |magic| == 4 && |time| == 8
    ensures var e := magic + time + [channel] + [count] + rest;
            e[..4] == magic && e[4..12] == time && e[12] == channel && e[13] == count
  {
  }

  /** The fixed part of a payload on the wire: its four first bytes in either byte order, the time, the channel id and
      the number of feeds. */
  lemma FirstBytes(bo: ByteOrder, d: PayloadData)
    requires EncodePayload(bo, d).Ok?
    ensures var e := EncodePayload(bo, d).value;
            && |e| >= 14
            && e[..4] == (match bo case LE => [0x75, 0xD3, 0xC7, 0x93] case BE => [0x93, 0xC7, 0xD3, 0x75])
            && e[4..12] == Put(bo, d.timestampUs, 8) && e[12] == d.channelId && e[13] == |d.feeds|
  {
    MagicBytes(bo);
    var rest := Concat(FeedEncoder(bo), d.feeds);
    HeaderSplits(Put(bo, PAYLOAD_FORMAT_MAGIC, 4), Put(bo, d.timestampUs, 8), d.channelId, |d.feeds|, rest);
  }
}
