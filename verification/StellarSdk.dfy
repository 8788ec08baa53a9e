/** The Stellar SDK's own payload decoder (`contracts/stellar/sdk/rust/src/payload.rs`), written
    independently of the protocol crate's, and its agreement with that decoder. */
module StellarSdk {
  import opened Outcomes
  import opened Bytes
  import B = Bytes
  import opened Codec
  import opened Payload

  const PAYLOAD_MAGIC := 2_479_346_549

  datatype Channel = RealTime | FixedRate50ms | FixedRate200ms | FixedRate1000ms {
    /** The rate a channel is named for. */
    function Milliseconds(): Option<nat> {
      match this
      case RealTime => None
      case FixedRate50ms => Some(50)
      case FixedRate200ms => Some(200)
      case FixedRate1000ms => Some(1000)
    }
  }

  datatype Feed = Feed(
    feedId: nat, price: Option<int>, bestBidPrice: Option<int>, bestAskPrice: Option<int>,
    publisherCount: Option<int>, exponent: Option<int>, confidence: Option<int>,
    fundingRate: Option<int>, fundingTimestamp: Option<int>, fundingRateInterval: Option<int>,
    marketSession: Option<MarketSession>, emaPrice: Option<int>, emaConfidence: Option<int>,
    feedUpdateTimestamp: Option<int>)

  datatype Update = Update(timestamp: nat, channel: Channel, feeds: seq<Feed>)

  function BlankFeed(id: nat): Feed {
    Feed(id, None, None, None, None, None, None, None, None, None, None, None, None, None)
  }

  function ParseChannel(v: byte): Option<Channel> {
    match v
    case 1 => Some(RealTime) case 2 => Some(FixedRate50ms)
    case 3 => Some(FixedRate200ms) case 4 => Some(FixedRate1000ms) case _ => None
  }

  /** The market session of an unsigned 16-bit code. */
  function ParseMarketSession(v: nat): Option<MarketSession> {
    match v
    case 0 => Some(Regular) case 1 => Some(PreMarket) case 2 => Some(PostMarket)
    case 3 => Some(OverNight) case 4 => Some(Closed) case _ => None
  }

  // ----- What the decoder computes, from a position -----

  function OptionalI64(data: Bytes, pos: nat): Parse<Option<int>> {
    match ReadU64(LE, data, pos)
    case Failed => Failed
    case Parsed(raw, next) => Parsed(if raw == 0 then None else Some(Signed(raw, M64)), next)
  }

  /** A flagged value: `present` says whether the flag was set. */
  function Flagged(data: Bytes, pos: nat): Parse<Option<u64>> {
    if pos >= |data| then Failed
    else if data[pos] != 0 then
      match ReadU64(LE, data, pos + 1) case Failed => Failed case Parsed(n, next) => Parsed(Some(n), next)
    else Parsed(None, pos + 1)
  }

  function StepPrice(data: Bytes, pos: nat, feed: Feed, id: byte): Parse<Feed> {
    match OptionalI64(data, pos)
    case Failed => Failed
    case Parsed(v, next) =>
      Parsed(match id
             case 0 => feed.(price := v)
             case 1 => feed.(bestBidPrice := v)
             case 2 => feed.(bestAskPrice := v)
             case 5 => feed.(confidence := v)
             case 10 => feed.(emaPrice := v)
             case _ => feed.(emaConfidence := v), next)
  }

  function StepWord(data: Bytes, pos: nat, feed: Feed, id: byte): Parse<Feed> {
    match ReadU16(LE, data, pos)
    case Failed => Failed
    case Parsed(raw, next) =>
      match id
      case 3 => Parsed(feed.(publisherCount := Some(raw)), next)
      case 4 => Parsed(feed.(exponent := Some(Signed(raw, M16))), next)
      case _ =>
        match ParseMarketSession(raw)
        case None => Failed
        case Some(s) => Parsed(feed.(marketSession := Some(s)), next)
  }

  function StepFlagged(data: Bytes, pos: nat, feed: Feed, id: byte): Parse<Feed> {
    match Flagged(data, pos)
    case Failed => Failed
    case Parsed(None, next) => Parsed(feed, next)
    case Parsed(Some(n), next) =>
      Parsed(match id
             case 6 => feed.(fundingRate := Some(Signed(n, M64)))
             case 7 => feed.(fundingTimestamp := Some(n))
             case 8 => feed.(fundingRateInterval := Some(n))
             case _ => feed.(feedUpdateTimestamp := Some(n)), next)
  }

  /** One property read into `feed`. */
  function StepProperty(data: Bytes, pos: nat, feed: Feed): Parse<Feed> {
    if pos >= |data| then Failed
    else
      match data[pos]
      case 3 => StepWord(data, pos + 1, feed, 3)
      case 4 => StepWord(data, pos + 1, feed, 4)
      case 9 => StepWord(data, pos + 1, feed, 9)
      case 6 => StepFlagged(data, pos + 1, feed, 6)
      case 7 => StepFlagged(data, pos + 1, feed, 7)
      case 8 => StepFlagged(data, pos + 1, feed, 8)
      case 12 => StepFlagged(data, pos + 1, feed, 12)
      case id => if id > 12 then Failed else StepPrice(data, pos + 1, feed, id)
  }

  function PropertyStep(data: Bytes): (nat, Feed) -> Parse<Feed> {
    (pos: nat, feed: Feed) => StepProperty(data, pos, feed)
  }

  function ParseFeedAt(data: Bytes, pos: nat): Parse<Feed> {
    match ReadUint(LE, data, pos, 4)
    case Failed => Failed
    case Parsed(id, p) =>
      if p >= |data| then Failed else Steps(PropertyStep(data), p + 1, BlankFeed(id), data[p])
  }

  function StellarFeeds(data: Bytes): nat -> Parse<Feed> {
    (pos: nat) => ParseFeedAt(data, pos)
  }

  function ParsePayloadOf(data: Bytes): Option<Update> {
    match ReadUint(LE, data, 0, 4)
    case Failed => None
    case Parsed(magic, _) =>
      if magic != PAYLOAD_MAGIC then None
      else
        match ReadU64(LE, data, 4)
        case Failed => None
        case Parsed(time, _) =>
          if |data| < 13 then None
          else
            match ParseChannel(data[12])
            case None => None
            case Some(channel) =>
              if |data| < 14 then None
              else
                match Many(StellarFeeds(data), 14, data[13])
                case Failed => None
                case Parsed(feeds, end) => if end < |data| then None else Some(Update(time, channel, feeds))
  }

  // ----- The reader object and the parser that drives it -----

  lemma {:induction false} FromLEAppend(a: Bytes, b: byte)
    ensures FromLE(a + [b]) == FromLE(a) + b * Pow256(|a|)
  {
    if a == [] {
      assert a + [b] == [b] && [b][1..] == [];
    } else {
      FromLEAppend(a[1..], b);
      assert (a + [b])[1..] == a[1..] + [b];
      assert 256 * (b * Pow256(|a| - 1)) == b * Pow256(|a|);
    }
  }

  class Reader {
    const data: Bytes
    var offset: nat

    constructor (data: Bytes)
      ensures this.data == data && offset == 0
    {
      this.data := data;
      offset := 0;
    }

    function Remaining(): nat
      reads this
    {
      if offset < |data| then |data| - offset else 0
    }

    method ReadU8() returns (r: Option<byte>)
      modifies this
      ensures old(offset) >= |data| ==> r == None && offset == old(offset)
      ensures old(offset) < |data| ==> r == Some(data[old(offset)]) && offset == old(offset) + 1
    {
      if offset >= |data| {
        return None;
      }
      var b := data[offset];
      offset := offset + 1;
      return Some(b);
    }

    method ReadLeU16() returns (r: Option<nat>)
      modifies this
      ensures match ReadU16(LE, data, old(offset))
              case Failed => r == None && offset == old(offset)
              case Parsed(n, next) => r == Some(n) && offset == next
    {
      if Remaining() < 2 {
        return None;
      }
      LeReadersAgree(data, offset);
      r := B.ReadLeU16(data, offset);
      offset := offset + 2;
    }

    method ReadLeU32() returns (r: Option<nat>)
      modifies this
      ensures match ReadUint(LE, data, old(offset), 4)
              case Failed => r == None && offset == old(offset)
              case Parsed(n, next) => r == Some(n) && offset == next
    {
      if Remaining() < 4 {
        return None;
      }
      LeReadersAgree(data, offset);
      r := B.ReadLeU32(data, offset);
      offset := offset + 4;
    }

    /** Accumulates eight bytes, each shifted to its place. */
    method ReadLeU64() returns (r: Option<nat>)
      modifies this
      ensures match ReadU64(LE, data, old(offset))
              case Failed => r == None && offset == old(offset)
              case Parsed(n, next) => r == Some(n) && offset == next
    {
      if Remaining() < 8 {
        return None;
      }
      var val: nat := 0;
      var i := 0;
      while i < 8
        invariant 0 <= i <= 8 && offset == old(offset)
        invariant val == FromLE(data[offset..offset + i])
      {
        FromLEAppend(data[offset..offset + i], data[offset + i]);
        assert data[offset..offset + i + 1] == data[offset..offset + i] + [data[offset + i]];
        val := val + data[offset + i] * Pow256(i);
        i := i + 1;
      }
      offset := offset + 8;
      return Some(val);
    }
  }

  method ReadOptionalI64(reader: Reader) returns (ok: bool, v: Option<int>)
    modifies reader
    ensures match OptionalI64(reader.data, old(reader.offset))
            case Failed => !ok
            case Parsed(x, next) => ok && v == x && reader.offset == next
  {
    var raw := reader.ReadLeU64();
    match raw
    case None => return false, None;
    case Some(n) => return true, if n == 0 then None else Some(Signed(n, M64));
  }

  method ReadFlaggedU64(reader: Reader) returns (ok: bool, v: Option<u64>)
    modifies reader
    ensures match Flagged(reader.data, old(reader.offset))
            case Failed => !ok
            case Parsed(x, next) => ok && v == x && reader.offset == next
  {
    var flag := reader.ReadU8();
    if flag.None? {
      return false, None;
    }
    if flag.value == 0 {
      return true, None;
    }
    var raw := reader.ReadLeU64();
    match raw
    case None => return false, None;
    case Some(n) => return true, Some(n);
  }

  /** One iteration of the property loop of `parse_feed`. */
  method ParseProperty(reader: Reader, feed: Feed) returns (r: Option<Feed>)
    modifies reader
    ensures match PropertyStep(reader.data)(old(reader.offset), feed)
            case Failed => r == None
            case Parsed(f, next) => r == Some(f) && reader.offset == next
  {
    var id := reader.ReadU8();
    if id.None? || id.value > 12 {
      return None;
    }
    match id.value {
      case 3 =>
        var raw := reader.ReadLeU16();
        if raw.None? { return None; }
        return Some(feed.(publisherCount := Some(raw.value)));
      case 4 =>
        var raw := reader.ReadLeU16();
        if raw.None? { return None; }
        return Some(feed.(exponent := Some(Signed(raw.value, M16))));
      case 9 =>
        var raw := reader.ReadLeU16();
        if raw.None? { return None; }
        var session := ParseMarketSession(raw.value);
        if session.None? { return None; }
        return Some(feed.(marketSession := session));
      case 6 =>
        var ok, v := ReadFlaggedU64(reader);
        if !ok { return None; }
        return Some(if v.Some? then feed.(fundingRate := Some(Signed(v.value, M64))) else feed);
      case 7 =>
        var ok, v := ReadFlaggedU64(reader);
        if !ok { return None; }
        return Some(if v.Some? then feed.(fundingTimestamp := Some(v.value)) else feed);
      case 8 =>
        var ok, v := ReadFlaggedU64(reader);
        if !ok { return None; }
        return Some(if v.Some? then feed.(fundingRateInterval := Some(v.value)) else feed);
      case 12 =>
        var ok, v := ReadFlaggedU64(reader);
        if !ok { return None; }
        return Some(if v.Some? then feed.(feedUpdateTimestamp := Some(v.value)) else feed);
      case id =>
        var ok, v := ReadOptionalI64(reader);
        if !ok { return None; }
        match id
        case 0 => return Some(feed.(price := v));
        case 1 => return Some(feed.(bestBidPrice := v));
        case 2 => return Some(feed.(bestAskPrice := v));
        case 5 => return Some(feed.(confidence := v));
        case 10 => return Some(feed.(emaPrice := v));
        case _ => return Some(feed.(emaConfidence := v));
    }
  }

  /** `parse_feed` */
  method ParseFeed(reader: Reader) returns (r: Option<Feed>)
    modifies reader
    ensures match StellarFeeds(reader.data)(old(reader.offset))
            case Failed => r == None
            case Parsed(f, next) => r == Some(f) && reader.offset == next
  {
    var id := reader.ReadLeU32();
    if id.None? {
      return None;
    }
    var n := reader.ReadU8();
    if n.None? {
      return None;
    }
    var feed := BlankFeed(id.value);
    ghost var start := reader.offset;
    var i := 0;
    while i < n.value
      invariant 0 <= i <= n.value
      invariant Steps(PropertyStep(reader.data), start, BlankFeed(id.value), i) == Parsed(feed, reader.offset)
    {
      StepsNext(PropertyStep(reader.data), start, BlankFeed(id.value), i, feed, reader.offset);
      var next := ParseProperty(reader, feed);
      if next.None? {
        StepsFail(PropertyStep(reader.data), start, BlankFeed(id.value), i + 1, n.value);
        return None;
      }
      feed := next.value;
      i := i + 1;
    }
    return Some(feed);
  }

  /** The feed loop of `parse_payload`. */
  method ParseFeeds(reader: Reader, numFeeds: nat) returns (r: Option<seq<Feed>>)
    modifies reader
    ensures match Many(StellarFeeds(reader.data), old(reader.offset), numFeeds)
            case Failed => r == None
            case Parsed(feeds, end) => r == Some(feeds) && reader.offset == end
  {
    var feeds: seq<Feed> := [];
    var i := 0;
    while i < numFeeds
      invariant 0 <= i <= numFeeds
      invariant Many(StellarFeeds(reader.data), old(reader.offset), i) == Parsed(feeds, reader.offset)
    {
      ManyNext(StellarFeeds(reader.data), old(reader.offset), i, feeds, reader.offset);
      var feed := ParseFeed(reader);
      if feed.None? {
        ManyFails(StellarFeeds(reader.data), old(reader.offset), i + 1, numFeeds);
        return None;
      }
      feeds := feeds + [feed.value];
      i := i + 1;
    }
    return Some(feeds);
  }

  /** `parse_payload` */
  method ParsePayload(payload: Bytes) returns (r: Option<Update>)
    ensures r == ParsePayloadOf(payload)
  {
    var reader := new Reader(payload);
    var magic := reader.ReadLeU32();
    if magic.None? || magic.value != PAYLOAD_MAGIC {
      return None;
    }
    var timestamp := reader.ReadLeU64();
    if timestamp.None? {
      return None;
    }
    var channelValue := reader.ReadU8();
    if channelValue.None? {
      return None;
    }
    var channel := ParseChannel(channelValue.value);
    if channel.None? {
      return None;
    }
    var numFeeds := reader.ReadU8();
    if numFeeds.None? {
      return None;
    }
    var feeds := ParseFeeds(reader, numFeeds.value);
    if feeds.None? || reader.Remaining() != 0 {
      return None;
    }
    return Some(Update(timestamp.value, channel.value, feeds.value));
  }

  // ----- Agreement with the protocol crate's decoder -----

  /** How one property value changes a feed: an absent zero-coded value clears its field,
      an absent flagged value leaves the field alone. */
  function Apply(feed: Feed, v: PropertyValue): Feed {
    match v
    case PriceV(p) => feed.(price := p)
    case BestBidPriceV(p) => feed.(bestBidPrice := p)
    case BestAskPriceV(p) => feed.(bestAskPrice := p)
    case PublisherCountV(c) => feed.(publisherCount := Some(c))
    case ExponentV(e) => feed.(exponent := Some(e))
    case ConfidenceV(p) => feed.(confidence := p)
    case FundingRateV(rate) => if rate.Some? then feed.(fundingRate := rate) else feed
    case FundingTimestampV(t) => if t.Some? then feed.(fundingTimestamp := t) else feed
    case FundingRateIntervalV(t) => if t.Some? then feed.(fundingRateInterval := t) else feed
    case MarketSessionV(s) => feed.(marketSession := Some(s))
    case EmaPriceV(p) => feed.(emaPrice := p)
    case EmaConfidenceV(p) => feed.(emaConfidence := p)
    case FeedUpdateTimestampV(t) => if t.Some? then feed.(feedUpdateTimestamp := t) else feed
  }

  /** The feed a list of property values describes, applied in order. */
  function FoldValues(feed: Feed, vs: seq<PropertyValue>): Feed {
    if vs == [] then feed else Apply(FoldValues(feed, vs[..|vs| - 1]), vs[|vs| - 1])
  }

  function FeedOf(f: FeedData): Feed {
    FoldValues(BlankFeed(f.feedId), f.properties)
  }

  /** The Stellar decoder's channel is the protocol's channel of the same id, at the same rate. */
  ghost predicate SameChannel(channel: Channel, c: ProtocolChannel) {
    channel.Milliseconds() == match c case AsFastAsPossible => None case FixedRate(ms) => Some(ms)
  }

  lemma ChannelsAgree(id: byte)
    ensures ParseChannel(id).Some? <==> ChannelOf(id).Some?
    ensures ParseChannel(id).Some? ==> SameChannel(ParseChannel(id).value, ChannelOf(id).value)
  {
  }

  lemma OneChannel(a: Channel, b: Channel, c: ProtocolChannel)
    requires SameChannel(a, c) && SameChannel(b, c)
    ensures a == b
  {
  }

  lemma SessionsAgree(raw: u16)
    ensures ParseMarketSession(raw) == SessionOf(Signed(raw, M16))
  {
  }

  lemma PropertyAgrees(data: Bytes, pos: nat, feed: Feed)
    ensures StepProperty(data, pos, feed) ==
            match ReadValue(LE, data, pos)
            case Failed => Failed
            case Parsed(v, next) => Parsed(Apply(feed, v), next)
  {
    if pos < |data| && data[pos] == 9 {
      match ReadU16(LE, data, pos + 1)
      case Failed =>
      case Parsed(raw, _) => SessionsAgree(raw);
    }
  }

  lemma {:induction false} PropertiesAgree(data: Bytes, pos: nat, feed: Feed, n: nat)
    ensures Steps(PropertyStep(data), pos, feed, n) ==
            match Many(ValueReader(LE, data), pos, n)
            case Failed => Failed
            case Parsed(vs, next) => Parsed(FoldValues(feed, vs), next)
  {
    if n > 0 {
      PropertiesAgree(data, pos, feed, n - 1);
      match Many(ValueReader(LE, data), pos, n - 1)
      case Failed =>
      case Parsed(vs, p) =>
        PropertyAgrees(data, p, FoldValues(feed, vs));
        match ReadValue(LE, data, p)
        case Failed =>
        case Parsed(v, _) => assert (vs + [v])[..|vs|] == vs;
    }
  }

  lemma FeedAgrees(data: Bytes, pos: nat)
    ensures ParseFeedAt(data, pos) ==
            match ReadFeed(LE, data, pos)
            case Failed => Failed
            case Parsed(f, next) => Parsed(FeedOf(f), next)
  {
    match ReadUint(LE, data, pos, 4)
    case Failed =>
    case Parsed(id, p) =>
      if p < |data| {
        PropertiesAgree(data, p + 1, BlankFeed(id), data[p]);
      }
  }

  function FeedsOf(fs: seq<FeedData>): seq<Feed> {
    seq(|fs|, i requires 0 <= i < |fs| => FeedOf(fs[i]))
  }

  lemma {:induction false} FeedsAgree(data: Bytes, pos: nat, n: nat)
    ensures Many(StellarFeeds(data), pos, n) ==
            match Many(FeedReader(LE, data), pos, n)
            case Failed => Failed
            case Parsed(fs, next) => Parsed(FeedsOf(fs), next)
  {
    if n == 0 {
      assert FeedsOf([]) == [];
    } else {
      FeedsAgree(data, pos, n - 1);
      match Many(FeedReader(LE, data), pos, n - 1)
      case Failed =>
      case Parsed(fs, p) =>
        FeedAgrees(data, p);
        match ReadFeed(LE, data, p)
        case Failed =>
        case Parsed(f, _) => assert FeedsOf(fs + [f]) == FeedsOf(fs) + [FeedOf(f)];
    }
  }

  lemma ParsedByBoth(data: Bytes)
    ensures ParsePayloadOf(data) ==
            match ReadPayload(LE, data)
            case Failed => None
            case Parsed(d, end) =>
              if end < |data| then None
              else
                match ParseChannel(d.channelId)
                case None => None
                case Some(channel) => Some(Update(d.timestampUs, channel, FeedsOf(d.feeds)))
  {
    if |data| >= 14 {
      FeedsAgree(data, 14, data[13]);
    }
  }

  /** What the protocol decoder's result is for a Stellar consumer. */
  ghost predicate SameUpdate(d: PayloadData, u: Update) {
    && u.timestamp == d.timestampUs
    && ChannelOf(d.channelId).Some? && SameChannel(u.channel, ChannelOf(d.channelId).value)
    && u.feeds == FeedsOf(d.feeds)
  }

  /** Independent decoders agree, on every byte string: the Stellar parser returns an update if and only if the protocol
      decoder succeeds, consumes everything and finds a channel the protocol knows; and then the update has that
      channel, that timestamp, and for feeds the in-order folds of the decoded property values. */
  lemma DecodersAgree(data: Bytes, u: Update)
    ensures ParsePayloadOf(data) == Some(u) <==>
            match ReadPayload(LE, data)
            case Failed => false
            case Parsed(d, end) => end >= |data| && SameUpdate(d, u)
  {
    ParsedByBoth(data);
    match ReadPayload(LE, data)
    case Failed =>
    case Parsed(d, _) =>
      ChannelsAgree(d.channelId);
      var channel := ParseChannel(d.channelId);
      if channel.Some? && ChannelOf(d.channelId).Some? && SameChannel(u.channel, ChannelOf(d.channelId).value) {
        OneChannel(u.channel, channel.value, ChannelOf(d.channelId).value);
      }
  }
}
