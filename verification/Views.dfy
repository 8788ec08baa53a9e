/** Three views of one update: the signed payload, the JSON "parsed" form and the Stellar SDK's
    decoded form (`payload/standard.rs`, `api.rs` and the Stellar SDK's `payload.rs`). */
module Views {
  import opened Outcomes
  import opened Bytes
  import opened Payload
  import opened StellarSdk

  /** The aggregate a payload is built from, without its publisher lists. */
  datatype Aggregated = Aggregated(
    price: Option<Price>, bestBidPrice: Option<Price>, bestAskPrice: Option<Price>,
    publisherCount: u16, exponent: i16, confidence: Option<Price>,
    fundingRate: Option<i64>, fundingTimestamp: Option<u64>, fundingRateInterval: Option<u64>,
    marketSession: MarketSession, emaPrice: Option<Price>, emaConfidence: Option<Price>,
    feedUpdateTimestamp: Option<u64>)

  /** The JSON form of a feed. */
  datatype ParsedFeed = ParsedFeed(
    priceFeedId: u32, price: Option<Price>, bestBidPrice: Option<Price>, bestAskPrice: Option<Price>,
    publisherCount: Option<u16>, exponent: Option<i16>, confidence: Option<Price>,
    fundingRate: Option<i64>, fundingTimestamp: Option<u64>, fundingRateInterval: Option<u64>,
    marketSession: Option<MarketSession>, emaPrice: Option<Price>, emaConfidence: Option<Price>,
    feedUpdateTimestamp: Option<u64>)

  /** The payload value of one requested property. */
  function ValueFor(property: Property, a: Aggregated): PropertyValue {
    match property
    case Price => PriceV(a.price)
    case BestBidPrice => BestBidPriceV(a.bestBidPrice)
    case BestAskPrice => BestAskPriceV(a.bestAskPrice)
    case PublisherCount => PublisherCountV(a.publisherCount)
    case Exponent => ExponentV(a.exponent)
    case Confidence => ConfidenceV(a.confidence)
    case FundingRate => FundingRateV(a.fundingRate)
    case FundingTimestamp => FundingTimestampV(a.fundingTimestamp)
    case FundingRateInterval => FundingRateIntervalV(a.fundingRateInterval)
    case MarketSession => MarketSessionV(a.marketSession)
    case EmaPrice => EmaPriceV(a.emaPrice)
    case EmaConfidence => EmaConfidenceV(a.emaConfidence)
    case FeedUpdateTimestamp => FeedUpdateTimestampV(a.feedUpdateTimestamp)
  }

  function ValuesFor(a: Aggregated, requested: seq<Property>): seq<PropertyValue> {
    seq(|requested|, j requires 0 <= j < |requested| => ValueFor(requested[j], a))
  }

  /** `PayloadData::new` */
  function NewPayload(time: u64, channel: byte, feeds: seq<(u32, Aggregated)>, requested: seq<Property>): PayloadData {
    PayloadData(time, channel,
                seq(|feeds|, i requires 0 <= i < |feeds| => FeedData(feeds[i].0, ValuesFor(feeds[i].1, requested))))
  }

  function Given<T>(p: bool, v: T): Option<T> {
    if p then Some(v) else None
  }

  function Kept<T>(p: bool, v: Option<T>): Option<T> {
    if p then v else None
  }

  /** Each field holds the aggregate's value if its property was requested, and nothing otherwise. */
  function ParsedView(id: u32, a: Aggregated, requested: seq<Property>): ParsedFeed {
    Selected(id, a, Asked(requested))
  }

  function Asked(requested: seq<Property>): set<Property> {
    set p | p in requested
  }

  lemma AskedOneMore(requested: seq<Property>, p: Property)
    ensures Asked(requested + [p]) == Asked(requested) + {p}
  {
  }

  function Selected(id: u32, a: Aggregated, asked: set<Property>): ParsedFeed {
    ParsedFeed(
      id, Kept(Property.Price in asked, a.price), Kept(BestBidPrice in asked, a.bestBidPrice),
      Kept(BestAskPrice in asked, a.bestAskPrice), Given(PublisherCount in asked, a.publisherCount),
      Given(Exponent in asked, a.exponent), Kept(Confidence in asked, a.confidence),
      Kept(FundingRate in asked, a.fundingRate), Kept(FundingTimestamp in asked, a.fundingTimestamp),
      Kept(FundingRateInterval in asked, a.fundingRateInterval),
      Given(Property.MarketSession in asked, a.marketSession), Kept(EmaPrice in asked, a.emaPrice),
      Kept(EmaConfidence in asked, a.emaConfidence), Kept(FeedUpdateTimestamp in asked, a.feedUpdateTimestamp))
  }

  /** The assignment one requested property makes. */
  function Assigned(f: ParsedFeed, property: Property, a: Aggregated): ParsedFeed {
    match property
    case Price => f.(price := a.price)
    case BestBidPrice => f.(bestBidPrice := a.bestBidPrice)
    case BestAskPrice => f.(bestAskPrice := a.bestAskPrice)
    case PublisherCount => f.(publisherCount := Some(a.publisherCount))
    case Exponent => f.(exponent := Some(a.exponent))
    case Confidence => f.(confidence := a.confidence)
    case FundingRate => f.(fundingRate := a.fundingRate)
    case FundingTimestamp => f.(fundingTimestamp := a.fundingTimestamp)
    case FundingRateInterval => f.(fundingRateInterval := a.fundingRateInterval)
    case MarketSession => f.(marketSession := Some(a.marketSession))
    case EmaPrice => f.(emaPrice := a.emaPrice)
    case EmaConfidence => f.(emaConfidence := a.emaConfidence)
    case FeedUpdateTimestamp => f.(feedUpdateTimestamp := a.feedUpdateTimestamp)
  }

  predicate IsPrice(p: Property) {
    p.Price? || p.BestBidPrice? || p.BestAskPrice? || p.Confidence? || p.EmaPrice? || p.EmaConfidence?
  }

  lemma AssignedPrice(id: u32, a: Aggregated, asked: set<Property>, property: Property)
    requires IsPrice(property)
    ensures Assigned(Selected(id, a, asked), property, a) == Selected(id, a, asked + {property})
  {
    var f, g := Selected(id, a, asked), Selected(id, a, asked + {property});
    match property
    case Price => assert g == f.(price := a.price);
    case BestBidPrice => assert g == f.(bestBidPrice := a.bestBidPrice);
    case BestAskPrice => assert g == f.(bestAskPrice := a.bestAskPrice);
    case Confidence => assert g == f.(confidence := a.confidence);
    case EmaPrice => assert g == f.(emaPrice := a.emaPrice);
    case EmaConfidence => assert g == f.(emaConfidence := a.emaConfidence);
  }

  lemma AssignedOther(id: u32, a: Aggregated, asked: set<Property>, property: Property)
    requires !IsPrice(property)
    ensures Assigned(Selected(id, a, asked), property, a) == Selected(id, a, asked + {property})
  {
    var f, g := Selected(id, a, asked), Selected(id, a, asked + {property});
    match property
    case PublisherCount => assert g == f.(publisherCount := Some(a.publisherCount));
    case Exponent => assert g == f.(exponent := Some(a.exponent));
    case FundingRate => assert g == f.(fundingRate := a.fundingRate);
    case FundingTimestamp => assert g == f.(fundingTimestamp := a.fundingTimestamp);
    case FundingRateInterval => assert g == f.(fundingRateInterval := a.fundingRateInterval);
    case MarketSession => assert g == f.(marketSession := Some(a.marketSession));
    case FeedUpdateTimestamp => assert g == f.(feedUpdateTimestamp := a.feedUpdateTimestamp);
  }

  lemma AssignedIsSelected(id: u32, a: Aggregated, asked: set<Property>, property: Property)
    ensures Assigned(Selected(id, a, asked), property, a) == Selected(id, a, asked + {property})
  {
    if IsPrice(property) {
      AssignedPrice(id, a, asked, property);
    } else {
      AssignedOther(id, a, asked, property);
    }
  }

  /** `ParsedFeedPayload::new`: assigns the requested fields one by one. */
  method NewParsedFeed(id: u32, a: Aggregated, requested: seq<Property>) returns (output: ParsedFeed)
    ensures output == ParsedView(id, a, requested)
  {
    output := ParsedFeed(id, None, None, None, None, None, None, None, None, None, None, None, None, None);
    var i := 0;
    while i < |requested|
      invariant 0 <= i <= |requested|
      invariant output == ParsedView(id, a, requested[..i])
    {
      assert requested[..i + 1] == requested[..i] + [requested[i]];
      AskedOneMore(requested[..i], requested[i]);
      AssignedIsSelected(id, a, Asked(requested[..i]), requested[i]);
      output := Assigned(output, requested[i], a);
      i := i + 1;
    }
    assert requested[..i] == requested;
  }

  /** `TryFrom<(PriceFeedProperty, &ParsedFeedPayload)>`: a property value rebuilt from the JSON form. */
  function Rebuilt(property: Property, f: ParsedFeed): Result<PropertyValue> {
    match property
    case Price => Ok(PriceV(f.price))
    case BestBidPrice => Ok(BestBidPriceV(f.bestBidPrice))
    case BestAskPrice => Ok(BestAskPriceV(f.bestAskPrice))
    case PublisherCount => (match f.publisherCount case None => Err case Some(c) => Ok(PublisherCountV(c)))
    case Exponent => (match f.exponent case None => Err case Some(e) => Ok(ExponentV(e)))
    case Confidence => Ok(ConfidenceV(f.confidence))
    case FundingRate => Ok(FundingRateV(f.fundingRate))
    case FundingTimestamp => Ok(FundingTimestampV(f.fundingTimestamp))
    case FundingRateInterval => Ok(FundingRateIntervalV(f.fundingRateInterval))
    case MarketSession => (match f.marketSession case None => Err case Some(s) => Ok(MarketSessionV(s)))
    case EmaPrice => Ok(EmaPriceV(f.emaPrice))
    case EmaConfidence => Ok(EmaConfidenceV(f.emaConfidence))
    case FeedUpdateTimestamp => Ok(FeedUpdateTimestampV(f.feedUpdateTimestamp))
  }

  /** Rebuilding from the JSON form gives back the signed value of every requested property; for a property
      that was not requested it fails exactly when the value is one that is always present. */
  lemma RebuiltIsSigned(property: Property, id: u32, a: Aggregated, requested: seq<Property>)
    ensures property in requested ==> Rebuilt(property, ParsedView(id, a, requested)) == Ok(ValueFor(property, a))
    ensures Rebuilt(property, ParsedView(id, a, requested)).Err? <==>
            property !in requested && (property.PublisherCount? || property.Exponent? || property.MarketSession?)
  {
  }

  /** The JSON form with the Stellar SDK's field names and types. */
  function AsStellar(f: ParsedFeed): Feed {
    Feed(f.priceFeedId, f.price, f.bestBidPrice, f.bestAskPrice, f.publisherCount, f.exponent, f.confidence,
         f.fundingRate, f.fundingTimestamp, f.fundingRateInterval, f.marketSession, f.emaPrice, f.emaConfidence,
         f.feedUpdateTimestamp)
  }

  lemma OneMorePrice(id: u32, a: Aggregated, asked: set<Property>, p: Property)
    requires IsPrice(p)
    ensures Apply(AsStellar(Selected(id, a, asked)), ValueFor(p, a)) == AsStellar(Selected(id, a, asked + {p}))
  {
    var f, g := AsStellar(Selected(id, a, asked)), AsStellar(Selected(id, a, asked + {p}));
    match p
    case Price => assert g == f.(price := a.price);
    case BestBidPrice => assert g == f.(bestBidPrice := a.bestBidPrice);
    case BestAskPrice => assert g == f.(bestAskPrice := a.bestAskPrice);
    case Confidence => assert g == f.(confidence := a.confidence);
    case EmaPrice => assert g == f.(emaPrice := a.emaPrice);
    case EmaConfidence => assert g == f.(emaConfidence := a.emaConfidence);
  }

  lemma OneMoreOther(id: u32, a: Aggregated, asked: set<Property>, p: Property)
    requires !IsPrice(p)
    ensures Apply(AsStellar(Selected(id, a, asked)), ValueFor(p, a)) == AsStellar(Selected(id, a, asked + {p}))
  {
    var f, g := AsStellar(Selected(id, a, asked)), AsStellar(Selected(id, a, asked + {p}));
    match p
    case PublisherCount => assert g == f.(publisherCount := Some(a.publisherCount));
    case Exponent => assert g == f.(exponent := Some(a.exponent));
    case FundingRate => assert g == f.(fundingRate := a.fundingRate);
    case FundingTimestamp => assert g == f.(fundingTimestamp := a.fundingTimestamp);
    case FundingRateInterval => assert g == f.(fundingRateInterval := a.fundingRateInterval);
    case MarketSession => assert g == f.(marketSession := Some(a.marketSession));
    case FeedUpdateTimestamp => assert g == f.(feedUpdateTimestamp := a.feedUpdateTimestamp);
  }

  /** Asking for one more property changes the JSON form as its payload value changes a Stellar feed. */
  lemma OneMoreProperty(id: u32, a: Aggregated, asked: set<Property>, p: Property)
    ensures Apply(AsStellar(Selected(id, a, asked)), ValueFor(p, a)) == AsStellar(Selected(id, a, asked + {p}))
  {
    if IsPrice(p) {
      OneMorePrice(id, a, asked, p);
    } else {
      OneMoreOther(id, a, asked, p);
    }
  }

  lemma {:induction false} FoldIsParsedView(id: u32, a: Aggregated, requested: seq<Property>)
    ensures FoldValues(BlankFeed(id), ValuesFor(a, requested)) == AsStellar(ParsedView(id, a, requested))
  {
    if requested != [] {
      var n := |requested| - 1;
      FoldIsParsedView(id, a, requested[..n]);
      assert ValuesFor(a, requested)[..n] == ValuesFor(a, requested[..n]);
      assert requested[..n] + [requested[n]] == requested;
      AskedOneMore(requested[..n], requested[n]);
      OneMoreProperty(id, a, Asked(requested[..n]), requested[n]);
    }
  }

  lemma FeedsAreViews(time: u64, channel: byte, feeds: seq<(u32, Aggregated)>, requested: seq<Property>)
    ensures FeedsOf(NewPayload(time, channel, feeds, requested).feeds) ==
            seq(|feeds|, i requires 0 <= i < |feeds| => AsStellar(ParsedView(feeds[i].0, feeds[i].1, requested)))
  {
    var d := NewPayload(time, channel, feeds, requested);
    var views := seq(|feeds|, i requires 0 <= i < |feeds| => AsStellar(ParsedView(feeds[i].0, feeds[i].1, requested)));
    forall i | 0 <= i < |feeds|
      ensures FeedsOf(d.feeds)[i] == views[i]
    {
      FoldIsParsedView(feeds[i].0, feeds[i].1, requested);
    }
  }

  /** A Stellar update shows, for the given time and channel, exactly the JSON forms of the feeds. */
  ghost predicate Shows(u: Update, time: u64, c: ProtocolChannel, feeds: seq<(u32, Aggregated)>,
                        requested: seq<Property>) {
    && u.timestamp == time && SameChannel(u.channel, c) && |u.feeds| == |feeds|
    && forall i :: 0 <= i < |feeds| ==> u.feeds[i] == AsStellar(ParsedView(feeds[i].0, feeds[i].1, requested))
  }

  /** Three views agree: for all aggregated data, every channel of the protocol and every property list within the
      one-byte counts, Stellar-parsing the signed little-endian payload gives that channel and exactly the fields of the
      JSON form, and the signed values can be rebuilt from that form. */
  lemma ThreeViewsAgree(time: u64, c: ProtocolChannel, id: byte, feeds: seq<(u32, Aggregated)>,
                        requested: seq<Property>)
    requires |feeds| < 256 && |requested| < 256 && ChannelId(c) == Some(id)
    ensures var d := NewPayload(time, id, feeds, requested);
            && EncodePayload(LE, d).Ok?
            && var u := ParsePayloadOf(EncodePayload(LE, d).value);
               u.Some? && Shows(u.value, time, c, feeds, requested)
    ensures forall i, j :: 0 <= i < |feeds| && 0 <= j < |requested| ==>
              Rebuilt(requested[j], ParsedView(feeds[i].0, feeds[i].1, requested))
              == Ok(NewPayload(time, id, feeds, requested).feeds[i].properties[j])
  {
    var d := NewPayload(time, id, feeds, requested);
    var e := EncodePayload(LE, d).value;
    assert e + [] == e;
    PayloadRoundTrip(LE, d, []);
    ChannelIdExactly(c, id);
    ChannelsAgree(id);
    ParsedByBoth(e);
    FeedsAreViews(time, id, feeds, requested);
    forall i, j | 0 <= i < |feeds| && 0 <= j < |requested|
      ensures Rebuilt(requested[j], ParsedView(feeds[i].0, feeds[i].1, requested)) == Ok(d.feeds[i].properties[j])
    {
      RebuiltIsSigned(requested[j], feeds[i].0, feeds[i].1, requested);
    }
  }
}
