/** The resilient Hermes WebSocket client: stored subscriptions, replay after a reconnect, and what the
    server then holds (`resilient_hermes_ws_connection.rs`). */
module Hermes {
  import opened Outcomes

  type PriceId = string

  datatype SubscriptionOptions = SubscriptionOptions(
    verbose: bool, binary: bool, allowOutOfOrder: bool, ignoreInvalidPriceIds: bool)

  datatype ClientMessage =
    | Subscribe(ids: seq<PriceId>, options: SubscriptionOptions)
    | Unsubscribe(ids: seq<PriceId>)

  // ----- The stored list -----

  function Filter(ids: seq<PriceId>, removed: seq<PriceId>): seq<PriceId> {
    if ids == [] then []
    else
      var rest, last := Filter(ids[..|ids| - 1], removed), ids[|ids| - 1];
      if last in removed then rest else rest + [last]
  }

  function RemoveIds(sub: ClientMessage, removed: seq<PriceId>): ClientMessage {
    if sub.Subscribe? then sub.(ids := Filter(sub.ids, removed)) else sub
  }

  /** The stored subscriptions without the removed ids; subscriptions left empty are dropped. */
  function Kept(subs: seq<ClientMessage>, removed: seq<PriceId>): seq<ClientMessage> {
    if subs == [] then []
    else
      var rest, last := Kept(subs[..|subs| - 1], removed), RemoveIds(subs[|subs| - 1], removed);
      if last.ids == [] then rest else rest + [last]
  }

  function Stored(subs: seq<ClientMessage>, request: ClientMessage): seq<ClientMessage> {
    Kept(subs, request.ids) + (if request.Subscribe? then [request] else [])
  }

  class ConnectionTask {
    var subscriptions: seq<ClientMessage>

    constructor ()
      ensures subscriptions == []
    {
      subscriptions := [];
    }

    /** The editing part of `handle_request`: strip the ids, drop what became empty, add a subscribe request. */
    method RecordRequest(request: ClientMessage)
      modifies this
      ensures subscriptions == Stored(old(subscriptions), request)
    {
      var i := 0;
      var kept: seq<ClientMessage> := [];
      while i < |subscriptions|
        invariant 0 <= i <= |subscriptions| && |subscriptions| == |old(subscriptions)|
        invariant forall k :: i <= k < |subscriptions| ==> subscriptions[k] == old(subscriptions)[k]
        invariant kept == Kept(old(subscriptions)[..i], request.ids)
      {
        assert old(subscriptions)[..i + 1][..i] == old(subscriptions)[..i];
        var stripped := Strip(subscriptions[i], request.ids);
        subscriptions := subscriptions[i := stripped];
        if stripped.ids != [] {
          kept := kept + [stripped];
        }
        i := i + 1;
      }
      assert old(subscriptions)[..i] == old(subscriptions);
      subscriptions := kept;
      if request.Subscribe? {
        subscriptions := subscriptions + [request];
      }
    }
  }

  /** `remove_ids_from_subscription` */
  method Strip(sub: ClientMessage, removed: seq<PriceId>) returns (r: ClientMessage)
    ensures r == RemoveIds(sub, removed)
  {
    if sub.Unsubscribe? {
      return sub;
    }
    var ids: seq<PriceId> := [];
    var i := 0;
    while i < |sub.ids|
      invariant 0 <= i <= |sub.ids| && ids == Filter(sub.ids[..i], removed)
    {
      assert sub.ids[..i + 1][..i] == sub.ids[..i];
      if sub.ids[i] !in removed {
        ids := ids + [sub.ids[i]];
      }
      i := i + 1;
    }
    assert sub.ids[..i] == sub.ids;
    return sub.(ids := ids);
  }

  lemma {:induction false} FilterKeeps(ids: seq<PriceId>, removed: seq<PriceId>)
    ensures forall x :: x in Filter(ids, removed) <==> x in ids && x !in removed
  {
    if ids != [] {
      FilterKeeps(ids[..|ids| - 1], removed);
      assert ids == ids[..|ids| - 1] + [ids[|ids| - 1]];
    }
  }

  /** Subscribe messages only, and no id stored in two of them. */
  ghost predicate Disjoint(subs: seq<ClientMessage>) {
    && (forall i :: 0 <= i < |subs| ==> subs[i].Subscribe?)
    && (forall i, j, x :: 0 <= i < j < |subs| && x in subs[i].ids ==> x !in subs[j].ids)
  }

  /** `x` is stored in some subscription. */
  ghost predicate Stores(subs: seq<ClientMessage>, x: PriceId) {
    exists i :: 0 <= i < |subs| && x in subs[i].ids
  }

  lemma StoresLast(subs: seq<ClientMessage>, last: ClientMessage, x: PriceId)
    ensures Stores(subs + [last], x) <==> Stores(subs, x) || x in last.ids
  {
    var r := subs + [last];
    if Stores(subs, x) {
      var i :| 0 <= i < |subs| && x in subs[i].ids;
      assert x in r[i].ids;
    }
    if x in last.ids {
      assert x in r[|subs|].ids;
    }
  }

  lemma {:induction false} KeptStores(subs: seq<ClientMessage>, removed: seq<PriceId>, x: PriceId)
    requires Disjoint(subs)
    ensures Stores(Kept(subs, removed), x) <==> Stores(subs, x) && x !in removed
  {
    if subs != [] {
      var init, last := subs[..|subs| - 1], subs[|subs| - 1];
      KeptStores(init, removed, x);
      FilterKeeps(last.ids, removed);
      assert subs == init + [last];
      StoresLast(init, last, x);
      StoresLast(Kept(init, removed), RemoveIds(last, removed), x);
    }
  }

  lemma {:induction false} KeptIsDisjoint(subs: seq<ClientMessage>, removed: seq<PriceId>)
    requires Disjoint(subs)
    ensures Disjoint(Kept(subs, removed))
  {
    if subs != [] {
      var n := |subs| - 1;
      var init, last := subs[..n], subs[n];
      KeptIsDisjoint(init, removed);
      FilterKeeps(last.ids, removed);
      var kept := Kept(init, removed);
      forall i, x | 0 <= i < |kept| && x in kept[i].ids
        ensures x !in last.ids
      {
        KeptStores(init, removed, x);
        assert Stores(kept, x);
        var j :| 0 <= j < |init| && x in init[j].ids;
        assert x in subs[j].ids;
      }
    }
  }

  lemma {:induction false} KeptIsNonempty(subs: seq<ClientMessage>, removed: seq<PriceId>)
    ensures forall i :: 0 <= i < |Kept(subs, removed)| ==> Kept(subs, removed)[i].ids != []
  {
    if subs != [] {
      KeptIsNonempty(subs[..|subs| - 1], removed);
    }
  }

  /** No subscription stays stored without ids, save a request just made that had none. */
  lemma StoredIsNonempty(subs: seq<ClientMessage>, request: ClientMessage, i: nat)
    requires i < |Stored(subs, request)| && Stored(subs, request)[i].ids == []
    ensures i == |Stored(subs, request)| - 1 && Stored(subs, request)[i] == request
  {
    KeptIsNonempty(subs, request.ids);
  }

  /** Every request keeps the stored subscriptions disjoint. */
  lemma StoredIsDisjoint(subs: seq<ClientMessage>, request: ClientMessage)
    requires Disjoint(subs)
    ensures Disjoint(Stored(subs, request))
  {
    KeptIsDisjoint(subs, request.ids);
    var kept, r := Kept(subs, request.ids), Stored(subs, request);
    forall i, j, x | 0 <= i < j < |r| && x in r[i].ids
      ensures x !in r[j].ids
    {
      if j == |kept| {
        assert Stores(kept, x);
        KeptStores(subs, request.ids, x);
      }
    }
  }

  // ----- What a sequence of messages means to a server -----

  /** The feeds a list of ids names; `feed` is how the server files an id. */
  ghost function Feeds<K>(feed: PriceId -> K, ids: seq<PriceId>): set<K> {
    set id | id in ids :: feed(id)
  }

  /** A server's subscription map after one message: the last write to a feed wins. */
  ghost function Effect<K>(feed: PriceId -> K, m: map<K, SubscriptionOptions>, msg: ClientMessage): map<K,
                           SubscriptionOptions> {
    match msg
    case Subscribe(ids, options) => m + (map k | k in Feeds(feed, ids) :: options)
    case Unsubscribe(ids) => m - Feeds(feed, ids)
  }

  ghost function Effects<K>(feed: PriceId -> K, msgs: seq<ClientMessage>): map<K, SubscriptionOptions> {
    if msgs == [] then map[] else Effect(feed, Effects(feed, msgs[..|msgs| - 1]), msgs[|msgs| - 1])
  }

  /** Removing an unsubscribed feed's ids removes the feed: no stored id names it under another spelling. */
  ghost predicate Clean<K>(feed: PriceId -> K, subs: seq<ClientMessage>, request: ClientMessage) {
    request.Subscribe? || forall x :: Stores(subs, x) && feed(x) in Feeds(feed, request.ids) ==> x in request.ids
  }

  lemma {:induction false} EffectsDomain<K>(feed: PriceId -> K, subs: seq<ClientMessage>, k: K)
    requires Disjoint(subs)
    ensures k in Effects(feed, subs) <==> exists x :: Stores(subs, x) && feed(x) == k
  {
    if subs != [] {
      var init, last := subs[..|subs| - 1], subs[|subs| - 1];
      EffectsDomain(feed, init, k);
      if k in Effects(feed, init) {
        var x :| Stores(init, x) && feed(x) == k;
        var i :| 0 <= i < |init| && x in init[i].ids;
        assert x in subs[i].ids;
        assert Stores(subs, x);
      }
      if k in Feeds(feed, last.ids) {
        var x :| x in last.ids && feed(x) == k;
        assert Stores(subs, x);
      }
      if x :| Stores(subs, x) && feed(x) == k {
        var i :| 0 <= i < |subs| && x in subs[i].ids;
        if i < |init| {
          assert x in init[i].ids;
          assert Stores(init, x);
        }
      }
    }
  }

  lemma AddThenRemove<K>(a: map<K, SubscriptionOptions>, written: map<K, SubscriptionOptions>, feeds: set<K>)
    ensures (a + written) - feeds == (a - feeds) + (written - feeds)
  {
  }

  lemma {:induction false} FilterFeeds<K>(feed: PriceId -> K, ids: seq<PriceId>, removed: seq<PriceId>,
                                          options: SubscriptionOptions)
    ensures (map k | k in Feeds(feed, Filter(ids, removed)) :: options) - Feeds(feed, removed)
         == (map k | k in Feeds(feed, ids) :: options) - Feeds(feed, removed)
  {
    FilterKeeps(ids, removed);
    var R := Feeds(feed, removed);
    assert Feeds(feed, Filter(ids, removed)) - R == Feeds(feed, ids) - R;
  }

  /** Stripping ids leaves every feed they do not name as it was. */
  lemma {:induction false} KeptAgrees<K>(feed: PriceId -> K, subs: seq<ClientMessage>, removed: seq<PriceId>)
    requires Disjoint(subs)
    ensures Effects(feed, Kept(subs, removed)) - Feeds(feed, removed) == Effects(feed, subs) - Feeds(feed, removed)
  {
    if subs != [] {
      var init, last := subs[..|subs| - 1], subs[|subs| - 1];
      KeptAgrees(feed, init, removed);
      StrippedAgrees(feed, Effects(feed, Kept(init, removed)), Effects(feed, init), last, removed);
      var kept, stripped := Kept(init, removed), RemoveIds(last, removed);
      if stripped.ids != [] {
        assert (kept + [stripped])[..|kept|] == kept;
      }
    }
  }

  lemma StrippedAgrees<K>(feed: PriceId -> K, a: map<K, SubscriptionOptions>, b: map<K, SubscriptionOptions>,
                          sub: ClientMessage, removed: seq<PriceId>)
    requires sub.Subscribe? && a - Feeds(feed, removed) == b - Feeds(feed, removed)
    ensures Effect(feed, a, RemoveIds(sub, removed)) - Feeds(feed, removed)
         == Effect(feed, b, sub) - Feeds(feed, removed)
    ensures RemoveIds(sub, removed).ids == [] ==>
              a - Feeds(feed, removed) == Effect(feed, b, sub) - Feeds(feed, removed)
  {
    var R := Feeds(feed, removed);
    FilterFeeds(feed, sub.ids, removed, sub.options);
    var stripped := Filter(sub.ids, removed);
    AddThenRemove(a, map k | k in Feeds(feed, stripped) :: sub.options, R);
    AddThenRemove(b, map k | k in Feeds(feed, sub.ids) :: sub.options, R);
    if stripped == [] {
      assert Feeds(feed, stripped) == {};
      assert Effect(feed, a, RemoveIds(sub, removed)) == a;
    }
  }

  /** A subscribe request overwrites its own feeds, so only the others matter. */
  lemma EffectOutside<K>(feed: PriceId -> K, a: map<K, SubscriptionOptions>, b: map<K, SubscriptionOptions>,
                         request: ClientMessage)
    requires request.Subscribe? && a - Feeds(feed, request.ids) == b - Feeds(feed, request.ids)
    ensures Effect(feed, a, request) == Effect(feed, b, request)
  {
    var feeds := Feeds(feed, request.ids);
    var written := map k | k in feeds :: request.options;
    assert forall m: map<K, SubscriptionOptions> :: m + written == (m - feeds) + written;
  }

  /** A subscribe request is stored faithfully whatever the spellings. */
  lemma {:induction false} StoredMeansSubscribe<K>(feed: PriceId -> K, subs: seq<ClientMessage>, request: ClientMessage)
    requires Disjoint(subs) && request.Subscribe?
    ensures Effects(feed, Stored(subs, request)) == Effect(feed, Effects(feed, subs), request)
  {
    var kept := Kept(subs, request.ids);
    KeptAgrees(feed, subs, request.ids);
    assert (kept + [request])[..|kept|] == kept;
    EffectOutside(feed, Effects(feed, kept), Effects(feed, subs), request);
  }

  lemma {:induction false} StoredMeansUnsubscribe<K>(feed: PriceId -> K, subs: seq<ClientMessage>,
                                                     request: ClientMessage)
    requires Disjoint(subs) && request.Unsubscribe? && Clean(feed, subs, request)
    ensures Effects(feed, Stored(subs, request)) == Effect(feed, Effects(feed, subs), request)
  {
    var kept := Kept(subs, request.ids);
    KeptAgrees(feed, subs, request.ids);
    KeptIsDisjoint(subs, request.ids);
    assert Stored(subs, request) == kept;
    forall k | k in Feeds(feed, request.ids)
      ensures k !in Effects(feed, kept)
    {
      EffectsDomain(feed, kept, k);
      forall x | Stores(kept, x)
        ensures feed(x) != k
      {
        KeptStores(subs, request.ids, x);
      }
    }
  }

  lemma {:induction false} OtherSpellingStays<K>(feed: PriceId -> K, subs: seq<ClientMessage>, removed: seq<PriceId>,
                                                 x: PriceId)
    requires Disjoint(subs) && Stores(subs, x) && x !in removed
    ensures feed(x) in Effects(feed, Kept(subs, removed))
  {
    KeptIsDisjoint(subs, removed);
    KeptStores(subs, removed, x);
    EffectsDomain(feed, Kept(subs, removed), feed(x));
  }

  /** Exactly when the stored list goes on meaning what the requests meant: always for a subscribe request; for an
      unsubscribe request if and only if no stored id names an unsubscribed feed under another spelling. */
  lemma {:induction false} StoredMeansRequest<K>(feed: PriceId -> K, subs: seq<ClientMessage>, request: ClientMessage)
    requires Disjoint(subs)
    ensures Effects(feed, Stored(subs, request)) == Effect(feed, Effects(feed, subs), request) <==>
            Clean(feed, subs, request)
  {
    if request.Subscribe? {
      StoredMeansSubscribe(feed, subs, request);
    } else if Clean(feed, subs, request) {
      StoredMeansUnsubscribe(feed, subs, request);
    } else {
      var x :| Stores(subs, x) && feed(x) in Feeds(feed, request.ids) && x !in request.ids;
      OtherSpellingStays(feed, subs, request.ids, x);
      assert Stored(subs, request) == Kept(subs, request.ids);
      assert feed(x) !in Effect(feed, Effects(feed, subs), request);
    }
  }

  // ----- Connections and replay -----

  datatype Connection<!K> =
    | Down
    | Replaying(sent: nat, server: map<K, SubscriptionOptions>)
    | Up(server: map<K, SubscriptionOptions>)

  /** The client: what it stores, what it has consumed, and the connection. A new connection starts with an
      empty subscription map on the server. */
  datatype Client<!K> = Client(subs: seq<ClientMessage>, consumed: seq<ClientMessage>, conn: Connection<K>)

  /** `delivered` says whether a send succeeded; a failed send ends the connection. */
  datatype Step = Connect | SendStored(delivered: bool) | Request(msg: ClientMessage, delivered: bool) | Disconnect

  ghost function Next<K>(feed: PriceId -> K, c: Client<K>, step: Step): Client<K> {
    match step
    case Connect => if c.conn.Down? then c.(conn := Replaying(0, map[])) else c
    case SendStored(delivered) =>
      if !c.conn.Replaying? then c
      else if c.conn.sent >= |c.subs| then c.(conn := Up(c.conn.server))
      else if !delivered then c.(conn := Down)
      else c.(conn := Replaying(c.conn.sent + 1, Effect(feed, c.conn.server, c.subs[c.conn.sent])))
    case Request(msg, delivered) =>
      if !c.conn.Up? then c
      else Client(Stored(c.subs, msg), c.consumed + [msg],
                  if delivered then Up(Effect(feed, c.conn.server, msg)) else Down)
    case Disconnect => c.(conn := Down)
  }

  ghost function Run<K>(feed: PriceId -> K, steps: seq<Step>): Client<K> {
    if steps == [] then Client([], [], Down) else Next(feed, Run(feed, steps[..|steps| - 1]), steps[|steps| - 1])
  }

  /** Every unsubscribe request, when it was consumed, spelled its feeds as they were stored. */
  ghost predicate Spelled<K>(feed: PriceId -> K, steps: seq<Step>) {
    forall i :: 0 <= i < |steps| && steps[i].Request? && Run(feed, steps[..i]).conn.Up? ==>
      Clean(feed, Run(feed, steps[..i]).subs, steps[i].msg)
  }

  /** The stored list means exactly the requests consumed so far, and so does the server once replay is done;
      during replay the server holds what was sent so far. */
  ghost predicate Synchronized<K>(feed: PriceId -> K, c: Client<K>) {
    && Disjoint(c.subs)
    && Effects(feed, c.subs) == Effects(feed, c.consumed)
    && match c.conn
       case Down => true
       case Replaying(sent, server) => sent <= |c.subs| && server == Effects(feed, c.subs[..sent])
       case Up(server) => server == Effects(feed, c.consumed)
  }

  lemma StepKeepsSynchronized<K>(feed: PriceId -> K, c: Client<K>, step: Step)
    requires Synchronized(feed, c)
    requires step.Request? && c.conn.Up? ==> Clean(feed, c.subs, step.msg)
    ensures Synchronized(feed, Next(feed, c, step))
  {
    match step
    case Connect => assert c.subs[..0] == [];
    case SendStored(_) =>
      if c.conn.Replaying? {
        if c.conn.sent >= |c.subs| {
          assert c.subs[..c.conn.sent] == c.subs;
        } else {
          assert c.subs[..c.conn.sent + 1][..c.conn.sent] == c.subs[..c.conn.sent];
        }
      }
    case Request(msg, _) =>
      if c.conn.Up? {
        StoredIsDisjoint(c.subs, msg);
        StoredMeansRequest(feed, c.subs, msg);
        assert (c.consumed + [msg])[..|c.consumed|] == c.consumed;
      }
    case Disconnect =>
  }

  /** Replay is faithful: in every run, with disconnects and failed sends anywhere, the stored subscriptions have
      disjoint ids and represent the last-write-wins map of all consumed requests; once replay is done the server's map
      equals it, and each delivered request keeps it equal. */
  lemma {:induction false} ReplayIsFaithful<K>(feed: PriceId -> K, steps: seq<Step>)
    requires Spelled(feed, steps)
    ensures Synchronized(feed, Run(feed, steps))
  {
    if steps != [] {
      var n := |steps| - 1;
      forall i | 0 <= i < n
        ensures steps[..n][..i] == steps[..i]
      {
      }
      ReplayIsFaithful(feed, steps[..n]);
      StepKeepsSynchronized(feed, Run(feed, steps[..n]), steps[n]);
    }
  }

  /** The client is synchronized at every moment of the run. */
  ghost predicate AlwaysSynchronized<K>(feed: PriceId -> K, steps: seq<Step>) {
    forall n :: 0 <= n <= |steps| ==> Synchronized(feed, Run(feed, steps[..n]))
  }

  lemma {:induction false} SpelledPrefix<K>(feed: PriceId -> K, steps: seq<Step>, n: nat)
    requires Spelled(feed, steps) && n <= |steps|
    ensures Spelled(feed, steps[..n])
  {
    forall i | 0 <= i < n
      ensures steps[..n][..i] == steps[..i]
    {
    }
  }

  lemma {:induction false} EffectsSnoc<K>(feed: PriceId -> K, msgs: seq<ClientMessage>, msg: ClientMessage)
    ensures Effects(feed, msgs + [msg]) == Effect(feed, Effects(feed, msgs), msg)
  {
    assert (msgs + [msg])[..|msgs|] == msgs;
  }

  lemma {:induction false} RequestWasClean<K>(feed: PriceId -> K, c: Client<K>, msg: ClientMessage, delivered: bool)
    requires c.conn.Up? && Synchronized(feed, c) && Synchronized(feed, Next(feed, c, Request(msg, delivered)))
    ensures Clean(feed, c.subs, msg)
  {
    var after := Next(feed, c, Request(msg, delivered));
    assert after.subs == Stored(c.subs, msg) && after.consumed == c.consumed + [msg];
    EffectsSnoc(feed, c.consumed, msg);
    StoredMeansRequest(feed, c.subs, msg);
  }

  /** Exactly when replay is faithful throughout: if and only if every unsubscribe request, when it was consumed,
      spelled its feeds as they were stored. */
  lemma {:induction false} FaithfulIffSpelled<K>(feed: PriceId -> K, steps: seq<Step>)
    ensures AlwaysSynchronized(feed, steps) <==> Spelled(feed, steps)
  {
    if Spelled(feed, steps) {
      forall n | 0 <= n <= |steps|
        ensures Synchronized(feed, Run(feed, steps[..n]))
      {
        SpelledPrefix(feed, steps, n);
        ReplayIsFaithful(feed, steps[..n]);
      }
    }
    if AlwaysSynchronized(feed, steps) {
      forall i | 0 <= i < |steps| && steps[i].Request? && Run(feed, steps[..i]).conn.Up?
        ensures Clean(feed, Run(feed, steps[..i]).subs, steps[i].msg)
      {
        ConsumedWasClean(feed, steps, i);
      }
    }
  }

  lemma {:induction false} ConsumedWasClean<K>(feed: PriceId -> K, steps: seq<Step>, i: nat)
    requires i < |steps| && steps[i].Request? && Run(feed, steps[..i]).conn.Up?
    requires Synchronized(feed, Run(feed, steps[..i])) && Synchronized(feed, Run(feed, steps[..i + 1]))
    ensures Clean(feed, Run(feed, steps[..i]).subs, steps[i].msg)
  {
    assert steps[..i + 1] == steps[..i] + [steps[i]];
    RunSnoc(feed, steps[..i], steps[i]);
    RequestWasClean(feed, Run(feed, steps[..i]), steps[i].msg, steps[i].delivered);
  }

  /** With one spelling per feed nothing is asked of the requests. */
  lemma OneSpellingIsClean<K>(feed: PriceId -> K, steps: seq<Step>)
    requires forall x, y :: feed(x) == feed(y) ==> x == y
    ensures Spelled(feed, steps)
  {
    forall i | 0 <= i < |steps| && steps[i].Request? && Run(feed, steps[..i]).conn.Up?
      ensures Clean(feed, Run(feed, steps[..i]).subs, steps[i].msg)
    {
      var ids := steps[i].msg.ids;
      forall x | feed(x) in Feeds(feed, ids)
        ensures x in ids
      {
        var y :| y in ids && feed(y) == feed(x);
      }
    }
  }

  function Verbatim(): PriceId -> PriceId {
    (id: PriceId) => id
  }

  /** Hence, for a server that files ids as they are written, replay is faithful in every run. */
  lemma {:induction false} ReplayIsFaithfulById(steps: seq<Step>)
    ensures Synchronized(Verbatim(), Run(Verbatim(), steps))
  {
    OneSpellingIsClean(Verbatim(), steps);
    ReplayIsFaithful(Verbatim(), steps);
  }

  // ----- Two spellings of one feed -----

  lemma {:induction false} RunSnoc<K>(feed: PriceId -> K, steps: seq<Step>, step: Step)
    ensures Run(feed, steps + [step]) == Next(feed, Run(feed, steps), step)
  {
    assert (steps + [step])[..|steps|] == steps;
  }

  /** Subscribing under one spelling and unsubscribing under another leaves the subscription stored. */
  lemma OtherSpellingIsStored(x: PriceId, y: PriceId, options: SubscriptionOptions)
    requires x != y
    ensures Stored([], Subscribe([x], options)) == [Subscribe([x], options)]
    ensures Stored([Subscribe([x], options)], Unsubscribe([y])) == [Subscribe([x], options)]
  {
    var sub := Subscribe([x], options);
    assert [x][..0] == [] && [sub][..0] == [];
    assert Filter([x], [y]) == [x] && RemoveIds(sub, [y]) == sub;
    assert Kept([], [y]) == [] && Kept([sub], [y]) == [sub];
  }

  lemma OtherSpellingEffects<K>(feed: PriceId -> K, x: PriceId, y: PriceId, options: SubscriptionOptions)
    requires feed(x) == feed(y)
    ensures Effect(feed, map[], Subscribe([x], options)) == map[feed(x) := options]
    ensures Effects(feed, [Subscribe([x], options), Unsubscribe([y])]) == map[]
  {
    var sub, unsub := Subscribe([x], options), Unsubscribe([y]);
    OneFeed(feed, x);
    OneFeed(feed, y);
    assert [sub, unsub][..1] == [sub] && [sub][..0] == [];
    assert Effects(feed, [sub]) == map[feed(x) := options];
  }

  lemma OneFeed<K>(feed: PriceId -> K, x: PriceId)
    ensures Feeds(feed, [x]) == {feed(x)}
  {
    assert x in [x];
  }

  function Reconnection(sub: ClientMessage, unsub: ClientMessage): seq<Step> {
    [Connect] + [SendStored(true)] + [Request(sub, true)] + [Request(unsub, true)] + [Disconnect] +
    [Connect] + [SendStored(true)] + [SendStored(true)]
  }

  /** The client compares ids as written, so whenever two spellings name one feed, unsubscribing under the other
      spelling leaves the server, after a reconnect, subscribed to a feed the requests had unsubscribed. */
  lemma OtherSpellingIsResubscribed<K>(feed: PriceId -> K, x: PriceId, y: PriceId, options: SubscriptionOptions)
    requires x != y && feed(x) == feed(y)
    ensures var c := Run(feed, Reconnection(Subscribe([x], options), Unsubscribe([y])));
            Effects(feed, c.consumed) == map[] && c.conn == Up(map[feed(x) := options])
  {
    var sub, unsub := Subscribe([x], options), Unsubscribe([y]);
    OtherSpellingIsStored(x, y, options);
    OtherSpellingEffects(feed, x, y, options);
    var s4 := [Connect] + [SendStored(true)] + [Request(sub, true)] + [Request(unsub, true)];
    UnsubscribedRun(feed, x, y, options);
    var c := Run(feed, s4);
    var s5 := s4 + [Disconnect];
    RunSnoc(feed, s4, Disconnect);
    var s6 := s5 + [Connect];
    RunSnoc(feed, s5, Connect);
    var s7 := s6 + [SendStored(true)];
    RunSnoc(feed, s6, SendStored(true));
    assert Run(feed, s7) == c.(conn := Replaying(1, map[feed(x) := options]));
    RunSnoc(feed, s7, SendStored(true));
    assert s7 + [SendStored(true)] == Reconnection(sub, unsub);
  }

  lemma UnsubscribedRun<K>(feed: PriceId -> K, x: PriceId, y: PriceId, options: SubscriptionOptions)
    requires x != y && feed(x) == feed(y)
    ensures var sub, unsub := Subscribe([x], options), Unsubscribe([y]);
            var c := Run(feed, [Connect] + [SendStored(true)] + [Request(sub, true)] + [Request(unsub, true)]);
            c.subs == [sub] && c.consumed == [sub, unsub] && c.conn.Up?
  {
    var sub, unsub := Subscribe([x], options), Unsubscribe([y]);
    OtherSpellingIsStored(x, y, options);
    OtherSpellingEffects(feed, x, y, options);
    RunSnoc(feed, [], Connect);
    assert [] + [Connect] == [Connect];
    RunSnoc(feed, [Connect], SendStored(true));
    var s2 := [Connect] + [SendStored(true)];
    assert Run(feed, s2) == Client([], [], Up(map[]));
    RunSnoc(feed, s2, Request(sub, true));
    RunSnoc(feed, s2 + [Request(sub, true)], Request(unsub, true));
    assert [sub] + [unsub] == [sub, unsub];
  }

  // ----- How the server reads ids -----

  predicate HexDigit(c: char) {
    '0' <= c <= '9' || 'a' <= c <= 'f' || 'A' <= c <= 'F'
  }

  function DigitValue(c: char): (n: nat)
    requires HexDigit(c)
    ensures n < 16
  {
    if c <= '9' then c as int - '0' as int
    else if c <= 'F' then c as int - 'A' as int + 10
    else c as int - 'a' as int + 10
  }

  /** `PriceIdInput::normalize`: strips a hexadecimal prefix. */
  function Normalize(id: PriceId): PriceId {
    if |id| >= 2 && id[0] == '0' && (id[1] == 'x' || id[1] == 'X') then id[2..] else id
  }

  /** `PriceIdInput::is_valid` */
  predicate IsValid(id: PriceId) {
    var s := Normalize(id);
    |s| == 64 && forall i :: 0 <= i < 64 ==> HexDigit(s[i])
  }

  function Decoded(s: string): (bytes: seq<nat>)
    requires |s| == 64 && forall i :: 0 <= i < 64 ==> HexDigit(s[i])
    ensures |bytes| == 32
  {
    seq(32, k requires 0 <= k < 32 => 16 * DigitValue(s[2 * k]) + DigitValue(s[2 * k + 1]))
  }

  /** `PriceIdInput::parse` */
  function Parse(id: PriceId): Option<seq<nat>> {
    if IsValid(id) then Some(Decoded(Normalize(id))) else None
  }

  /** `c` writes the value `v` in hexadecimal, in either case. */
  ghost predicate Denotes(c: char, v: nat) {
    v < 16 && (c == "0123456789abcdef"[v] || c == "0123456789ABCDEF"[v])
  }

  lemma DigitExactly(c: char, v: nat)
    ensures Denotes(c, v) <==> HexDigit(c) && DigitValue(c) == v
  {
  }

  /** `s` writes the thirty-two bytes, two digits for each. */
  ghost predicate Writes(s: string, bytes: seq<nat>) {
    && |s| == 64 && |bytes| == 32
    && forall k :: 0 <= k < 32 ==> Denotes(s[2 * k], bytes[k] / 16) && Denotes(s[2 * k + 1], bytes[k] % 16)
  }

  lemma DecodedExactly(s: string, bytes: seq<nat>)
    requires |s| == 64 && forall i :: 0 <= i < 64 ==> HexDigit(s[i])
    ensures Decoded(s) == bytes <==> Writes(s, bytes)
  {
    if |bytes| == 32 {
      forall k | 0 <= k < 32
        ensures Decoded(s)[k] == bytes[k] <==>
                Denotes(s[2 * k], bytes[k] / 16) && Denotes(s[2 * k + 1], bytes[k] % 16)
      {
        DigitExactly(s[2 * k], bytes[k] / 16);
        DigitExactly(s[2 * k + 1], bytes[k] % 16);
      }
    }
  }

  lemma WrittenDigits(s: string, bytes: seq<nat>)
    requires Writes(s, bytes)
    ensures forall i :: 0 <= i < 64 ==> HexDigit(s[i])
  {
    forall i | 0 <= i < 64
      ensures HexDigit(s[i])
    {
      var k := i / 2;
      DigitExactly(s[2 * k], bytes[k] / 16);
      DigitExactly(s[2 * k + 1], bytes[k] % 16);
    }
  }

  /** The three forms of an id. */
  ghost predicate Prefixed(id: PriceId, s: string) {
    id == s || id == "0x" + s || id == "0X" + s
  }

  /** An id parses to thirty-two bytes if and only if it writes them in hexadecimal, with or without a prefix. */
  lemma ParseExactly(id: PriceId, bytes: seq<nat>)
    ensures Parse(id) == Some(bytes) <==> exists s :: Prefixed(id, s) && Writes(s, bytes)
  {
    if Parse(id) == Some(bytes) {
      var s := Normalize(id);
      DecodedExactly(s, bytes);
      assert Prefixed(id, s);
    }
    if s :| Prefixed(id, s) && Writes(s, bytes) {
      WrittenDigits(s, bytes);
      assert HexDigit(s[1]);
      assert Normalize(id) == s;
      DecodedExactly(s, bytes);
    }
  }

  /** What an id is filed under: the feed it parses to; an id that does not parse names nothing but itself. */
  datatype Filed = Feed(bytes: seq<nat>) | Unparsed(id: PriceId)

  function FeedOf(id: PriceId): Filed {
    match Parse(id)
    case Some(bytes) => Feed(bytes)
    case None => Unparsed(id)
  }

  function Filing(): PriceId -> Filed {
    (id: PriceId) => FeedOf(id)
  }

  function LowerDigit(c: char): char {
    if 'A' <= c <= 'F' then (c as int + 32) as char else c
  }

  function Lower(s: string): string {
    seq(|s|, i requires 0 <= i < |s| => LowerDigit(s[i]))
  }

  lemma SamePair(a: nat, b: nat, c: nat, d: nat)
    requires b < 16 && d < 16
    ensures 16 * a + b == 16 * c + d <==> a == c && b == d
  {
  }

  ghost predicate SameValues(s: string, t: string) {
    && |s| == |t| == 64
    && forall i :: 0 <= i < 64 ==> HexDigit(s[i]) && HexDigit(t[i]) && DigitValue(s[i]) == DigitValue(t[i])
  }

  lemma DecodedDigits(s: string, t: string)
    requires |s| == 64 && forall i :: 0 <= i < 64 ==> HexDigit(s[i])
    requires |t| == 64 && forall i :: 0 <= i < 64 ==> HexDigit(t[i])
    ensures Decoded(s) == Decoded(t) <==> SameValues(s, t)
  {
    var b, c := Decoded(s), Decoded(t);
    forall k | 0 <= k < 32
      ensures b[k] == c[k] <==>
              DigitValue(s[2 * k]) == DigitValue(t[2 * k]) && DigitValue(s[2 * k + 1]) == DigitValue(t[2 * k + 1])
    {
      SamePair(DigitValue(s[2 * k]), DigitValue(s[2 * k + 1]), DigitValue(t[2 * k]), DigitValue(t[2 * k + 1]));
    }
    if b == c {
      forall i | 0 <= i < 64
        ensures DigitValue(s[i]) == DigitValue(t[i])
      {
        var k := i / 2;
        assert b[k] == c[k] && (i == 2 * k || i == 2 * k + 1);
      }
    } else {
      var k :| 0 <= k < 32 && b[k] != c[k];
      assert !SameValues(s, t);
    }
  }

  lemma SameDigit(c: char, d: char)
    requires HexDigit(c) && HexDigit(d)
    ensures DigitValue(c) == DigitValue(d) <==> LowerDigit(c) == LowerDigit(d)
  {
  }

  /** Two valid ids name one feed if and only if they differ at most in a prefix and in the case of their letters. */
  lemma SpellingsExactly(x: PriceId, y: PriceId)
    requires IsValid(x) && IsValid(y)
    ensures FeedOf(x) == FeedOf(y) <==> Lower(Normalize(x)) == Lower(Normalize(y))
  {
    var s, t := Normalize(x), Normalize(y);
    DecodedDigits(s, t);
    forall i | 0 <= i < 64
      ensures DigitValue(s[i]) == DigitValue(t[i]) <==> Lower(s)[i] == Lower(t)[i]
    {
      SameDigit(s[i], t[i]);
    }
    assert Lower(s) == Lower(t) <==> SameValues(s, t);
  }

  /** Every valid id without a prefix has a prefixed spelling. */
  lemma PrefixIsASpelling(x: PriceId)
    requires IsValid(x) && |x| == 64
    ensures IsValid("0x" + x) && FeedOf("0x" + x) == FeedOf(x) && "0x" + x != x
  {
    assert Normalize(x) == x;
    assert ("0x" + x)[2..] == x;
    assert |"0x" + x| == 66;
  }

  /** Every valid id with a capital letter has a spelling without. */
  lemma CaseIsASpelling(x: PriceId)
    requires IsValid(x) && |x| == 64 && exists i :: 0 <= i < 64 && 'A' <= x[i] <= 'F'
    ensures IsValid(Lower(x)) && FeedOf(Lower(x)) == FeedOf(x) && Lower(x) != x
  {
    var i :| 0 <= i < 64 && 'A' <= x[i] <= 'F';
    assert Lower(x)[i] != x[i];
    assert Normalize(x) == x;
    assert Lower(x)[1] == LowerDigit(x[1]) && HexDigit(x[1]);
    assert Normalize(Lower(x)) == Lower(x);
    assert Lower(Lower(x)) == Lower(x);
    SpellingsExactly(Lower(x), x);
  }

  /** Subscribed with a prefix, unsubscribed without: after a reconnect the server is subscribed again. So it is for
      every valid id. */
  lemma PrefixedIdIsResubscribed(x: PriceId, options: SubscriptionOptions)
    requires IsValid(x) && |x| == 64
    ensures var c := Run(Filing(), Reconnection(Subscribe(["0x" + x], options), Unsubscribe([x])));
            Effects(Filing(), c.consumed) == map[] && c.conn == Up(map[FeedOf(x) := options])
  {
    PrefixIsASpelling(x);
    OtherSpellingIsResubscribed(Filing(), "0x" + x, x, options);
  }

  /** The same for capital letters. */
  lemma CapitalIdIsResubscribed(x: PriceId, options: SubscriptionOptions)
    requires IsValid(x) && |x| == 64 && exists i :: 0 <= i < 64 && 'A' <= x[i] <= 'F'
    ensures var c := Run(Filing(), Reconnection(Subscribe([x], options), Unsubscribe([Lower(x)])));
            Effects(Filing(), c.consumed) == map[] && c.conn == Up(map[FeedOf(x) := options])
  {
    CaseIsASpelling(x);
    OtherSpellingIsResubscribed(Filing(), x, Lower(x), options);
  }

  /** One id that meets both. */
  lemma SomeIdIsResubscribed(options: SubscriptionOptions)
    ensures var x: PriceId := seq(64, _ => 'A');
            var c := Run(Filing(), Reconnection(Subscribe(["0x" + x], options), Unsubscribe([x])));
            var d := Run(Filing(), Reconnection(Subscribe([x], options), Unsubscribe([Lower(x)])));
            && Effects(Filing(), c.consumed) == map[] && c.conn == Up(map[FeedOf(x) := options])
            && Effects(Filing(), d.consumed) == map[] && d.conn == Up(map[FeedOf(x) := options])
  {
    var x: PriceId := seq(64, _ => 'A');
    assert x[0] == 'A' && Normalize(x) == x;
    PrefixedIdIsResubscribed(x, options);
    CapitalIdIsResubscribed(x, options);
  }
}
