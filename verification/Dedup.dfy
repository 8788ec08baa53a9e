/** The agent's publishing batches: stable sorting by source timestamp, deduplication inside a
    batch, and deduplication across batches through an expiring cache (`lazer_publisher.rs`). */
module Dedup {
  import opened Outcomes

  type Feed = nat

  /** An update; `D` is the feed data that deduplication compares. */
  datatype FeedUpdate<D> = FeedUpdate(feedId: Option<Feed>, timestamp: Option<(int, int)>, data: D)

  // ----- Stable sort by source timestamp -----

  /** A missing timestamp comes before every other; seconds first, then nanoseconds. */
  predicate KeyLe(a: Option<(int, int)>, b: Option<(int, int)>) {
    a.None? || (b.Some? && (a.value.0 < b.value.0 || (a.value.0 == b.value.0 && a.value.1 <= b.value.1)))
  }

  /** Puts `u` behind everything that does not come after it. */
  function Insert<D>(s: seq<FeedUpdate<D>>, u: FeedUpdate<D>): seq<FeedUpdate<D>> {
    if s == [] then [u]
    else if KeyLe(s[|s| - 1].timestamp, u.timestamp) then s + [u]
    else Insert(s[..|s| - 1], u) + [s[|s| - 1]]
  }

  /** `sort_by_key`: the library's sort is stable. */
  function Sorted<D>(s: seq<FeedUpdate<D>>): seq<FeedUpdate<D>> {
    if s == [] then [] else Insert(Sorted(s[..|s| - 1]), s[|s| - 1])
  }

  /** Ascending: no timestamp stands before a missing one, and of two timestamps the one with more seconds, or with as
      many seconds and more nanoseconds, stands behind. */
  ghost predicate Ordered<D>(s: seq<FeedUpdate<D>>) {
    forall i, j :: 0 <= i < j < |s| ==> NotLater(s[i], s[j])
  }

  /** `u` is not later than `v`; an update without a timestamp is later than none. */
  ghost predicate NotLater<D>(u: FeedUpdate<D>, v: FeedUpdate<D>) {
    u.timestamp.Some? ==>
      && v.timestamp.Some?
      && u.timestamp.value.0 <= v.timestamp.value.0
      && (u.timestamp.value.0 == v.timestamp.value.0 ==> u.timestamp.value.1 <= v.timestamp.value.1)
  }

  /** The updates with timestamp `t`, in order. */
  ghost function WithKey<D>(s: seq<FeedUpdate<D>>, t: Option<(int, int)>): seq<FeedUpdate<D>> {
    if s == [] then []
    else WithKey(s[..|s| - 1], t) + (if s[|s| - 1].timestamp == t then [s[|s| - 1]] else [])
  }

  lemma {:induction false} InsertPermutes<D>(s: seq<FeedUpdate<D>>, u: FeedUpdate<D>)
    ensures multiset(Insert(s, u)) == multiset(s) + multiset{u}
  {
    if s != [] {
      var init, last := s[..|s| - 1], s[|s| - 1];
      assert s == init + [last];
      InsertPermutes(init, u);
    }
  }

  lemma {:induction false} InsertOrders<D>(s: seq<FeedUpdate<D>>, u: FeedUpdate<D>)
    requires Ordered(s)
    ensures Ordered(Insert(s, u))
  {
    if s != [] && !KeyLe(s[|s| - 1].timestamp, u.timestamp) {
      var init, last := s[..|s| - 1], s[|s| - 1];
      InsertOrders(init, u);
      var r := Insert(init, u);
      forall i | 0 <= i < |r|
        ensures NotLater(r[i], last)
      {
        InsertPermutes(init, u);
        assert r[i] in multiset(r);
      }
    }
  }

  lemma {:induction false} InsertIsStable<D>(s: seq<FeedUpdate<D>>, u: FeedUpdate<D>, t: Option<(int, int)>)
    ensures WithKey(Insert(s, u), t) == WithKey(s, t) + (if u.timestamp == t then [u] else [])
  {
    if s == [] {
      assert [u][..0] == [];
    } else if KeyLe(s[|s| - 1].timestamp, u.timestamp) {
      assert (s + [u])[..|s|] == s;
    } else {
      var init, last := s[..|s| - 1], s[|s| - 1];
      InsertIsStable(init, u, t);
      var r := Insert(init, u);
      assert (r + [last])[..|r|] == r;
    }
  }

  /** The sort puts the updates in ascending order of their timestamps. */
  lemma {:induction false} SortOrders<D>(s: seq<FeedUpdate<D>>)
    ensures Ordered(Sorted(s))
  {
    if s != [] {
      SortOrders(s[..|s| - 1]);
      InsertOrders(Sorted(s[..|s| - 1]), s[|s| - 1]);
    }
  }

  /** The sort loses no update and invents none. */
  lemma {:induction false} SortPermutes<D>(s: seq<FeedUpdate<D>>)
    ensures multiset(Sorted(s)) == multiset(s)
  {
    if s != [] {
      var init, last := s[..|s| - 1], s[|s| - 1];
      assert multiset(s) == multiset(init) + multiset{last} by {
        assert s == init + [last];
      }
      SortPermutes(init);
      InsertPermutes(Sorted(init), last);
    }
  }

  /** The sort keeps updates with equal timestamps in arrival order. */
  lemma {:induction false} SortIsStable<D>(s: seq<FeedUpdate<D>>, t: Option<(int, int)>)
    ensures WithKey(Sorted(s), t) == WithKey(s, t)
  {
    if s != [] {
      var init, last := s[..|s| - 1], s[|s| - 1];
      SortIsStable(init, t);
      InsertIsStable(Sorted(init), last, t);
    }
  }

  // ----- The latest update of a feed -----

  /** Update `p` is the latest of its feed in a batch as it was pending: none of the feed is later, and none that is as
      late arrived after it. */
  ghost predicate Latest<D>(s: seq<FeedUpdate<D>>, id: Option<Feed>, p: nat) {
    && p < |s| && s[p].feedId == id
    && forall q :: 0 <= q < |s| && s[q].feedId == id ==> NotLater(s[q], s[p]) && (q > p ==> !NotLater(s[p], s[q]))
  }

  lemma {:induction false} FindLatest<D>(s: seq<FeedUpdate<D>>, id: Option<Feed>) returns (p: nat)
    requires Mentions(s, id)
    ensures Latest(s, id, p)
  {
    var n := |s| - 1;
    var init, last := s[..n], s[n];
    if !Mentions(init, id) {
      assert forall q :: 0 <= q < n ==> init[q] == s[q];
      p := n;
    } else {
      p := FindLatest(init, id);
      assert forall q :: 0 <= q < n ==> init[q] == s[q];
      if last.feedId == id && NotLater(init[p], last) {
        p := n;
      }
    }
  }

  /** The last update of a feed. */
  ghost function LastOf<D>(s: seq<FeedUpdate<D>>, id: Option<Feed>): Option<FeedUpdate<D>> {
    if s == [] then None
    else if s[|s| - 1].feedId == id then Some(s[|s| - 1])
    else LastOf(s[..|s| - 1], id)
  }

  lemma {:induction false} LastDataOf<D>(s: seq<FeedUpdate<D>>, id: Option<Feed>)
    ensures LastData(s, id) == match LastOf(s, id) case None => None case Some(u) => Some(u.data)
  {
    if s != [] {
      LastDataOf(s[..|s| - 1], id);
    }
  }

  lemma {:induction false} LastOfMember<D>(s: seq<FeedUpdate<D>>, id: Option<Feed>)
    ensures LastOf(s, id).None? <==> !Mentions(s, id)
    ensures LastOf(s, id).Some? ==> LastOf(s, id).value in s && LastOf(s, id).value.feedId == id
  {
    if s != [] {
      var n := |s| - 1;
      LastOfMember(s[..n], id);
      if Mentions(s, id) && s[n].feedId != id {
        var i :| 0 <= i < |s| && s[i].feedId == id;
        assert s[..n][i] == s[i];
      }
    }
  }

  /** Inserting an update makes it the last of its feed unless the one before was later. */
  lemma {:induction false} InsertIsLast<D>(s: seq<FeedUpdate<D>>, u: FeedUpdate<D>, id: Option<Feed>)
    requires Ordered(s)
    ensures LastOf(Insert(s, u), id) ==
            var prior := LastOf(s, id);
            if u.feedId == id && (prior.None? || NotLater(prior.value, u)) then Some(u) else prior
  {
    if s == [] {
      assert [u][..0] == [];
    } else if KeyLe(s[|s| - 1].timestamp, u.timestamp) {
      assert (s + [u])[..|s|] == s;
      LastOfMember(s, id);
      if LastOf(s, id).Some? {
        var i :| 0 <= i < |s| && s[i] == LastOf(s, id).value;
        assert NotLater(s[|s| - 1], u);
        assert i < |s| - 1 ==> NotLater(s[i], s[|s| - 1]);
      }
    } else {
      var init, last := s[..|s| - 1], s[|s| - 1];
      InsertIsLast(init, u, id);
      var r := Insert(init, u);
      assert (r + [last])[..|r|] == r;
    }
  }

  /** After the sort, the last update of a feed is the latest that was pending. */
  lemma {:induction false} SortedLast<D>(s: seq<FeedUpdate<D>>, id: Option<Feed>, p: nat)
    requires Latest(s, id, p)
    ensures LastOf(Sorted(s), id) == Some(s[p])
  {
    var n := |s| - 1;
    var init, last := s[..n], s[n];
    SortOrders(init);
    InsertIsLast(Sorted(init), last, id);
    if p < n {
      LatestBefore(s, id, p);
      SortedLast(init, id, p);
    } else if Mentions(init, id) {
      var q := FindLatest(init, id);
      assert init[q] == s[q];
      SortedLast(init, id, q);
    } else {
      SortedUnmentioned(init, id);
    }
  }

  lemma {:induction false} LatestBefore<D>(s: seq<FeedUpdate<D>>, id: Option<Feed>, p: nat)
    requires Latest(s, id, p) && p < |s| - 1
    ensures Latest(s[..|s| - 1], id, p)
    ensures s[|s| - 1].feedId == id ==> !NotLater(s[p], s[|s| - 1])
  {
    assert forall q :: 0 <= q < |s| - 1 ==> s[..|s| - 1][q] == s[q];
  }

  lemma {:induction false} SortedMentions<D>(s: seq<FeedUpdate<D>>, id: Option<Feed>)
    ensures Mentions(Sorted(s), id) <==> Mentions(s, id)
  {
    SortPermutes(s);
    if i :| 0 <= i < |s| && s[i].feedId == id {
      assert s[i] in multiset(Sorted(s));
    }
    if i :| 0 <= i < |Sorted(s)| && Sorted(s)[i].feedId == id {
      assert Sorted(s)[i] in multiset(s);
    }
  }

  lemma {:induction false} SortedUnmentioned<D>(s: seq<FeedUpdate<D>>, id: Option<Feed>)
    requires !Mentions(s, id)
    ensures LastOf(Sorted(s), id) == None
  {
    SortedMentions(s, id);
    LastOfMember(Sorted(s), id);
  }

  /** In a sorted batch the last data of a feed is the data of its latest update. */
  lemma {:induction false} LatestData<D>(s: seq<FeedUpdate<D>>, id: Option<Feed>, p: nat)
    requires Latest(s, id, p)
    ensures LastData(Sorted(s), id) == Some(s[p].data)
  {
    SortedLast(s, id, p);
    LastDataOf(Sorted(s), id);
  }

  // ----- Inside a batch -----

  type Picks<!D> = map<Option<Feed>, FeedUpdate<D>>

  function Pick<D(==)>(m: Picks<D>, u: FeedUpdate<D>): Picks<D> {
    if u.feedId !in m || m[u.feedId].data != u.data then m[u.feedId := u] else m
  }

  /** For each feed, the update kept after scanning the batch. */
  function Picked<D(==)>(s: seq<FeedUpdate<D>>): Picks<D> {
    if s == [] then map[] else Pick(Picked(s[..|s| - 1]), s[|s| - 1])
  }

  /** Update `j` is the one right before update `i` for its feed. */
  ghost predicate Precedes<D>(s: seq<FeedUpdate<D>>, j: int, i: int)
    requires i < |s|
  {
    0 <= j < i && s[j].feedId == s[i].feedId && forall k :: j < k < i ==> s[k].feedId != s[i].feedId
  }

  /** Update `i` starts the trailing run of equal data of its feed. */
  ghost predicate StartsTrailingRun<D>(s: seq<FeedUpdate<D>>, i: nat) {
    && i < |s|
    && (forall j :: i < j < |s| && s[j].feedId == s[i].feedId ==> s[j].data == s[i].data)
    && (forall j :: Precedes(s, j, i) ==> s[j].data != s[i].data)
  }

  /** The data of the last update of a feed. */
  ghost function LastData<D>(s: seq<FeedUpdate<D>>, id: Option<Feed>): Option<D> {
    if s == [] then None
    else if s[|s| - 1].feedId == id then Some(s[|s| - 1].data)
    else LastData(s[..|s| - 1], id)
  }

  ghost predicate Mentions<D>(s: seq<FeedUpdate<D>>, id: Option<Feed>) {
    exists i :: 0 <= i < |s| && s[i].feedId == id
  }

  lemma {:induction false} LastDataMentions<D>(s: seq<FeedUpdate<D>>, id: Option<Feed>)
    ensures LastData(s, id).Some? <==> Mentions(s, id)
  {
    if s != [] {
      var n := |s| - 1;
      LastDataMentions(s[..n], id);
      if Mentions(s, id) && s[n].feedId != id {
        var i :| 0 <= i < |s| && s[i].feedId == id;
        assert s[..n][i] == s[i];
      }
    }
  }

  lemma {:induction false} PickedIsLatest<D>(s: seq<FeedUpdate<D>>, id: Option<Feed>)
    ensures id in Picked(s) <==> Mentions(s, id)
    ensures id in Picked(s) ==> Picked(s)[id].feedId == id && LastData(s, id) == Some(Picked(s)[id].data)
  {
    if s != [] {
      var n := |s| - 1;
      PickedIsLatest(s[..n], id);
      assert Mentions(s, id) <==> Mentions(s[..n], id) || s[n].feedId == id by {
        if Mentions(s, id) && s[n].feedId != id {
          var i :| 0 <= i < |s| && s[i].feedId == id;
          assert s[..n][i] == s[i];
        }
      }
    }
  }

  /** In-batch deduplication keeps, for each feed, the first update of the trailing run of equal data. */
  lemma {:induction false} PickedStartsRun<D>(s: seq<FeedUpdate<D>>, id: Option<Feed>) returns (i: nat)
    requires id in Picked(s)
    ensures i < |s| && s[i].feedId == id && s[i] == Picked(s)[id] && StartsTrailingRun(s, i)
  {
    var n := |s| - 1;
    var before, last := Picked(s[..n]), s[n];
    if last.feedId == id && (id !in before || before[id].data != last.data) {
      i := n;
      forall j | Precedes(s, j, n)
        ensures s[j].data != last.data
      {
        PickedIsLatest(s[..n], id);
        assert s[..n][j].feedId == id;
        LastOccurrence(s[..n], id, j);
      }
    } else {
      i := PickedStartsRun(s[..n], id);
      assert forall j :: 0 <= j < n ==> s[..n][j] == s[j];
    }
  }

  lemma {:induction false} LastOccurrence<D>(s: seq<FeedUpdate<D>>, id: Option<Feed>, j: nat)
    requires j < |s| && s[j].feedId == id && forall k :: j < k < |s| ==> s[k].feedId != id
    ensures LastData(s, id) == Some(s[j].data)
  {
    if j < |s| - 1 {
      LastOccurrence(s[..|s| - 1], id, j);
    }
  }

  /** `order` lists the values of `m`, in some order. */
  ghost predicate Lists<D>(order: seq<FeedUpdate<D>>, m: Picks<D>) {
    && (forall i :: 0 <= i < |order| ==> order[i].feedId in m && m[order[i].feedId] == order[i])
    && (forall i, j :: 0 <= i < j < |order| ==> order[i].feedId != order[j].feedId)
    && (forall id :: id in m ==> Mentions(order, id))
  }

  /** `deduplicate_feed_updates_in_tx`: a hash map filled in one pass, its values collected in any order. */
  method DeduplicateInTx<D(==)>(sorted: seq<FeedUpdate<D>>) returns (r: seq<FeedUpdate<D>>)
    ensures Lists(r, Picked(sorted))
  {
    var m: Picks<D> := map[];
    var i := 0;
    while i < |sorted|
      invariant 0 <= i <= |sorted| && m == Picked(sorted[..i])
    {
      assert sorted[..i + 1][..i] == sorted[..i];
      var u := sorted[i];
      if u.feedId !in m {
        m := m[u.feedId := u];
      } else if m[u.feedId].data != u.data {
        m := m[u.feedId := u];
      }
      i := i + 1;
    }
    assert sorted[..i] == sorted;
    forall id | id in m
      ensures m[id].feedId == id
    {
      PickedIsLatest(sorted, id);
    }
    r := Collect(m);
  }

  method Collect<D>(m: Picks<D>) returns (r: seq<FeedUpdate<D>>)
    requires forall id :: id in m ==> m[id].feedId == id
    ensures Lists(r, m)
  {
    r := [];
    var left := m.Keys;
    while left != {}
      invariant left <= m.Keys
      invariant forall i :: 0 <= i < |r| ==> r[i].feedId in m && m[r[i].feedId] == r[i] && r[i].feedId !in left
      invariant forall i, j :: 0 <= i < j < |r| ==> r[i].feedId != r[j].feedId
      invariant forall id :: id in m && id !in left ==> Mentions(r, id)
      decreases left
    {
      var id :| id in left;
      ghost var before := r;
      r := r + [m[id]];
      left := left - {id};
      forall k | k in m && k !in left
        ensures Mentions(r, k)
      {
        if k == id {
          assert r[|before|].feedId == k;
        } else {
          assert Mentions(before, k);
          var i :| 0 <= i < |before| && before[i].feedId == k;
          assert r[i].feedId == k;
        }
      }
    }
  }

  // ----- Across batches -----

  type Cache<!D> = map<Feed, FeedUpdate<D>>

  /** One lookup in the cross-batch stage: entries in `gone` have expired or were evicted before it. */
  function Admit<D(==)>(cache: Cache<D>, gone: set<Feed>, u: FeedUpdate<D>): (Cache<D>, bool) {
    var live := cache - gone;
    if u.feedId.None? then (live, false)
    else if u.feedId.value in live && live[u.feedId.value].data == u.data then (live, false)
    else (live[u.feedId.value := u], true)
  }

  /** The cache and the kept updates after the first `n` lookups. */
  function Retained<D(==)>(us: seq<FeedUpdate<D>>, cache: Cache<D>, gone: nat -> set<Feed>, n: nat)
    : (Cache<D>, seq<FeedUpdate<D>>)
    requires n <= |us|
  {
    if n == 0 then (cache, [])
    else
      var (c, kept) := Retained(us, cache, gone, n - 1);
      var (c', keep) := Admit(c, gone(n - 1), us[n - 1]);
      (c', if keep then kept + [us[n - 1]] else kept)
  }

  /** The publisher task: its cache, and everything that reached the relayer sessions. */
  datatype Agent<!D> = Agent(cache: Cache<D>, forwarded: seq<FeedUpdate<D>>)

  /** One batch with deduplication on: `order` is the order the in-batch stage hands on, `gone` what the cache
      loses before each lookup, `delivered` whether the transaction was encoded and had a receiver. */
  function Batch<D(==)>(a: Agent<D>, order: seq<FeedUpdate<D>>, gone: nat -> set<Feed>, delivered: bool): Agent<D> {
    var (cache, kept) := Retained(order, a.cache, gone, |order|);
    Agent(cache, if delivered then a.forwarded + kept else a.forwarded)
  }

  class PublisherTask<D(==)> {
    var pending: seq<FeedUpdate<D>>
    var cache: Cache<D>
    var forwarded: seq<FeedUpdate<D>>

    constructor ()
      ensures pending == [] && View() == Agent(map[], [])
    {
      pending, cache, forwarded := [], map[], [];
    }

    ghost function View(): Agent<D>
      reads this
    {
      Agent(cache, forwarded)
    }

    /** `deduplicate_feed_updates`: `retain` with a cache that it updates as it goes. */
    method DeduplicateAcross(us: seq<FeedUpdate<D>>, gone: nat -> set<Feed>) returns (kept: seq<FeedUpdate<D>>)
      modifies this`cache
      ensures (cache, kept) == Retained(us, old(cache), gone, |us|)
    {
      kept := [];
      var i := 0;
      while i < |us|
        invariant 0 <= i <= |us|
        invariant (cache, kept) == Retained(us, old(cache), gone, i)
      {
        var u := us[i];
        cache := cache - gone(i);
        if u.feedId.Some? {
          var id := u.feedId.value;
          if !(id in cache && cache[id].data == u.data) {
            cache := cache[id := u];
            kept := kept + [u];
          }
        }
        i := i + 1;
      }
    }

    /** `batch_transaction`: an encoding error is returned, a failed send only logged. */
    method BatchTransaction(dedup: bool, gone: nat -> set<Feed>, encodes: bool, sent: bool)
      returns (ok: bool, ghost order: seq<FeedUpdate<D>>)
      modifies this
      ensures pending == []
      ensures ok <==>
              encodes || (if dedup then Retained(order, old(cache), gone, |order|).1 == [] else old(pending) == [])
      ensures old(pending) == [] ==> View() == old(View())
      ensures old(pending) != [] && dedup ==>
                Lists(order, Picked(Sorted(old(pending)))) && View() == Batch(old(View()), order, gone, encodes && sent)
      ensures old(pending) != [] && !dedup ==>
                View() == old(View()).(
                  forwarded := old(forwarded) + if encodes && sent then Sorted(old(pending)) else [])
    {
      order := [];
      if pending == [] {
        return true, [];
      }
      var updates := Sorted(pending);
      SortPermutes(pending);
      assert pending[0] in multiset(pending);
      assert updates != [];
      pending := [];
      if dedup {
        updates := DeduplicateInTx(updates);
        order := updates;
        updates := DeduplicateAcross(updates, gone);
      }
      assert old(forwarded) + [] == old(forwarded);
      if updates == [] {
        return true, order;
      }
      if !encodes {
        return false, order;
      }
      if sent {
        forwarded := forwarded + updates;
      }
      ok := true;
    }
  }

  // ----- The last value always gets through -----

  lemma {:induction false} LastDataConcat<D>(a: seq<FeedUpdate<D>>, b: seq<FeedUpdate<D>>, id: Option<Feed>)
    ensures LastData(a + b, id) == if Mentions(b, id) then LastData(b, id) else LastData(a, id)
  {
    if b == [] {
      assert a + b == a;
    } else {
      var n := |b| - 1;
      assert (a + b)[..|a + b| - 1] == a + b[..n];
      LastDataConcat(a, b[..n], id);
      LastDataMentions(b, id);
      LastDataMentions(b[..n], id);
    }
  }

  /** The cache still holds `f` when update `i` of the batch is looked up. */
  ghost predicate Cached<D>(cache: Cache<D>, gone: nat -> set<Feed>, f: Feed, i: nat) {
    f in cache && forall j :: 0 <= j <= i ==> f !in gone(j)
  }

  /** What the cross-batch stage does to one feed that occurs once, at `i`. */
  lemma {:induction false} RetainedFeed<D>(us: seq<FeedUpdate<D>>, cache: Cache<D>, gone: nat -> set<Feed>, n: nat,
                                           i: nat, f: Feed)
    requires n <= |us| && i < |us| && us[i].feedId == Some(f)
    requires forall j :: 0 <= j < |us| && j != i ==> us[j].feedId != Some(f)
    ensures var (c, kept) := Retained(us, cache, gone, n);
            var hit := Cached(cache, gone, f, i) && cache[f].data == us[i].data;
            if n <= i then
              && !Mentions(kept, Some(f))
              && (f in c <==> f in cache && forall j :: 0 <= j < n ==> f !in gone(j))
              && (f in c ==> c[f] == cache[f])
            else
              && (Mentions(kept, Some(f)) <==> !hit)
              && (!hit ==> LastData(kept, Some(f)) == Some(us[i].data))
              && (f in c ==> c[f].data == us[i].data)
  {
    if n > 0 {
      RetainedFeed(us, cache, gone, n - 1, i, f);
      var (_, kept) := Retained(us, cache, gone, n - 1);
      var u := us[n - 1];
      var more := kept + [u];
      assert more[..|kept|] == kept;
      LastDataMentions(kept, Some(f));
      LastDataMentions(more, Some(f));
    }
  }

  /** The cache never claims data for a feed other than the last in `log`. */
  ghost predicate CacheAgrees<D>(cache: Cache<D>, log: seq<FeedUpdate<D>>) {
    forall f :: f in cache ==> LastData(log, Some(f)) == Some(cache[f].data)
  }

  lemma {:induction false} RetainedOthers<D>(us: seq<FeedUpdate<D>>, cache: Cache<D>, gone: nat -> set<Feed>, n: nat,
                                             f: Feed)
    requires n <= |us| && !Mentions(us, Some(f))
    ensures var (c, kept) := Retained(us, cache, gone, n);
            !Mentions(kept, Some(f)) && (f in c ==> f in cache && c[f] == cache[f])
  {
    if n > 0 {
      RetainedOthers(us, cache, gone, n - 1, f);
      assert us[n - 1].feedId != Some(f);
    }
  }

  lemma ListedOnce<D>(order: seq<FeedUpdate<D>>, s: seq<FeedUpdate<D>>, id: Option<Feed>) returns (i: nat)
    requires Lists(order, Picked(s)) && Mentions(s, id)
    ensures i < |order| && order[i].feedId == id && LastData(s, id) == Some(order[i].data)
    ensures forall j :: 0 <= j < |order| && j != i ==> order[j].feedId != id
  {
    PickedIsLatest(s, id);
    i :| 0 <= i < |order| && order[i].feedId == id;
  }

  /** The cache holds, when `f` is looked up, the very data `f` has last in the batch. */
  ghost predicate Hit<D>(a: Agent<D>, s: seq<FeedUpdate<D>>, gone: nat -> set<Feed>, f: Feed, i: nat) {
    Cached(a.cache, gone, f, i) && Some(a.cache[f].data) == LastData(s, Some(f))
  }

  /** Exactly when a feed's latest data is the last forwarded after a batch, from any state: it was so before, or the
      batch was delivered and the cache did not hold that data. */
  lemma BatchDeliversExactly<D>(a: Agent<D>, pending: seq<FeedUpdate<D>>, order: seq<FeedUpdate<D>>,
                                gone: nat -> set<Feed>, delivered: bool, f: Feed)
    returns (i: nat)
    requires Lists(order, Picked(Sorted(pending))) && Mentions(Sorted(pending), Some(f))
    ensures i < |order| && order[i].feedId == Some(f)
    ensures var s := Sorted(pending);
            LastData(Batch(a, order, gone, delivered).forwarded, Some(f)) == LastData(s, Some(f))
            <==> LastData(a.forwarded, Some(f)) == LastData(s, Some(f)) || (delivered && !Hit(a, s, gone, f, i))
  {
    i := ListedOnce(order, Sorted(pending), Some(f));
    RetainedFeed(order, a.cache, gone, |order|, i, f);
    LastDataConcat(a.forwarded, Retained(order, a.cache, gone, |order|).1, Some(f));
  }

  /** After every batch the cache agrees with what was let through, delivered or not, whatever the cache loses. */
  lemma {:induction false} BatchKeepsCache<D>(cache: Cache<D>, log: seq<FeedUpdate<D>>, pending: seq<FeedUpdate<D>>,
                                              order: seq<FeedUpdate<D>>, gone: nat -> set<Feed>)
    requires CacheAgrees(cache, log) && Lists(order, Picked(Sorted(pending)))
    ensures var (c, kept) := Retained(order, cache, gone, |order|); CacheAgrees(c, log + kept)
  {
    var s := Sorted(pending);
    var (c, kept) := Retained(order, cache, gone, |order|);
    forall f | f in c
      ensures LastData(log + kept, Some(f)) == Some(c[f].data)
    {
      LastDataConcat(log, kept, Some(f));
      PickedIsLatest(s, Some(f));
      if Mentions(s, Some(f)) {
        var i := ListedOnce(order, s, Some(f));
        RetainedFeed(order, cache, gone, |order|, i, f);
      } else {
        assert !Mentions(order, Some(f));
        RetainedOthers(order, cache, gone, |order|, f);
      }
    }
  }

  /** What was let through ends, for every feed of the batch, with its latest data. */
  lemma {:induction false} BatchLetsThrough<D>(cache: Cache<D>, log: seq<FeedUpdate<D>>, pending: seq<FeedUpdate<D>>,
                                               order: seq<FeedUpdate<D>>, gone: nat -> set<Feed>, f: Feed)
    requires CacheAgrees(cache, log) && Lists(order, Picked(Sorted(pending))) && Mentions(Sorted(pending), Some(f))
    ensures LastData(log + Retained(order, cache, gone, |order|).1, Some(f)) == LastData(Sorted(pending), Some(f))
  {
    var i := BatchDeliversExactly(Agent(cache, log), pending, order, gone, true, f);
  }

  // ----- Runs -----

  /** One batch: whether its transaction could be encoded, and whether the send had a receiver. */
  datatype Round<!D> = Round(pending: seq<FeedUpdate<D>>, order: seq<FeedUpdate<D>>, gone: nat -> set<Feed>,
                             encodes: bool, sent: bool)
  {
    predicate Delivered() {
      encodes && sent
    }
  }

  ghost predicate Proper<D>(rounds: seq<Round<D>>) {
    forall i :: 0 <= i < |rounds| ==> Lists(rounds[i].order, Picked(Sorted(rounds[i].pending)))
  }

  ghost function Run<D>(rounds: seq<Round<D>>): Agent<D> {
    if rounds == [] then Agent(map[], [])
    else
      var last := rounds[|rounds| - 1];
      Batch(Run(rounds[..|rounds| - 1]), last.order, last.gone, last.Delivered())
  }

  /** What round `r` lets through. */
  ghost function LetThrough<D>(rounds: seq<Round<D>>, r: nat): seq<FeedUpdate<D>>
    requires r < |rounds|
  {
    Retained(rounds[r].order, Run(rounds[..r]).cache, rounds[r].gone, |rounds[r].order|).1
  }

  /** Everything let through so far, delivered or not. */
  ghost function Admitted<D>(rounds: seq<Round<D>>): seq<FeedUpdate<D>> {
    if rounds == [] then [] else Admitted(rounds[..|rounds| - 1]) + LetThrough(rounds, |rounds| - 1)
  }

  lemma {:induction false} RunKeepsCache<D>(rounds: seq<Round<D>>)
    requires Proper(rounds)
    ensures CacheAgrees(Run(rounds).cache, Admitted(rounds))
  {
    if rounds != [] {
      var n := |rounds| - 1;
      RunKeepsCache(rounds[..n]);
      var cache, log := Run(rounds[..n]).cache, Admitted(rounds[..n]);
      BatchKeepsCache(cache, log, rounds[n].pending, rounds[n].order, rounds[n].gone);
    }
  }

  /** Round `r` is the last to let `f` through. */
  ghost predicate LastLetThrough<D>(rounds: seq<Round<D>>, f: Feed, r: nat) {
    && r < |rounds|
    && Mentions(LetThrough(rounds, r), Some(f))
    && forall q :: r < q < |rounds| ==> !Mentions(LetThrough(rounds, q), Some(f))
  }

  lemma {:induction false} PrefixLetsThrough<D>(rounds: seq<Round<D>>, n: nat, q: nat)
    requires q < n <= |rounds|
    ensures rounds[..n][..q] == rounds[..q] && LetThrough(rounds[..n], q) == LetThrough(rounds, q)
  {
    assert rounds[..n][..q] == rounds[..q];
  }

  lemma {:induction false} StillLast<D>(rounds: seq<Round<D>>, f: Feed, r: nat)
    requires rounds != [] && LastLetThrough(rounds[..|rounds| - 1], f, r)
    requires !Mentions(LetThrough(rounds, |rounds| - 1), Some(f))
    ensures LastLetThrough(rounds, f, r)
  {
    var n := |rounds| - 1;
    PrefixLetsThrough(rounds, n, r);
    forall q | r < q < |rounds|
      ensures !Mentions(LetThrough(rounds, q), Some(f))
    {
      if q < n {
        PrefixLetsThrough(rounds, n, q);
      }
    }
  }

  lemma {:induction false} LastForwarded<D>(rounds: seq<Round<D>>, f: Feed)
    requires rounds != []
    ensures var n := |rounds| - 1;
            var kept := LetThrough(rounds, n);
            && LastData(Run(rounds).forwarded, Some(f)) ==
               (if rounds[n].Delivered() && Mentions(kept, Some(f)) then LastData(kept, Some(f))
                else LastData(Run(rounds[..n]).forwarded, Some(f)))
            && LastData(Admitted(rounds), Some(f)) ==
               (if Mentions(kept, Some(f)) then LastData(kept, Some(f)) else LastData(Admitted(rounds[..n]), Some(f)))
            && (Mentions(Admitted(rounds), Some(f)) ==>
                  Mentions(kept, Some(f)) || Mentions(Admitted(rounds[..n]), Some(f)))
  {
    var n := |rounds| - 1;
    var kept := LetThrough(rounds, n);
    LastDataConcat(Admitted(rounds[..n]), kept, Some(f));
    LastDataConcat(Run(rounds[..n]).forwarded, kept, Some(f));
    if Mentions(Admitted(rounds), Some(f)) {
      MentionsConcat(Admitted(rounds[..n]), kept, Some(f));
    }
  }

  /** Tracing the last forwarded data back to the round that last let the feed through. */
  lemma {:induction false} FindLastLetThrough<D>(rounds: seq<Round<D>>, f: Feed) returns (r: nat)
    requires Mentions(Admitted(rounds), Some(f))
    ensures LastLetThrough(rounds, f, r)
    ensures LastData(Admitted(rounds), Some(f)) == LastData(LetThrough(rounds, r), Some(f))
    ensures LastData(Run(rounds).forwarded, Some(f)) ==
            if rounds[r].Delivered() then LastData(LetThrough(rounds, r), Some(f))
            else LastData(Run(rounds[..r]).forwarded, Some(f))
  {
    var n := |rounds| - 1;
    LastForwarded(rounds, f);
    if Mentions(LetThrough(rounds, n), Some(f)) {
      r := n;
    } else {
      r := FindLastLetThrough(rounds[..n], f);
      StillLast(rounds, f, r);
      PrefixLetsThrough(rounds, n, r);
    }
  }

  lemma MentionsConcat<D>(a: seq<FeedUpdate<D>>, b: seq<FeedUpdate<D>>, id: Option<Feed>)
    requires Mentions(a + b, id)
    ensures Mentions(a, id) || Mentions(b, id)
  {
    var i :| 0 <= i < |a + b| && (a + b)[i].feedId == id;
    if i < |a| {
      assert a[i].feedId == id;
    } else {
      assert b[i - |a|].feedId == id;
    }
  }

  /** Exactly when deduplication preserves the last value, over any run with failed encodings, failed sends and any
      pattern of cache expiry: after a batch, the data last forwarded for each identified feed in it is its latest if
      and only if the round that last let the feed through was delivered, or that data had been the last forwarded
      before. */
  lemma {:induction false} RunDeliversExactly<D>(rounds: seq<Round<D>>, f: Feed, p: nat) returns (r: nat)
    requires Proper(rounds) && rounds != [] && Latest(rounds[|rounds| - 1].pending, Some(f), p)
    ensures LastLetThrough(rounds, f, r)
    ensures var latest := Some(rounds[|rounds| - 1].pending[p].data);
            && LastData(LetThrough(rounds, r), Some(f)) == latest
            && (LastData(Run(rounds).forwarded, Some(f)) == latest <==>
                (rounds[r].encodes && rounds[r].sent) || LastData(Run(rounds[..r]).forwarded, Some(f)) == latest)
  {
    var n := |rounds| - 1;
    var last := rounds[n];
    LatestData(last.pending, Some(f), p);
    LastDataMentions(Sorted(last.pending), Some(f));
    RunKeepsCache(rounds[..n]);
    BatchLetsThrough(Run(rounds[..n]).cache, Admitted(rounds[..n]), last.pending, last.order, last.gone, f);
    LastDataMentions(Admitted(rounds), Some(f));
    r := FindLastLetThrough(rounds, f);
  }

  /** So it always is when every batch is delivered: whatever feed the last batch mentions, the data last forwarded for
      it is that of its latest pending update. */
  lemma {:induction false} RunDelivers<D>(rounds: seq<Round<D>>, f: Feed) returns (p: nat)
    requires Proper(rounds) && rounds != [] && Mentions(rounds[|rounds| - 1].pending, Some(f))
    requires forall i :: 0 <= i < |rounds| ==> rounds[i].encodes && rounds[i].sent
    ensures Latest(rounds[|rounds| - 1].pending, Some(f), p)
    ensures LastData(Run(rounds).forwarded, Some(f)) == Some(rounds[|rounds| - 1].pending[p].data)
  {
    p := FindLatest(rounds[|rounds| - 1].pending, Some(f));
    var r := RunDeliversExactly(rounds, f, p);
  }

  /** A cache that loses nothing. */
  function NothingGone(): nat -> set<Feed> {
    (_: nat) => {}
  }

  lemma OneUpdate<D>(u: FeedUpdate<D>, f: Feed)
    requires u.feedId == Some(f)
    ensures Sorted([u]) == [u] && Lists([u], Picked([u])) && LastData([u], Some(f)) == Some(u.data)
  {
    assert [u][..0] == [] && [u][0].feedId == Some(f);
    assert Sorted([u]) == [u];
    assert Picked([u]) == map[Some(f) := u];
  }

  lemma {:induction false} RetainedOne<D>(cache: Cache<D>, u: FeedUpdate<D>, f: Feed)
    requires u.feedId == Some(f)
    ensures Retained([u], cache, NothingGone(), 1) ==
            if f in cache && cache[f].data == u.data then (cache, []) else (cache[f := u], [u])
  {
    assert Retained([u], cache, NothingGone(), 0) == (cache, []);
    assert cache - NothingGone()(0) == cache;
    assert [] + [u] == [u];
  }

  /** A failed send is swallowed after the cache was filled: the same update arriving again is dropped, both batches
      report success, and the data never reaches a relayer. So it is for every update. */
  lemma SwallowedSendLosesData<D>(u: FeedUpdate<D>, f: Feed)
    requires u.feedId == Some(f)
    ensures var lost := Round([u], [u], NothingGone(), true, false);
            var again := Round([u], [u], NothingGone(), true, true);
            && Proper([lost, again])
            && LastData(Sorted(again.pending), Some(f)) == Some(u.data)
            && LastData(Run([lost, again]).forwarded, Some(f)) == None
  {
    var lost := Round([u], [u], NothingGone(), true, false);
    var again := Round([u], [u], NothingGone(), true, true);
    OneUpdate(u, f);
    var empty: Cache<D> := map[];
    RetainedOne(empty, u, f);
    RetainedOne(empty[f := u], u, f);
    assert [lost][..0] == [] && [lost, again][..1] == [lost];
    assert Run([lost]) == Agent(empty[f := u], []);
    assert Run([lost, again]).forwarded == [];
  }
}
