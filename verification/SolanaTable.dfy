/** The Solana contract's trusted-signer table: a fixed array with a count that behaves as a
    small map (`update_trusted_signer`, `is_trusted` in the Solana contract's `lib.rs`). */
module SolanaTable {
  import opened Outcomes

  const MAX_NUM_TRUSTED_SIGNERS := 2

  datatype ProgramError = InvalidAccountData | InvalidInstructionData | AccountDataTooSmall

  datatype SignerInfo<T> = SignerInfo(pubkey: T, expiresAt: int)

  /** The stored count and the stored array. */
  datatype Table<T> = Table(num: nat, items: seq<SignerInfo<T>>) {
    /** `is_trusted`: some entry of the used prefix names the signer and has not expired. */
    ghost predicate IsTrusted(signer: T, now: int)
      requires num <= |items|
    {
      exists i :: 0 <= i < num && items[i].pubkey == signer && items[i].expiresAt > now
    }
  }

  function Find<T(==)>(list: seq<SignerInfo<T>>, key: T, from: nat := 0): (p: Option<nat>)
    requires from <= |list|
    ensures p.Some? ==> from <= p.value < |list| && list[p.value].pubkey == key
    ensures p.None? ==> forall i :: from <= i < |list| ==> list[i].pubkey != key
    decreases |list| - from
  {
    if from == |list| then None else if list[from].pubkey == key then Some(from) else Find(list, key, from + 1)
  }

  function Blanks<T>(blank: T, n: nat): seq<SignerInfo<T>> {
    seq(n, _ => SignerInfo(blank, 0))
  }

  /** The used entries after an update, before the size checks; `None` when there is nothing to delete. */
  function Edited<T(==)>(list: seq<SignerInfo<T>>, key: T, expiresAt: int): Option<seq<SignerInfo<T>>> {
    match Find(list, key)
    case None => if expiresAt == 0 then None else Some(list + [SignerInfo(key, expiresAt)])
    case Some(p) =>
      if expiresAt == 0 then Some(list[..p] + list[p + 1..]) else Some(list[p := SignerInfo(key, expiresAt)])
  }

  function Updated<T(==)>(t: Table<T>, blank: T, key: T, expiresAt: int): Outcome<Table<T>, ProgramError> {
    if t.num > |t.items| || t.num > MAX_NUM_TRUSTED_SIGNERS then Fail(InvalidAccountData)
    else
      match Edited(t.items[..t.num], key, expiresAt)
      case None => Fail(InvalidInstructionData)
      case Some(list) =>
        if |list| > |t.items| then Fail(AccountDataTooSmall)
        else if |list| > MAX_NUM_TRUSTED_SIGNERS then Fail(InvalidInstructionData)
        else Done(Table(|list|, list + Blanks(blank, |t.items| - |list|)))
  }

  /** The storage account: the array is rewritten in place. */
  class Storage<T(==)> {
    const blank: T
    const items: array<SignerInfo<T>>
    var num: nat

    constructor (blank: T, capacity: nat)
      ensures this.blank == blank && View() == Table(0, Blanks(blank, capacity)) && fresh(items)
    {
      this.blank := blank;
      num := 0;
      items := new SignerInfo<T>[capacity](_ => SignerInfo(blank, 0));
      new;
      assert items[..] == Blanks(blank, capacity);
    }

    ghost function View(): Table<T>
      reads this, items
    {
      Table(num, items[..])
    }

    /** `update_trusted_signer`: edits a copy of the used prefix, then rewrites the array and the count. */
    method Update(key: T, expiresAt: int) returns (r: Outcome<(), ProgramError>)
      modifies this, items
      ensures match Updated(old(View()), blank, key, expiresAt)
              case Done(t) => r == Done(()) && View() == t
              case Fail(e) => r == Fail(e) && View() == old(View())
              case Trap => r == Trap
    {
      if num > items.Length || num > MAX_NUM_TRUSTED_SIGNERS {
        return Fail(InvalidAccountData);
      }
      var list := items[..num];
      var pos := Position(list, key);
      if expiresAt == 0 {
        if pos.None? {
          return Fail(InvalidInstructionData);
        }
        list := list[..pos.value] + list[pos.value + 1..];
      } else if pos.Some? {
        list := list[pos.value := SignerInfo(key, expiresAt)];
      } else {
        list := list + [SignerInfo(key, expiresAt)];
      }
      if |list| > items.Length {
        return Fail(AccountDataTooSmall);
      }
      if |list| > MAX_NUM_TRUSTED_SIGNERS {
        return Fail(InvalidInstructionData);
      }
      Rewrite(list);
      num := |list|;
      return Done(());
    }

    method Rewrite(list: seq<SignerInfo<T>>)
      requires |list| <= items.Length
      modifies items
      ensures items[..] == list + Blanks(blank, items.Length - |list|)
    {
      var i := 0;
      while i < items.Length
        invariant 0 <= i <= items.Length
        invariant forall k :: 0 <= k < i ==> items[k] == if k < |list| then list[k] else SignerInfo(blank, 0)
      {
        items[i] := if i < |list| then list[i] else SignerInfo(blank, 0);
        i := i + 1;
      }
    }
  }

  /** The first entry that names `key`, found by scanning. */
  method Position<T(==)>(list: seq<SignerInfo<T>>, key: T) returns (p: Option<nat>)
    ensures p == Find(list, key)
  {
    var i := 0;
    while i < |list|
      invariant 0 <= i <= |list|
      invariant Find(list, key) == Find(list, key, i)
    {
      if list[i].pubkey == key {
        return Some(i);
      }
      i := i + 1;
    }
    return None;
  }

  // ----- The table is a map -----

  ghost predicate Distinct<T>(list: seq<SignerInfo<T>>) {
    forall i, j :: 0 <= i < j < |list| ==> list[i].pubkey != list[j].pubkey
  }

  ghost predicate Names<T>(list: seq<SignerInfo<T>>, key: T) {
    exists i :: 0 <= i < |list| && list[i].pubkey == key
  }

  ghost predicate TableInv<T>(t: Table<T>, blank: T, capacity: nat) {
    && |t.items| == capacity
    && t.num <= capacity && t.num <= 2
    && Distinct(t.items[..t.num])
    && t.items[t.num..] == Blanks(blank, capacity - t.num)
  }

  /** The map a list of entries stands for. */
  ghost function MapOf<T>(list: seq<SignerInfo<T>>): map<T, int> {
    if list == [] then map[] else MapOf(list[..|list| - 1])[list[|list| - 1].pubkey := list[|list| - 1].expiresAt]
  }

  lemma {:induction false} MapOfEntries<T>(list: seq<SignerInfo<T>>)
    requires Distinct(list)
    ensures |MapOf(list)| == |list|
    ensures forall k :: k in MapOf(list) <==> Names(list, k)
    ensures forall i :: 0 <= i < |list| ==>
              list[i].pubkey in MapOf(list) && MapOf(list)[list[i].pubkey] == list[i].expiresAt
  {
    if list != [] {
      var n := |list| - 1;
      MapOfEntries(list[..n]);
      assert forall i :: 0 <= i < n ==> list[..n][i] == list[i];
      assert forall k :: Names(list, k) <==> Names(list[..n], k) || k == list[n].pubkey;
    }
  }

  /** What an update means for the map; `None` when it must be refused. */
  ghost function MapUpdate<T>(m: map<T, int>, capacity: nat, key: T, expiresAt: int): Option<map<T, int>> {
    if expiresAt == 0 then if key in m then Some(m - {key}) else None
    else if key in m || (|m| < capacity && |m| < 2) then Some(m[key := expiresAt])
    else None
  }

  lemma {:induction false} MapEqual<T>(list: seq<SignerInfo<T>>, m: map<T, int>)
    requires Distinct(list)
    requires forall i :: 0 <= i < |list| ==> list[i].pubkey in m && m[list[i].pubkey] == list[i].expiresAt
    requires forall k :: k in m ==> Names(list, k)
    ensures MapOf(list) == m
  {
    MapOfEntries(list);
    var got := MapOf(list);
    forall k | k in got
      ensures k in m && got[k] == m[k]
    {
      assert Names(list, k);
      var i :| 0 <= i < |list| && list[i].pubkey == k;
    }
    forall k | k in m
      ensures k in got
    {
      assert Names(list, k);
    }
    assert got.Keys == m.Keys;
  }

  lemma {:induction false} InsertLast<T>(list: seq<SignerInfo<T>>, key: T, expiresAt: int)
    requires Distinct(list) && !Names(list, key)
    ensures Distinct(list + [SignerInfo(key, expiresAt)])
    ensures MapOf(list + [SignerInfo(key, expiresAt)]) == MapOf(list)[key := expiresAt]
  {
    assert (list + [SignerInfo(key, expiresAt)])[..|list|] == list;
  }

  lemma ChangeAt<T>(list: seq<SignerInfo<T>>, p: nat, expiresAt: int)
    requires Distinct(list) && p < |list|
    ensures var out := list[p := SignerInfo(list[p].pubkey, expiresAt)];
            Distinct(out) && MapOf(out) == MapOf(list)[list[p].pubkey := expiresAt]
  {
    MapOfEntries(list);
    var out := list[p := SignerInfo(list[p].pubkey, expiresAt)];
    assert forall i :: 0 <= i < |list| ==> out[i].pubkey == list[i].pubkey;
    var m := MapOf(list)[list[p].pubkey := expiresAt];
    forall k | k in m
      ensures Names(out, k)
    {
      assert k in MapOf(list) && Names(list, k);
      var i :| 0 <= i < |list| && list[i].pubkey == k;
      assert out[i].pubkey == k;
    }
    MapEqual(out, m);
  }

  /** The entries but the one at `p`. */
  ghost function Without<T>(list: seq<SignerInfo<T>>, p: nat): (out: seq<SignerInfo<T>>)
    requires p < |list|
    ensures |out| == |list| - 1
    ensures forall i :: 0 <= i < p ==> out[i] == list[i]
    ensures forall i :: p <= i < |out| ==> out[i] == list[i + 1]
    ensures Distinct(list) ==> Distinct(out)
  {
    list[..p] + list[p + 1..]
  }

  lemma WithoutNames<T>(list: seq<SignerInfo<T>>, p: nat, key: T)
    requires p < |list| && Names(list, key) && key != list[p].pubkey
    ensures Names(Without(list, p), key)
  {
    var i :| 0 <= i < |list| && list[i].pubkey == key;
    var j := if i < p then i else i - 1;
    assert Without(list, p)[j] == list[i];
  }

  lemma {:induction false} DeleteAt<T>(list: seq<SignerInfo<T>>, p: nat)
    requires Distinct(list) && p < |list|
    ensures MapOf(Without(list, p)) == MapOf(list) - {list[p].pubkey}
  {
    MapOfEntries(list);
    var out, m := Without(list, p), MapOf(list) - {list[p].pubkey};
    forall k | k in m
      ensures Names(out, k)
    {
      assert k in MapOf(list) && Names(list, k);
      WithoutNames(list, p, k);
    }
    forall i | 0 <= i < |out|
      ensures out[i].pubkey in m && m[out[i].pubkey] == out[i].expiresAt
    {
      var j := if i < p then i else i + 1;
      assert out[i] == list[j] && list[j].pubkey != list[p].pubkey;
    }
    MapEqual(out, m);
  }

  /** Editing a list without repeated keys is the map's own insert, change or delete. */
  lemma {:induction false} EditedIsMapUpdate<T>(list: seq<SignerInfo<T>>, key: T, expiresAt: int)
    requires Distinct(list)
    ensures var m, r := MapOf(list), Edited(list, key, expiresAt);
            && (r.None? <==> expiresAt == 0 && key !in m)
            && (r.Some? ==>
                  && Distinct(r.value)
                  && MapOf(r.value) == if expiresAt == 0 then m - {key} else m[key := expiresAt])
  {
    MapOfEntries(list);
    match Find(list, key)
    case None => InsertLast(list, key, expiresAt);
    case Some(p) =>
      assert Names(list, key);
      if expiresAt == 0 {
        DeleteAt(list, p);
        assert Edited(list, key, expiresAt) == Some(Without(list, p));
      } else {
        ChangeAt(list, p, expiresAt);
      }
  }

  lemma {:induction false} EditedLength<T>(list: seq<SignerInfo<T>>, key: T, expiresAt: int)
    requires Distinct(list)
    ensures |MapOf(list)| == |list|
    ensures var r := Edited(list, key, expiresAt);
            r.Some? ==>
              |r.value| == if expiresAt == 0 then |list| - 1 else if key in MapOf(list) then |list| else |list| + 1
  {
    MapOfEntries(list);
    assert key in MapOf(list) <==> Names(list, key);
    assert Find(list, key).Some? <==> Names(list, key);
  }

  lemma PaddedTable<T>(list: seq<SignerInfo<T>>, blank: T, capacity: nat)
    requires Distinct(list) && |list| <= capacity && |list| <= MAX_NUM_TRUSTED_SIGNERS
    ensures var t := Table(|list|, list + Blanks(blank, capacity - |list|));
            TableInv(t, blank, capacity) && t.items[..t.num] == list
  {
    var items := list + Blanks(blank, capacity - |list|);
    assert items[..|list|] == list && items[|list|..] == Blanks(blank, capacity - |list|);
  }

  /** One call: it keeps the table's invariant, succeeds exactly when the map update does, and is that update. */
  lemma UpdateRefinesMap<T>(t: Table<T>, blank: T, capacity: nat, key: T, expiresAt: int)
    requires TableInv(t, blank, capacity)
    ensures var r := Updated(t, blank, key, expiresAt);
            match MapUpdate(MapOf(t.items[..t.num]), capacity, key, expiresAt)
            case None => !r.Done?
            case Some(m) => r.Done? && TableInv(r.value, blank, capacity) && MapOf(r.value.items[..r.value.num]) == m
  {
    var list := t.items[..t.num];
    EditedIsMapUpdate(list, key, expiresAt);
    EditedLength(list, key, expiresAt);
    var edited := Edited(list, key, expiresAt);
    if edited.Some? {
      if |edited.value| <= capacity && |edited.value| <= MAX_NUM_TRUSTED_SIGNERS {
        PaddedTable(edited.value, blank, capacity);
      }
    }
  }

  // ----- Runs -----

  datatype SignerUpdate<T> = SignerUpdate(key: T, expiresAt: int)

  /** The table after a sequence of calls; a refused call changes nothing. */
  ghost function RunTable<T>(t: Table<T>, blank: T, calls: seq<SignerUpdate<T>>): Table<T> {
    if calls == [] then t
    else
      var before, c := RunTable(t, blank, calls[..|calls| - 1]), calls[|calls| - 1];
      match Updated(before, blank, c.key, c.expiresAt) case Done(after) => after case _ => before
  }

  ghost function RunMap<T>(m: map<T, int>, capacity: nat, calls: seq<SignerUpdate<T>>): map<T, int> {
    if calls == [] then m
    else
      var before, c := RunMap(m, capacity, calls[..|calls| - 1]), calls[|calls| - 1];
      match MapUpdate(before, capacity, c.key, c.expiresAt) case Some(after) => after case None => before
  }

  lemma {:induction false} RunRefinesMap<T>(blank: T, capacity: nat, calls: seq<SignerUpdate<T>>)
    ensures var t := RunTable(Table(0, Blanks(blank, capacity)), blank, calls);
            TableInv(t, blank, capacity) && MapOf(t.items[..t.num]) == RunMap(map[], capacity, calls)
  {
    var empty := Table(0, Blanks(blank, capacity));
    if calls == [] {
      assert empty.items[0..] == empty.items;
    } else {
      var n := |calls| - 1;
      RunRefinesMap(blank, capacity, calls[..n]);
      UpdateRefinesMap(RunTable(empty, blank, calls[..n]), blank, capacity, calls[n].key, calls[n].expiresAt);
    }
  }

  lemma TrustedIsLookup<T>(t: Table<T>, blank: T, capacity: nat, signer: T, now: int)
    requires TableInv(t, blank, capacity)
    ensures t.IsTrusted(signer, now) <==>
            signer in MapOf(t.items[..t.num]) && MapOf(t.items[..t.num])[signer] > now
  {
    var list := t.items[..t.num];
    MapOfEntries(list);
    if t.IsTrusted(signer, now) {
      var i :| 0 <= i < t.num && t.items[i].pubkey == signer && t.items[i].expiresAt > now;
      assert list[i] == t.items[i];
    }
    if signer in MapOf(list) {
      assert Names(list, signer);
      var i :| 0 <= i < |list| && list[i].pubkey == signer;
      assert list[i] == t.items[i];
    }
  }

  /** The signer table refines a map: after any sequence of calls on an empty table the used prefix has distinct
      keys and at most two entries, the rest is blank, its contents are what the same calls make of an empty map, and
      a signer is trusted exactly when that map holds it with an unexpired time. */
  lemma {:induction false} TableRefinesMap<T>(blank: T, capacity: nat, calls: seq<SignerUpdate<T>>, signer: T, now: int)
    ensures var t := RunTable(Table(0, Blanks(blank, capacity)), blank, calls);
            var m := RunMap(map[], capacity, calls);
            && TableInv(t, blank, capacity)
            && MapOf(t.items[..t.num]) == m
            && (t.IsTrusted(signer, now) <==> signer in m && m[signer] > now)
  {
    RunRefinesMap(blank, capacity, calls);
    TrustedIsLookup(RunTable(Table(0, Blanks(blank, capacity)), blank, calls), blank, capacity, signer, now);
  }
}
