/** What every run of the executor keeps: the guardian-set store, the chain of custody between
    guardian sets, and intersection of the quorums a run accepts. */
module Custody {
  import opened Outcomes
  import opened Bytes
  import opened Vaa
  import opened Ledger
  import E = Executor

  // ----- The guardian book: stored sets, whether archived or not -----

  datatype Book = Book(current: nat, sets: map<nat, StoredGuardianSet>)

  ghost function BookOf(s: E.State): Book {
    Book(if s.index.Absent? then 0 else s.index.value,
         map k | k in s.sets && !s.sets[k].Absent? :: s.sets[k].value)
  }

  /** Stored indices are exactly the interval from `first` to the current one; only the current
      set lacks an expiry; retired expiries do not decrease with the index and never lie more
      than the grace window of one day ahead. */
  ghost predicate BookInv(b: Book, now: nat, first: nat) {
    && first <= b.current
    && (forall k :: k in b.sets <==> first <= k <= b.current)
    && (forall k :: k in b.sets ==> b.sets[k].keys != [])
    && (forall k :: k in b.sets ==> (b.sets[k].expirationTime.None? <==> k == b.current))
    && (forall k :: k in b.sets && k < b.current ==> b.sets[k].expirationTime.value <= now + 86_400)
    && (forall j, k :: j in b.sets && k in b.sets && j <= k < b.current ==>
          b.sets[j].expirationTime.value <= b.sets[k].expirationTime.value)
  }

  ghost predicate StoreInv(w: World, first: nat) {
    && w.exec.initialized
    && !w.exec.index.Absent?
    && BookInv(BookOf(w.exec), w.now, first)
  }

  /** `after` holds everything `before` held: keys never change, retired sets never change at all. */
  ghost predicate Extends(before: Book, after: Book) {
    && before.current <= after.current
    && forall k :: k in before.sets ==>
         && k in after.sets
         && after.sets[k].keys == before.sets[k].keys
         && (k < before.current ==> after.sets[k] == before.sets[k])
  }

  /** The book after set `b.current` is retired at time `now` and `keys` take over. */
  ghost function Succession(b: Book, now: nat, keys: seq<Bytes20>): Book
    requires b.current in b.sets
  {
    Book(b.current + 1,
         b.sets[b.current := b.sets[b.current].(expirationTime := Some(now + 86_400))]
               [b.current + 1 := StoredGuardianSet(keys, None)])
  }

  /** `vaa` is a guardian-set upgrade from the configured emitter, certified by the current set, for `keys`. */
  ghost predicate Authorizes(env: Env, config: E.Config, b: Book, vaaBytes: Bytes, keys: seq<Bytes20>) {
    && DecodeVaa(vaaBytes).Done?
    && var vaa := DecodeVaa(vaaBytes).value;
    && vaa.guardianSetIndex == b.current
    && b.current in b.sets
    && Certified(env.host, b.sets[b.current].keys, vaa)
    && vaa.body.emitterChain == config.upgradeChain && vaa.body.emitterAddress == config.upgradeAddress
    && E.DecodeUpgrade(vaa.body.payload, config.chainId, b.current) == Done(keys)
  }

  lemma ExtendsFurther(a: Book, b: Book, c: Book)
    requires Extends(a, b) && Extends(b, c)
    ensures Extends(a, c)
  {
  }

  // ----- One step -----

  lemma SuccessionExtends(b: Book, now: nat, keys: seq<Bytes20>)
    requires b.current in b.sets && b.current + 1 !in b.sets
    ensures Extends(b, Succession(b, now, keys))
  {
  }

  lemma SuccessionOrdersExpiries(b: Book, now: nat, first: nat, keys: seq<Bytes20>)
    requires BookInv(b, now, first)
    ensures var b' := Succession(b, now, keys);
            forall j, k :: j in b'.sets && k in b'.sets && j <= k < b'.current ==>
              && b'.sets[j].expirationTime.Some? && b'.sets[k].expirationTime.Some?
              && b'.sets[j].expirationTime.value <= b'.sets[k].expirationTime.value
  {
    var b' := Succession(b, now, keys);
    forall j, k | j in b'.sets && k in b'.sets && j <= k < b'.current
      ensures && b'.sets[j].expirationTime.Some? && b'.sets[k].expirationTime.Some?
              && b'.sets[j].expirationTime.value <= b'.sets[k].expirationTime.value
    {
      assert j in b.sets && k in b.sets;
    }
  }

  lemma SuccessionSets(b: Book, now: nat, first: nat, keys: seq<Bytes20>)
    requires BookInv(b, now, first) && keys != []
    ensures var b' := Succession(b, now, keys);
            && (forall k :: k in b'.sets <==> first <= k <= b'.current)
            && (forall k :: k in b'.sets ==> b'.sets[k].keys != [])
            && (forall k :: k in b'.sets ==> (b'.sets[k].expirationTime.None? <==> k == b'.current))
            && (forall k :: k in b'.sets && k < b'.current ==> b'.sets[k].expirationTime.value <= now + 86_400)
  {
    assert forall k :: k in Succession(b, now, keys).sets <==> k in b.sets || k == b.current + 1;
  }

  lemma SuccessionKeeps(b: Book, now: nat, first: nat, keys: seq<Bytes20>)
    requires BookInv(b, now, first) && keys != []
    ensures BookInv(Succession(b, now, keys), now, first) && Extends(b, Succession(b, now, keys))
  {
    SuccessionExtends(b, now, keys);
    SuccessionSets(b, now, first, keys);
    SuccessionOrdersExpiries(b, now, first, keys);
  }

  lemma LaterBook(b: Book, now: nat, later: nat, first: nat)
    requires BookInv(b, now, first) && now <= later
    ensures BookInv(b, later, first) && Extends(b, b)
  {
  }

  lemma AdmittedIsCertified(env: Env, w: World, vaa: Bytes)
    requires E.Admission(env.host, w.exec, w.now, vaa).Done?
    ensures DecodeVaa(vaa).Done?
    ensures var v := DecodeVaa(vaa).value;
            && v.guardianSetIndex in BookOf(w.exec).sets
            && w.exec.ReadSet(v.guardianSetIndex) == Some(BookOf(w.exec).sets[v.guardianSetIndex])
            && BookOf(w.exec).sets[v.guardianSetIndex].Usable(w.now)
            && Certified(env.host, BookOf(w.exec).sets[v.guardianSetIndex].keys, v)
  {
    var v := DecodeVaa(vaa).value;
    VerifiedIffCertified(env.host, w.exec.ReadSet(v.guardianSetIndex), w.now, v);
  }

  lemma InstallationIsSuccession(s: E.State, now: nat, keys: seq<Bytes20>, s': E.State)
    requires s.index.Live? && s.ReadSet(s.index.value).Some?
    requires E.Installation(s, now, keys, s.index.value + 1) == Done(s')
    ensures BookOf(s).current in BookOf(s).sets && BookOf(s') == Succession(BookOf(s), now, keys)
    ensures s' == s.(sets := s'.sets, index := s'.index) && s'.index.Live?
  {
    assert BookOf(s').sets == Succession(BookOf(s), now, keys).sets;
  }

  /** A guardian-set update succeeds only with an authorization, and then it is the succession it authorizes. */
  lemma UpdateIsSuccession(env: Env, w: World, vaa: Bytes, s: E.State) returns (keys: seq<Bytes20>)
    requires E.GuardianSetUpdate(env.host, w.exec, w.now, vaa) == Done(s)
    ensures keys != [] && Authorizes(env, w.exec.config, BookOf(w.exec), vaa, keys)
    ensures BookOf(s) == Succession(BookOf(w.exec), w.now, keys)
    ensures s.initialized && s.index.Live? && s.config == w.exec.config
  {
    AdmittedIsCertified(env, w, vaa);
    var v := DecodeVaa(vaa).value;
    keys := E.DecodeUpgrade(v.body.payload, w.exec.config.chainId, w.exec.index.value).value;
    InstallationIsSuccession(w.exec, w.now, keys, s);
  }

  lemma ActionKeepsStore(env: Env, w: World, vaa: Bytes, foreignReturns: bool)
    requires ActionResult(env, w, vaa, foreignReturns).Done?
    ensures var w' := ActionResult(env, w, vaa, foreignReturns).value;
            w'.exec == w.exec.(lastSequence := w'.exec.lastSequence) && w'.now == w.now
  {
  }

  lemma EntryKeepsBook(w: World, entry: Entry, live: bool)
    ensures var w' := WithEntry(w, entry, live);
            && BookOf(w'.exec) == BookOf(w.exec)
            && w'.now == w.now
            && w'.exec.initialized == w.exec.initialized
            && w'.exec.index.Absent? == w.exec.index.Absent?
            && w'.exec.config == w.exec.config
  {
    assert BookOf(WithEntry(w, entry, live).exec).sets == BookOf(w.exec).sets;
  }

  /** A step leaves the book alone, or it is an authorized succession. */
  lemma StepOnBook(env: Env, w: World, first: nat, step: Step)
    requires StoreInv(w, first)
    ensures var w' := Next(env, w, step);
            && w'.exec.initialized && !w'.exec.index.Absent? && w.now <= w'.now && w'.exec.config == w.exec.config
            && (BookOf(w'.exec) == BookOf(w.exec)
                || (step.SubmitUpgrade?
                    && BookOf(w.exec).current + 1 in BookOf(w'.exec).sets
                    && var keys := BookOf(w'.exec).sets[BookOf(w.exec).current + 1].keys;
                       && keys != [] && w'.now == w.now
                       && Authorizes(env, w.exec.config, BookOf(w.exec), step.vaa, keys)
                       && BookOf(w'.exec) == Succession(BookOf(w.exec), w.now, keys)))
  {
    if !w.halted {
      match step
      case SubmitUpgrade(vaa) =>
        var r := E.GuardianSetUpdate(env.host, w.exec, w.now, vaa);
        if r.Done? {
          var keys := UpdateIsSuccession(env, w, vaa, r.value);
        }
      case SubmitAction(vaa, foreignReturns) =>
        if ActionResult(env, w, vaa, foreignReturns).Done? {
          ActionKeepsStore(env, w, vaa, foreignReturns);
        }
      case CallVerifier(_, _, _) =>
      case AdvanceTime(_) =>
      case Archive(entry) => EntryKeepsBook(w, entry, false);
      case Restore(entry) => EntryKeepsBook(w, entry, true);
    }
  }

  lemma StepKeepsBook(env: Env, w: World, first: nat, step: Step)
    requires StoreInv(w, first)
    ensures var b, w' := BookOf(w.exec), Next(env, w, step);
            w.now <= w'.now && BookInv(BookOf(w'.exec), w'.now, first) && Extends(b, BookOf(w'.exec))
  {
    StepOnBook(env, w, first, step);
    var b, w' := BookOf(w.exec), Next(env, w, step);
    var b' := BookOf(w'.exec);
    if b' == b {
      LaterBook(b, w.now, w'.now, first);
    } else {
      SuccessionKeeps(b, w.now, first, b'.sets[b.current + 1].keys);
    }
  }

  /** Every step keeps the store invariant and everything stored before it. */
  lemma StepKeepsStore(env: Env, w: World, first: nat, step: Step)
    requires StoreInv(w, first)
    ensures StoreInv(Next(env, w, step), first)
    ensures Extends(BookOf(w.exec), BookOf(Next(env, w, step).exec))
  {
    StepOnBook(env, w, first, step);
    StepKeepsBook(env, w, first, step);
  }

  // ----- Runs -----

  lemma GenesisBook(env: Env, w: World, d: Deployment)
    requires Genesis(env, w, d)
    ensures StoreInv(w, d.first) && BookOf(w.exec) == Book(d.first, map[d.first := StoredGuardianSet(d.keys, None)])
  {
    assert BookOf(w.exec).sets == map[d.first := StoredGuardianSet(d.keys, None)];
  }

  /** Guardian-store invariant of every reachable state, whatever is archived or restored on the way. */
  lemma {:induction false} RunKeepsStore(env: Env, w: World, first: nat, steps: seq<Step>)
    requires StoreInv(w, first)
    ensures StoreInv(Run(env, w, steps), first)
    ensures Run(env, w, steps).exec.config == w.exec.config
  {
    if steps != [] {
      var n := |steps| - 1;
      RunKeepsStore(env, w, first, steps[..n]);
      StepKeepsStore(env, Run(env, w, steps[..n]), first, steps[n]);
      StepOnBook(env, Run(env, w, steps[..n]), first, steps[n]);
    }
  }

  /** Immutability over time: between any two moments of a run no key changes, and a retired set,
      with its expiry, never changes at all. */
  lemma {:induction false} RunExtends(env: Env, w: World, first: nat, steps: seq<Step>, i: nat)
    requires StoreInv(w, first) && i <= |steps|
    ensures Extends(BookOf(Run(env, w, steps[..i]).exec), BookOf(Run(env, w, steps).exec))
    decreases |steps|
  {
    if i == |steps| {
      assert steps[..i] == steps;
    } else {
      var n := |steps| - 1;
      var early, before, after := Run(env, w, steps[..i]), Run(env, w, steps[..n]), Run(env, w, steps);
      assert Extends(BookOf(early.exec), BookOf(before.exec)) by {
        RunExtends(env, w, first, steps[..n], i);
        assert steps[..n][..i] == steps[..i];
      }
      assert Extends(BookOf(before.exec), BookOf(after.exec)) by {
        RunKeepsStore(env, w, first, steps[..n]);
        StepKeepsStore(env, before, first, steps[n]);
      }
      ExtendsFurther(BookOf(early.exec), BookOf(before.exec), BookOf(after.exec));
    }
  }

  /** A VAA naming set `k` can be verified: the set is stored, not archived and not expired. */
  ghost predicate Verifiable(s: E.State, now: nat, k: nat) {
    s.ReadSet(k).Some? && var expiry := s.ReadSet(k).value.expirationTime; expiry.Some? ==> now < expiry.value
  }

  /** At every moment the unexpired sets are a contiguous interval of indices ending at the current one, so above any
      verifiable set exactly the archived ones are not verifiable. */
  lemma {:induction false} UsableSetsAreASuffix(env: Env, w: World, first: nat, steps: seq<Step>, j: nat, k: nat)
    requires StoreInv(w, first)
    requires first <= j <= k <= BookOf(Run(env, w, steps).exec).current
    ensures var w' := Run(env, w, steps);
            var b := BookOf(w'.exec);
            && j in b.sets && k in b.sets && k in w'.exec.sets && b.current in b.sets
            && b.sets[b.current].expirationTime.None?
            && (b.sets[j].Usable(w'.now) ==> b.sets[k].Usable(w'.now))
            && (Verifiable(w'.exec, w'.now, j) ==> (Verifiable(w'.exec, w'.now, k) <==> !w'.exec.sets[k].Archived?))
  {
    RunKeepsStore(env, w, first, steps);
  }

  // ----- Chain of custody -----

  /** `step`, taken in the world `here`, installed the keys that `final` stores at `k + 1`, authorized by the set then
      current, whose keys `final` stores at `k`, retired until a day after the step. */
  ghost predicate HandsOver(env: Env, config: E.Config, here: World, step: Step, final: Book, k: nat) {
    && step.SubmitUpgrade?
    && var before := BookOf(here.exec);
    && before.current == k < final.current
    && k in before.sets && k in final.sets && k + 1 in final.sets
    && final.sets[k] == StoredGuardianSet(before.sets[k].keys, Some(here.now + 86_400))
    && Authorizes(env, config, before, step.vaa, final.sets[k + 1].keys)
  }

  lemma HandoverStays(env: Env, config: E.Config, here: World, step: Step, final: Book, later: Book, k: nat)
    requires HandsOver(env, config, here, step, final, k) && Extends(final, later)
    ensures HandsOver(env, config, here, step, later, k)
  {
  }

  /** Step `i` of the run did so, for what the run has stored at its end. */
  ghost predicate InstalledAt(env: Env, config: E.Config, w: World, steps: seq<Step>, i: nat, k: nat) {
    i < |steps| && HandsOver(env, config, Run(env, w, steps[..i]), steps[i], BookOf(Run(env, w, steps).exec), k)
  }

  ghost predicate Custodied(env: Env, config: E.Config, w: World, steps: seq<Step>, k: nat) {
    exists i :: InstalledAt(env, config, w, steps, i, k)
  }

  lemma {:induction false} InstalledStays(env: Env, config: E.Config, w: World, steps: seq<Step>, i: nat, k: nat)
    requires steps != [] && InstalledAt(env, config, w, steps[..|steps| - 1], i, k)
    requires Extends(BookOf(Run(env, w, steps[..|steps| - 1]).exec), BookOf(Run(env, w, steps).exec))
    ensures InstalledAt(env, config, w, steps, i, k)
  {
    var n := |steps| - 1;
    assert steps[..n][..i] == steps[..i] && steps[..n][i] == steps[i];
    HandoverStays(env, config, Run(env, w, steps[..i]), steps[i], BookOf(Run(env, w, steps[..n]).exec),
                  BookOf(Run(env, w, steps).exec), k);
  }

  lemma SuccessionHandsOver(env: Env, w: World, step: Step, keys: seq<Bytes20>)
    requires step.SubmitUpgrade? && Authorizes(env, w.exec.config, BookOf(w.exec), step.vaa, keys)
    ensures var b := BookOf(w.exec); HandsOver(env, w.exec.config, w, step, Succession(b, w.now, keys), b.current)
  {
  }

  /** A step that moves the current index hands over. */
  lemma StepHandsOver(env: Env, w: World, first: nat, step: Step)
    requires StoreInv(w, first) && BookOf(Next(env, w, step).exec).current > BookOf(w.exec).current
    ensures HandsOver(env, w.exec.config, w, step, BookOf(Next(env, w, step).exec), BookOf(w.exec).current)
    ensures BookOf(Next(env, w, step).exec).current == BookOf(w.exec).current + 1
  {
    StepOnBook(env, w, first, step);
    SuccessionHandsOver(env, w, step, BookOf(Next(env, w, step).exec).sets[BookOf(w.exec).current + 1].keys);
  }

  lemma {:induction false} FindInstallation(env: Env, w: World, first: nat, steps: seq<Step>, k: nat) returns (i: nat)
    requires StoreInv(w, first) && BookOf(w.exec).current == first
    requires first <= k < BookOf(Run(env, w, steps).exec).current
    ensures InstalledAt(env, w.exec.config, w, steps, i, k)
  {
    var n := |steps| - 1;
    var before := Run(env, w, steps[..n]);
    RunKeepsStore(env, w, first, steps[..n]);
    if k < BookOf(before.exec).current {
      StepKeepsStore(env, before, first, steps[n]);
      i := FindInstallation(env, w, first, steps[..n], k);
      InstalledStays(env, w.exec.config, w, steps, i, k);
    } else {
      i := n;
      StepHandsOver(env, before, first, steps[n]);
    }
  }

  /** Chain of custody: in every run, every guardian set after the initial one was installed by a VAA
      certified by the set before it while that set was current; the chain ends at the deployed set. */
  lemma {:induction false} ChainOfCustody(env: Env, w: World, d: Deployment, steps: seq<Step>)
    requires Genesis(env, w, d)
    ensures var b := BookOf(Run(env, w, steps).exec);
            && BookInv(b, Run(env, w, steps).now, d.first)
            && b.sets[d.first].keys == d.keys
            && forall k :: d.first <= k < b.current ==> Custodied(env, d.config, w, steps, k)
  {
    GenesisBook(env, w, d);
    RunKeepsStore(env, w, d.first, steps);
    RunExtends(env, w, d.first, steps, 0);
    assert steps[..0] == [];
    forall k | d.first <= k < BookOf(Run(env, w, steps).exec).current
      ensures Custodied(env, d.config, w, steps, k)
    {
      var i := FindInstallation(env, w, d.first, steps, k);
    }
  }

  // ----- Quorum intersection over a run -----

  /** Any two VAAs a run accepts under one guardian-set index, at whatever two moments, share more than
      a third of that set's guardians. */
  lemma {:induction false} AcceptedQuorumsIntersect(env: Env, w: World, first: nat, steps: seq<Step>, i: nat,
                                                    a: Bytes, b: Bytes)
    requires StoreInv(w, first) && i <= |steps|
    requires var early := Run(env, w, steps[..i]); E.Admission(env.host, early.exec, early.now, a).Done?
    requires var late := Run(env, w, steps); E.Admission(env.host, late.exec, late.now, b).Done?
    requires DecodeVaa(a).Done? && DecodeVaa(b).Done?
    requires DecodeVaa(a).value.guardianSetIndex == DecodeVaa(b).value.guardianSetIndex
    ensures var k, sets := DecodeVaa(a).value.guardianSetIndex, BookOf(Run(env, w, steps).exec).sets;
            && k in sets
            && 3 * |Signers(DecodeVaa(a).value.signatures) * Signers(DecodeVaa(b).value.signatures)| > |sets[k].keys|
  {
    var early, late := Run(env, w, steps[..i]), Run(env, w, steps);
    RunExtends(env, w, first, steps, i);
    AdmittedIsCertified(env, early, a);
    AdmittedIsCertified(env, late, b);
    var k := DecodeVaa(a).value.guardianSetIndex;
    QuorumsIntersect(env.host, BookOf(late.exec).sets[k].keys, DecodeVaa(a).value, DecodeVaa(b).value);
  }
}
