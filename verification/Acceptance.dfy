/** Exactly which byte strings the executor's two VAA entry points accept, and what they then do, stated without
    the parsers (`update_guardian_set` and `execute_governance_action`). */
module Acceptance {
  import opened Outcomes
  import opened Bytes
  import opened Host
  import opened Vaa
  import opened Governance
  import E = Executor

  // ----- What an upgrade payload says -----

  ghost function UpgradeHeader(chain: nat, index: nat, count: byte): (r: Bytes)
    requires chain <= U16_MAX && index <= U32_MAX
    ensures |r| == E.UPGRADE_HEADER_SIZE
  {
    Zeros(28) + [0x43, 0x6F, 0x72, 0x65] + [2] + ToBE(chain, 2) + ToBE(index, 4) + [count]
  }

  ghost function Flatten(keys: seq<Bytes20>): (r: Bytes)
    ensures |r| == 20 * |keys|
  {
    if keys == [] then [] else Flatten(keys[..|keys| - 1]) + keys[|keys| - 1]
  }

  lemma {:induction false} FlattenAt(keys: seq<Bytes20>, i: nat)
    requires i < |keys|
    ensures |Flatten(keys)| == 20 * |keys| && Flatten(keys)[20 * i..20 * i + 20] == keys[i]
  {
    var n := |keys| - 1;
    if i < n {
      FlattenAt(keys[..n], i);
      assert (Flatten(keys[..n]) + keys[n])[20 * i..20 * i + 20] == Flatten(keys[..n])[20 * i..20 * i + 20];
    }
  }

  lemma UpgradeHeaderFields(chain: nat, index: nat, count: byte, rest: Bytes)
    requires chain <= U16_MAX && index <= U32_MAX
    ensures var p := UpgradeHeader(chain, index, count) + rest;
            && p[..32] == E.CORE_MODULE && p[32] == E.GUARDIAN_SET_UPGRADE_ACTION
            && FromBE(p[33..35]) == chain && FromBE(p[35..39]) == index && p[39] == count
  {
    var h := UpgradeHeader(chain, index, count);
    var p := h + rest;
    assert h[33..35] == ToBE(chain, 2) && h[35..39] == ToBE(index, 4);
    assert p[33..35] == h[33..35] && p[35..39] == h[35..39];
    assert p[..32] == h[..32] == E.CORE_MODULE;
    Pow256Values();
    BEOfValue(chain, 2);
    BEOfValue(index, 4);
  }

  lemma {:induction false} KeyAfterHeader(h: Bytes, keys: seq<Bytes20>, trailing: Bytes, i: nat)
    requires |h| == E.UPGRADE_HEADER_SIZE && i < |keys|
    ensures (h + (Flatten(keys) + trailing))[40 + i * 20..40 + i * 20 + 20] == keys[i]
  {
    FlattenAt(keys, i);
    SliceInside(h, Flatten(keys), trailing, 20 * i, 20 * i + 20);
  }

  lemma {:induction false} KeysAfterHeader(h: Bytes, keys: seq<Bytes20>, trailing: Bytes)
    requires |h| == E.UPGRADE_HEADER_SIZE
    ensures E.KeysAt(h + (Flatten(keys) + trailing), |keys|) == keys
  {
    var got := E.KeysAt(h + (Flatten(keys) + trailing), |keys|);
    forall i | 0 <= i < |keys|
      ensures got[i] == keys[i]
    {
      KeyAfterHeader(h, keys, trailing, i);
    }
  }

  /** An upgrade payload for this chain, or for all chains, installs exactly the keys it lists;
      bytes after the last key are ignored. */
  lemma {:induction false} UpgradeOfEncoding(chain: nat, target: nat, current: nat, keys: seq<Bytes20>, trailing: Bytes)
    requires target <= U16_MAX && current + 1 <= U32_MAX && 0 < |keys| < 256 && (target == 0 || target == chain)
    ensures E.DecodeUpgrade(UpgradeHeader(target, current + 1, |keys|) + (Flatten(keys) + trailing), chain, current)
         == Done(keys)
  {
    UpgradeHeaderFields(target, current + 1, |keys|, Flatten(keys) + trailing);
    KeysAfterHeader(UpgradeHeader(target, current + 1, |keys|), keys, trailing);
  }

  lemma {:induction false} KeysFlatten(payload: Bytes, n: nat)
    requires E.UPGRADE_HEADER_SIZE + n * 20 <= |payload|
    ensures Flatten(E.KeysAt(payload, n)) == payload[E.UPGRADE_HEADER_SIZE..E.UPGRADE_HEADER_SIZE + n * 20]
  {
    if n > 0 {
      KeysFlatten(payload, n - 1);
      var keys, o := E.KeysAt(payload, n), E.UPGRADE_HEADER_SIZE;
      var m := o + (n - 1) * 20;
      assert keys[..n - 1] == E.KeysAt(payload, n - 1);
      assert keys[n - 1] == payload[m..m + 20];
      SliceJoin(payload, o, m, m + 20);
    }
  }

  lemma UpgradeHeaderSplits(payload: Bytes)
    requires |payload| >= E.UPGRADE_HEADER_SIZE
    requires payload[..32] == E.CORE_MODULE && payload[32] == E.GUARDIAN_SET_UPGRADE_ACTION
    ensures FromBE(payload[33..35]) <= U16_MAX && FromBE(payload[35..39]) <= U32_MAX
    ensures UpgradeHeader(FromBE(payload[33..35]), FromBE(payload[35..39]), payload[39])
         == payload[..E.UPGRADE_HEADER_SIZE]
  {
    var a, b := payload[33..35], payload[35..39];
    Pow256Values();
    BEOfBytes(a);
    BEOfBytes(b);
    assert ToBE(FromBE(a), 2) == a && ToBE(FromBE(b), 4) == b;
    assert payload[..40] == payload[..32] + [payload[32]] + a + b + [payload[39]];
  }

  /** `payload` is an upgrade for this chain or for all chains, to the index after `current`, listing `keys`. */
  ghost predicate Installs(payload: Bytes, chain: nat, current: nat, keys: seq<Bytes20>) {
    && current + 1 <= U32_MAX && 0 < |keys| < 256
    && exists target, trailing :: InstallsFor(payload, chain, current, keys, target, trailing)
  }

  ghost predicate InstallsFor(payload: Bytes, chain: nat, current: nat, keys: seq<Bytes20>, target: nat,
                              trailing: Bytes)
    requires current + 1 <= U32_MAX && 0 < |keys| < 256
  {
    && target <= U16_MAX && (target == 0 || target == chain)
    && payload == UpgradeHeader(target, current + 1, |keys|) + (Flatten(keys) + trailing)
  }

  lemma UpgradeSplits(payload: Bytes, chain: nat, current: nat, keys: seq<Bytes20>)
    requires E.DecodeUpgrade(payload, chain, current) == Done(keys)
    ensures Installs(payload, chain, current, keys)
  {
    var n, o := |keys|, E.UPGRADE_HEADER_SIZE + |keys| * 20;
    assert n == At(payload, 39) && keys == E.KeysAt(payload, n);
    UpgradeHeaderSplits(payload);
    KeysFlatten(payload, n);
    SliceJoin(payload, E.UPGRADE_HEADER_SIZE, o, |payload|);
    SliceJoin(payload, 0, E.UPGRADE_HEADER_SIZE, |payload|);
    assert InstallsFor(payload, chain, current, keys, FromBE(payload[33..35]), payload[o..]);
  }

  /** The upgrade parser accepts exactly the upgrade messages, and reads exactly the keys they list. */
  lemma UpgradeIffInstalls(payload: Bytes, chain: nat, current: nat, keys: seq<Bytes20>)
    ensures E.DecodeUpgrade(payload, chain, current) == Done(keys) <==> Installs(payload, chain, current, keys)
  {
    if E.DecodeUpgrade(payload, chain, current) == Done(keys) {
      UpgradeSplits(payload, chain, current, keys);
    }
    if Installs(payload, chain, current, keys) {
      var target, trailing :| InstallsFor(payload, chain, current, keys, target, trailing);
      UpgradeOfEncoding(chain, target, current, keys, trailing);
    }
  }

  // ----- Admission -----

  /** `vaa` is what `vaaBytes` encode, and the stored, unexpired guardian set it names certifies it. */
  ghost predicate Admitted(host: Host, s: E.State, now: nat, vaaBytes: Bytes, vaa: Vaa) {
    && s.initialized
    && WellFormed(vaa) && vaaBytes == EncodeVaa(vaa)
    && var stored := s.ReadSet(vaa.guardianSetIndex);
       && stored.Some?
       && (stored.value.expirationTime.Some? ==> now < stored.value.expirationTime.value)
       && Certified(host, stored.value.keys, vaa)
  }

  lemma AdmissionStages(host: Host, s: E.State, now: nat, vaaBytes: Bytes, vaa: Vaa)
    ensures E.Admission(host, s, now, vaaBytes) == Done(vaa) <==>
            s.initialized && DecodeVaa(vaaBytes) == Done(vaa)
            && Verification(host, s.ReadSet(vaa.guardianSetIndex), now, vaa).Done?
  {
  }

  lemma DecodedIffEncoded(vaaBytes: Bytes, vaa: Vaa)
    ensures DecodeVaa(vaaBytes) == Done(vaa) <==> WellFormed(vaa) && vaaBytes == EncodeVaa(vaa)
  {
    if DecodeVaa(vaaBytes) == Done(vaa) {
      EncodingOfParse(vaaBytes);
    }
    if WellFormed(vaa) {
      ParseOfEncoding(vaa);
    }
  }

  lemma AdmissionIffAdmitted(host: Host, s: E.State, now: nat, vaaBytes: Bytes, vaa: Vaa)
    ensures E.Admission(host, s, now, vaaBytes) == Done(vaa) <==> Admitted(host, s, now, vaaBytes, vaa)
  {
    AdmissionStages(host, s, now, vaaBytes, vaa);
    DecodedIffEncoded(vaaBytes, vaa);
    VerifiedIffCertified(host, s.ReadSet(vaa.guardianSetIndex), now, vaa);
  }

  // ----- Guardian-set updates -----

  /** A certified upgrade message of the configured emitter, under the current set, at a time whose grace window fits
      and with the watermark entry present. */
  ghost predicate Upgrades(host: Host, s: E.State, now: nat, vaaBytes: Bytes, vaa: Vaa, keys: seq<Bytes20>) {
    && Admitted(host, s, now, vaaBytes, vaa)
    && s.index == Live(vaa.guardianSetIndex)
    && vaa.body.emitterChain == s.config.upgradeChain && vaa.body.emitterAddress == s.config.upgradeAddress
    && Installs(vaa.body.payload, s.config.chainId, vaa.guardianSetIndex, keys)
    && now + 86_400 <= U64_MAX && s.lastSequence.Live?
  }

  /** The current set retired until the end of its grace window, `keys` current. */
  ghost function Upgraded(s: E.State, now: nat, current: nat, keys: seq<Bytes20>): E.State
    requires s.ReadSet(current).Some?
  {
    var retired := s.ReadSet(current).value.(expirationTime := Some(now + 86_400));
    s.(sets := s.sets[current := Live(retired)][current + 1 := Live(StoredGuardianSet(keys, None))],
       index := Live(current + 1))
  }

  lemma InstallationIsUpgraded(s: E.State, now: nat, current: nat, keys: seq<Bytes20>)
    requires s.ReadSet(current).Some?
    ensures E.Installation(s, now, keys, current + 1) ==
            if now + 86_400 > U64_MAX || !s.lastSequence.Live? then Trap
            else Done(Upgraded(s, now, current, keys))
  {
  }

  /** The stages a successful update has passed. */
  lemma UpdateStages(host: Host, s: E.State, now: nat, vaaBytes: Bytes, s': E.State)
    returns (vaa: Vaa, keys: seq<Bytes20>)
    requires E.GuardianSetUpdate(host, s, now, vaaBytes) == Done(s')
    ensures E.Admission(host, s, now, vaaBytes) == Done(vaa)
    ensures s.index == Live(vaa.guardianSetIndex)
    ensures vaa.body.emitterChain == s.config.upgradeChain && vaa.body.emitterAddress == s.config.upgradeAddress
    ensures E.DecodeUpgrade(vaa.body.payload, s.config.chainId, vaa.guardianSetIndex) == Done(keys)
    ensures E.Installation(s, now, keys, vaa.guardianSetIndex + 1) == Done(s')
  {
    vaa := E.Admission(host, s, now, vaaBytes).value;
    keys := E.DecodeUpgrade(vaa.body.payload, s.config.chainId, s.index.value).value;
  }

  lemma UpdateIsUpgrade(host: Host, s: E.State, now: nat, vaaBytes: Bytes, s': E.State)
    returns (vaa: Vaa, keys: seq<Bytes20>)
    requires E.GuardianSetUpdate(host, s, now, vaaBytes) == Done(s')
    ensures Upgrades(host, s, now, vaaBytes, vaa, keys) && s' == Upgraded(s, now, vaa.guardianSetIndex, keys)
  {
    vaa, keys := UpdateStages(host, s, now, vaaBytes, s');
    AdmissionIffAdmitted(host, s, now, vaaBytes, vaa);
    UpgradeIffInstalls(vaa.body.payload, s.config.chainId, vaa.guardianSetIndex, keys);
    InstallationIsUpgraded(s, now, vaa.guardianSetIndex, keys);
  }

  lemma UpgradeIsAccepted(host: Host, s: E.State, now: nat, vaaBytes: Bytes, vaa: Vaa, keys: seq<Bytes20>)
    requires Upgrades(host, s, now, vaaBytes, vaa, keys)
    ensures E.GuardianSetUpdate(host, s, now, vaaBytes) == Done(Upgraded(s, now, vaa.guardianSetIndex, keys))
  {
    AdmissionIffAdmitted(host, s, now, vaaBytes, vaa);
    UpgradeIffInstalls(vaa.body.payload, s.config.chainId, vaa.guardianSetIndex, keys);
    InstallationIsUpgraded(s, now, vaa.guardianSetIndex, keys);
    StagesUpdate(host, s, now, vaaBytes, vaa, keys);
  }

  /** Having passed them, an update installs. */
  lemma StagesUpdate(host: Host, s: E.State, now: nat, vaaBytes: Bytes, vaa: Vaa, keys: seq<Bytes20>)
    requires E.Admission(host, s, now, vaaBytes) == Done(vaa)
    requires s.index == Live(vaa.guardianSetIndex)
    requires vaa.body.emitterChain == s.config.upgradeChain && vaa.body.emitterAddress == s.config.upgradeAddress
    requires E.DecodeUpgrade(vaa.body.payload, s.config.chainId, vaa.guardianSetIndex) == Done(keys)
    ensures E.GuardianSetUpdate(host, s, now, vaaBytes) == E.Installation(s, now, keys, vaa.guardianSetIndex + 1)
  {
  }

  ghost predicate UpgradesTo(host: Host, s: E.State, now: nat, vaaBytes: Bytes, vaa: Vaa, keys: seq<Bytes20>,
                             s': E.State) {
    Upgrades(host, s, now, vaaBytes, vaa, keys) && s' == Upgraded(s, now, vaa.guardianSetIndex, keys)
  }

  /** `update_guardian_set` succeeds with such an upgrade and no other input, and then installs it. */
  lemma UpdateIffUpgrades(host: Host, s: E.State, now: nat, vaaBytes: Bytes, s': E.State)
    ensures E.GuardianSetUpdate(host, s, now, vaaBytes) == Done(s') <==>
            exists vaa, keys :: UpgradesTo(host, s, now, vaaBytes, vaa, keys, s')
  {
    if E.GuardianSetUpdate(host, s, now, vaaBytes) == Done(s') {
      var vaa, keys := UpdateIsUpgrade(host, s, now, vaaBytes, s');
      assert UpgradesTo(host, s, now, vaaBytes, vaa, keys, s');
    }
    if vaa, keys :| UpgradesTo(host, s, now, vaaBytes, vaa, keys, s') {
      UpgradeIsAccepted(host, s, now, vaaBytes, vaa, keys);
    }
  }

  // ----- Governance actions -----

  /** The host call an action stands for; `None` where its name or its arguments are malformed. */
  ghost function CallOf(host: Host, action: GovernanceAction): Option<E.Dispatch> {
    match action
    case UpgradeExecutor(_, digest) => Some(E.UpgradeSelf(digest))
    case CallContract(target, name, argsXdr) =>
      if !IsSymbol(name) || host.argsOf(argsXdr).None? then None
      else Some(E.Invoke(target, name, host.argsOf(argsXdr).value))
  }

  /** `payload` routes an action that stands for `d` through this executor on this chain. */
  ghost predicate Commands(host: Host, chain: nat, self: Address, payload: Bytes, d: E.Dispatch) {
    exists executor, target, action ::
      Encodes(host, chain, self, executor, target, action, payload) && CallOf(host, action) == Some(d)
  }

  lemma DispatchedIsCall(host: Host, config: E.Config, self: Address, payload: Bytes, d: E.Dispatch)
    ensures E.Dispatched(host, config, self, payload) == Done(d) <==>
            var action := DecodePtgm(host, payload, config.chainId, self);
            action.Done? && CallOf(host, action.value) == Some(d)
  {
    match DecodePtgm(host, payload, config.chainId, self)
    case Done(CallContract(_, name, _)) => SymbolExactly(name);
    case _ =>
  }

  lemma DispatchedIffCommands(host: Host, config: E.Config, self: Address, payload: Bytes, d: E.Dispatch)
    ensures E.Dispatched(host, config, self, payload) == Done(d) <==> Commands(host, config.chainId, self, payload, d)
  {
    DispatchedIsCall(host, config, self, payload, d);
    if DecodePtgm(host, payload, config.chainId, self).Done? {
      EncodingOfPtgm(host, payload, config.chainId, self);
    }
    if executor, target, action :|
      Encodes(host, config.chainId, self, executor, target, action, payload) && CallOf(host, action) == Some(d)
    {
      PtgmOfEncoding(host, config.chainId, self, executor, target, action, payload);
    }
  }

  /** A certified message of the configured owner, newer than anything executed, that commands `d`. */
  ghost predicate Orders(host: Host, s: E.State, self: Address, now: nat, vaaBytes: Bytes, vaa: Vaa, d: E.Dispatch) {
    && Admitted(host, s, now, vaaBytes, vaa)
    && vaa.body.emitterChain == s.config.ownerChain && vaa.body.emitterAddress == s.config.ownerAddress
    && s.lastSequence.Live? && s.lastSequence.value < vaa.body.sequence
    && Commands(host, s.config.chainId, self, vaa.body.payload, d)
  }

  /** `execute_governance_action` goes on to the call `d` with such a message and no other input, having moved the
      watermark and nothing else. */
  lemma ExecutionIffOrders(host: Host, s: E.State, self: Address, now: nat, vaaBytes: Bytes, vaa: Vaa, s': E.State,
                           d: E.Dispatch)
    ensures E.GovernanceExecution(host, s, self, now, vaaBytes) == Done((vaa, s', d)) <==>
            Orders(host, s, self, now, vaaBytes, vaa, d) && s' == s.(lastSequence := Live(vaa.body.sequence))
  {
    AdmissionIffAdmitted(host, s, now, vaaBytes, vaa);
    DispatchedIffCommands(host, s.config, self, vaa.body.payload, d);
  }
}
