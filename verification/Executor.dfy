/** The Wormhole executor contract: guardian-set storage, guardian-set upgrades and
    governance actions (`guardian.rs` and `lib.rs` of the executor). */
module Executor {
  import opened Outcomes
  import opened Bytes
  import opened Host
  import opened Vaa
  import opened Governance

  const GUARDIAN_SET_EXPIRY := 86400
  const GUARDIAN_SET_UPGRADE_ACTION: byte := 2
  const UPGRADE_HEADER_SIZE := 40
  const CORE_MODULE: Bytes := Zeros(28) + [0x43, 0x6F, 0x72, 0x65]

  datatype Config = Config(
    chainId: nat, ownerChain: nat, ownerAddress: Bytes32, upgradeChain: nat, upgradeAddress: Bytes32)

  /** The contract's storage. Configuration lives in instance storage; guardian sets, the current
      index and the executed-sequence watermark are persistent entries that may be archived. */
  datatype State = State(
    initialized: bool, config: Config,
    sets: map<nat, Cell<StoredGuardianSet>>, index: Cell<nat>, lastSequence: Cell<nat>)
  {
    function ReadSet(k: nat): Option<StoredGuardianSet> {
      if k in sets then sets[k].Read() else None
    }
  }

  /** What an accepted governance action asks the host to do. */
  datatype Dispatch =
    | Invoke(target: Address, func: Bytes, args: seq<Val>)
    | UpgradeSelf(wasmHash: Bytes32)

  // ----- Specification of the entry points -----

  function Initialization(s: State, config: Config, keys: seq<Bytes20>, index: nat): Call<State> {
    if keys == [] then Fail(EmptyGuardianSet)
    else if s.initialized then Fail(AlreadyInitialized)
    else Done(State(true, config, s.sets[index := Live(StoredGuardianSet(keys, None))], Live(index), Live(0)))
  }

  function KeysAt(payload: Bytes, n: nat): (keys: seq<Bytes20>)
    requires UPGRADE_HEADER_SIZE + n * 20 <= |payload|
    ensures |keys| == n
  {
    seq(n, i requires 0 <= i < n =>
      payload[UPGRADE_HEADER_SIZE + i * 20..UPGRADE_HEADER_SIZE + i * 20 + 20])
  }

  /** The guardian keys a guardian-set-upgrade payload installs after index `current`. */
  function DecodeUpgrade(payload: Bytes, chainId: nat, current: nat): Call<seq<Bytes20>> {
    if |payload| < UPGRADE_HEADER_SIZE then Fail(TruncatedData)
    else if payload[..32] != CORE_MODULE then Fail(InvalidGovernanceModule)
    else if payload[32] != GUARDIAN_SET_UPGRADE_ACTION then Fail(InvalidGovernanceAction)
    else if FromBE(payload[33..35]) != 0 && FromBE(payload[33..35]) != chainId then Fail(InvalidTargetChain)
    else if current + 1 > U32_MAX then Trap
    else if FromBE(payload[35..39]) != current + 1 then Fail(InvalidGuardianSetUpgrade)
    else if payload[39] == 0 then Fail(EmptyGuardianSet)
    else if |payload| < UPGRADE_HEADER_SIZE + payload[39] as nat * 20 then Fail(TruncatedData)
    else Done(KeysAt(payload, payload[39]))
  }

  /** Retires the set before `newIndex` with a grace window and installs `keys` as the current set. It ends by extending
      the lifetime of the watermark entry, which the host refuses when that entry is missing. */
  function Installation(s: State, now: nat, keys: seq<Bytes20>, newIndex: nat): Call<State>
    requires newIndex > 0
  {
    var prior := s.ReadSet(newIndex - 1);
    if prior.Some? && now + GUARDIAN_SET_EXPIRY > U64_MAX then Trap
    else if !s.lastSequence.Live? then Trap
    else
      var retired := if prior.None? then s.sets
        else s.sets[newIndex - 1 := Live(StoredGuardianSet(prior.value.keys, Some(now + GUARDIAN_SET_EXPIRY)))];
      Done(s.(sets := retired[newIndex := Live(StoredGuardianSet(keys, None))], index := Live(newIndex)))
  }

  /** A VAA that parses and carries a certificate of a stored, unexpired guardian set. */
  function Admission(host: Host, s: State, now: nat, vaaBytes: Bytes): Call<Vaa> {
    if !s.initialized then Fail(NotInitialized)
    else
      match DecodeVaa(vaaBytes)
      case Fail(e) => Fail(e)
      case Trap => Trap
      case Done(vaa) =>
        match Verification(host, s.ReadSet(vaa.guardianSetIndex), now, vaa)
        case Fail(e) => Fail(e)
        case Trap => Trap
        case Done(_) => Done(vaa)
  }

  function GuardianSetUpdate(host: Host, s: State, now: nat, vaaBytes: Bytes): Call<State> {
    match Admission(host, s, now, vaaBytes)
    case Fail(e) => Fail(e)
    case Trap => Trap
    case Done(vaa) =>
      if !s.index.Live? then Fail(NotInitialized)
      else if vaa.guardianSetIndex != s.index.value then Fail(InvalidGuardianSetIndex)
      else if vaa.body.emitterChain != s.config.upgradeChain then Fail(InvalidEmitterChain)
      else if vaa.body.emitterAddress != s.config.upgradeAddress then Fail(InvalidEmitterAddress)
      else
        match DecodeUpgrade(vaa.body.payload, s.config.chainId, s.index.value)
        case Fail(e) => Fail(e)
        case Trap => Trap
        case Done(keys) => Installation(s, now, keys, s.index.value + 1)
  }

  /** The call an accepted PTGM payload stands for. */
  function Dispatched(host: Host, config: Config, self: Address, payload: Bytes): Call<Dispatch> {
    match DecodePtgm(host, payload, config.chainId, self)
    case Fail(e) => Fail(e)
    case Trap => Trap
    case Done(UpgradeExecutor(_, digest)) => Done(UpgradeSelf(digest))
    case Done(CallContract(target, name, argsXdr)) =>
      if !ValidSymbol(name) then Fail(InvalidFunctionName)
      else
        match host.argsOf(argsXdr)
        case None => Fail(InvalidArgsEncoding)
        case Some(args) => Done(Invoke(target, name, args))
  }

  /** An accepted governance action: the VAA, the new storage, and the call still to be made. */
  function GovernanceExecution(host: Host, s: State, self: Address, now: nat, vaaBytes: Bytes)
    : Call<(Vaa, State, Dispatch)>
  {
    match Admission(host, s, now, vaaBytes)
    case Fail(e) => Fail(e)
    case Trap => Trap
    case Done(vaa) =>
      if vaa.body.emitterChain != s.config.ownerChain then Fail(InvalidEmitterChain)
      else if vaa.body.emitterAddress != s.config.ownerAddress then Fail(InvalidEmitterAddress)
      else if !s.lastSequence.Live? then Fail(SequenceNotFound)
      else if vaa.body.sequence <= s.lastSequence.value then Fail(StaleSequence)
      else
        match Dispatched(host, s.config, self, vaa.body.payload)
        case Fail(e) => Fail(e)
        case Trap => Trap
        case Done(d) => Done((vaa, s.(lastSequence := Live(vaa.body.sequence)), d))
  }

  // ----- The contract -----

  class ExecutorContract {
    const host: Host
    const self: Address
    var initialized: bool
    var config: Config
    var sets: map<nat, Cell<StoredGuardianSet>>
    var index: Cell<nat>
    var lastSequence: Cell<nat>

    constructor (host: Host, self: Address)
      ensures this.host == host && this.self == self
      ensures !initialized && sets == map[] && index == Absent && lastSequence == Absent
    {
      this.host, this.self := host, self;
      initialized, sets, index, lastSequence := false, map[], Absent, Absent;
      config := Config(0, 0, Zeros(32), 0, Zeros(32));
    }

    ghost function Storage(): State
      reads this
    {
      State(initialized, config, sets, index, lastSequence)
    }

    function GetGuardianSet(k: nat): (r: Option<StoredGuardianSet>)
      reads this
      ensures r == Storage().ReadSet(k)
    {
      if k in sets then sets[k].Read() else None
    }

    /** `initialize` */
    method Initialize(config: Config, keys: seq<Bytes20>, guardianSetIndex: nat) returns (r: Call<()>)
      modifies this
      ensures r.Done? <==> keys != [] && !old(initialized)
      ensures r.Done? ==>
                && initialized && this.config == config && index == Live(guardianSetIndex) && lastSequence == Live(0)
                && sets == old(sets)[guardianSetIndex := Live(StoredGuardianSet(keys, None))]
      ensures match Initialization(old(Storage()), config, keys, guardianSetIndex)
              case Done(s) => r == Done(()) && Storage() == s
              case Fail(e) => r == Fail(e) && Storage() == old(Storage())
              case Trap => r == Trap
    {
      if keys == [] {
        return Fail(EmptyGuardianSet);
      }
      if initialized {
        return Fail(AlreadyInitialized);
      }
      initialized := true;
      sets := sets[guardianSetIndex := Live(StoredGuardianSet(keys, None))];
      index := Live(guardianSetIndex);
      this.config := config;
      lastSequence := Live(0);
      return Done(());
    }

    /** `store_guardian_set` */
    method StoreGuardianSet(now: nat, keys: seq<Bytes20>, newIndex: nat) returns (r: Call<()>)
      requires newIndex > 0
      modifies this`sets, this`index
      ensures match Installation(old(Storage()), now, keys, newIndex)
              case Done(s) => r == Done(()) && Storage() == s
              case Fail(e) => r == Fail(e)
              case Trap => r == Trap
    {
      var prior := GetGuardianSet(newIndex - 1);
      if prior.Some? {
        if now + GUARDIAN_SET_EXPIRY > U64_MAX {
          return Trap;
        }
        sets := sets[newIndex - 1 := Live(prior.value.(expirationTime := Some(now + GUARDIAN_SET_EXPIRY)))];
      }
      sets := sets[newIndex := Live(StoredGuardianSet(keys, None))];
      index := Live(newIndex);
      if !lastSequence.Live? {
        return Trap;
      }
      return Done(());
    }

    /** Parses a VAA and checks it against the stored guardian set it names. */
    method Admit(now: nat, vaaBytes: Bytes) returns (r: Call<Vaa>)
      ensures r == Admission(host, Storage(), now, vaaBytes)
    {
      if !initialized {
        return Fail(NotInitialized);
      }
      r := ParseVaa(vaaBytes);
      if !r.Done? {
        return;
      }
      var ok := VerifyVaa(host, GetGuardianSet(r.value.guardianSetIndex), now, r.value);
      match ok
      case Fail(e) => return Fail(e);
      case Trap => return Trap;
      case Done(_) =>
    }

    /** `update_guardian_set` */
    method UpdateGuardianSet(now: nat, vaaBytes: Bytes) returns (r: Call<()>)
      modifies this`sets, this`index
      ensures match GuardianSetUpdate(host, old(Storage()), now, vaaBytes)
              case Done(s) => r == Done(()) && Storage() == s
              case Fail(e) => r == Fail(e)
              case Trap => r == Trap
    {
      var admitted := Admit(now, vaaBytes);
      match admitted {
        case Fail(e) => return Fail(e);
        case Trap => return Trap;
        case Done(vaa) =>
          if !index.Live? {
            return Fail(NotInitialized);
          }
          if vaa.guardianSetIndex != index.value {
            return Fail(InvalidGuardianSetIndex);
          }
          if vaa.body.emitterChain != config.upgradeChain {
            return Fail(InvalidEmitterChain);
          }
          if vaa.body.emitterAddress != config.upgradeAddress {
            return Fail(InvalidEmitterAddress);
          }
          var upgrade := ParseUpgrade(vaa.body.payload, config.chainId, index.value);
          match upgrade {
            case Fail(e) => return Fail(e);
            case Trap => return Trap;
            case Done(keys) => r := StoreGuardianSet(now, keys, index.value + 1);
          }
      }
    }

    /** `execute_governance_action` up to the cross-contract call. The watermark is written
        before the payload is parsed; a later failure relies on the host to roll it back. */
    method PrepareGovernanceAction(now: nat, vaaBytes: Bytes) returns (r: Call<Dispatch>)
      modifies this`lastSequence
      ensures match GovernanceExecution(host, old(Storage()), self, now, vaaBytes)
              case Done((_, s, d)) => r == Done(d) && Storage() == s
              case Fail(e) => r == Fail(e)
              case Trap => r == Trap
    {
      var admitted := Admit(now, vaaBytes);
      match admitted {
        case Fail(e) => return Fail(e);
        case Trap => return Trap;
        case Done(vaa) =>
          if vaa.body.emitterChain != config.ownerChain {
            return Fail(InvalidEmitterChain);
          }
          if vaa.body.emitterAddress != config.ownerAddress {
            return Fail(InvalidEmitterAddress);
          }
          if !lastSequence.Live? {
            return Fail(SequenceNotFound);
          }
          if vaa.body.sequence <= lastSequence.value {
            return Fail(StaleSequence);
          }
          lastSequence := Live(vaa.body.sequence);
          var action := ParsePtgm(host, vaa.body.payload, config.chainId, self);
          match action {
            case Fail(e) => return Fail(e);
            case Trap => return Trap;
            case Done(UpgradeExecutor(_, digest)) => return Done(UpgradeSelf(digest));
            case Done(CallContract(target, name, argsXdr)) =>
              var ok := DecodeFunctionSymbol(name);
              if !ok {
                return Fail(InvalidFunctionName);
              }
              var args := host.argsOf(argsXdr);
              if args.None? {
                return Fail(InvalidArgsEncoding);
              }
              return Done(Invoke(target, name, args.value));
          }
      }
    }
  }

  /** The payload part of `update_guardian_set`: module, action, chain, index, then the key loop. */
  method ParseUpgrade(payload: Bytes, chainId: nat, current: nat) returns (r: Call<seq<Bytes20>>)
    ensures r == DecodeUpgrade(payload, chainId, current)
  {
    if |payload| < UPGRADE_HEADER_SIZE {
      return Fail(TruncatedData);
    }
    var moduleBytes := ReadArray(payload, 0, 32);
    if moduleBytes.value != CORE_MODULE {
      return Fail(InvalidGovernanceModule);
    }
    if payload[32] != GUARDIAN_SET_UPGRADE_ACTION {
      return Fail(InvalidGovernanceAction);
    }
    BeReadersAgree(payload, 33);
    var targetChain := ReadBeU16(payload, 33).value;
    if targetChain != 0 && targetChain != chainId {
      return Fail(InvalidTargetChain);
    }
    BeReadersAgree(payload, 35);
    var newIndex := ReadBeU32(payload, 35).value;
    if current + 1 > U32_MAX {
      return Trap;
    }
    if newIndex != current + 1 {
      return Fail(InvalidGuardianSetUpgrade);
    }
    var numGuardians: nat := payload[39];
    if numGuardians == 0 {
      return Fail(EmptyGuardianSet);
    }
    if |payload| < UPGRADE_HEADER_SIZE + numGuardians * 20 {
      return Fail(TruncatedData);
    }
    var keys := ParseKeys(payload, numGuardians);
    return Done(keys);
  }

  method ParseKeys(payload: Bytes, n: nat) returns (keys: seq<Bytes20>)
    requires UPGRADE_HEADER_SIZE + n * 20 <= |payload|
    ensures keys == KeysAt(payload, n)
  {
    keys := [];
    var i := 0;
    while i < n
      invariant 0 <= i <= n && |keys| == i
      invariant forall k :: 0 <= k < i ==> keys[k] == KeysAt(payload, n)[k]
    {
      var key := ReadArray(payload, UPGRADE_HEADER_SIZE + i * 20, 20);
      keys := keys + [key.value];
      i := i + 1;
    }
  }

  /** `decode_function_symbol` */
  method DecodeFunctionSymbol(name: Bytes) returns (ok: bool)
    ensures ok <==> IsSymbol(name)
    ensures ok <==> ValidSymbol(name)
  {
    SymbolExactly(name);
    if |name| == 0 || |name| > MAX_SYMBOL_LEN {
      return false;
    }
    var i := 0;
    while i < |name|
      invariant 0 <= i <= |name| && forall k :: 0 <= k < i ==> SymbolChar(name[k])
    {
      if !SymbolChar(name[i]) {
        return false;
      }
      i := i + 1;
    }
    return true;
  }
}
