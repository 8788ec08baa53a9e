/** Pyth governance messages (PTGM), as the executor contract parses them (`governance.rs`). */
module Governance {
  import opened Outcomes
  import opened Bytes
  import opened Host
  import opened Vaa

  const PTGM_MAGIC: Bytes := [0x50, 0x54, 0x47, 0x4d]
  const STELLAR_EXECUTOR_MODULE: byte := 4
  const ACTION_UPGRADE_EXECUTOR: byte := 0
  const ACTION_CALL: byte := 1
  const PTGM_HEADER_SIZE := 8
  const MAX_SYMBOL_LEN := 32

  datatype GovernanceAction =
    | CallContract(target: Address, functionName: Bytes, argsXdr: Bytes)
    | UpgradeExecutor(target: Address, wasmDigest: Bytes32)

  // ----- The wire format -----

  ghost predicate Field(s: Bytes) {
    1 <= |s| < 256
  }

  /** Header and routing fields: the letters PTGM, the module, this chain, the executor's strkey, the target's
      strkey. */
  ghost function Routing(action: byte, chain: nat, executor: Bytes, target: Bytes): (r: Bytes)
    requires chain <= U16_MAX && Field(executor) && Field(target)
    ensures |r| == PTGM_HEADER_SIZE + 2 + |executor| + |target|
  {
    [0x50, 0x54, 0x47, 0x4D] + [4, action] + ToBE(chain, 2)
    + [|executor|] + executor + [|target|] + target
  }

  /** `payload` is the message that routes `action`, through this executor on this chain, to `target`. */
  ghost predicate Encodes(host: Host, chain: nat, self: Address, executor: Bytes, target: Bytes,
                          action: GovernanceAction, payload: Bytes)
  {
    && chain <= U16_MAX && Field(executor) && Field(target)
    && host.strkey(executor) == Some(self)
    && host.strkey(target) == Some(action.target)
    && match action
       case CallContract(_, name, args) =>
         && 1 <= |name| <= 32
         && payload == Routing(1, chain, executor, target) + [|name|] + name + args
       case UpgradeExecutor(t, digest) =>
         && t == self
         && Routing(0, chain, executor, target) + digest <= payload
  }

  // ----- Decoding -----

  /** The body of a message after its routing fields, which end at `o`. */
  function DecodeAction(payload: Bytes, self: Address, target: Address, o: nat): Call<GovernanceAction>
    requires PTGM_HEADER_SIZE <= o <= |payload|
  {
    if payload[5] == ACTION_CALL then
      if |payload| < o + 1 then Fail(TruncatedData)
      else
        var n: nat := payload[o];
        if n == 0 || n > MAX_SYMBOL_LEN then Fail(InvalidFunctionName)
        else if |payload| < o + 1 + n then Fail(TruncatedData)
        else Done(CallContract(target, payload[o + 1..o + 1 + n], payload[o + 1 + n..]))
    else if payload[5] == ACTION_UPGRADE_EXECUTOR then
      if target != self then Fail(InvalidTargetContract)
      else if |payload| < o + 32 then Fail(TruncatedData)
      else Done(UpgradeExecutor(target, payload[o..o + 32]))
    else Fail(InvalidGovernanceAction)
  }

  /** A length-prefixed strkey at `o`: the address and the offset after it. */
  function DecodeAddress(host: Host, payload: Bytes, o: nat): Call<(Address, nat)>
    requires o < |payload|
    ensures var r := DecodeAddress(host, payload, o); r.Done? ==> o + 1 < r.value.1 <= |payload|
  {
    var n: nat := payload[o];
    if n == 0 || |payload| < o + 1 + n then Fail(TruncatedData)
    else
      match host.strkey(payload[o + 1..o + 1 + n])
      case None => Trap
      case Some(a) => Done((a, o + 1 + n))
  }

  function DecodePtgm(host: Host, payload: Bytes, chain: nat, self: Address): Call<GovernanceAction> {
    if |payload| < PTGM_HEADER_SIZE then Fail(TruncatedData)
    else if payload[..4] != PTGM_MAGIC then Fail(InvalidPtgmMagic)
    else if payload[4] != STELLAR_EXECUTOR_MODULE then Fail(InvalidPtgmModule)
    else if FromBE(payload[6..8]) != chain then Fail(InvalidTargetChain)
    else if |payload| < PTGM_HEADER_SIZE + 2 then Fail(TruncatedData)
    else
      match DecodeAddress(host, payload, PTGM_HEADER_SIZE)
      case Fail(e) => Fail(e)
      case Trap => Trap
      case Done((executor, o)) =>
        if executor != self then Fail(InvalidExecutorAddress)
        else if |payload| < o + 1 then Fail(TruncatedData)
        else
          match DecodeAddress(host, payload, o)
          case Fail(e) => Fail(e)
          case Trap => Trap
          case Done((target, o')) => DecodeAction(payload, self, target, o')
  }

  /** A length-prefixed strkey at `start`: its address, and the offset moved past it. */
  method ParseAddress(host: Host, payload: Bytes, start: nat) returns (r: Call<(Address, nat)>)
    requires start < |payload|
    ensures r == DecodeAddress(host, payload, start)
  {
    var offset := start;
    var len: nat := payload[offset];
    offset := offset + 1;
    if len == 0 || |payload| < offset + len {
      return Fail(TruncatedData);
    }
    var address := host.strkey(payload[offset..offset + len]);
    if address.None? {
      return Trap;
    }
    offset := offset + len;
    return Done((address.value, offset));
  }

  /** `parse_ptgm`: walks the payload with a moving offset. */
  method ParsePtgm(host: Host, payload: Bytes, ourChainId: nat, self: Address) returns (r: Call<GovernanceAction>)
    ensures r == DecodePtgm(host, payload, ourChainId, self)
  {
    if |payload| < PTGM_HEADER_SIZE {
      return Fail(TruncatedData);
    }
    var i := 0;
    while i < |PTGM_MAGIC|
      invariant 0 <= i <= 4 && payload[..i] == PTGM_MAGIC[..i]
    {
      if payload[i] != PTGM_MAGIC[i] {
        assert payload[..4][i] != PTGM_MAGIC[i];
        return Fail(InvalidPtgmMagic);
      }
      i := i + 1;
    }
    if payload[4] != STELLAR_EXECUTOR_MODULE {
      return Fail(InvalidPtgmModule);
    }
    BeReadersAgree(payload, 6);
    if ReadBeU16(payload, 6).value != ourChainId {
      return Fail(InvalidTargetChain);
    }
    var offset := PTGM_HEADER_SIZE;
    if |payload| < offset + 2 {
      return Fail(TruncatedData);
    }
    var executor := ParseAddress(host, payload, offset);
    if !executor.Done? {
      return if executor.Trap? then Trap else Fail(executor.error);
    }
    offset := executor.value.1;
    if executor.value.0 != self {
      return Fail(InvalidExecutorAddress);
    }
    if |payload| < offset + 1 {
      return Fail(TruncatedData);
    }
    var target := ParseAddress(host, payload, offset);
    if !target.Done? {
      return if target.Trap? then Trap else Fail(target.error);
    }
    r := ParseAction(payload, self, target.value.0, target.value.1);
  }

  method ParseAction(payload: Bytes, self: Address, target: Address, o: nat) returns (r: Call<GovernanceAction>)
    requires PTGM_HEADER_SIZE <= o <= |payload|
    ensures r == DecodeAction(payload, self, target, o)
  {
    var offset := o;
    if payload[5] == ACTION_CALL {
      if |payload| < offset + 1 {
        return Fail(TruncatedData);
      }
      var nameLen: nat := payload[offset];
      offset := offset + 1;
      if nameLen == 0 || nameLen > MAX_SYMBOL_LEN {
        return Fail(InvalidFunctionName);
      }
      if |payload| < offset + nameLen {
        return Fail(TruncatedData);
      }
      var name := payload[offset..offset + nameLen];
      offset := offset + nameLen;
      return Done(CallContract(target, name, payload[offset..]));
    } else if payload[5] == ACTION_UPGRADE_EXECUTOR {
      if target != self {
        return Fail(InvalidTargetContract);
      }
      if |payload| < offset + 32 {
        return Fail(TruncatedData);
      }
      var digest := ReadArray(payload, offset, 32);
      return Done(UpgradeExecutor(target, digest.value));
    } else {
      return Fail(InvalidGovernanceAction);
    }
  }

  // ----- The parser accepts exactly the encoded messages -----

  lemma RoutingFields(action: byte, chain: nat, executor: Bytes, target: Bytes, rest: Bytes)
    requires chain <= U16_MAX && Field(executor) && Field(target)
    ensures var r := Routing(action, chain, executor, target);
            var p, o := r + rest, 9 + |executor|;
            && |r| == o + 1 + |target|
            && p[..4] == PTGM_MAGIC && p[4] == STELLAR_EXECUTOR_MODULE && p[5] == action && FromBE(p[6..8]) == chain
            && p[8] == |executor| && p[9..o] == executor
            && p[o] == |target| && p[o + 1..|r|] == target
  {
    var h := PTGM_MAGIC + [STELLAR_EXECUTOR_MODULE, action] + ToBE(chain, 2);
    var p := Routing(action, chain, executor, target) + rest;
    assert p == h + [|executor|] + executor + [|target|] + target + rest;
    assert p[6..8] == ToBE(chain, 2) by {
      var start := PTGM_MAGIC + [STELLAR_EXECUTOR_MODULE, action];
      var tail := [|executor|] + executor + [|target|] + target + rest;
      assert p == start + (ToBE(chain, 2) + tail);
      SliceInside(start, ToBE(chain, 2), tail, 0, 2);
    }
    assert p[..4] == PTGM_MAGIC;
    Pow256Values();
    BEOfValue(chain, 2);
  }

  lemma RoutingDecodes(host: Host, action: byte, chain: nat, executor: Bytes, target: Bytes, rest: Bytes,
                       self: Address, to: Address)
    requires chain <= U16_MAX && Field(executor) && Field(target)
    requires host.strkey(executor) == Some(self) && host.strkey(target) == Some(to)
    ensures var r := Routing(action, chain, executor, target);
            var p := r + rest;
            && p[5] == action
            && DecodePtgm(host, p, chain, self) == DecodeAction(p, self, to, |r|)
  {
    RoutingFields(action, chain, executor, target, rest);
  }

  /** Every encoded action decodes to itself. */
  lemma PtgmOfEncoding(host: Host, chain: nat, self: Address, executor: Bytes, target: Bytes,
                       action: GovernanceAction, payload: Bytes)
    requires Encodes(host, chain, self, executor, target, action, payload)
    ensures DecodePtgm(host, payload, chain, self) == Done(action)
  {
    match action
    case CallContract(to, name, args) =>
      var r := Routing(ACTION_CALL, chain, executor, target);
      assert payload == r + ([|name|] + name + args);
      RoutingDecodes(host, ACTION_CALL, chain, executor, target, [|name|] + name + args, self, to);
      assert payload[|r|] == |name| && payload[|r| + 1..|r| + 1 + |name|] == name;
      assert payload[|r| + 1 + |name|..] == args;
    case UpgradeExecutor(to, digest) =>
      var r := Routing(ACTION_UPGRADE_EXECUTOR, chain, executor, target);
      var rest := payload[|r|..];
      assert payload == r + rest;
      RoutingDecodes(host, ACTION_UPGRADE_EXECUTOR, chain, executor, target, rest, self, to);
      assert payload[|r|..|r| + 32] == digest;
  }

  lemma RoutingSlices(p: Bytes, n: nat, o: nat)
    requires 10 + n <= o <= |p|
    ensures p[..o] == p[..4] + [p[4], p[5]] + p[6..8] + [p[8]] + p[9..9 + n] + [p[9 + n]] + p[10 + n..o]
  {
    assert p[4..6] == [p[4], p[5]] && p[8..9] == [p[8]] && p[9 + n..10 + n] == [p[9 + n]];
    SliceJoin(p, 0, 4, 6);
    SliceJoin(p, 0, 6, 8);
    SliceJoin(p, 0, 8, 9);
    SliceJoin(p, 0, 9, 9 + n);
    SliceJoin(p, 0, 9 + n, 10 + n);
    SliceJoin(p, 0, 10 + n, o);
  }

  lemma RoutingSplits(p: Bytes, chain: nat)
    requires |p| >= PTGM_HEADER_SIZE + 2 && p[..4] == PTGM_MAGIC && p[4] == STELLAR_EXECUTOR_MODULE
    requires FromBE(p[6..8]) == chain
    requires p[8] > 0 && 9 + At(p, 8) < |p|
    requires At(p, 9 + At(p, 8)) > 0 && 10 + At(p, 8) + At(p, 9 + At(p, 8)) <= |p|
    ensures var n, m := At(p, 8), At(p, 9 + At(p, 8));
            var o := 10 + n + m;
            && chain <= U16_MAX
            && p[..o] == Routing(p[5], chain, p[9..9 + n], p[10 + n..o])
  {
    var n, m := At(p, 8), At(p, 9 + At(p, 8));
    var o := 10 + n + m;
    Pow256Values();
    BEOfBytes(p[6..8]);
    RoutingSlices(p, n, o);
  }

  lemma RoutingRead(host: Host, p: Bytes, chain: nat, self: Address)
    requires DecodePtgm(host, p, chain, self).Done?
    ensures |p| >= PTGM_HEADER_SIZE + 2 && p[..4] == PTGM_MAGIC && p[4] == STELLAR_EXECUTOR_MODULE
    ensures FromBE(p[6..8]) == chain && p[8] > 0 && 9 + At(p, 8) < |p|
    ensures At(p, 9 + At(p, 8)) > 0 && 10 + At(p, 8) + At(p, 9 + At(p, 8)) <= |p|
    ensures var n, m := At(p, 8), At(p, 9 + At(p, 8));
            var to := host.strkey(p[10 + n..10 + n + m]);
            && host.strkey(p[9..9 + n]) == Some(self)
            && to.Some?
            && DecodePtgm(host, p, chain, self) == DecodeAction(p, self, to.value, 10 + n + m)
  {
  }

  lemma ActionSplits(payload: Bytes, self: Address, target: Address, o: nat)
    requires PTGM_HEADER_SIZE <= o <= |payload| && DecodeAction(payload, self, target, o).Done?
    ensures match DecodeAction(payload, self, target, o).value
            case CallContract(_, name, args) =>
              1 <= |name| <= MAX_SYMBOL_LEN && payload == payload[..o] + [|name|] + name + args
            case UpgradeExecutor(t, digest) => t == self && payload[..o] + digest <= payload
  {
    var action := DecodeAction(payload, self, target, o).value;
    if action.CallContract? {
      assert payload == payload[..o] + [payload[o]] + action.functionName + action.argsXdr;
    } else {
      assert payload[..o] + payload[o..o + 32] == payload[..o + 32];
    }
  }

  /** Everything the parser accepts is the encoding of what it returns: this chain, this executor, that target. */
  lemma EncodingOfPtgm(host: Host, payload: Bytes, chain: nat, self: Address)
    requires DecodePtgm(host, payload, chain, self).Done?
    ensures exists executor, target ::
              Encodes(host, chain, self, executor, target, DecodePtgm(host, payload, chain, self).value, payload)
  {
    RoutingRead(host, payload, chain, self);
    RoutingSplits(payload, chain);
    var n, m := At(payload, 8), At(payload, 9 + At(payload, 8));
    var o := 10 + n + m;
    var executor, target := payload[9..9 + n], payload[10 + n..o];
    var action := DecodePtgm(host, payload, chain, self).value;
    ActionSplits(payload, self, action.target, o);
    assert Encodes(host, chain, self, executor, target, action, payload);
  }

  // ----- Function symbols -----

  predicate SymbolChar(c: byte) {
    c == 0x5F || 0x30 <= c <= 0x39 || 0x41 <= c <= 0x5A || 0x61 <= c <= 0x7A
  }

  /** `decode_function_symbol`: succeeds on one to 32 letters, digits or underscores. */
  predicate ValidSymbol(name: Bytes) {
    1 <= |name| <= MAX_SYMBOL_LEN && forall i :: 0 <= i < |name| ==> SymbolChar(name[i])
  }

  /** A Soroban symbol: one to 32 characters, each a letter, a digit or an underscore. */
  ghost predicate IsSymbol(name: Bytes) {
    && 1 <= |name| <= 32
    && forall i :: 0 <= i < |name| ==>
         var c := name[i] as char;
         c == '_' || '0' <= c <= '9' || 'A' <= c <= 'Z' || 'a' <= c <= 'z'
  }

  lemma SymbolExactly(name: Bytes)
    ensures ValidSymbol(name) <==> IsSymbol(name)
  {
  }
}
