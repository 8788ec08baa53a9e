/** From governance to a verified update: which byte strings the Stellar verifier accepts in a reachable
    state, on whose authority, and what a consumer then reads. */
module EndToEnd {
  import opened Outcomes
  import opened Bytes
  import opened Host
  import opened Vaa
  import opened Acceptance
  import opened Ledger
  import opened Custody
  import opened Replay
  import E = Executor
  import V = Verifier
  import M = Messages
  import P = Payload
  import S = StellarSdk
  import W = Views

  // ----- What is verified -----

  /** The signature over the hash of the payload recovers to the public key whose compressed form is `key`: the
      x coordinate, behind a byte that tells whether y is even. */
  ghost predicate RecoversTo(host: Host, m: M.LeEcdsaMessage, key: Bytes33) {
    && m.recoveryId <= 3
    && var pk := host.recover(host.keccak(m.payload), m.signature, m.recoveryId);
    && pk.Some?
    && key[0] == (if pk.value[64] % 2 == 0 then 2 else 3)
    && forall i :: 1 <= i < 33 ==> key[i] == pk.value[i]
  }

  /** The signature recovers to a key that is trusted and has not expired. */
  ghost predicate Trusted(host: Host, s: V.State, now: nat, m: M.LeEcdsaMessage) {
    exists key :: RecoversTo(host, m, key) && key in s.Signers() && now < s.Signers()[key]
  }

  lemma RecoveredExactly(host: Host, m: M.LeEcdsaMessage, key: Bytes33)
    requires m.recoveryId <= 3
    ensures RecoversTo(host, m, key) <==> V.RecoveredKey(host, m.signature, m.recoveryId, m.payload) == Some(key)
  {
    var pk := host.recover(host.keccak(m.payload), m.signature, m.recoveryId);
    if pk.Some? {
      V.CompressedExactly(pk.value, key);
    }
  }

  lemma EnvelopeFields(m: M.LeEcdsaMessage, data: Bytes)
    requires M.EncodeLeEcdsa(m) == Ok(data)
    ensures |data| == 71 + |m.payload| && FromLE(data[0..4]) == V.LE_ECDSA_FORMAT_MAGIC
    ensures data[4..68] == m.signature && data[68] == m.recoveryId
    ensures FromLE(data[69..71]) == |m.payload| && data[71..] == m.payload
  {
    var magic, n := ToLE(V.LE_ECDSA_FORMAT_MAGIC, 4), ToLE(|m.payload|, 2);
    assert data == magic + (m.signature + [m.recoveryId]) + n + m.payload;
    assert data[0..4] == magic && data[69..71] == n;
    Pow256Values();
    LEOfValue(V.LE_ECDSA_FORMAT_MAGIC, 4);
    LEOfValue(|m.payload|, 2);
  }

  lemma EnvelopeSplits(data: Bytes)
    requires |data| >= 71
    ensures data == data[0..4] + (data[4..68] + [data[68]]) + data[69..71] + data[71..]
  {
  }

  /** What an accepted byte string is: nothing before, nothing between, nothing after. */
  lemma VerifiedIsEnvelope(host: Host, s: V.State, now: nat, data: Bytes)
    requires V.UpdateVerification(host, s, now, data).Done?
    ensures var m := M.LeEcdsaMessage(data[71..], data[4..68], data[68]);
            M.EncodeLeEcdsa(m) == Ok(data) && Trusted(host, s, now, m)
  {
    var m := M.LeEcdsaMessage(data[71..], data[4..68], data[68]);
    LEOfBytes(data[0..4]);
    LEOfBytes(data[69..71]);
    Pow256Values();
    EnvelopeSplits(data);
    var key := V.RecoveredKey(host, m.signature, m.recoveryId, m.payload).value;
    RecoveredExactly(host, m, key);
  }

  /** The verifier returns `payload` exactly when the bytes are the complete envelope of `payload` under a signature
      that recovers to a trusted, unexpired key. */
  lemma VerifiedIffEnvelope(host: Host, s: V.State, now: nat, data: Bytes, payload: Bytes)
    ensures V.UpdateVerification(host, s, now, data) == Done(payload) <==>
            exists m: M.LeEcdsaMessage ::
              m.payload == payload && M.EncodeLeEcdsa(m) == Ok(data) && Trusted(host, s, now, m)
  {
    if V.UpdateVerification(host, s, now, data) == Done(payload) {
      VerifiedIsEnvelope(host, s, now, data);
      var m := M.LeEcdsaMessage(data[71..], data[4..68], data[68]);
      assert m.payload == payload;
    }
    if m: M.LeEcdsaMessage :| m.payload == payload && M.EncodeLeEcdsa(m) == Ok(data) && Trusted(host, s, now, m) {
      EnvelopeFields(m, data);
      var key :| RecoversTo(host, m, key) && key in s.Signers() && now < s.Signers()[key];
      RecoveredExactly(host, m, key);
    }
  }

  // ----- On whose authority -----

  /** The guardian set stored at `g` descends from the deployed keys: each set up to it was installed by the set before,
      on a message of the emitter the deployer configured. */
  ghost predicate Descends(env: Env, w: World, d: Deployment, steps: seq<Step>, g: nat) {
    var b := BookOf(Run(env, w, steps).exec);
    && d.first <= g <= b.current
    && d.first in b.sets && b.sets[d.first].keys == d.keys
    && forall j :: d.first <= j < g ==> Custodied(env, d.config, w, steps, j)
  }

  /** `vaa` orders `x` under the deployer's configuration and a quorum of a guardian set that descends from the deployed
      keys. */
  ghost predicate OrderedBy(env: Env, w: World, d: Deployment, steps: seq<Step>, vaaBytes: Bytes, x: Execution,
                            vaa: Vaa) {
    var here := Run(env, w, steps);
    && vaa.bodyBytes == x.body
    && here.exec.config == d.config
    && vaa.body.emitterChain == d.config.ownerChain && vaa.body.emitterAddress == d.config.ownerAddress
    && Orders(env.host, here.exec, env.executor, here.now, vaaBytes, vaa, x.action)
    && Descends(env, w, d, steps, vaa.guardianSetIndex)
  }

  /** Step `k` of the run executed `x`, on such an order. */
  ghost predicate ExecutedAt(env: Env, w: World, d: Deployment, steps: seq<Step>, k: nat, x: Execution) {
    && k < |steps|
    && Executes(env, Run(env, w, steps[..k]), steps[k]) == Some(x)
    && exists vaa :: OrderedBy(env, w, d, steps[..k], steps[k].vaa, x, vaa)
  }

  lemma {:induction false} OrderedIsDescended(env: Env, w: World, d: Deployment, steps: seq<Step>, vaaBytes: Bytes,
                                              vaa: Vaa)
    requires Genesis(env, w, d)
    requires var here := Run(env, w, steps); Admitted(env.host, here.exec, here.now, vaaBytes, vaa)
    ensures Descends(env, w, d, steps, vaa.guardianSetIndex) && Run(env, w, steps).exec.config == d.config
  {
    ChainOfCustody(env, w, d, steps);
    GenesisBook(env, w, d);
    RunKeepsStore(env, w, d.first, steps);
    var here := Run(env, w, steps);
    assert vaa.guardianSetIndex in BookOf(here.exec).sets;
  }

  lemma {:induction false} ExecutedIsOrdered(env: Env, w: World, d: Deployment, steps: seq<Step>, k: nat, x: Execution)
    requires Genesis(env, w, d)
    requires k < |steps| && Executes(env, Run(env, w, steps[..k]), steps[k]) == Some(x)
    ensures ExecutedAt(env, w, d, steps, k, x)
  {
    var before := Run(env, w, steps[..k]);
    var (vaa, s, call) := E.GovernanceExecution(env.host, before.exec, env.executor, before.now, steps[k].vaa).value;
    ExecutionIffOrders(env.host, before.exec, env.executor, before.now, steps[k].vaa, vaa, s, call);
    OrderedIsDescended(env, w, d, steps[..k], steps[k].vaa, vaa);
    assert OrderedBy(env, w, d, steps[..k], steps[k].vaa, x, vaa);
  }

  /** Carrying out `x` in the world `w` gives `w'`. A signer update writes the verifier's map; replacing the code of
      either contract ends the run; a call to another contract leaves both as they are if it returns. The executor
      cannot call itself, and no other call to the verifier goes through: its two readers do not return unit, as the
      executor demands. */
  ghost predicate CarriedOut(env: Env, w: World, x: E.Dispatch, answered: bool, w': World) {
    match x
    case UpgradeSelf(_) => w' == w.(halted := true)
    case Invoke(target, func, args) =>
      if target == env.verifier then
        || (Spells(func, "upgrade") && |args| == 1 && args[0].BytesVal? && |args[0].bytes| == 32
            && w' == w.(halted := true))
        || (exists key: Bytes33, expiresAt: nat ::
              SetsSigner(func, args, key, expiresAt) && w' == w.(verifier := WithSigner(w.verifier, key, expiresAt)))
      else target != env.executor && answered && w' == w
  }

  ghost predicate SetsSigner(func: Bytes, args: seq<Val>, key: Bytes33, expiresAt: nat) {
    Spells(func, "update_trusted_signer") && args == [BytesVal(key), U64Val(expiresAt)]
  }

  /** `key` trusted until `expiresAt`, or no longer trusted if that is zero; an archived map counts as empty. */
  ghost function WithSigner(v: V.State, key: Bytes33, expiresAt: nat): V.State {
    var m: V.SignerMap := if v.signers.Live? then v.signers.value else map[];
    var changed: V.SignerMap := if expiresAt == 0 then m - {key} else m[key := expiresAt];
    v.(signers := Live(changed))
  }

  lemma InvocationExactly(env: Env, w: World, x: E.Dispatch, answered: bool, w': World)
    requires w.verifier.executor == Some(env.executor)
    ensures Invocation(env, w, x, answered) == Some(w') <==> CarriedOut(env, w, x, answered, w')
  {
    if x.Invoke? && x.target == env.verifier {
      SpellsExactly(x.func, "upgrade");
      match SignerArgs(x.func, x.args)
      case Some((key, expiresAt)) =>
        CallsExactly(x.func, x.args, key, expiresAt);
        assert SetsSigner(x.func, x.args, key, expiresAt);
      case None =>
        forall key: Bytes33, expiresAt: nat
          ensures !SetsSigner(x.func, x.args, key, expiresAt)
        {
          CallsExactly(x.func, x.args, key, expiresAt);
        }
    }
  }

  /** The world with the watermark at the sequence number of `vaa`. */
  ghost function Marked(w: World, vaa: Vaa): World {
    w.(exec := w.exec.(lastSequence := Live(vaa.body.sequence)))
  }

  /** What governance can do: in every reachable state, a submitted action goes through if and only if it is an order
      that can be carried out, and the world it leaves is the one its order describes. */
  lemma {:induction false} ActionExactly(env: Env, w: World, d: Deployment, steps: seq<Step>, vaaBytes: Bytes,
                                         answered: bool, w': World)
    requires Genesis(env, w, d) && Proper(env, steps)
    ensures var here := Run(env, w, steps);
            ActionResult(env, here, vaaBytes, answered) == Done(w') <==>
            exists vaa, x :: Orders(env.host, here.exec, env.executor, here.now, vaaBytes, vaa, x)
                             && CarriedOut(env, Marked(here, vaa), x, answered, w')
  {
    SignersAreFold(env, w, d, steps);
    var here := Run(env, w, steps);
    if ActionResult(env, here, vaaBytes, answered) == Done(w') {
      var (vaa, s, x) := E.GovernanceExecution(env.host, here.exec, env.executor, here.now, vaaBytes).value;
      ExecutionIffOrders(env.host, here.exec, env.executor, here.now, vaaBytes, vaa, s, x);
      InvocationExactly(env, Marked(here, vaa), x, answered, w');
    }
    if vaa, x :| Orders(env.host, here.exec, env.executor, here.now, vaaBytes, vaa, x)
                 && CarriedOut(env, Marked(here, vaa), x, answered, w')
    {
      ExecutionIffOrders(env.host, here.exec, env.executor, here.now, vaaBytes, vaa, Marked(here, vaa).exec, x);
      InvocationExactly(env, Marked(here, vaa), x, answered, w');
    }
  }

  lemma {:induction false} LoggedAt(env: Env, w: World, steps: seq<Step>, i: nat) returns (k: nat)
    requires i < |Log(env, w, steps)|
    ensures k < |steps| && Executes(env, Run(env, w, steps[..k]), steps[k]) == Some(Log(env, w, steps)[i])
  {
    var n := |steps| - 1;
    if i < |Log(env, w, steps[..n])| {
      k := LoggedAt(env, w, steps[..n], i);
      assert steps[..n][..k] == steps[..k];
    } else {
      k := n;
    }
  }

  /** Governance granted `key` until `expiresAt`: the last executed action naming it did, on such an order. */
  ghost predicate Granted(env: Env, w: World, d: Deployment, steps: seq<Step>, key: Bytes33, expiresAt: nat) {
    exists i: nat, k: nat ::
      && SetAt(env, Log(env, w, steps), key, expiresAt, i)
      && ExecutedAt(env, w, d, steps, k, Log(env, w, steps)[i])
  }

  /** `key` is authorized beyond `now`, by governance or by the deployer. */
  ghost predicate Authorized(env: Env, w: World, d: Deployment, steps: seq<Step>, key: Bytes33, now: nat) {
    exists expiresAt: nat ::
      now < expiresAt &&
      (Granted(env, w, d, steps, key, expiresAt) || SetAtDeployment(env, Log(env, w, steps), d, key, expiresAt))
  }

  lemma {:induction false} HeldIffAuthorized(env: Env, w: World, d: Deployment, steps: seq<Step>, key: Bytes33,
                                             now: nat)
    requires Genesis(env, w, d) && Proper(env, steps)
    ensures var m := HeldSigners(Run(env, w, steps).verifier);
            key in m && now < m[key] <==> Authorized(env, w, d, steps, key, now)
  {
    var m, log := HeldSigners(Run(env, w, steps).verifier), Log(env, w, steps);
    if key in m && now < m[key] {
      SignerMapExactly(env, w, d, steps, key, m[key]);
      if i: nat :| SetAt(env, log, key, m[key], i) {
        var k := LoggedAt(env, w, steps, i);
        ExecutedIsOrdered(env, w, d, steps, k, log[i]);
        assert Granted(env, w, d, steps, key, m[key]);
      }
    }
    if expiresAt: nat :|
      now < expiresAt &&
      (Granted(env, w, d, steps, key, expiresAt) || SetAtDeployment(env, log, d, key, expiresAt))
    {
      SignerMapExactly(env, w, d, steps, key, expiresAt);
    }
  }

  /** `data` is the complete envelope of `payload` under a signature that recovers to `key`. */
  ghost predicate SignedBy(host: Host, data: Bytes, payload: Bytes, m: M.LeEcdsaMessage, key: Bytes33) {
    m.payload == payload && M.EncodeLeEcdsa(m) == Ok(data) && RecoversTo(host, m, key)
  }

  /** Authority, end to end: in every state reachable from deployment, with entries archived and restored at any moment,
      the verifier returns `payload` if and only if its signer map is live, the bytes are the complete envelope of
      `payload`, and the signing key is authorized beyond the current time: by the last executed governance action that
      names it, which the owner the deployer configured ordered under a quorum of a guardian set that descends from the
      deployed keys, or by the deployer with no such action since; no later write having found the map archived. */
  lemma {:induction false} VerifiedIffAuthorized(env: Env, w: World, d: Deployment, steps: seq<Step>, data: Bytes,
                                                 payload: Bytes)
    requires Genesis(env, w, d) && Proper(env, steps)
    ensures var here := Run(env, w, steps);
            V.UpdateVerification(env.host, here.verifier, here.now, data) == Done(payload) <==>
            here.verifier.signers.Live? &&
            exists m, key :: SignedBy(env.host, data, payload, m, key)
                             && Authorized(env, w, d, steps, key, here.now)
  {
    var here := Run(env, w, steps);
    VerifiedIffEnvelope(env.host, here.verifier, here.now, data, payload);
    if V.UpdateVerification(env.host, here.verifier, here.now, data) == Done(payload) {
      VerifiedIsEnvelope(env.host, here.verifier, here.now, data);
      var m := M.LeEcdsaMessage(data[71..], data[4..68], data[68]);
      var signers := here.verifier.Signers();
      var key :| RecoversTo(env.host, m, key) && key in signers && here.now < signers[key];
      HeldIffAuthorized(env, w, d, steps, key, here.now);
      assert SignedBy(env.host, data, payload, m, key);
    }
    if here.verifier.signers.Live? {
      if m, key :| SignedBy(env.host, data, payload, m, key) && Authorized(env, w, d, steps, key, here.now) {
        HeldIffAuthorized(env, w, d, steps, key, here.now);
        assert Trusted(env.host, here.verifier, here.now, m);
      }
    }
  }

  // ----- What is delivered -----

  /** Delivery, end to end: an update built from aggregated data, written little-endian, wrapped and signed by a trusted
      key is verified, and the consumer's decoder reads from the result exactly the fields of the JSON form. */
  lemma SignedUpdateIsDelivered(host: Host, s: V.State, now: nat, time: P.u64, c: P.ProtocolChannel, id: byte,
                                feeds: seq<(P.u32, W.Aggregated)>, requested: seq<P.Property>, m: M.LeEcdsaMessage)
    requires |feeds| < 256 && |requested| < 256 && P.ChannelId(c) == Some(id)
    requires P.EncodePayload(LE, W.NewPayload(time, id, feeds, requested)) == Ok(m.payload)
    requires |m.payload| <= U16_MAX && Trusted(host, s, now, m)
    ensures M.EncodeLeEcdsa(m).Ok?
    ensures V.UpdateVerification(host, s, now, M.EncodeLeEcdsa(m).value) == Done(m.payload)
    ensures var u := S.ParsePayloadOf(m.payload); u.Some? && W.Shows(u.value, time, c, feeds, requested)
  {
    VerifiedIffEnvelope(host, s, now, M.EncodeLeEcdsa(m).value, m.payload);
    W.ThreeViewsAgree(time, c, id, feeds, requested);
  }
}
