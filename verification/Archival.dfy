/** A governance write to an archived signer map: the run that forgets a signer nobody revoked, in general and at a
    concrete deployment. */
module Archival {
  import opened Outcomes
  import opened Bytes
  import opened Host
  import opened Vaa
  import opened Governance
  import opened Acceptance
  import opened Ledger
  import opened Replay
  import opened EndToEnd
  import E = Executor
  import M = Messages
  import V = Verifier

  /** The signer map is archived, then an action is submitted. */
  function ArchiveThenAct(vaaBytes: Bytes): seq<Step> {
    [Archive(SignersEntry)] + [SubmitAction(vaaBytes, true)]
  }

  /** `vaaBytes`, submitted once the map is archived, is executed and writes `other`. */
  ghost predicate WritesOther(env: Env, w: World, vaaBytes: Bytes, other: Bytes33) {
    var x := Executes(env, Run(env, w, [Archive(SignersEntry)]), SubmitAction(vaaBytes, true));
    x.Some? && SignerWrite(env, x.value).Some? && SignerWrite(env, x.value).value.0 == other
  }

  lemma {:induction false} ArchivedOnly(env: Env, w: World)
    requires !w.halted && w.verifier.signers.Live?
    ensures Run(env, w, [Archive(SignersEntry)]) ==
            w.(verifier := w.verifier.(signers := Archived(w.verifier.signers.value)))
  {
    var s: seq<Step> := [Archive(SignersEntry)];
    assert s[..0] == [];
  }

  /** The deployer's signer is trusted; its map is archived; governance then writes another signer. The deployer's
      signer is gone, and updates it signs, verified before, are refused as not trusted. */
  lemma {:induction false} ArchivedWriteForgets(env: Env, w: World, d: Deployment, signer: Bytes33, vaaBytes: Bytes,
                                                other: Bytes33, m: M.LeEcdsaMessage, data: Bytes)
    requires Genesis(env, w, d) && d.signer == Some(signer) && d.initial.Some? && w.now < d.initial.value
    requires WritesOther(env, w, vaaBytes, other) && other != signer
    requires SignedBy(env.host, data, m.payload, m, signer)
    ensures V.UpdateVerification(env.host, w.verifier, w.now, data) == Done(m.payload)
    ensures var after := Run(env, w, ArchiveThenAct(vaaBytes));
            && signer !in HeldSigners(after.verifier)
            && V.UpdateVerification(env.host, after.verifier, after.now, data) == Fail(V.SignerNotTrusted)
  {
    EnvelopeFields(m, data);
    RecoveredExactly(env.host, m, signer);
    ArchivedOnly(env, w);
    var before := Run(env, w, [Archive(SignersEntry)]);
    var step := SubmitAction(vaaBytes, true);
    var x := Executes(env, before, step).value;
    ExecutionWrites(env, before, step, x);
    var steps := ArchiveThenAct(vaaBytes);
    assert steps[..1] == [Archive(SignersEntry)];
    assert Run(env, w, steps) == Next(env, before, step);
  }

  /** An order to write a signer is executed whether or not the map is archived. */
  lemma OrderedWrite(env: Env, w: World, vaaBytes: Bytes, vaa: Vaa, args: seq<Val>)
    requires !w.halted && w.verifier.signers.Live? && w.verifier.executor == Some(env.executor)
    requires Orders(env.host, w.exec, env.executor, w.now, vaaBytes, vaa,
                    E.Invoke(env.verifier, UPDATE_TRUSTED_SIGNER, args))
    requires SignerArgs(UPDATE_TRUSTED_SIGNER, args).Some?
    ensures WritesOther(env, w, vaaBytes, SignerArgs(UPDATE_TRUSTED_SIGNER, args).value.0)
  {
    ArchivedOnly(env, w);
    ExecutionIffOrders(env.host, w.exec, env.executor, w.now, vaaBytes, vaa,
                       w.exec.(lastSequence := Live(vaa.body.sequence)),
                       E.Invoke(env.verifier, UPDATE_TRUSTED_SIGNER, args));
  }

  lemma {:induction false} OnlyOtherWritten(env: Env, w: World, vaaBytes: Bytes, other: Bytes33, signer: Bytes33)
    requires WritesOther(env, w, vaaBytes, other) && other != signer
    ensures Unwritten(env, Log(env, w, ArchiveThenAct(vaaBytes)), signer)
  {
    var first: seq<Step> := [Archive(SignersEntry)];
    assert first[..0] == [] && Log(env, w, first) == [];
    assert ArchiveThenAct(vaaBytes)[..1] == first;
  }

  // ----- A concrete deployment -----

  const PUBLIC_KEY: Bytes65 := Zeros(65)
  const SIGNER: Bytes33 := [2] + Zeros(32)
  const OTHER: Bytes33 := [3] + Zeros(32)
  const EXECUTOR: Address := Zeros(32)
  const VERIFIER: Address := [1] + Zeros(31)
  const INITIAL: nat := 1000
  const CONFIG := E.Config(30, 1, Zeros(32), 1, Zeros(32))

  /** A host in which one key signs everything and the arguments are those of one call. */
  function DemoHost(): Host {
    Host(_ => Zeros(32), (_, _, _) => Some(PUBLIC_KEY),
         (s: Bytes) => if s == [1] then Some(EXECUTOR) else if s == [2] then Some(VERIFIER) else None,
         _ => Some([BytesVal(OTHER), U64Val(2000)]))
  }

  function DemoEnv(): Env {
    Env(DemoHost(), EXECUTOR, VERIFIER)
  }

  function DemoKeys(): seq<Bytes20> {
    [Zeros(20)]
  }

  function DemoSigners(): V.SignerMap {
    var none: V.SignerMap := map[];
    none[SIGNER := INITIAL]
  }

  function DemoSets(): map<nat, Cell<StoredGuardianSet>> {
    var none: map<nat, Cell<StoredGuardianSet>> := map[];
    none[0 := Live(StoredGuardianSet(DemoKeys(), None))]
  }

  function DemoWorld(): World {
    World(E.State(true, CONFIG, DemoSets(), Live(0), Live(0)),
          V.State(Some(EXECUTOR), Live(DemoSigners())), 0, false)
  }

  ghost function DemoPayload(): Bytes {
    Routing(1, 30, [1], [2]) + [|UPDATE_TRUSTED_SIGNER|] + UPDATE_TRUSTED_SIGNER + []
  }

  ghost function DemoVaa(): (v: Vaa)
    ensures WellFormed(v)
  {
    var body := VaaBody(0, 0, 1, Zeros(32), 1, 0, DemoPayload());
    Vaa(0, [GuardianSignature(0, Zeros(64), 0)], body, EncodeBody(body))
  }

  function DemoDeployment(): Deployment {
    Deployment(CONFIG, DemoKeys(), 0, Some(SIGNER), Some(INITIAL))
  }

  lemma DemoGenesis()
    ensures Genesis(DemoEnv(), DemoWorld(), DemoDeployment())
  {
  }

  lemma DemoSymbol()
    ensures ValidSymbol(UPDATE_TRUSTED_SIGNER)
  {
    var s := "update_trusted_signer";
    assert |s| == 21;
    forall i | 0 <= i < |s|
      ensures SymbolChar(UPDATE_TRUSTED_SIGNER[i])
    {
      assert s[i] == '_' || 'a' <= s[i] <= 'z';
    }
  }

  lemma DemoCommands()
    ensures Commands(DemoHost(), 30, EXECUTOR, DemoPayload(), DemoCall())
  {
    DemoSymbol();
    SymbolExactly(UPDATE_TRUSTED_SIGNER);
    var action := CallContract(VERIFIER, UPDATE_TRUSTED_SIGNER, []);
    assert Encodes(DemoHost(), 30, EXECUTOR, [1], [2], action, DemoPayload());
    assert CallOf(DemoHost(), action) == Some(DemoCall());
  }

  function DemoCall(): E.Dispatch {
    E.Invoke(VERIFIER, UPDATE_TRUSTED_SIGNER, [BytesVal(OTHER), U64Val(2000)])
  }

  lemma DemoCertified()
    ensures Certified(DemoHost(), DemoKeys(), DemoVaa())
  {
    assert DemoHost().keccak(PUBLIC_KEY[1..65])[12..32] == Zeros(20);
  }

  lemma DemoOrders(s: E.State, now: nat)
    requires s == DemoWorld().exec
    ensures Orders(DemoHost(), s, EXECUTOR, now, EncodeVaa(DemoVaa()), DemoVaa(), DemoCall())
  {
    DemoCertified();
    DemoCommands();
    var stored := s.ReadSet(0);
    assert stored == Some(StoredGuardianSet(DemoKeys(), None));
  }

  lemma DemoSigned(m: M.LeEcdsaMessage)
    requires |m.payload| <= U16_MAX && m.recoveryId <= 3
    ensures M.EncodeLeEcdsa(m).Ok? && SignedBy(DemoHost(), M.EncodeLeEcdsa(m).value, m.payload, m, SIGNER)
  {
    assert SIGNER[0] == 2 && PUBLIC_KEY[64] == 0;
    assert forall i :: 1 <= i < 33 ==> SIGNER[i] == 0 == PUBLIC_KEY[i];
    assert RecoversTo(DemoHost(), m, SIGNER);
  }

  /** Such a deployment, action and signed update. */
  lemma Demo(m: M.LeEcdsaMessage) returns (env: Env, w: World, d: Deployment, vaaBytes: Bytes, data: Bytes)
    requires |m.payload| <= U16_MAX && m.recoveryId <= 3
    ensures Genesis(env, w, d) && d.signer == Some(SIGNER) && d.initial == Some(INITIAL) && w.now < INITIAL
    ensures WritesOther(env, w, vaaBytes, OTHER) && SignedBy(env.host, data, m.payload, m, SIGNER)
  {
    env, w, d := DemoEnv(), DemoWorld(), DemoDeployment();
    vaaBytes, data := EncodeVaa(DemoVaa()), M.EncodeLeEcdsa(m).value;
    DemoGenesis();
    DemoSigned(m);
    DemoOrders(w.exec, w.now);
    assert SignerArgs(UPDATE_TRUSTED_SIGNER, [BytesVal(OTHER), U64Val(2000)]) == Some((OTHER, 2000));
    OrderedWrite(env, w, vaaBytes, DemoVaa(), [BytesVal(OTHER), U64Val(2000)]);
  }

  /** The failure occurs: there is a deployment, with one guardian, at which an update verified at the start is
      refused as not trusted after two steps, neither of which names its signer. */
  lemma SignerForgotten(m: M.LeEcdsaMessage)
    returns (env: Env, w: World, d: Deployment, steps: seq<Step>, data: Bytes)
    requires |m.payload| <= U16_MAX && m.recoveryId <= 3
    ensures Genesis(env, w, d) && d.signer == Some(SIGNER) && Proper(env, steps)
    ensures Unwritten(env, Log(env, w, steps), SIGNER)
    ensures V.UpdateVerification(env.host, w.verifier, w.now, data) == Done(m.payload)
    ensures var after := Run(env, w, steps);
            V.UpdateVerification(env.host, after.verifier, after.now, data) == Fail(V.SignerNotTrusted)
  {
    var vaaBytes: Bytes;
    env, w, d, vaaBytes, data := Demo(m);
    steps := ArchiveThenAct(vaaBytes);
    assert OTHER[0] != SIGNER[0];
    ArchivedWriteForgets(env, w, d, SIGNER, vaaBytes, OTHER, m, data);
    OnlyOtherWritten(env, w, vaaBytes, OTHER, SIGNER);
  }
}
