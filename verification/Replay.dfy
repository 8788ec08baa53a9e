/** What every run executes: governance actions at most once, in increasing sequence order, and the
    trusted-signer map as the fold of what was executed. */
module Replay {
  import opened Outcomes
  import opened Bytes
  import opened Host
  import opened Vaa
  import opened Ledger
  import C = Custody
  import E = Executor
  import V = Verifier

  /** One executed governance action. `signersArchived` records whether the verifier's
      signer map was archived at that moment. */
  datatype Execution = Execution(sequence: nat, body: Bytes, action: E.Dispatch, signersArchived: bool)

  /** The action a step executes, if it executes one. */
  ghost function Executes(env: Env, w: World, step: Step): Option<Execution> {
    if !w.halted && step.SubmitAction? && ActionResult(env, w, step.vaa, step.foreignReturns).Done? then
      var (vaa, _, d) := E.GovernanceExecution(env.host, w.exec, env.executor, w.now, step.vaa).value;
      Some(Execution(vaa.body.sequence, vaa.bodyBytes, d, w.verifier.signers.Archived?))
    else None
  }

  /** Everything a run executed, in order. */
  ghost function Log(env: Env, w: World, steps: seq<Step>): seq<Execution> {
    if steps == [] then []
    else
      var n := |steps| - 1;
      match Executes(env, Run(env, w, steps[..n]), steps[n])
      case None => Log(env, w, steps[..n])
      case Some(x) => Log(env, w, steps[..n]) + [x]
  }

  // ----- At most once -----

  ghost predicate Ascending(log: seq<Execution>) {
    forall i, j :: 0 <= i < j < |log| ==> log[i].sequence < log[j].sequence
  }

  /** The watermark, archived or not, is the sequence of the last execution. */
  ghost predicate WatermarkInv(w: World, log: seq<Execution>) {
    && !w.exec.lastSequence.Absent?
    && w.exec.lastSequence.value == (if log == [] then 0 else log[|log| - 1].sequence)
    && Ascending(log)
    && forall i :: 0 <= i < |log| ==>
         |log[i].body| >= MIN_BODY_SIZE && log[i].sequence == BodyOf(log[i].body).sequence
  }

  lemma UpgradeKeepsWatermark(env: Env, w: World, vaa: Bytes, s: E.State)
    requires E.GuardianSetUpdate(env.host, w.exec, w.now, vaa) == Done(s)
    ensures s.lastSequence == w.exec.lastSequence
  {
  }

  /** A dispatched call leaves the executor's storage alone. */
  lemma InvocationKeepsExecutor(env: Env, w: World, d: E.Dispatch, foreignReturns: bool)
    requires Invocation(env, w, d, foreignReturns).Some?
    ensures Invocation(env, w, d, foreignReturns).value.exec == w.exec
  {
  }

  lemma AcceptedSequence(env: Env, w: World, vaaBytes: Bytes, vaa: Vaa, s: E.State, d: E.Dispatch)
    requires E.GovernanceExecution(env.host, w.exec, env.executor, w.now, vaaBytes) == Done((vaa, s, d))
    ensures w.exec.lastSequence.Live? && w.exec.lastSequence.value < vaa.body.sequence
    ensures s.lastSequence == Live(vaa.body.sequence)
    ensures |vaa.bodyBytes| >= MIN_BODY_SIZE && vaa.body.sequence == BodyOf(vaa.bodyBytes).sequence
  {
    BodyOfParse(vaaBytes);
  }

  /** An executed action found a live, smaller watermark and left its own sequence there. */
  lemma ExecutionAdvances(env: Env, w: World, step: Step, x: Execution)
    requires Executes(env, w, step) == Some(x)
    ensures w.exec.lastSequence.Live? && w.exec.lastSequence.value < x.sequence
    ensures Next(env, w, step).exec.lastSequence == Live(x.sequence)
    ensures |x.body| >= MIN_BODY_SIZE && x.sequence == BodyOf(x.body).sequence
  {
    var (vaa, s, d) := E.GovernanceExecution(env.host, w.exec, env.executor, w.now, step.vaa).value;
    AcceptedSequence(env, w, step.vaa, vaa, s, d);
    InvocationKeepsExecutor(env, w.(exec := s), d, step.foreignReturns);
  }

  lemma OtherStepsKeepWatermark(env: Env, w: World, step: Step)
    requires Executes(env, w, step).None?
    ensures Next(env, w, step).exec.lastSequence.SameValue(w.exec.lastSequence)
  {
    if !w.halted && step.SubmitUpgrade? {
      var r := E.GuardianSetUpdate(env.host, w.exec, w.now, step.vaa);
      if r.Done? {
        UpgradeKeepsWatermark(env, w, step.vaa, r.value);
      }
    }
  }

  /** The step from one watermark and log to the next. */
  lemma WatermarkStep(w: World, log: seq<Execution>, w': World, x: Execution)
    requires WatermarkInv(w, log) && w.exec.lastSequence.value < x.sequence
    requires w'.exec.lastSequence == Live(x.sequence)
    requires |x.body| >= MIN_BODY_SIZE && x.sequence == BodyOf(x.body).sequence
    ensures WatermarkInv(w', log + [x])
  {
  }

  lemma {:induction false} RunKeepsWatermark(env: Env, w: World, steps: seq<Step>)
    requires WatermarkInv(w, [])
    ensures WatermarkInv(Run(env, w, steps), Log(env, w, steps))
  {
    if steps != [] {
      var n := |steps| - 1;
      RunKeepsWatermark(env, w, steps[..n]);
      var before, log := Run(env, w, steps[..n]), Log(env, w, steps[..n]);
      match Executes(env, before, steps[n])
      case Some(x) =>
        ExecutionAdvances(env, before, steps[n], x);
        WatermarkStep(before, log, Run(env, w, steps), x);
      case None =>
        OtherStepsKeepWatermark(env, before, steps[n]);
    }
  }

  /** At-most-once execution: over any run from deployment the executed sequences strictly increase, so no
      two executions share a VAA body, whatever signatures or guardian set came with it and whatever
      was archived or restored in between. */
  lemma {:induction false} ExecutedAtMostOnce(env: Env, w: World, d: Deployment, steps: seq<Step>)
    requires Genesis(env, w, d)
    ensures var log := Log(env, w, steps);
            && Ascending(log)
            && (forall i, j :: 0 <= i < j < |log| ==> log[i].body != log[j].body)
            && (log != [] ==> Run(env, w, steps).exec.lastSequence.SameValue(Live(log[|log| - 1].sequence)))
  {
    RunKeepsWatermark(env, w, steps);
  }

  // ----- Without a watermark -----

  /** Governance stops while the watermark entry is missing: no VAA changes anything, neither an action nor an
      upgrade. */
  lemma MissingWatermarkStopsVaas(env: Env, w: World, step: Step)
    requires !w.exec.lastSequence.Live? && (step.SubmitAction? || step.SubmitUpgrade?)
    ensures Next(env, w, step) == w
  {
    if step.SubmitAction? {
      var r := E.GovernanceExecution(env.host, w.exec, env.executor, w.now, step.vaa);
      if r.Done? {
        AcceptedSequence(env, w, step.vaa, r.value.0, r.value.1, r.value.2);
      }
    }
  }

  lemma OtherStepsLeaveWatermark(env: Env, w: World, step: Step)
    requires step != Restore(SequenceEntry) && !w.exec.lastSequence.Live?
    ensures !Next(env, w, step).exec.lastSequence.Live?
  {
    if step.SubmitAction? || step.SubmitUpgrade? {
      MissingWatermarkStopsVaas(env, w, step);
    }
  }

  /** Over any run that does not restore the entry, nothing is executed and no guardian set is installed, retired or
      otherwise changed, whatever is submitted. */
  lemma {:induction false} MissingWatermarkFreezes(env: Env, w: World, first: nat, steps: seq<Step>)
    requires C.StoreInv(w, first) && !w.exec.lastSequence.Live?
    requires forall i :: 0 <= i < |steps| ==> steps[i] != Restore(SequenceEntry)
    ensures Log(env, w, steps) == []
    ensures C.BookOf(Run(env, w, steps).exec) == C.BookOf(w.exec)
    ensures !Run(env, w, steps).exec.lastSequence.Live?
  {
    if steps != [] {
      var n := |steps| - 1;
      MissingWatermarkFreezes(env, w, first, steps[..n]);
      var before := Run(env, w, steps[..n]);
      C.RunKeepsStore(env, w, first, steps[..n]);
      OtherStepsLeaveWatermark(env, before, steps[n]);
      C.StepOnBook(env, before, first, steps[n]);
      if steps[n].SubmitUpgrade? {
        MissingWatermarkStopsVaas(env, before, steps[n]);
      }
      if Executes(env, before, steps[n]).Some? {
        ExecutionAdvances(env, before, steps[n], Executes(env, before, steps[n]).value);
      }
    }
  }

  // ----- The trusted-signer map -----

  /** The signer map the ledger holds, archived or not. */
  ghost function HeldSigners(v: V.State): V.SignerMap {
    if v.signers.Absent? then map[] else v.signers.value
  }

  /** The write to the signer map that an executed action makes, if it makes one. */
  ghost function SignerWrite(env: Env, x: Execution): Option<(Bytes33, nat)> {
    if x.action.Invoke? && x.action.target == env.verifier then SignerArgs(x.action.func, x.action.args) else None
  }

  /** The fold of a log's signer writes; a write that found the map archived starts from the empty map. */
  ghost function Fold(env: Env, initial: V.SignerMap, log: seq<Execution>): V.SignerMap {
    if log == [] then initial
    else
      var n := |log| - 1;
      match SignerWrite(env, log[n])
      case None => Fold(env, initial, log[..n])
      case Some((pubkey, expiresAt)) =>
        V.SetSigner(if log[n].signersArchived then map[] else Fold(env, initial, log[..n]), pubkey, expiresAt)
  }

  /** What a dispatched call does to the verifier. */
  lemma InvocationOnSigners(env: Env, w: World, d: E.Dispatch, foreignReturns: bool, w': World)
    requires w.verifier.executor == Some(env.executor)
    requires Invocation(env, w, d, foreignReturns) == Some(w')
    ensures w'.verifier ==
            match (if d.Invoke? && d.target == env.verifier then SignerArgs(d.func, d.args) else None)
            case None => w.verifier
            case Some((pubkey, expiresAt)) =>
              w.verifier.(signers := Live(V.SetSigner(w.verifier.Signers(), pubkey, expiresAt)))
  {
  }

  /** The verifier's storage after `x` was executed. */
  ghost function Written(env: Env, v: V.State, x: Execution): V.State {
    match SignerWrite(env, x)
    case None => v
    case Some((pubkey, expiresAt)) => v.(signers := Live(V.SetSigner(v.Signers(), pubkey, expiresAt)))
  }

  lemma ExecutionWrites(env: Env, w: World, step: Step, x: Execution)
    requires w.verifier.executor == Some(env.executor)
    requires Executes(env, w, step) == Some(x)
    ensures Next(env, w, step).verifier == Written(env, w.verifier, x)
    ensures x.signersArchived == w.verifier.signers.Archived?
  {
    var (_, s, d) := E.GovernanceExecution(env.host, w.exec, env.executor, w.now, step.vaa).value;
    InvocationOnSigners(env, w.(exec := s), d, step.foreignReturns, Next(env, w, step));
  }

  lemma {:induction false} FoldNext(env: Env, m: V.SignerMap, log: seq<Execution>, x: Execution)
    ensures Fold(env, m, log + [x]) ==
            match SignerWrite(env, x)
            case None => Fold(env, m, log)
            case Some((pubkey, expiresAt)) =>
              V.SetSigner(if x.signersArchived then map[] else Fold(env, m, log), pubkey, expiresAt)
  {
    var longer := log + [x];
    assert longer[..|log|] == log && longer[|log|] == x;
  }

  lemma {:induction false} WrittenIsFold(env: Env, v: V.State, x: Execution, m: V.SignerMap, log: seq<Execution>)
    requires HeldSigners(v) == Fold(env, m, log) && x.signersArchived == v.signers.Archived?
    ensures HeldSigners(Written(env, v, x)) == Fold(env, m, log + [x])
  {
    FoldNext(env, m, log, x);
    assert v.Signers() == if x.signersArchived then map[] else HeldSigners(v);
  }

  lemma OtherStepsKeepSigners(env: Env, w: World, step: Step)
    requires w.verifier.executor == Some(env.executor)
    requires step.CallVerifier? ==> step.caller != env.executor
    requires Executes(env, w, step).None?
    ensures var w' := Next(env, w, step);
            w'.verifier.executor == w.verifier.executor && HeldSigners(w'.verifier) == HeldSigners(w.verifier)
  {
  }

  /** Two-contract run: in every reachable state the signer map is the fold of the constructor's signer and of
      the `update_trusted_signer` calls executed so far, in increasing sequence order. */
  lemma {:induction false} SignersAreFold(env: Env, w: World, d: Deployment, steps: seq<Step>)
    requires Genesis(env, w, d) && Proper(env, steps)
    ensures var w', log := Run(env, w, steps), Log(env, w, steps);
            && w'.verifier.executor == Some(env.executor)
            && HeldSigners(w'.verifier) == Fold(env, HeldSigners(w.verifier), log)
            && Ascending(log)
  {
    ExecutedAtMostOnce(env, w, d, steps);
    if steps != [] {
      var n := |steps| - 1;
      SignersAreFold(env, w, d, steps[..n]);
      var before := Run(env, w, steps[..n]);
      match Executes(env, before, steps[n])
      case Some(x) =>
        ExecutionWrites(env, before, steps[n], x);
        WrittenIsFold(env, before.verifier, x, HeldSigners(w.verifier), Log(env, w, steps[..n]));
      case None =>
        OtherStepsKeepSigners(env, before, steps[n]);
    }
  }

  /** Execution `i` is the last one in the log that writes `pubkey`. */
  ghost predicate LastWrite(env: Env, log: seq<Execution>, pubkey: Bytes33, i: nat) {
    && i < |log|
    && SignerWrite(env, log[i]).Some? && SignerWrite(env, log[i]).value.0 == pubkey
    && forall j :: i < j < |log| && SignerWrite(env, log[j]).Some? ==> SignerWrite(env, log[j]).value.0 != pubkey
  }

  /** No executed action names `pubkey`. */
  ghost predicate Unwritten(env: Env, log: seq<Execution>, pubkey: Bytes33) {
    forall j :: 0 <= j < |log| && SignerWrite(env, log[j]).Some? ==> SignerWrite(env, log[j]).value.0 != pubkey
  }

  /** From execution `from` on, every write to the signer map found it live or never written. */
  ghost predicate KeptSince(env: Env, log: seq<Execution>, from: nat) {
    forall j :: from <= j < |log| && SignerWrite(env, log[j]).Some? ==> !log[j].signersArchived
  }

  /** Last write wins, exactly: a signer is in the map if and only if the last executed call naming it set a non-zero
      expiry and no later write found the map archived; it then has that expiry. */
  lemma {:induction false} LastWriteWins(env: Env, m: V.SignerMap, log: seq<Execution>, pubkey: Bytes33, i: nat)
    requires LastWrite(env, log, pubkey, i)
    ensures pubkey in Fold(env, m, log) <==> SignerWrite(env, log[i]).value.1 != 0 && KeptSince(env, log, i + 1)
    ensures pubkey in Fold(env, m, log) ==> Fold(env, m, log)[pubkey] == SignerWrite(env, log[i]).value.1
  {
    var n := |log| - 1;
    if i < n {
      LastWriteWins(env, m, log[..n], pubkey, i);
      KeptLast(env, log, i + 1);
    }
  }

  lemma KeptLast(env: Env, log: seq<Execution>, from: nat)
    requires from < |log|
    ensures var n := |log| - 1;
            KeptSince(env, log, from) <==>
            KeptSince(env, log[..n], from) && (SignerWrite(env, log[n]).Some? ==> !log[n].signersArchived)
  {
    var init := log[..|log| - 1];
    assert forall j :: 0 <= j < |init| ==> init[j] == log[j];
  }

  /** A signer no executed call names keeps what the constructor gave it exactly as long as no write finds the map
      archived. */
  lemma {:induction false} UnwrittenSigner(env: Env, m: V.SignerMap, log: seq<Execution>, pubkey: Bytes33)
    requires Unwritten(env, log, pubkey)
    ensures pubkey in Fold(env, m, log) <==> pubkey in m && KeptSince(env, log, 0)
    ensures pubkey in Fold(env, m, log) ==> Fold(env, m, log)[pubkey] == m[pubkey]
  {
    if log != [] {
      UnwrittenSigner(env, m, log[..|log| - 1], pubkey);
      KeptLast(env, log, 0);
    }
  }

  lemma {:induction false} FindLastWrite(env: Env, log: seq<Execution>, pubkey: Bytes33) returns (i: Option<nat>)
    ensures i.Some? ==> LastWrite(env, log, pubkey, i.value)
    ensures i.None? ==> Unwritten(env, log, pubkey)
  {
    i := None;
    if log != [] {
      var n := |log| - 1;
      var write := SignerWrite(env, log[n]);
      if write.Some? && write.value.0 == pubkey {
        i := Some(n);
      } else {
        i := FindLastWrite(env, log[..n], pubkey);
      }
    }
  }

  /** Execution `i` set `pubkey` to `expiresAt` and nothing executed since has changed or forgotten it. */
  ghost predicate SetAt(env: Env, log: seq<Execution>, pubkey: Bytes33, expiresAt: nat, i: nat) {
    LastWrite(env, log, pubkey, i) && SignerWrite(env, log[i]).value.1 == expiresAt && KeptSince(env, log, i + 1)
  }

  /** The deployer set it and nothing executed has changed or forgotten it. */
  ghost predicate SetAtDeployment(env: Env, log: seq<Execution>, d: Deployment, pubkey: Bytes33, expiresAt: nat) {
    Unwritten(env, log, pubkey) && d.signer == Some(pubkey) && d.initial == Some(expiresAt) && KeptSince(env, log, 0)
  }

  lemma {:induction false} LastWriteIsUnique(env: Env, log: seq<Execution>, pubkey: Bytes33, i: nat, j: nat)
    requires LastWrite(env, log, pubkey, i) && LastWrite(env, log, pubkey, j)
    ensures i == j
  {
  }

  /** The signer map of every reachable state, entry by entry: it holds `pubkey` with `expiresAt` if and only if that is
      not zero and either the last executed action naming it or, without one, the deployer set it so, no later write
      having found the map archived. */
  lemma {:induction false} SignerMapExactly(env: Env, w: World, d: Deployment, steps: seq<Step>, pubkey: Bytes33,
                                            expiresAt: nat)
    requires Genesis(env, w, d) && Proper(env, steps)
    ensures var m, log := HeldSigners(Run(env, w, steps).verifier), Log(env, w, steps);
            pubkey in m && m[pubkey] == expiresAt <==>
            expiresAt != 0 &&
            ((exists i :: SetAt(env, log, pubkey, expiresAt, i)) ||
             SetAtDeployment(env, log, d, pubkey, expiresAt))
  {
    SignersAreFold(env, w, d, steps);
    EntryExactly(env, HeldSigners(w.verifier), Log(env, w, steps), d, pubkey, expiresAt);
  }

  lemma {:induction false} EntryExactly(env: Env, m: V.SignerMap, log: seq<Execution>, d: Deployment, pubkey: Bytes33,
                                        expiresAt: nat)
    requires m == match InitialSigners(d) case Live(held) => held case _ => map[]
    ensures var held := Fold(env, m, log);
            pubkey in held && held[pubkey] == expiresAt <==>
            expiresAt != 0 &&
            ((exists i :: SetAt(env, log, pubkey, expiresAt, i)) ||
             SetAtDeployment(env, log, d, pubkey, expiresAt))
  {
    var last := FindLastWrite(env, log, pubkey);
    match last
    case Some(i) =>
      LastWriteWins(env, m, log, pubkey, i);
      if j: nat :| SetAt(env, log, pubkey, expiresAt, j) {
        LastWriteIsUnique(env, log, pubkey, i, j);
      }
      if expiresAt == SignerWrite(env, log[i]).value.1 && KeptSince(env, log, i + 1) {
        assert SetAt(env, log, pubkey, expiresAt, i);
      }
    case None =>
      UnwrittenSigner(env, m, log, pubkey);
  }
}
