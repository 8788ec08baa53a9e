/** The two contracts on one ledger: transactions with host rollback, time, archival of
    storage entries, and whole runs of them. */
module Ledger {
  import opened Outcomes
  import opened Bytes
  import opened Host
  import opened Vaa
  import E = Executor
  import V = Verifier

  const UPDATE_TRUSTED_SIGNER: Bytes := Ascii("update_trusted_signer")
  const UPGRADE: Bytes := Ascii("upgrade")

  function Ascii(s: string): Bytes {
    seq(|s|, i requires 0 <= i < |s| => s[i] as int % 256)
  }

  /** The host and the addresses of the two contracts. */
  datatype Env = Env(host: Host, executor: Address, verifier: Address)

  datatype World = World(exec: E.State, verifier: V.State, now: nat, halted: bool)

  datatype Entry = GuardianSetEntry(k: nat) | IndexEntry | SequenceEntry | SignersEntry

  /** What can happen: anyone submits VAAs, other principals call the verifier directly, time
      passes, and the host archives or restores persistent entries. `foreignReturns` says
      whether a call to some third contract returns or traps. */
  datatype Step =
    | SubmitUpgrade(vaa: Bytes)
    | SubmitAction(vaa: Bytes, foreignReturns: bool)
    | CallVerifier(caller: Address, pubkey: Bytes33, expiresAt: nat)
    | AdvanceTime(seconds: nat)
    | Archive(entry: Entry)
    | Restore(entry: Entry)

  /** The arguments of a well-formed `update_trusted_signer` call. */
  function SignerArgs(func: Bytes, args: seq<Val>): Option<(Bytes33, nat)> {
    if func == UPDATE_TRUSTED_SIGNER && |args| == 2 && args[0].BytesVal? && |args[0].bytes| == 33 && args[1].U64Val?
    then Some((args[0].bytes, args[1].n)) else None
  }

  predicate UpgradeArgs(func: Bytes, args: seq<Val>) {
    func == UPGRADE && |args| == 1 && args[0].BytesVal? && |args[0].bytes| == 32
  }

  ghost predicate Spells(func: Bytes, name: string) {
    |func| == |name| && forall i :: 0 <= i < |name| ==> func[i] as char == name[i]
  }

  lemma SpellsExactly(func: Bytes, name: string)
    requires forall i :: 0 <= i < |name| ==> name[i] as int < 256
    ensures func == Ascii(name) <==> Spells(func, name)
  {
  }

  /** The two calls of the verifier that are told apart, by their names and the shapes of their arguments. */
  lemma CallsExactly(func: Bytes, args: seq<Val>, pubkey: Bytes33, expiresAt: nat)
    ensures SignerArgs(func, args) == Some((pubkey, expiresAt)) <==>
            Spells(func, "update_trusted_signer") && args == [BytesVal(pubkey), U64Val(expiresAt)]
    ensures UpgradeArgs(func, args) <==>
            Spells(func, "upgrade") && |args| == 1 && args[0].BytesVal? && |args[0].bytes| == 32
  {
    SpellsExactly(func, "update_trusted_signer");
    SpellsExactly(func, "upgrade");
  }

  /** The cross-contract call the executor makes; `None` where it traps. Replacing either
      contract's code ends the part of the run that this model covers. */
  function Invocation(env: Env, w: World, d: E.Dispatch, foreignReturns: bool): Option<World> {
    match d
    case UpgradeSelf(_) => Some(w.(halted := true))
    case Invoke(target, func, args) =>
      if target == env.verifier then
        match SignerArgs(func, args)
        case Some((pubkey, expiresAt)) =>
          (match V.SignerUpdate(w.verifier, env.executor, pubkey, expiresAt)
           case Done(v) => Some(w.(verifier := v))
           case _ => None)
        case None =>
          if UpgradeArgs(func, args) && w.verifier.executor == Some(env.executor) then Some(w.(halted := true))
          else None
      else if target != env.executor && foreignReturns then Some(w)
      else None
  }

  function ActionResult(env: Env, w: World, vaa: Bytes, foreignReturns: bool): Call<World> {
    match E.GovernanceExecution(env.host, w.exec, env.executor, w.now, vaa)
    case Fail(e) => Fail(e)
    case Trap => Trap
    case Done((_, s, d)) =>
      match Invocation(env, w.(exec := s), d, foreignReturns)
      case None => Trap
      case Some(w') => Done(w')
  }

  function WithEntry(w: World, entry: Entry, live: bool): World {
    match entry
    case GuardianSetEntry(k) =>
      if k in w.exec.sets then
        var cell := w.exec.sets[k];
        w.(exec := w.exec.(sets := w.exec.sets[k := if live then cell.Restore() else cell.Archive()]))
      else w
    case IndexEntry =>
      w.(exec := w.exec.(index := if live then w.exec.index.Restore() else w.exec.index.Archive()))
    case SequenceEntry =>
      w.(exec := w.exec.(lastSequence := if live then w.exec.lastSequence.Restore() else w.exec.lastSequence.Archive()))
    case SignersEntry =>
      var signers := w.verifier.signers;
      w.(verifier := w.verifier.(signers := if live then signers.Restore() else signers.Archive()))
  }

  /** One transaction or host event. A failed or trapped transaction changes nothing. */
  function Next(env: Env, w: World, step: Step): World {
    if w.halted then w
    else
      match step
      case SubmitUpgrade(vaa) =>
        (match E.GuardianSetUpdate(env.host, w.exec, w.now, vaa)
         case Done(s) => w.(exec := s)
         case _ => w)
      case SubmitAction(vaa, foreignReturns) =>
        (match ActionResult(env, w, vaa, foreignReturns)
         case Done(w') => w'
         case _ => w)
      case CallVerifier(caller, pubkey, expiresAt) =>
        (match V.SignerUpdate(w.verifier, caller, pubkey, expiresAt)
         case Done(v) => w.(verifier := v)
         case _ => w)
      case AdvanceTime(seconds) => w.(now := w.now + seconds)
      case Archive(entry) => WithEntry(w, entry, false)
      case Restore(entry) => WithEntry(w, entry, true)
  }

  function Run(env: Env, w: World, steps: seq<Step>): World {
    if steps == [] then w else Next(env, Run(env, w, steps[..|steps| - 1]), steps[|steps| - 1])
  }

  /** Only the executor contract can act as itself, and it calls the verifier only through its dispatcher. */
  ghost predicate Proper(env: Env, steps: seq<Step>) {
    forall i :: 0 <= i < |steps| && steps[i].CallVerifier? ==> steps[i].caller != env.executor
  }

  /** What the deployer chooses: the executor's configuration, guardian keys and first index, and the verifier's initial
      signer and its expiry. */
  datatype Deployment = Deployment(
    config: E.Config, keys: seq<Bytes20>, first: nat, signer: Option<Bytes33>, initial: Option<nat>)

  ghost function InitialSigners(d: Deployment): Cell<V.SignerMap> {
    var none: V.SignerMap := map[];
    if d.signer.None? || d.initial.None? then Absent
    else if d.initial.value == 0 then Live(none)
    else Live(none[d.signer.value := d.initial.value])
  }

  /** The world right after both contracts were deployed as `d` says, the executor configured in the verifier. */
  ghost predicate Genesis(env: Env, w: World, d: Deployment) {
    && !w.halted && d.keys != []
    && w.exec.initialized && w.exec.config == d.config
    && w.exec.sets == map[d.first := Live(StoredGuardianSet(d.keys, None))]
    && w.exec.index == Live(d.first) && w.exec.lastSequence == Live(0)
    && w.verifier.executor == Some(env.executor) && w.verifier.signers == InitialSigners(d)
  }

  /** The constructors of the two contracts, run on fresh storage whatever configuration stood there, lead exactly to
      that world. */
  lemma DeployedExactly(env: Env, prior: E.Config, d: Deployment, w: World)
    ensures Genesis(env, w, d) <==>
            && E.Initialization(E.State(false, prior, map[], Absent, Absent), d.config, d.keys, d.first) == Done(w.exec)
            && V.Construction(V.State(None, Absent), env.executor, d.signer, d.initial) == Done(w.verifier)
            && !w.halted
  {
    var none: V.SignerMap := map[];
    assert d.signer.Some? ==> none - {d.signer.value} == none;
  }

  // ----- Transactions on contract objects -----

  /** Holds the contract objects and runs their entry points, restoring both contracts' storage
      after every transaction that does not succeed. */
  class Chain {
    const env: Env
    const exec: E.ExecutorContract
    const verifier: V.VerifierContract
    var now: nat
    var halted: bool

    constructor (env: Env, exec: E.ExecutorContract, verifier: V.VerifierContract)
      requires exec.host == env.host && exec.self == env.executor && verifier.host == env.host
      ensures this.env == env && this.exec == exec && this.verifier == verifier && Valid()
      ensures View() == World(exec.Storage(), verifier.Storage(), 0, false)
    {
      this.env, this.exec, this.verifier := env, exec, verifier;
      now, halted := 0, false;
    }

    ghost predicate Valid() {
      exec.host == env.host && exec.self == env.executor && verifier.host == env.host
    }

    ghost function View(): World
      reads this, exec, verifier
    {
      World(exec.Storage(), verifier.Storage(), now, halted)
    }

    method Upgrade(vaa: Bytes) returns (ok: bool)
      requires Valid() && !halted
      modifies exec
      ensures View() == Next(env, old(View()), SubmitUpgrade(vaa))
      ensures ok <==> E.GuardianSetUpdate(env.host, old(View()).exec, now, vaa).Done?
    {
      var sets, index := exec.sets, exec.index;
      var r := exec.UpdateGuardianSet(now, vaa);
      ok := r.Done?;
      if !ok {
        exec.sets, exec.index := sets, index;
      }
    }

    method Act(vaa: Bytes, foreignReturns: bool) returns (ok: bool)
      requires Valid() && !halted
      modifies this, exec, verifier
      ensures View() == Next(env, old(View()), SubmitAction(vaa, foreignReturns))
      ensures ok <==> ActionResult(env, old(View()), vaa, foreignReturns).Done?
    {
      var lastSequence := exec.lastSequence;
      var r := exec.PrepareGovernanceAction(now, vaa);
      ok := false;
      if r.Done? {
        ok := Dispatch(r.value, foreignReturns);
      }
      if !ok {
        exec.lastSequence := lastSequence;
      }
    }

    method Dispatch(d: E.Dispatch, foreignReturns: bool) returns (ok: bool)
      requires Valid() && !halted
      modifies this`halted, verifier
      ensures match Invocation(env, old(View()), d, foreignReturns)
              case Some(w) => ok && View() == w
              case None => !ok && View() == old(View())
    {
      match d {
        case UpgradeSelf(_) =>
          halted := true;
          return true;
        case Invoke(target, func, args) =>
          if target == env.verifier {
            match SignerArgs(func, args) {
              case Some((pubkey, expiresAt)) =>
                var r := verifier.UpdateTrustedSigner(env.executor, pubkey, expiresAt);
                return r.Done?;
              case None =>
                ok := UpgradeArgs(func, args) && verifier.executor == Some(env.executor);
                halted := ok;
                return;
            }
          }
          return target != env.executor && foreignReturns;
      }
    }

    method CallUpdateTrustedSigner(caller: Address, pubkey: Bytes33, expiresAt: nat) returns (ok: bool)
      requires Valid() && !halted
      modifies verifier
      ensures View() == Next(env, old(View()), CallVerifier(caller, pubkey, expiresAt))
      ensures ok <==> V.SignerUpdate(old(View()).verifier, caller, pubkey, expiresAt).Done?
    {
      var r := verifier.UpdateTrustedSigner(caller, pubkey, expiresAt);
      return r.Done?;
    }
  }

  /** Deploys the two contracts and runs their constructors. */
  method Deploy(env: Env, d: Deployment) returns (r: Option<Chain>)
    ensures r.None? <==> d.keys == []
    ensures r.Some? ==> r.value.env == env && r.value.Valid() && Genesis(env, r.value.View(), d)
  {
    var exec := new E.ExecutorContract(env.host, env.executor);
    var verifier := new V.VerifierContract(env.host);
    ghost var prior := exec.config;
    var initialized := exec.Initialize(d.config, d.keys, d.first);
    if !initialized.Done? {
      return None;
    }
    var constructed := verifier.Construct(env.executor, d.signer, d.initial);
    var chain := new Chain(env, exec, verifier);
    DeployedExactly(env, prior, d, chain.View());
    return Some(chain);
  }
}
