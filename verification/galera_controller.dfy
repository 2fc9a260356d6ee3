/** One pass of the Galera reconciler. The calls the pass makes to the
    cluster (Galera recovery, the stateful-set read, disabling bootstrap and
    the status patch) are replaced by their results, supplied up front as
    oracles; the pass reports which of them it made, in order, what error it
    returned, and the MariaDB object as stored afterwards. */
module GaleraController {
  import opened Wrappers
  import opened MariaDBApi

  datatype ApiError = ApiError(reason: string)

  /** The observed status of the MariaDB's stateful set. */
  datatype StatefulSet = StatefulSet(readyReplicas: int)

  /** The outward calls a pass can make. */
  datatype Call = RecoverGalera | GetStatefulSet | DisableBootstrap | PatchStatus

  /** What each outward call would answer during this pass. */
  datatype Oracles = Oracles(
    recovery: Outcome<ApiError>,
    statefulSet: Result<StatefulSet, ApiError>,
    disableBootstrap: Outcome<ApiError>,
    statusPatch: Outcome<ApiError>)

  /** The error the pass returns, the calls it made, and the stored object. */
  datatype Step = Step(result: Outcome<ApiError>, calls: seq<Call>, stored: MariaDB)

  /** Position of a call in the fixed order of a pass. */
  function Rank(c: Call): nat {
    match c
    case RecoverGalera => 0
    case GetStatefulSet => 1
    case DisableBootstrap => 2
    case PatchStatus => 3
  }

  /** Every call happens at most once, and in the order
      recovery, stateful-set read, disable bootstrap, status patch. */
  predicate InCallOrder(calls: seq<Call>) {
    forall i, j :: 0 <= i < j < |calls| ==> Rank(calls[i]) < Rank(calls[j])
  }

  /** The Galera steps run only when Galera is configured and no backup is
      being restored: a restore always wins over recovery. */
  predicate Active(m: MariaDB) {
    m.spec.galera.Some? && !IsRestoringBackup(m)
  }

  /** The stored object after `patchStatus` with the Galera-ready patcher:
      the patched status when the write succeeds, the old object otherwise. */
  function ApplyReadyPatch(m: MariaDB, outcome: Outcome<ApiError>): (r: MariaDB)
    ensures r.name == m.name && r.namespace == m.namespace && r.spec == m.spec
    ensures outcome.Pass? ==> HasGaleraReadyCondition(r)
    ensures outcome.Pass? ==> forall t :: t != GaleraReady ==> ConditionOf(r, t) == ConditionOf(m, t)
    ensures outcome.Fail? ==> r == m
  {
    if outcome.Pass? then m.(status := SetGaleraReady(m.status)) else m
  }

  /** `GaleraReconciler.Reconcile`. */
  function Reconcile(m: MariaDB, o: Oracles): (p: Step)
    // Galera not configured, or a restore in progress: nothing at all happens.
    ensures !Active(m) ==> p == Step(Pass, [], m)
    ensures InCallOrder(p.calls)
    // Recovery runs exactly when the condition is explicitly not ready, and
    // its failure ends the pass before anything else.
    ensures RecoverGalera in p.calls <==> Active(m) && HasGaleraNotReadyCondition(m)
    ensures RecoverGalera in p.calls && o.recovery.Fail? ==>
      p == Step(o.recovery, [RecoverGalera], m)
    // The stateful set is read once any needed recovery has succeeded; a
    // failed read is returned and ends the pass.
    ensures GetStatefulSet in p.calls <==>
      Active(m) && (HasGaleraNotReadyCondition(m) ==> o.recovery.Pass?)
    ensures GetStatefulSet in p.calls && o.statefulSet.Failure? ==>
      p.result == Fail(o.statefulSet.error) && p.stored == m && DisableBootstrap !in p.calls
    // Bootstrap is disabled only when the condition is not yet True and every
    // desired replica is ready.
    ensures DisableBootstrap in p.calls <==>
      GetStatefulSet in p.calls && o.statefulSet.Success? && !HasGaleraReadyCondition(m) &&
      o.statefulSet.value.readyReplicas == m.spec.replicas
    ensures DisableBootstrap in p.calls && o.disableBootstrap.Fail? ==>
      p.result == o.disableBootstrap && p.stored == m
    // The status is patched only after bootstrap was disabled successfully,
    // and the patch is the last thing the pass does.
    ensures PatchStatus in p.calls <==> DisableBootstrap in p.calls && o.disableBootstrap.Pass?
    ensures PatchStatus in p.calls ==>
      p.result == o.statusPatch && p.stored == ApplyReadyPatch(m, o.statusPatch)
    // Without a status patch the stored object is untouched; a pass that
    // read the stateful set and stopped short of disabling bootstrap succeeds.
    ensures PatchStatus !in p.calls ==> p.stored == m
    ensures GetStatefulSet in p.calls && o.statefulSet.Success? && DisableBootstrap !in p.calls ==>
      p.result == Pass
    // An error never comes with a status change.
    ensures p.result.Fail? ==> p.stored == m
  {
    if !Active(m) then Step(Pass, [], m)
    else if HasGaleraNotReadyCondition(m) && o.recovery.Fail? then
      Step(o.recovery, [RecoverGalera], m)
    else
      var recovered: seq<Call> := if HasGaleraNotReadyCondition(m) then [RecoverGalera] else [];
      match o.statefulSet
      case Failure(e) => Step(Fail(e), recovered + [GetStatefulSet], m)
      case Success(sts) =>
        if !HasGaleraReadyCondition(m) && sts.readyReplicas == m.spec.replicas then
          if o.disableBootstrap.Fail? then
            Step(o.disableBootstrap, recovered + [GetStatefulSet, DisableBootstrap], m)
          else
            Step(o.statusPatch, recovered + [GetStatefulSet, DisableBootstrap, PatchStatus],
                 ApplyReadyPatch(m, o.statusPatch))
        else
          Step(Pass, recovered + [GetStatefulSet], m)
  }

  /** The stored object after consecutive passes with the given oracles. */
  function RunPasses(m: MariaDB, os: seq<Oracles>): (r: MariaDB)
    ensures r.name == m.name && r.namespace == m.namespace && r.spec == m.spec
    // The only entry a pass ever writes is Galera-ready, and only to True.
    ensures forall t :: t != GaleraReady ==> ConditionOf(r, t) == ConditionOf(m, t)
    ensures ConditionOf(r, GaleraReady) != ConditionOf(m, GaleraReady) ==> HasGaleraReadyCondition(r)
    // Once ready, always ready.
    ensures HasGaleraReadyCondition(m) ==> r == m
    decreases |os|
  {
    if |os| == 0 then m
    else RunPasses(Reconcile(m, os[0]).stored, os[1..])
  }

  /** Starting from the explicit not-ready state, a pass whose recovery,
      stateful-set read, bootstrap disabling and patch all succeed with every
      replica ready ends with the condition True. */
  lemma NotReadyRecoversInOnePass(m: MariaDB, o: Oracles)
    requires Active(m) && HasGaleraNotReadyCondition(m)
    requires o.recovery.Pass? && o.disableBootstrap.Pass? && o.statusPatch.Pass?
    requires o.statefulSet == Success(StatefulSet(m.spec.replicas))
    ensures Reconcile(m, o).result == Pass
    ensures Reconcile(m, o).calls == [RecoverGalera, GetStatefulSet, DisableBootstrap, PatchStatus]
    ensures HasGaleraReadyCondition(Reconcile(m, o).stored)
  {
  }

  /** Right after a pass flipped the condition to True, any further pass
      only reads the stateful set: it writes nothing and fails only if that
      read fails. */
  lemma SecondPassAfterReadyIsNoOp(m: MariaDB, o1: Oracles, o2: Oracles)
    requires !HasGaleraReadyCondition(m)
    requires HasGaleraReadyCondition(Reconcile(m, o1).stored)
    ensures var m1 := Reconcile(m, o1).stored;
      var p2 := Reconcile(m1, o2);
      && p2.stored == m1
      && p2.calls == [GetStatefulSet]
      && (p2.result.Pass? <==> o2.statefulSet.Success?)
  {
    var m1 := Reconcile(m, o1).stored;
    assert m1 == m.(status := SetGaleraReady(m.status));
    assert ConditionOf(m1, RestoringBackup) == ConditionOf(m, RestoringBackup);
  }
}
