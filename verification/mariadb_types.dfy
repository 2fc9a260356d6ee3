/** The part of the MariaDB custom resource that the Galera reconciler and the
    command builders read, with its status conditions. The resource's own type
    file and the `conditions` package are not part of this model: the
    predicates below are the assumed meaning of the helpers the reconciler
    calls, reading and writing one condition entry each. */
module MariaDBApi {
  import opened Wrappers

  /** Status of a condition entry, as in Kubernetes' metav1.Condition. */
  datatype ConditionStatus = True | False | Unknown

  /** The condition types the reconciler looks at. */
  datatype ConditionType = Ready | GaleraReady | RestoringBackup

  /** At most one entry per type; a type that is not a key is absent. */
  type Conditions = map<ConditionType, ConditionStatus>

  /** Galera settings; the reconciler only tests whether they are present. */
  datatype Galera = Galera

  datatype MariaDBSpec = MariaDBSpec(
    replicas: int,
    port: int,
    galera: Option<Galera>)

  datatype MariaDBStatus = MariaDBStatus(conditions: Conditions)

  datatype MariaDB = MariaDB(
    name: string,
    namespace: string,
    spec: MariaDBSpec,
    status: MariaDBStatus)

  /** The entry of condition `t`, if any. */
  function ConditionOf(m: MariaDB, t: ConditionType): Option<ConditionStatus> {
    if t in m.status.conditions then Some(m.status.conditions[t]) else None
  }

  /** Assumed: a backup restore is in progress when its condition is True. */
  predicate IsRestoringBackup(m: MariaDB) {
    ConditionOf(m, RestoringBackup) == Some(True)
  }

  /** Assumed: "not ready" means the Galera-ready entry is explicitly False;
      an absent or Unknown entry is not "not ready". */
  predicate HasGaleraNotReadyCondition(m: MariaDB) {
    ConditionOf(m, GaleraReady) == Some(False)
  }

  /** Assumed: "ready" means the Galera-ready entry is True. */
  predicate HasGaleraReadyCondition(m: MariaDB) {
    ConditionOf(m, GaleraReady) == Some(True)
  }

  /** Assumed: setting Galera ready writes True into the Galera-ready entry
      and leaves every other entry as it was. */
  function SetGaleraReady(s: MariaDBStatus): (r: MariaDBStatus)
    ensures GaleraReady in r.conditions && r.conditions[GaleraReady] == True
    ensures forall t :: t != GaleraReady ==>
      (t in r.conditions <==> t in s.conditions) &&
      (t in s.conditions ==> r.conditions[t] == s.conditions[t])
  {
    MariaDBStatus(s.conditions[GaleraReady := True])
  }
}
