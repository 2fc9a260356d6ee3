/** The SqlJob resource as the admission rules see it. The resource's own
    type file is not part of this model; the fields are those its webhook
    test sets. Go's nil values are None; a nil and an empty `dependsOn`
    list are the same empty sequence. */
module SqlJobApi {
  import opened Wrappers

  /** The MariaDB the job runs against. */
  datatype MariaDBRef = MariaDBRef(name: string, waitForIt: bool)

  /** A key of a Secret or ConfigMap. */
  datatype KeySelector = KeySelector(name: string, key: string)

  datatype Schedule = Schedule(cron: string, suspend: bool)

  /** Resource requests and limits, quantities kept as written. */
  datatype ResourceRequirements = ResourceRequirements(
    requests: map<string, string>,
    limits: map<string, string>)

  datatype SqlJobSpec = SqlJobSpec(
    mariaDbRef: MariaDBRef,
    schedule: Option<Schedule>,
    username: string,
    passwordSecretKeyRef: KeySelector,
    database: Option<string>,
    dependsOn: seq<string>,
    sql: Option<string>,
    sqlConfigMapKeyRef: Option<KeySelector>,
    backoffLimit: int,
    restartPolicy: string,
    resources: Option<ResourceRequirements>)

  datatype ObjectMeta = ObjectMeta(name: string, namespace: string)

  datatype SqlJob = SqlJob(meta: ObjectMeta, spec: SqlJobSpec)

  /** The fields of a SqlJob spec, as named in admission errors. */
  datatype SpecField =
    | MariaDbRefField | ScheduleField | UsernameField | PasswordSecretKeyRefField
    | DatabaseField | DependsOnField | SqlField | SqlConfigMapKeyRefField
    | BackoffLimitField | RestartPolicyField | ResourcesField

  /** The fields an update may not change. */
  predicate IsImmutable(f: SpecField) {
    !(f.ScheduleField? || f.SqlConfigMapKeyRefField? || f.BackoffLimitField?)
  }

  /** Whether two specs agree on field `f`. */
  predicate SameField(a: SqlJobSpec, b: SqlJobSpec, f: SpecField) {
    match f
    case MariaDbRefField => a.mariaDbRef == b.mariaDbRef
    case ScheduleField => a.schedule == b.schedule
    case UsernameField => a.username == b.username
    case PasswordSecretKeyRefField => a.passwordSecretKeyRef == b.passwordSecretKeyRef
    case DatabaseField => a.database == b.database
    case DependsOnField => a.dependsOn == b.dependsOn
    case SqlField => a.sql == b.sql
    case SqlConfigMapKeyRefField => a.sqlConfigMapKeyRef == b.sqlConfigMapKeyRef
    case BackoffLimitField => a.backoffLimit == b.backoffLimit
    case RestartPolicyField => a.restartPolicy == b.restartPolicy
    case ResourcesField => a.resources == b.resources
  }

  /** The spec with every mutable field reset: what an update must preserve. */
  function Identity(s: SqlJobSpec): (r: SqlJobSpec)
    ensures forall f :: IsImmutable(f) ==> SameField(r, s, f)
  {
    s.(schedule := None, sqlConfigMapKeyRef := None, backoffLimit := 0)
  }

  /** Two specs agree on every immutable field exactly when their identities
      are equal. */
  lemma IdentityCharacterizesImmutable(a: SqlJobSpec, b: SqlJobSpec)
    ensures Identity(a) == Identity(b) <==> forall f :: IsImmutable(f) ==> SameField(a, b, f)
  {
    if forall f :: IsImmutable(f) ==> SameField(a, b, f) {
      assert SameField(a, b, MariaDbRefField) && SameField(a, b, UsernameField);
      assert SameField(a, b, PasswordSecretKeyRefField) && SameField(a, b, DatabaseField);
      assert SameField(a, b, DependsOnField) && SameField(a, b, SqlField);
      assert SameField(a, b, RestartPolicyField) && SameField(a, b, ResourcesField);
    }
  }
}
