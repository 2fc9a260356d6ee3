/** The SqlJob webhook test as data: its creation rows, its update rows as
    patches, and the replay of those patches against the stored object, each
    row judged against the last version the API server accepted. */
module SqlJobWebhookTable {
  import opened Wrappers
  import opened SqlJobApi
  import opened SqlJobWebhook
  import Cron

  /** What the table needs of cron syntax, and all it fixes about it. */
  predicate CronFacts(cronValid: string -> bool) {
    cronValid("*/1 * * * *") && !cronValid("foo")
  }

  /** The concrete five-field check meets those facts. */
  lemma StandardCronMeetsFacts()
    ensures CronFacts(Cron.StandardValid)
  {
    Cron.StandardValidExamples();
  }

  // ---- creation rows ----

  const CreateMeta := ObjectMeta("sqljob-create-webhook", "test")

  /** The fields every creation row shares. */
  const CreateBase := SqlJobSpec(
    mariaDbRef := MariaDBRef("foo", false),
    schedule := None,
    username := "foo",
    passwordSecretKeyRef := KeySelector("foo", "foo"),
    database := None,
    dependsOn := [],
    sql := None,
    sqlConfigMapKeyRef := None,
    backoffLimit := 0,
    restartPolicy := "",
    resources := None)

  const NoSql := SqlJob(CreateMeta, CreateBase)
  const InvalidSchedule := SqlJob(CreateMeta, CreateBase.(schedule := Some(Schedule("foo", false))))
  const ValidJob := SqlJob(CreateMeta, CreateBase.(sql := Some("foo")))
  const ValidJobWithSchedule :=
    SqlJob(CreateMeta, CreateBase.(sql := Some("foo"), schedule := Some(Schedule("*/1 * * * *", false))))

  /** Each creation row gets the verdict the test expects. */
  lemma CreateTableVerdicts(cronValid: string -> bool)
    requires CronFacts(cronValid)
    ensures ValidateCreate(NoSql, cronValid) == Fail({MissingSql})
    ensures ValidateCreate(InvalidSchedule, cronValid) == Fail({MissingSql, InvalidCron("foo")})
    ensures ValidateCreate(ValidJob, cronValid) == Pass
    ensures ValidateCreate(ValidJobWithSchedule, cronValid) == Pass
  {
    assert CreateViolations(NoSql, cronValid) == {MissingSql};
    assert CreateViolations(InvalidSchedule, cronValid) == {MissingSql, InvalidCron("foo")};
  }

  /** The invalid-schedule row is rejected for its cron alone, too: with
      inline SQL added it is still rejected. */
  lemma InvalidCronAloneRejected(cronValid: string -> bool)
    requires CronFacts(cronValid)
    ensures ValidateCreate(InvalidSchedule.(spec := InvalidSchedule.spec.(sql := Some("foo"))), cronValid) ==
            Fail({InvalidCron("foo")})
  {
    var job := InvalidSchedule.(spec := InvalidSchedule.spec.(sql := Some("foo")));
    assert CreateViolations(job, cronValid) == {InvalidCron("foo")};
  }

  // ---- update rows ----

  /** One field assignment of a row's patch function. */
  datatype Assign =
    | SetBackoffLimit(limit: int)
    | SetRestartPolicy(policy: string)
    | SetResources(resources: Option<ResourceRequirements>)
    | SetMariaDBRefName(name: string)
    | SetUsername(username: string)
    | SetPasswordSecretKeyRefName(name: string)
    | SetDatabase(database: Option<string>)
    | SetDependsOn(dependsOn: seq<string>)
    | SetSql(sql: Option<string>)
    | SetSqlConfigMapKeyRef(ref: Option<KeySelector>)
    | SetSchedule(schedule: Option<Schedule>)

  /** The field an assignment writes. */
  function Target(a: Assign): SpecField {
    match a
    case SetBackoffLimit(_) => BackoffLimitField
    case SetRestartPolicy(_) => RestartPolicyField
    case SetResources(_) => ResourcesField
    case SetMariaDBRefName(_) => MariaDbRefField
    case SetUsername(_) => UsernameField
    case SetPasswordSecretKeyRefName(_) => PasswordSecretKeyRefField
    case SetDatabase(_) => DatabaseField
    case SetDependsOn(_) => DependsOnField
    case SetSql(_) => SqlField
    case SetSqlConfigMapKeyRef(_) => SqlConfigMapKeyRefField
    case SetSchedule(_) => ScheduleField
  }

  /** Performs one assignment: its target receives the assigned value and
      every other field is left alone. */
  function ApplyAssign(s: SqlJobSpec, a: Assign): (r: SqlJobSpec)
    ensures a.SetBackoffLimit? ==> r.backoffLimit == a.limit
    ensures a.SetRestartPolicy? ==> r.restartPolicy == a.policy
    ensures a.SetResources? ==> r.resources == a.resources
    ensures a.SetMariaDBRefName? ==> r.mariaDbRef == s.mariaDbRef.(name := a.name)
    ensures a.SetUsername? ==> r.username == a.username
    ensures a.SetPasswordSecretKeyRefName? ==>
      r.passwordSecretKeyRef == s.passwordSecretKeyRef.(name := a.name)
    ensures a.SetDatabase? ==> r.database == a.database
    ensures a.SetDependsOn? ==> r.dependsOn == a.dependsOn
    ensures a.SetSql? ==> r.sql == a.sql
    ensures a.SetSqlConfigMapKeyRef? ==> r.sqlConfigMapKeyRef == a.ref
    ensures a.SetSchedule? ==> r.schedule == a.schedule
    ensures forall f :: f != Target(a) ==> SameField(r, s, f)
  {
    match a
    case SetBackoffLimit(n) => s.(backoffLimit := n)
    case SetRestartPolicy(p) => s.(restartPolicy := p)
    case SetResources(res) => s.(resources := res)
    case SetMariaDBRefName(n) => s.(mariaDbRef := s.mariaDbRef.(name := n))
    case SetUsername(u) => s.(username := u)
    case SetPasswordSecretKeyRefName(n) => s.(passwordSecretKeyRef := s.passwordSecretKeyRef.(name := n))
    case SetDatabase(d) => s.(database := d)
    case SetDependsOn(d) => s.(dependsOn := d)
    case SetSql(q) => s.(sql := q)
    case SetSqlConfigMapKeyRef(ref) => s.(sqlConfigMapKeyRef := ref)
    case SetSchedule(sch) => s.(schedule := sch)
  }

  /** A row's patch: its assignments in order. */
  type Patch = seq<Assign>

  function ApplyPatch(s: SqlJobSpec, p: Patch): SqlJobSpec
    decreases |p|
  {
    if |p| == 0 then s else ApplyPatch(ApplyAssign(s, p[0]), p[1..])
  }

  /** A single assignment to an immutable field that changes the spec is
      rejected, naming that field. */
  lemma ImmutableAssignRejected(job: SqlJob, a: Assign, cronValid: string -> bool)
    requires IsImmutable(Target(a))
    requires ApplyAssign(job.spec, a) != job.spec
    ensures var r := ValidateUpdate(job, job.(spec := ApplyAssign(job.spec, a)), cronValid);
      r.Fail? && ImmutableChanged(Target(a)) in r.error
  {
  }

  /** The stored object after replaying patches, and each patch's verdict. */
  datatype Replayed = Replayed(stored: SqlJob, verdicts: seq<bool>)

  /** Re-read the stored job, apply the row's patch, and keep the result only
      if ValidateUpdate admits it (Admits is its verdict, by its contract).
      `Replay` below is this fold together with the invariants it keeps. */
  function Fold(stored: SqlJob, patches: seq<Patch>, cronValid: string -> bool): Replayed
    decreases |patches|
  {
    if |patches| == 0 then Replayed(stored, [])
    else
      var candidate := stored.(spec := ApplyPatch(stored.spec, patches[0]));
      var admitted := Admits(stored, candidate, cronValid);
      var rest := Fold(if admitted then candidate else stored, patches[1..], cronValid);
      Replayed(rest.stored, [admitted] + rest.verdicts)
  }

  /** The invariants of the fold, by induction over the patches. */
  lemma {:induction false} FoldInvariants(stored: SqlJob, patches: seq<Patch>, cronValid: string -> bool)
    ensures var r := Fold(stored, patches, cronValid);
      && |r.verdicts| == |patches|
      && r.stored.meta == stored.meta
      && Identity(r.stored.spec) == Identity(stored.spec)
      && (r.stored == stored || (HasSqlSource(r.stored.spec) && ScheduleValid(r.stored.spec, cronValid)))
      && (true !in r.verdicts ==> r.stored == stored)
    decreases |patches|
  {
    if |patches| > 0 {
      var candidate := stored.(spec := ApplyPatch(stored.spec, patches[0]));
      var admitted := Admits(stored, candidate, cronValid);
      FoldInvariants(if admitted then candidate else stored, patches[1..], cronValid);
    }
  }

  /** The fold of `a + b` continues the fold of `a` with `b`. */
  lemma {:induction false} FoldAppend(stored: SqlJob, a: seq<Patch>, b: seq<Patch>, cronValid: string -> bool)
    ensures var ra := Fold(stored, a, cronValid);
      var rb := Fold(ra.stored, b, cronValid);
      Fold(stored, a + b, cronValid) == Replayed(rb.stored, ra.verdicts + rb.verdicts)
    decreases |a|
  {
    if |a| == 0 {
      assert a + b == b;
    } else {
      var candidate := stored.(spec := ApplyPatch(stored.spec, a[0]));
      var admitted := Admits(stored, candidate, cronValid);
      var next := if admitted then candidate else stored;
      assert (a + b)[0] == a[0];
      assert (a + b)[1..] == a[1..] + b;
      FoldAppend(next, a[1..], b, cronValid);
      var ra' := Fold(next, a[1..], cronValid);
      var rb := Fold(ra'.stored, b, cronValid);
      assert [admitted] + (ra'.verdicts + rb.verdicts) == ([admitted] + ra'.verdicts) + rb.verdicts;
    }
  }

  /** The replay of the update test: the fold, with what it keeps. */
  function Replay(stored: SqlJob, patches: seq<Patch>, cronValid: string -> bool): (r: Replayed)
    ensures |r.verdicts| == |patches|
    ensures r.stored.meta == stored.meta
    // Admitted updates never move an immutable field.
    ensures Identity(r.stored.spec) == Identity(stored.spec)
    // The stored job only ever changes to a job that meets the spec rules.
    ensures r.stored == stored || (HasSqlSource(r.stored.spec) && ScheduleValid(r.stored.spec, cronValid))
    // When every row is rejected, nothing changes.
    ensures true !in r.verdicts ==> r.stored == stored
  {
    FoldInvariants(stored, patches, cronValid);
    Fold(stored, patches, cronValid)
  }

  const UpdateMeta := ObjectMeta("sqljob-webhook", "test")

  /** The job the update test creates before patching it. */
  const UpdateSeed := SqlJob(UpdateMeta, SqlJobSpec(
    mariaDbRef := MariaDBRef("mariadb-webhook", true),
    schedule := None,
    username := "test",
    passwordSecretKeyRef := KeySelector("test", "test"),
    database := Some("test"),
    dependsOn := ["sqljob-webhook"],
    sql := Some("CREATE TABLE IF NOT EXISTS users (...);"),
    sqlConfigMapKeyRef := None,
    backoffLimit := 0,
    restartPolicy := "",
    resources := None))

  /** The first update row: a new backoff limit. */
  const BackoffLimitRow: Patch := [SetBackoffLimit(20)]

  /** The update rows that each change one immutable field. */
  const ImmutableRows: seq<Patch> := [
    [SetRestartPolicy("Never")],
    [SetResources(Some(ResourceRequirements(map["cpu" := "200m"], map[])))],
    [SetMariaDBRefName("another-mariadb")],
    [SetUsername("foo")],
    [SetPasswordSecretKeyRefName("foo")],
    [SetDatabase(Some("foo"))],
    [SetDependsOn([])],
    [SetSql(Some("foo"))]
  ]

  /** The rows after them: the ConfigMap reference, a valid and an invalid
      schedule, and removing both SQL sources. */
  const SourceAndScheduleRows: seq<Patch> := [
    [SetSqlConfigMapKeyRef(Some(KeySelector("foo", "")))],
    [SetSchedule(Some(Schedule("*/1 * * * *", false)))],
    [SetSchedule(Some(Schedule("foo", false)))],
    [SetSql(None), SetSqlConfigMapKeyRef(None)]
  ]

  /** The update rows, in order. */
  const UpdateRows: seq<Patch> := [BackoffLimitRow] + (ImmutableRows + SourceAndScheduleRows)

  /** The update test's expected verdicts: the backoff limit admitted, the
      eight immutable-field changes rejected, the ConfigMap reference and the
      valid schedule admitted, the invalid schedule and the removal of both
      SQL sources rejected. */
  const UpdateExpected: seq<bool> := [true] + (Rejections(8) + [true, true, false, false])

  /** The creation the update test starts from is admitted, although the job
      lists itself in `dependsOn`. */
  lemma UpdateSeedAdmitted(cronValid: string -> bool)
    ensures UpdateSeed.meta.name in UpdateSeed.spec.dependsOn
    ensures ValidateCreate(UpdateSeed, cronValid) == Pass
  {
  }

  /** The stored job after the backoff-limit row, the ConfigMap row and the
      schedule row were admitted. */
  const AfterBackoffLimit := UpdateSeed.(spec := UpdateSeed.spec.(backoffLimit := 20))
  const AfterConfigMapRef :=
    AfterBackoffLimit.(spec := AfterBackoffLimit.spec.(sqlConfigMapKeyRef := Some(KeySelector("foo", ""))))
  const AfterSchedule :=
    AfterConfigMapRef.(spec := AfterConfigMapRef.spec.(schedule := Some(Schedule("*/1 * * * *", false))))

  /** Replaying a non-empty list of patches judges the first against the
      stored job and continues from whatever is stored afterwards. */
  lemma ReplayFirst(stored: SqlJob, patches: seq<Patch>, cronValid: string -> bool, admitted: bool, next: SqlJob)
    requires |patches| >= 1
    requires var candidate := stored.(spec := ApplyPatch(stored.spec, patches[0]));
      admitted == Admits(stored, candidate, cronValid) &&
      next == (if admitted then candidate else stored)
    ensures Replay(stored, patches, cronValid).verdicts ==
      [admitted] + Replay(next, patches[1..], cronValid).verdicts
    ensures Replay(stored, patches, cronValid).stored == Replay(next, patches[1..], cronValid).stored
  {
  }

  /** Replaying `a` and then `b` is replaying `a + b`. */
  lemma ReplayAppend(stored: SqlJob, a: seq<Patch>, b: seq<Patch>, cronValid: string -> bool)
    ensures var ra := Replay(stored, a, cronValid);
      var rb := Replay(ra.stored, b, cronValid);
      Replay(stored, a + b, cronValid) == Replayed(rb.stored, ra.verdicts + rb.verdicts)
  {
    FoldAppend(stored, a, b, cronValid);
  }

  /** `n` rejections. */
  function Rejections(n: nat): (r: seq<bool>)
    ensures |r| == n && true !in r
  {
    if n == 0 then [] else [false] + Rejections(n - 1)
  }

  /** The row is one assignment to an immutable field that changes its value. */
  predicate ChangesImmutable(job: SqlJob, row: Patch) {
    |row| == 1 && IsImmutable(Target(row[0])) && ApplyAssign(job.spec, row[0]) != job.spec
  }

  /** Every row assigns one immutable field of `job` a new value. */
  predicate EachChangesImmutable(job: SqlJob, rows: seq<Patch>)
    decreases |rows|
  {
    |rows| == 0 || (ChangesImmutable(job, rows[0]) && EachChangesImmutable(job, rows[1..]))
  }

  /** Every row changing an immutable field makes the whole run one. */
  lemma {:induction false} EachChangesImmutableFromAll(job: SqlJob, rows: seq<Patch>)
    requires forall i :: 0 <= i < |rows| ==> ChangesImmutable(job, rows[i])
    ensures EachChangesImmutable(job, rows)
    decreases |rows|
  {
    if |rows| > 0 {
      EachChangesImmutableFromAll(job, rows[1..]);
    }
  }

  /** A run of rows that each assign one immutable field a new value is
      rejected row by row and leaves the stored job as it was. */
  lemma {:induction false} ImmutableRowsRejected(job: SqlJob, rows: seq<Patch>, cronValid: string -> bool)
    requires EachChangesImmutable(job, rows)
    ensures Replay(job, rows, cronValid) == Replayed(job, Rejections(|rows|))
    decreases |rows|
  {
    if |rows| > 0 {
      var row := rows[0];
      assert ChangesImmutable(job, row) && EachChangesImmutable(job, rows[1..]);
      var candidate := job.(spec := ApplyPatch(job.spec, row));
      assert |row| == 1 && row[1..] == [];
      assert ApplyPatch(ApplyAssign(job.spec, row[0]), row[1..]) == ApplyAssign(job.spec, row[0]);
      assert candidate.spec == ApplyAssign(job.spec, row[0]);
      ImmutableAssignRejected(job, row[0], cronValid);
      assert !Admits(job, candidate, cronValid);
      ReplayFirst(job, rows, cronValid, false, job);
      ImmutableRowsRejected(job, rows[1..], cronValid);
    }
  }

  /** The last four rows, judged against the job with backoff limit 20. */
  lemma SourceAndScheduleVerdicts(cronValid: string -> bool)
    requires CronFacts(cronValid)
    ensures Replay(AfterBackoffLimit, SourceAndScheduleRows, cronValid) ==
      Replayed(AfterSchedule, [true, true, false, false])
  {
    var rows := SourceAndScheduleRows;
    assert ApplyPatch(AfterBackoffLimit.spec, rows[0]) == AfterConfigMapRef.spec;
    ReplayFirst(AfterBackoffLimit, rows, cronValid, true, AfterConfigMapRef);
    var rows1 := rows[1..];
    assert ApplyPatch(AfterConfigMapRef.spec, rows1[0]) == AfterSchedule.spec;
    ReplayFirst(AfterConfigMapRef, rows1, cronValid, true, AfterSchedule);
    var rows2 := rows1[1..];
    var badCron := AfterSchedule.(spec := AfterSchedule.spec.(schedule := Some(Schedule("foo", false))));
    assert ApplyPatch(AfterSchedule.spec, rows2[0]) == badCron.spec;
    ReplayFirst(AfterSchedule, rows2, cronValid, false, AfterSchedule);
    var rows3 := rows2[1..];
    var noSql := AfterSchedule.(spec := AfterSchedule.spec.(sql := None, sqlConfigMapKeyRef := None));
    assert ApplyPatch(AfterSchedule.spec, rows3[0]) == noSql.spec;
    ReplayFirst(AfterSchedule, rows3, cronValid, false, AfterSchedule);
    assert rows3[1..] == [];
  }

  /** The eight immutable-field rows, judged against the job with backoff
      limit 20, are all rejected. */
  lemma ImmutableRowsVerdicts(cronValid: string -> bool)
    ensures Replay(AfterBackoffLimit, ImmutableRows, cronValid) ==
      Replayed(AfterBackoffLimit, Rejections(8))
  {
    var j := AfterBackoffLimit;
    var rows := ImmutableRows;
    forall i | 0 <= i < |rows|
      ensures ChangesImmutable(j, rows[i])
    {
    }
    EachChangesImmutableFromAll(j, rows);
    ImmutableRowsRejected(j, rows, cronValid);
  }

  /** The update rows get the verdicts the test expects, and the job finally
      stored carries the ConfigMap reference and the valid schedule. */
  lemma UpdateTableVerdicts(cronValid: string -> bool)
    requires CronFacts(cronValid)
    ensures Replay(UpdateSeed, UpdateRows, cronValid).verdicts == UpdateExpected
    ensures Replay(UpdateSeed, UpdateRows, cronValid).stored == AfterSchedule
  {
    var first: seq<Patch> := [BackoffLimitRow];
    assert ApplyPatch(UpdateSeed.spec, first[0]) == AfterBackoffLimit.spec;
    ReplayFirst(UpdateSeed, first, cronValid, true, AfterBackoffLimit);
    assert Replay(UpdateSeed, first, cronValid) == Replayed(AfterBackoffLimit, [true]);
    ImmutableRowsVerdicts(cronValid);
    SourceAndScheduleVerdicts(cronValid);
    ReplayAppend(AfterBackoffLimit, ImmutableRows, SourceAndScheduleRows, cronValid);
    ReplayAppend(UpdateSeed, first, ImmutableRows + SourceAndScheduleRows, cronValid);
  }

  /** With the concrete five-field cron check, both tables get their
      expected verdicts. */
  lemma TablesHoldWithStandardCron()
    ensures ValidateCreate(NoSql, Cron.StandardValid).Fail?
    ensures ValidateCreate(InvalidSchedule, Cron.StandardValid).Fail?
    ensures ValidateCreate(ValidJob, Cron.StandardValid) == Pass
    ensures ValidateCreate(ValidJobWithSchedule, Cron.StandardValid) == Pass
    ensures Replay(UpdateSeed, UpdateRows, Cron.StandardValid).verdicts == UpdateExpected
  {
    StandardCronMeetsFacts();
    CreateTableVerdicts(Cron.StandardValid);
    UpdateTableVerdicts(Cron.StandardValid);
  }
}
