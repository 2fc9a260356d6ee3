/** Admission rules for SqlJob creation and update. The webhook's own source
    is not part of this model; the rules are those its test pins down, row by
    row. Cron syntax is a parameter `cronValid`, standing for the cron parser
    library the webhook calls. */
module SqlJobWebhook {
  import opened Wrappers
  import opened SqlJobApi

  /** One reason to reject a SqlJob. */
  datatype Violation =
    | ImmutableChanged(field: SpecField)
    | MissingSql
    | InvalidCron(expr: string)

  /** Every spec field, for enumerating the immutable ones. */
  const AllFields: set<SpecField> := {
    MariaDbRefField, ScheduleField, UsernameField, PasswordSecretKeyRefField,
    DatabaseField, DependsOnField, SqlField, SqlConfigMapKeyRefField,
    BackoffLimitField, RestartPolicyField, ResourcesField }

  lemma AllFieldsComplete(f: SpecField)
    ensures f in AllFields
  {
  }

  /** At least one SQL source: inline SQL or a ConfigMap key. */
  predicate HasSqlSource(s: SqlJobSpec) {
    s.sql.Some? || s.sqlConfigMapKeyRef.Some?
  }

  /** A schedule, when there is one, carries a valid cron expression. */
  predicate ScheduleValid(s: SqlJobSpec, cronValid: string -> bool) {
    s.schedule.Some? ==> cronValid(s.schedule.value.cron)
  }

  /** The rules every stored spec must meet, on creation and after updates. */
  function SpecViolations(s: SqlJobSpec, cronValid: string -> bool): (r: set<Violation>)
    ensures MissingSql in r <==> !HasSqlSource(s)
    ensures forall e :: InvalidCron(e) in r <==>
      s.schedule.Some? && s.schedule.value.cron == e && !cronValid(e)
    ensures forall f :: ImmutableChanged(f) !in r
    ensures r == {} <==> HasSqlSource(s) && ScheduleValid(s, cronValid)
  {
    (if HasSqlSource(s) then {} else {MissingSql}) +
    (if ScheduleValid(s, cronValid) then {} else {InvalidCron(s.schedule.value.cron)})
  }

  /** The immutable fields an update changes. */
  function ImmutableViolations(stored: SqlJobSpec, updated: SqlJobSpec): (r: set<Violation>)
    ensures forall f :: ImmutableChanged(f) in r <==> IsImmutable(f) && !SameField(stored, updated, f)
    ensures MissingSql !in r && forall e :: InvalidCron(e) !in r
    ensures r == {} <==> Identity(stored) == Identity(updated)
  {
    var r := set f | f in AllFields && IsImmutable(f) && !SameField(stored, updated, f) :: ImmutableChanged(f);
    assert forall f :: ImmutableChanged(f) in r <==> IsImmutable(f) && !SameField(stored, updated, f) by {
      forall f ensures ImmutableChanged(f) in r <==> IsImmutable(f) && !SameField(stored, updated, f) {
        AllFieldsComplete(f);
      }
    }
    assert r == {} <==> Identity(stored) == Identity(updated) by {
      IdentityCharacterizesImmutable(stored, updated);
      if r == {} {
        forall f | IsImmutable(f) ensures SameField(stored, updated, f) {
          assert ImmutableChanged(f) !in r;
        }
      }
    }
    r
  }

  /** Everything wrong with creating `job`. */
  function CreateViolations(job: SqlJob, cronValid: string -> bool): set<Violation> {
    SpecViolations(job.spec, cronValid)
  }

  /** Everything wrong with replacing the stored `stored` by `updated`. */
  function UpdateViolations(stored: SqlJob, updated: SqlJob, cronValid: string -> bool): set<Violation> {
    ImmutableViolations(stored.spec, updated.spec) + SpecViolations(updated.spec, cronValid)
  }

  /** The create admission verdict: allowed exactly when a SQL source is set
      and any schedule parses; the violations name every rule broken. */
  function ValidateCreate(job: SqlJob, cronValid: string -> bool): (r: Outcome<set<Violation>>)
    ensures r.Pass? <==> HasSqlSource(job.spec) && ScheduleValid(job.spec, cronValid)
    ensures r.Fail? ==> r.error != {} && r.error == CreateViolations(job, cronValid)
  {
    var v := CreateViolations(job, cronValid);
    if v == {} then Pass else Fail(v)
  }

  /** The update admission verdict against the stored `stored`: allowed exactly
      when no immutable field changes, a SQL source is still set and any
      schedule parses. */
  function ValidateUpdate(stored: SqlJob, updated: SqlJob, cronValid: string -> bool): (r: Outcome<set<Violation>>)
    ensures r.Pass? <==> Admits(stored, updated, cronValid)
    ensures r.Fail? ==> r.error != {} && r.error == UpdateViolations(stored, updated, cronValid)
    ensures forall f :: IsImmutable(f) && !SameField(stored.spec, updated.spec, f) ==>
      r.Fail? && ImmutableChanged(f) in r.error
  {
    var v := UpdateViolations(stored, updated, cronValid);
    if v == {} then Pass else Fail(v)
  }

  /** Whether the update of `stored` to `updated` is admitted, as a plain
      predicate. */
  predicate Admits(stored: SqlJob, updated: SqlJob, cronValid: string -> bool) {
    Identity(stored.spec) == Identity(updated.spec) && HasSqlSource(updated.spec) &&
    ScheduleValid(updated.spec, cronValid)
  }

  /** An update that changes nothing is judged like a creation: a no-op
      patch of an admitted job is always allowed. */
  lemma NoOpUpdateIsCreate(job: SqlJob, cronValid: string -> bool)
    ensures ValidateUpdate(job, job, cronValid) == ValidateCreate(job, cronValid)
  {
    assert ImmutableViolations(job.spec, job.spec) == {};
    assert UpdateViolations(job, job, cronValid) == CreateViolations(job, cronValid);
  }

  /** Changing only mutable fields of an admitted job is allowed, as long as a
      SQL source remains and the updated schedule parses. */
  lemma MutableChangesAllowed(job: SqlJob, schedule: Option<Schedule>, ref: Option<KeySelector>,
                              backoffLimit: int, cronValid: string -> bool)
    requires job.spec.sql.Some? || ref.Some?
    requires schedule.Some? ==> cronValid(schedule.value.cron)
    ensures ValidateUpdate(job, job.(spec := job.spec.(schedule := schedule, sqlConfigMapKeyRef := ref,
                                                   backoffLimit := backoffLimit)), cronValid).Pass?
  {
  }

  /** Creation does not look at `dependsOn`: a job that depends on itself is
      admitted like any other. */
  lemma CreateIgnoresDependsOn(job: SqlJob, dependsOn: seq<string>, cronValid: string -> bool)
    ensures ValidateCreate(job.(spec := job.spec.(dependsOn := dependsOn)), cronValid) ==
            ValidateCreate(job, cronValid)
  {
  }
}
