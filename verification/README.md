# mariadb-operator core, modelled in Dafny

This project models three small pieces of the MariaDB operator for Kubernetes
and proves properties of them:

- **The Galera readiness pass** (`GaleraReconciler.Reconcile`). When Galera is
  configured and no backup restore is in progress, the pass runs Galera
  recovery if the Galera-ready condition is explicitly False. It then reads
  the MariaDB's stateful set. When the condition is not yet True and every
  desired replica is ready, it disables bootstrap and patches the status to
  Galera-ready. The pass is a pure function `GaleraController.Reconcile` of the
  MariaDB object and of *oracles*: the answers the outward calls would give
  (recovery, the stateful-set read, disabling bootstrap, the status patch). It
  returns the error, the calls it made in order, and the object as stored
  afterwards. The condition helpers of the `conditions` package and of the
  MariaDB type are not part of this model. `MariaDBApi` states the meaning
  assumed for them. Conditions are a map from condition type to
  True/False/Unknown, and a type that is not a key is absent. "Not ready"
  means the Galera-ready entry is explicitly False. "Ready" means it is True.
  Setting ready writes True into that one entry. "Restoring a backup" means the
  restoring-backup entry is True.
- **SqlJob admission rules.** The webhook's own source is not part of this
  model. Its test fixes the verdicts row by row, and `SqlJobWebhook` states
  rules that give every row its expected verdict:
  - a SQL source must be set, either inline `sql` or `sqlConfigMapKeyRef`;
  - a schedule's cron expression must parse;
  - on update, `mariaDbRef`, `username`, `passwordSecretKeyRef`, `database`,
    `dependsOn`, `sql`, `restartPolicy` and `resources` must not change, while
    `schedule`, `sqlConfigMapKeyRef` and `backoffLimit` may.

  Cron syntax is a parameter `cronValid: string -> bool`. The tables need only
  two facts about it: `*/1 * * * *` is valid and `foo` is not. `Cron.StandardValid`
  is one concrete check that meets both facts. It follows the five-field entry
  format of the POSIX `crontab` utility, plus the common `/step` suffix.
  `SqlJobWebhookTable` holds the test's rows as data. It replays the update
  rows the way the test runs them: each row's patch is applied to the last
  version the API server accepted.
- **Command strings** (`pkg/command`). `ExecCommand` joins statements with `;`
  and runs them with `bash -c`. `ConnectionFlags` renders the MariaDB client
  flags. `Strings` models what these use from Go's library: `strings.Join`
  and the `%d` verb of `fmt.Sprintf`. `Strings.Split` is not used by the
  source. It is a reference inverse of `Join`, modelled on Go's
  `strings.Split` with a one-character separator, and it serves to state
  the round trips.
  The MariaDB service host, `client.Host(mariadb)`, is computed by code
  outside this model, so it is passed in as a string.

Two choices follow the source and its test where a reader might expect otherwise:

- A job needs at least one SQL source, on both creation and update. The
  update rows at `api/v1alpha1/sqljob_webhook_test.go:263-283` admit a job
  that holds both an inline `sql` and a `sqlConfigMapKeyRef`, so "exactly
  one" would contradict the test. No creation row sets both sources.
- `disableBootstrap` is one fallible step given by an oracle. The TODO at
  `pkg/controller/galera/controller.go:72-73` plans a request to every
  agent, but the body at line 75 returns nil. That stub is the case where
  the oracle answers `Pass`.

## Model

| member | source | states |
|---|---|---|
| `GaleraController.Reconcile` | pkg/controller/galera/controller.go:36-59 | Without Galera, or while a backup is restored, nothing is called and nothing changes. Calls happen at most once each, in the order recovery, stateful-set read, disable bootstrap, status patch. Recovery runs exactly when the condition is explicitly False, and its error ends the pass. A failed stateful-set read is returned with no status change. Bootstrap is disabled exactly when the condition is not True and ready replicas equal desired replicas. A failed disable is returned without a patch. The patch comes only after a successful disable. Any error leaves the stored object unchanged. |
| `GaleraController.ApplyReadyPatch` | pkg/controller/galera/controller.go:78-83 | A successful patch stores the status with Galera-ready True and every other condition entry as it was, and leaves name and spec alone. A failed patch stores nothing. |
| `MariaDBApi.IsRestoringBackup` | pkg/controller/galera/controller.go:37 | Assumed meaning of the helper, whose body is outside this model: a restore is in progress exactly when the RestoringBackup condition entry is True. |
| `MariaDBApi.HasGaleraNotReadyCondition` | pkg/controller/galera/controller.go:40 | Assumed meaning of the helper: the Galera-ready entry is explicitly False. An absent or Unknown entry does not trigger recovery. |
| `MariaDBApi.HasGaleraReadyCondition` | pkg/controller/galera/controller.go:50 | Assumed meaning of the helper: the Galera-ready entry is True. An absent, Unknown or False entry lets the pass flip it. |
| `MariaDBApi.SetGaleraReady` | pkg/controller/galera/controller.go:54-56 | Assumed meaning of the patcher: Galera-ready becomes True and every other condition entry keeps its value. |
| `GaleraController.RunPasses` | pkg/controller/galera/controller.go:36-59 | Over any number of passes, the spec and every condition other than Galera-ready stay the same. Galera-ready can only change to True, and once it is True nothing changes any more. |
| `GaleraController.NotReadyRecoversInOnePass` | pkg/controller/galera/controller.go:40-57 | Starting from explicit not-ready, with successful recovery, full replicas, and successful disable and patch, the pass makes all four calls and ends with the condition True. |
| `GaleraController.SecondPassAfterReadyIsNoOp` | pkg/controller/galera/controller.go:50-58 | After a pass flipped the condition to True, the next pass only reads the stateful set. It writes nothing and fails only if that read fails. |
| `Command.ExecCommand` | pkg/command/command.go:22-27 | The command is exactly `bash -c`, with a single argument. No arguments give the empty script. One argument is passed through unchanged. The script starts with the first argument and ends with the last. |
| `Command.ExecCommandRecoversArgs` | pkg/command/command.go:25 | Splitting the script on `;` gives back the arguments, when there is at least one and none contains `;`. |
| `Command.ConnectionFlags` | pkg/command/command.go:29-41 | Without a database the result is exactly the user, password, host and port flags. With a database it is that string followed by ` --database=` and the name, so the no-database string is always a prefix. |
| `Command.ConnectionFlagsReadsOnlyPort` | pkg/command/command.go:29-41 | Two MariaDB objects with the same port give the same flags, for the same options and host. |
| `Command.NoDatabaseFlagsIsJoin` | pkg/command/command.go:30-36 | The no-database string is the four flags `--user=${U}`, `--password=${P}`, `--host=H` and `--port=N`, joined by single spaces. |
| `Command.ConnectionFlagsIsJoin` | pkg/command/command.go:29-41 | The flag string is its flags joined by single spaces, with the database flag last and only when a database is given. |
| `Command.ConnectionFlagsTokens` | pkg/command/command.go:29-41 | When no value contains a space, splitting the flags on spaces gives exactly one `--name=value` token per flag, in order. |
| `Strings.Join` | pkg/command/command.go:25 | Joining no strings gives the empty string, and joining one string gives it unchanged. |
| `Strings.JoinEnds` | pkg/command/command.go:25 | The join starts with the first element and ends with the last: no separator is added before or after. |
| `Strings.JoinLength` | pkg/command/command.go:25 | The join holds every element once and one separator fewer than there are elements. |
| `Strings.SplitJoin` | pkg/command/command.go:25 | With the reference split as its inverse: splitting a join on its separator gives back the joined list, when the list is not empty and no element contains the separator. |
| `Strings.JoinSplit` | pkg/command/command.go:25 | With the reference split as its inverse: joining the pieces of any split with the same separator gives back the original string. |
| `Strings.IntToString` | pkg/command/command.go:35 | The `%d` rendering of the port: the digits of non-negative values, and a minus sign before the digits of the magnitude for negative values. |
| `Strings.IntToStringRoundTrip` | pkg/command/command.go:35 | Parsing the rendered port gives back its value, and the rendering contains no space. |
| `SqlJobApi.Identity` | api/v1alpha1/sqljob_webhook_test.go:191-262 | Erasing the mutable fields keeps every immutable field as it was. |
| `SqlJobApi.IdentityCharacterizesImmutable` | api/v1alpha1/sqljob_webhook_test.go:196-283 | Two specs agree on every immutable field exactly when their identities are equal. |
| `SqlJobWebhook.SpecViolations` | api/v1alpha1/sqljob_webhook_test.go:42-133 | A missing SQL source is reported exactly when neither source is set. An invalid cron is reported exactly for a present schedule whose expression does not parse. A spec has no violations exactly when both rules hold. |
| `SqlJobWebhook.ImmutableViolations` | api/v1alpha1/sqljob_webhook_test.go:203-262 | Every immutable field the update changes is reported, and nothing else. There are none exactly when the identities agree. |
| `SqlJobWebhook.ValidateCreate` | api/v1alpha1/sqljob_webhook_test.go:37-145 | Creation is admitted exactly when a SQL source is set and any schedule parses. A rejection names a non-empty set of violations. |
| `SqlJobWebhook.ValidateUpdate` | api/v1alpha1/sqljob_webhook_test.go:191-317 | An update is admitted exactly when no immutable field changes, a SQL source is still set and any schedule parses. Changing an immutable field always rejects the update and names that field. |
| `SqlJobWebhook.NoOpUpdateIsCreate` | api/v1alpha1/sqljob_webhook_test.go:304-317 | An update that changes nothing gets the creation verdict, so a no-op patch of an admitted job is allowed. |
| `SqlJobWebhook.MutableChangesAllowed` | api/v1alpha1/sqljob_webhook_test.go:196-283 | Changing only the backoff limit, the schedule and the ConfigMap reference is admitted, provided a SQL source remains and the schedule parses. |
| `SqlJobWebhook.CreateIgnoresDependsOn` | api/v1alpha1/sqljob_webhook_test.go:152-189 | The creation verdict does not depend on `dependsOn`. No cycle or self-reference check exists. |
| `SqlJobWebhookTable.CreateTableVerdicts` | api/v1alpha1/sqljob_webhook_test.go:37-145 | The row with no SQL and the row with an invalid schedule are rejected. Each rejection names exactly the violations it has. Inline SQL with no schedule, and inline SQL with `*/1 * * * *`, are admitted. |
| `SqlJobWebhookTable.InvalidCronAloneRejected` | api/v1alpha1/sqljob_webhook_test.go:63-86 | The invalid-schedule row with inline SQL added is still rejected, for its cron expression alone. |
| `SqlJobWebhookTable.ApplyAssign` | api/v1alpha1/sqljob_webhook_test.go:196-302 | A patch function's assignment gives its target field the assigned value (for a reference name, the reference with that name) and changes no other field. |
| `SqlJobWebhookTable.ImmutableAssignRejected` | api/v1alpha1/sqljob_webhook_test.go:203-262 | An assignment that gives an immutable field a new value is rejected, and the rejection names that field. |
| `SqlJobWebhookTable.FoldInvariants` | api/v1alpha1/sqljob_webhook_test.go:304-317 | By induction over the rows, the plain fold behind `Replay` keeps one verdict per row, the metadata and every immutable field. It moves the stored job only to a spec that meets the rules, and leaves the job alone when every row is rejected. |
| `SqlJobWebhookTable.FoldAppend` | api/v1alpha1/sqljob_webhook_test.go:304-317 | By induction over the first list, folding a concatenation continues the fold of the first list with the second. |
| `SqlJobWebhookTable.Replay` | api/v1alpha1/sqljob_webhook_test.go:304-317 | Judging each patch against the last accepted version gives one verdict per row. The stored job keeps its metadata and every immutable field. It only ever changes to a spec that meets the rules. When every row is rejected, it does not change. |
| `SqlJobWebhookTable.ReplayFirst` | api/v1alpha1/sqljob_webhook_test.go:304-317 | The first row is judged against the stored job, and the replay continues from the job stored after it. |
| `SqlJobWebhookTable.ReplayAppend` | api/v1alpha1/sqljob_webhook_test.go:304-317 | Replaying two lists of rows one after the other equals replaying them concatenated. |
| `SqlJobWebhookTable.ImmutableRowsRejected` | api/v1alpha1/sqljob_webhook_test.go:203-262 | A run of rows that each give one immutable field a new value is rejected row by row, and the stored job stays as it was. |
| `SqlJobWebhookTable.ImmutableRowsVerdicts` | api/v1alpha1/sqljob_webhook_test.go:203-262 | The restart-policy, resources, MariaDB-ref, username, password-secret, database, dependsOn and inline-SQL rows are all rejected. |
| `SqlJobWebhookTable.SourceAndScheduleVerdicts` | api/v1alpha1/sqljob_webhook_test.go:263-301 | Adding the ConfigMap reference is admitted, and so is the valid schedule, leaving both SQL sources set. The `foo` schedule is rejected, and so is clearing both sources. |
| `SqlJobWebhookTable.UpdateTableVerdicts` | api/v1alpha1/sqljob_webhook_test.go:191-317 | The thirteen update rows get the expected verdicts in order. The job finally stored has backoff limit 20, the ConfigMap reference and the valid schedule. |
| `SqlJobWebhookTable.UpdateSeedAdmitted` | api/v1alpha1/sqljob_webhook_test.go:152-189 | The job the update test creates lists itself in `dependsOn` and is admitted. |
| `SqlJobWebhookTable.StandardCronMeetsFacts` | api/v1alpha1/sqljob_webhook_test.go:119-121 | The concrete five-field check accepts `*/1 * * * *` and rejects `foo`. |
| `Cron.StandardValid` | api/v1alpha1/sqljob_webhook_test.go:73-75 | Assumed concrete cron check, standing in for the parser library: exactly five space-separated fields, each a comma list of `*`, a number or a range within the field's bounds, with an optional positive `/step`. |
| `Cron.StandardValidShape` | api/v1alpha1/sqljob_webhook_test.go:73-75 | An expression the concrete check accepts has exactly four spaces. |
| `Cron.StandardValidJoin` | api/v1alpha1/sqljob_webhook_test.go:73-75 | For space-free fields joined by single spaces, the concrete check accepts exactly when there are five fields and each is valid for its position. |
| `Cron.StandardValidExamples` | api/v1alpha1/sqljob_webhook_test.go:73-75 | `*/1 * * * *` has five valid fields, while `foo` is a single field. |
| `SqlJobWebhookTable.TablesHoldWithStandardCron` | api/v1alpha1/sqljob_webhook_test.go:37-317 | With the concrete cron check, every creation row and every update row gets its expected verdict. |

## Left out

- The body of `reconcileGaleraRecovery` is not part of this model. Recovery is an opaque fallible step given by an oracle. Selecting a bootstrap source among members is not modelled.
- `disableBootstrap` is an oracle. The source's stub always returns nil, which is the oracle answering `Pass`. The planned requests to every agent are not modelled.
- The Kubernetes client calls (`Get`, `Status().Patch`, `MergeFrom`/`DeepCopy`) become oracle results. `patchStatus` builds a plain merge patch with no resource version, so the patch never meets a conflict and nothing retries it. The merge patch replaces the whole `status.conditions` list with the copy that was read plus Galera-ready. An entry that another writer changed between the read and the patch would go back to its value as read. The model assumes a single writer, so the object read is the object stored, and the frame of `GaleraController.ApplyReadyPatch` and `GaleraController.RunPasses` (every other entry as it was) is relative to that object.
- The in-memory copy that `patchStatus` mutates before a failed write is not modelled. The model tracks only the stored object.
- Condition reasons, messages and transition timestamps are not modelled. Only each entry's status is kept.
- The reconciler's constructor and its builder, reference resolver, ConfigMap and Service reconcilers are not modelled. `Reconcile` does not use them.
- Logging and context are not modelled. Concurrency between reconcilers is not modelled either, because one pass is sequential.
- Replica counts, ports and backoff limits are 32-bit in the source and unbounded integers here. The model compares them and renders them in decimal, which gives the same answer for every value in the 32-bit range.
- The cron parser library becomes the `cronValid` parameter. `Cron.StandardValid` does not model several things the library accepts: `@`-descriptors, month and weekday names, `?`, and runs of whitespace between fields.
- Go strings are byte sequences, while Dafny strings are sequences of characters, so `Strings.JoinLength` counts characters. The two agree on the ASCII separators `;` and ` ` and on ASCII values.
- The SqlJob webhook's source is not part of this model. Its rules are read off the test's verdicts.
- `SqlJobWebhook.ValidateUpdate`: `sqlConfigMapKeyRef` is treated as freely changeable, because the test only shows adding it.
- `SqlJobWebhook.ValidateUpdate`: a field-qualified error message becomes the set of violations, with no message text.
- API-server schema validation and defaulting are not modelled, and neither is the test's namespace variable. The metadata uses a fixed namespace.
- The update test's inline SQL text is shortened. The only thing that matters about it is that it differs from `foo`.
- The SqlJob scheduler, the dependency gate and the cluster-readiness gate have no code here.
- `controllers/mariadb_controller_test.go` is an integration test that polls a live API server. It holds no decision logic.
