# Job registry of the cluster scheduler

This project models `registry/job.go`. That file is the layer of the scheduler that keeps jobs, job payloads and job
schedules in the hierarchical coordination store. The layout is:

    <prefix>/job/<name>/object    the encoded job
    <prefix>/job/<name>/target    the boot id of the machine the job is scheduled to
    <prefix>/payload/<name>       the encoded payload

The model has four parts:

- **Read operations.** `GetJob`, `GetPayload` and `GetJobTarget` are functions of the store's contents.
- **The `Registry` class.** Its fields are the store's contents: a map from leaf keys to values, and the order in which
  the store lists its keys.
  - Its write methods are `CreateJob`, `CreatePayload`, `DestroyPayload`, `ScheduleJob` and `StopJob`. Each states its
    whole new state and what stays unchanged.
  - Its listing loops are `GetAllPayloads`, `GetAllJobs` and `GetAllJobsByMachine`. Each is proved equal to a
    specification function, and lemmas state what those functions contain.
- **The three event filters.** Each is a total function from a store notification to an optional event.
- **Supporting modules.** They model Go's `path.Split`, `path.Base` and `strings.TrimSuffix`, the key schema, and a
  concrete JSON-like record codec whose round trip is proved.

The model follows the code where it differs from the registry's intended contract:

- `GetJob` and `GetPayload` ignore the unmarshal error. A stored value that does not decode therefore reads back as the
  zero-valued record, not as nil. `GetAllJobs` keeps such zero records in its result.
- `GetAllPayloads` checks the outer `err` after each unmarshal. That error is always nil at that point, so the loop never
  skips an entry: every child yields one payload, the zero payload when its value does not decode.

The key prefix is a parameter, given to the `Registry` constructor. It stands for `path.Clean(keyPrefix)`: the constant `keyPrefix` is defined in a file that is not part of this model, and `path.Join` cleans it, so a prefix written with a trailing slash gives the same keys as its cleaned form, which is what the constructor expects. The store client, the JSON library and logging are
replaced as listed under "Left out".

## Model

| member | source | states |
|---|---|---|
| Paths.Split | registry/job.go:192 | the directory and file parts concatenate back to the path; the file part has no slash; the directory part is empty or ends in a slash |
| Paths.Base | registry/job.go:172 | the last element is never empty, and has no slash once the path has a non-slash character |
| Paths.BaseOfChild | registry/job.go:198 | for a slash-free name appended to a directory, `Base` returns the name and `Split` returns the directory with its slash and the name |
| Paths.BaseMatchesSplit | registry/job.go:192-193 | when `Split` finds a non-empty file part, `Base` returns that same element |
| Paths.TrimSlash | registry/job.go:198 | definition: `strings.TrimSuffix(dir, "/")`, also at line 213; `Events.SplitTarget` states its result on a target key's directory |
| Paths.TrimTrailingSlashes | registry/job.go:172 | the result is a prefix of the input, with no trailing slash, and only slashes were removed |
| Codec.UnescapeEscape | registry/job.go:149 | reading back an escaped string up to its closing quote returns the string and the rest of the text |
| Codec.RecordRoundTrip | registry/job.go:149 | decoding an encoded record returns its name and body |
| Codec.EncodeJob | registry/job.go:149 | definition: `marshal` of a job; inverted by `DecodeJob` in `Codec.JobRoundTrip` |
| Codec.DecodeJob | registry/job.go:178 | definition: `unmarshal` into a job with its error kept, as the created-event filter checks it; inverts `EncodeJob` in `Codec.JobRoundTrip` |
| Codec.JobOrZero | registry/job.go:113-117 | definition: `unmarshal` with the error ignored, leaving the zero job on failure; its values are stated in `JobRegistry.GetJobDecoded` |
| Codec.EncodePayload | registry/job.go:122 | definition: `marshal` of a payload; inverted in `Codec.PayloadRoundTrip` |
| Codec.DecodePayload | registry/job.go:137 | definition: `unmarshal` into a payload; inverts `EncodePayload` in `Codec.PayloadRoundTrip` |
| Codec.PayloadOrZero | registry/job.go:135-139 | definition: `unmarshal` with the error ignored, leaving the zero payload on failure; its values are stated in `JobRegistry.GetPayloadDecoded` |
| Codec.JobRoundTrip | registry/job.go:147-151 | a job that is marshalled and then unmarshalled comes back unchanged, also when the error is ignored |
| Codec.PayloadRoundTrip | registry/job.go:120-124 | the same for a payload |
| Keys.JobsRoot | registry/job.go:53 | definition: the job directory `<prefix>/job`, as `path.Join` gives it for a prefix in clean form; listed by `GetAllJobs` and `GetAllJobsByMachine` |
| Keys.PayloadsRoot | registry/job.go:25 | definition: the payload directory `<prefix>/payload`; listed by `GetAllPayloads` |
| Keys.JobObjectKey | registry/job.go:105 | definition: `<prefix>/job/<name>/object`, shared by `GetJob` and `CreateJob` (line 148); properties in `Keys.KeysDisjoint` and `Keys.KeysInjective` |
| Keys.JobTargetKey | registry/job.go:95 | definition: `<prefix>/job/<name>/target`, shared by `GetJobTarget`, `ScheduleJob` and `StopJob` (lines 154, 159); properties in `Keys.KeysDisjoint` and `Keys.KeysInjective` |
| Keys.PayloadKey | registry/job.go:127 | definition: `<prefix>/payload/<name>`, shared by `GetPayload`, `CreatePayload` and `DestroyPayload` (lines 121, 143); properties in `Keys.KeysDisjoint` and `Keys.KeysInjective` |
| Keys.DotElementNotClean | registry/job.go:53 | a prefix that still holds a "." or ".." element, which `path.Join` would clean away, is not accepted as a clean prefix |
| Keys.DotPrefixesNotClean | registry/job.go:53 | five example prefixes: `/a/..`, `/a/.` and `/./b` are refused; `/a/..b` and `/.a`, whose elements only start with a dot, are accepted |
| Keys.KeysDisjoint | registry/job.go:148 | the keys as built here (plain concatenation, see the `path.Join` line under "Left out"): job object keys, job target keys and payload keys never collide, whatever the names |
| Keys.KeysInjective | registry/job.go:154 | the keys as built here: for each kind of key, distinct names give distinct keys |
| Keys.ClaimName | registry/job.go:164 | definition: the lock name `job-<name>` that `ClaimJob` formats; proved injective in `Keys.ClaimNameInjective` |
| Keys.ClaimNameInjective | registry/job.go:164 | the `job-<name>` lock name determines the job name |
| Store.Without | registry/job.go:160 | after a delete, the listing holds exactly the keys the delete spared, still each once |
| Store.Children | registry/job.go:61 | the children of a directory are distinct; every key below the directory contributes its child, and every child comes from such a key |
| Store.ChildrenSnoc | registry/job.go:155 | a key written for the first time adds its child at the end of the children, unless that child is already listed |
| Store.Get | registry/job.go:106 | definition: the store's non-recursive get, a map lookup that fails when the key is absent; what the registry reads through it is stated in `JobRegistry.GetJob`, `JobRegistry.GetPayload` and `JobRegistry.GetJobTarget` |
| Store.ChildOf | registry/job.go:61 | the child a key lies in is a non-empty, slash-free name |
| Store.List | registry/job.go:54 | definition: the recursive get of a directory, one node per child in listing order and a failure when there is none; its properties are in `Store.Children`, `Store.ListedNames` and `Store.ListedChild` |
| Store.ListedNames | registry/job.go:61-62 | each listed node is keyed by the directory, a slash and a non-empty, slash-free child name, and `path.Base` of the key gives that name back |
| Store.ListedChild | registry/job.go:61 | a child that some stored key lies in appears in the listing, keyed by the directory and that child |
| Wrappers.Somes | registry/job.go:61-63 | the non-nil results collected by the loop are exactly the values of the non-nil entries, and there are no more of them than entries |
| JobRegistry.GetJob | registry/job.go:104-118 | nil exactly when the job's object key is absent |
| JobRegistry.GetJobDecoded | registry/job.go:113-117 | a stored job reads back as its decoded value, and as the zero job, not nil, when it does not decode |
| JobRegistry.GetPayload | registry/job.go:126-140 | nil exactly when the payload key is absent |
| JobRegistry.GetPayloadDecoded | registry/job.go:135-139 | a stored payload reads back as its decoded value, and as the zero payload when it does not decode |
| JobRegistry.GetJobTarget | registry/job.go:93-102 | nil exactly when the target key is absent; otherwise the machine whose boot id is the stored value |
| JobRegistry.FilterTargeted | registry/job.go:81-88 | the filtered jobs are no more than the listed jobs and are drawn from them |
| JobRegistry.FilterTargetedMembers | registry/job.go:83-86 | a job is kept exactly when it is listed and its target exists with the machine's boot id |
| JobRegistry.FilterTargetedSnoc | registry/job.go:81-88 | one more listed job extends the result by that job exactly when it is scheduled to the machine |
| JobRegistry.FilterSomesSnoc | registry/job.go:81-88 | one more child node extends the result by its job when the lookup finds one scheduled to the machine, and by nothing otherwise |
| JobRegistry.SomesSnoc | registry/job.go:61-64 | one more child node extends the collected jobs by its job when the lookup finds one, and by nothing otherwise |
| JobRegistry.ListedJobNode | registry/job.go:61-62 | a job object stored under a valid name makes that name a listed child of the job directory |
| JobRegistry.StoredJobIsListed | registry/job.go:50-68 | whatever `GetJob` returns for a valid name is among the listed jobs |
| JobRegistry.UndecodableJobIsListed | registry/job.go:113-117 | a job object that does not decode is listed as the zero job |
| JobRegistry.ListedJobIsStored | registry/job.go:61-64 | every listed job is what `GetJob` returns for some name |
| JobRegistry.AllJobsOfChildren | registry/job.go:61-64 | the listed jobs are what `GetJob` finds for each child name of the job directory, in listing order |
| JobRegistry.TargetWriteChildren | registry/job.go:153-156 | a target write under a valid name adds no child to the job directory, except that name when it has no job object |
| JobRegistry.TargetWriteInvisible | registry/job.go:153-156 | no `GetJob` lookup sees a target write |
| JobRegistry.TargetWriteKeepsJobs | registry/job.go:153-156 | a target write under a valid name leaves the listed jobs and their order unchanged |
| JobRegistry.StoredPayloadIsListed | registry/job.go:22-47 | whatever `GetPayload` returns for a valid name is among the listed payloads: the payload as written, or the zero payload when the stored value does not decode |
| JobRegistry.PayloadsOnePerChild | registry/job.go:33-44 | no child of the payload directory is skipped: the i-th payload is the i-th child's value, unmarshalled |
| JobRegistry.EmptyListings | registry/job.go:28-31 | a directory with nothing below it lists no jobs and no payloads |
| JobRegistry.TargetTreeIsolated | registry/job.go:160 | for valid names, the recursive delete of one job's target removes no job object and no other job's target |
| JobRegistry.UnlistedJob | registry/job.go:61-64 | a single stored object whose key lies in a child under which `GetJob` finds nothing is not listed at all |
| JobRegistry.SlashNamedJobNotListed | registry/job.go:61-62 | a stored job named `a/b` is read back by `GetJob`, but the job listing does not contain it |
| JobRegistry.EmptyNamedJobNotListed | registry/job.go:61-62 | a stored job with the empty name is read back by `GetJob`, but the job listing does not contain it |
| JobRegistry.TargetTreeAvoidsPayloads | registry/job.go:160 | the recursive delete of a job's target removes no payload |
| JobRegistry.Registry.constructor | registry/job.go:93-102 | a fresh registry is empty, so no job has a target |
| JobRegistry.Registry.StoreSet | registry/job.go:150 | a set stores the value at the key; a new key is listed after the others |
| JobRegistry.Registry.StoreDelete | registry/job.go:144 | a delete removes the key, and in a recursive delete everything below it |
| JobRegistry.Registry.CreateJob | registry/job.go:147-151 | only the job's object key changes, to the encoded job; the key is listed after the others if it is new, and the listing order is otherwise unchanged; `GetJob` then returns the job; other jobs, all targets and all payloads are unchanged |
| JobRegistry.Registry.CreatePayload | registry/job.go:120-124 | only the payload key changes; the key is listed after the others if it is new, and the listing order is otherwise unchanged; `GetPayload` then returns the payload; other payloads, jobs and targets are unchanged |
| JobRegistry.Registry.DestroyPayload | registry/job.go:142-145 | only the payload key is removed, from the values and from the listing order; `GetPayload` then returns nil; everything else is unchanged |
| JobRegistry.Registry.ScheduleJob | registry/job.go:153-156 | only the target key changes, to the machine name; the key is listed after the others if it is new, and the listing order is otherwise unchanged; `GetJobTarget` then returns that machine; job objects and payloads are unchanged; for a valid name, the jobs `GetAllJobs` lists are unchanged |
| JobRegistry.Registry.StopJob | registry/job.go:158-161 | the target and everything below it are removed, from the values and from the listing order; `GetJobTarget` then returns nil; payloads are unchanged; for valid names, job objects and other targets are unchanged |
| JobRegistry.Registry.GetAllPayloads | registry/job.go:22-47 | the loop returns the specification listing of payloads |
| JobRegistry.Registry.GetAllJobs | registry/job.go:50-68 | the loop returns, in listing order, the jobs `GetJob` finds for the children's base names |
| JobRegistry.Registry.GetAllJobsByMachine | registry/job.go:70-91 | the loop returns the order-preserving subsequence of the jobs `GetAllJobs` lists whose target carries the machine's boot id |
| Events.FilterJobCreated | registry/job.go:167-185 | an event exactly for a set whose key's last element is `object` and whose value decodes; the event is `EventJobCreated`, carries the decoded job and has no machine |
| Events.FilterJobScheduled | registry/job.go:187-201 | an event exactly for a set whose key's file part is `target`; the event is `EventJobScheduled`, carries a name and the machine the value names |
| Events.FilterJobStopped | registry/job.go:203-217 | an event exactly for a delete or an expiry whose key's file part is `target`; the event is `EventJobStopped`, carries a name and no machine |
| Events.SplitTarget | registry/job.go:192-198 | a target key splits into its job directory and `target`, and trimming the directory's slash leaves the job's path |
| Events.ScheduledName | registry/job.go:192-200 | a set of `<dir>/<n>/target` is reported as job `n` scheduled to the machine the value names |
| Events.StoppedName | registry/job.go:208-216 | a delete or an expiry of `<dir>/<n>/target` is reported as job `n` stopped |
| Events.CreatedFromCreateJob | registry/job.go:167-185 | the set `CreateJob` performs is reported as the creation of exactly that job |
| Events.ScheduledFromScheduleJob | registry/job.go:187-201 | the set `ScheduleJob` performs is reported as that job scheduled to that machine |
| Events.StoppedFromStopJob | registry/job.go:203-217 | the delete `StopJob` performs, or the expiry of that key, is reported as that job stopped |
| Events.CreatedExcludesScheduled | registry/job.go:172-193 | no notification is reported both as a creation and as a schedule |
| Events.CreatedExcludesStopped | registry/job.go:168-204 | no notification is reported both as a creation and as a stop |
| Events.ScheduledExcludesStopped | registry/job.go:188-204 | no notification is reported both as a schedule and as a stop |

## Left out

- `ClaimJob` delegates to `acquireLeadership`, and `acquireLeadership` is not part of this model. Only the lock name it builds is modelled, as `Keys.ClaimName`, together with its injectivity.
- The store: replication, watches and TTLs are not modelled, and every failed get counts as "key not found". The store keeps no file/directory distinction. A directory exists exactly when some key lies below it. A set on a key that is a directory, or below a key that is a leaf, is not rejected.
- Listing order: the code asks the store for a sorted listing (the `true` sort argument of `r.etcd.Get` at registry/job.go:26, 54 and 74), so the store lists children in key order. The model lists children in the order in which the first key below each was created. So the model's `GetAllJobs` after `CreateJob(b)` then `CreateJob(a)` is `[b, a]` where the code's is `[a, b]`. The properties proved are about which records are listed and how each is read, and do not depend on the order, except that the loops are proved to follow the listing's order. A recursive delete can also change the model's order: with keys created in the order `a/target`, `b/object`, `a/object`, the job directory lists `[a, b]`, and after `StopJob(a)` it lists `[b, a]`, where the code's sorted listing stays `[a, b]`.
- Failed writes: in the model every set and delete takes effect. The code discards the error of each `Set` and `Delete` (registry/job.go:123, 144, 150, 155, 160), so when the store refuses a write the store stays as it was and the caller is not told. The write methods' promises, such as `GetJob` returning the job after `CreateJob`, hold only for writes that succeed.
- `path.Join` cleaning (this is the `path.Join` line that `Keys.KeysDisjoint` and `Keys.KeysInjective` refer to): keys are built by plain concatenation, and an empty name is dropped as `path.Join` drops it. This equals `path.Join` for a prefix in clean form and a name that is empty or has no slash and is not "." or "..". Other names are cleaned by `path.Join` in ways the model does not follow: for example, `CreateJob` of a job named `../payload/x` writes, in the code, the key of payload `x/object`. The disjointness and injectivity of keys are proved for the keys as built here, not for such names.
- JSON: `marshal` and `unmarshal` are replaced by a small record codec with two string fields, a job or payload's name and the rest of the record kept as one opaque string. The codec's round trip is proved. Go's JSON library accepts other spellings and fills records partly; neither is modelled. The marshal error, which the code discards, cannot arise here.
- Job, payload and machine internals belong to other packages. A machine is only its boot id. The extra fields `machine.New` fills have no effect here.
- Logging, `time.Duration` TTLs and concurrent access to the store are not modelled.
- JobRegistry.Registry.StopJob: "job objects and other targets are unchanged" is stated only for valid names, because a name holding a slash can make a recursive delete reach another job's keys.
- JobRegistry.StoredJobIsListed: stated only for valid names, because for other names the property fails in the code as well. A job with the empty name is stored at `<prefix>/job/object`, listed as the child `object`, and `GetJob("object")` is nil. A job named `a/b` is stored below the child `a`, and `GetJob("a")` is nil (registry/job.go:61-62). `JobRegistry.EmptyNamedJobNotListed` and `JobRegistry.SlashNamedJobNotListed` prove both cases. For the names "." and ".." or names such as `a//b`, `path.Join` also cleans the key in ways the model does not follow.
- JobRegistry.StoredPayloadIsListed: likewise stated only for valid names. In the code a payload named `a/b` is not listed under its own name either: it shows only as the zero payload of the directory `a`, and a payload with the empty name is stored at the key of the payload directory itself, not below it, so the model lists no child for it.
