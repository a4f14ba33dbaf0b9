# ec2-backup, modelled in Dafny

`ec2-backup` is a small PHP tool that runs on an EC2 instance. For every EBS
volume attached to the instance, it deletes the oldest completed snapshots
beyond a retention count, then starts a new snapshot. The snapshot is named
after the instance and carries the configured tags. This project models the
tool's decision logic in Dafny and proves what that logic guarantees. It
covers the orchestrator `App\Ec2Backup`, the machine self-identification in
`App\MachineDetails`, and the global helpers of `app/functions.php`.

Files:

- `wrappers.dfy`: `Option` and `Result`.
- `php.dfy`: the PHP values and built-ins the code relies on. These are
  truthiness, `isset`, `strtolower`, `strpos`, `substr`, `implode`,
  `array_unique`, and the `(int)` cast of a string (saturating at 64 bits).
- `ordered_arrays.dfy`: a PHP array as an ordered list of key-value entries.
  It provides assignment under a key and the array built by assigning each
  element of a listing under its key.
- `helpers.dfy`: `boolean()`, `array_combine_safe()`, `array_limit_keys()`,
  `config()`.
- `machine_details.dfy`: the memoised details record, type detection, the
  identity-document merge, `fullMachineId()` and `publicIp()`.
- `ec2_client.dfy`: the EC2 service as an abstract state, plus the effect of
  each call the tool makes:
  - the state is the volumes, tags and snapshots, in listing order;
  - a `Provider` says which calls throw, the id of a new snapshot, the time
    and today's date.
- `ec2_backup.dfy`: the constructor's settings, `getVolumes`, `getTags`,
  `getBackups`, `pruneBackups`, `backup` and `create`.
- `ec2_backup_properties.dfy`: properties that relate several of these
  operations.

The environment (`$_ENV`) is a `map<string, string>`. Whatever the metadata
service would answer (hostname, identity document, public IP) is a parameter
(`Probe`), and each request the code would make is recorded. The process-wide
static state of `MachineDetails` is a value (`Process`) that each operation
takes and returns. `create()` returns the calls it made to the service, in
order, and one event per log line that matters.

## Model

| member | source | states |
|---|---|---|
| Php.ContainsIffOccurs | app/MachineDetails.php:195 | `strpos(...) !== false` holds exactly when the needle occurs at some position of the haystack |
| Php.Substr | app/MachineDetails.php:246 | `substr($s, 2)` is the rest of the string after its first two characters, and "" when the string is no longer than that |
| Php.Unique | app/MachineDetails.php:102 | `array_unique` keeps every value once, in the order of first occurrence, and adds nothing |
| Php.UniqueOfDistinct | app/MachineDetails.php:102 | `array_unique` of values that are already distinct is the same list |
| Php.DecimalRoundTrip | app/Ec2Backup.php:43 | the `(int)` cast reads a decimal numeral, signed or not, back as its value, clamped to 64 bits |
| OrderedArrays.Put | app/functions.php:28 | `$out[$key] = $v` keeps keys distinct, adds the key at the end only when it is new, replaces only that key's value and keeps every other entry |
| OrderedArrays.IndexBy | app/Ec2Backup.php:121-126 | assigning each listed element under its key gives distinct keys in order of first listing, exactly the listed keys; every entry comes from some element; for a repeated key the last listed element wins |
| OrderedArrays.KeyCount | app/Ec2Backup.php:204 | `count()` of an array is the number of its distinct keys |
| Helpers.BooleanOfString | app/functions.php:108-120 | a string is true exactly when it equals one of `true`, `on`, `yes`, `y`, `1`, ignoring letter case |
| Helpers.BooleanIgnoresCase | app/functions.php:109 | two strings that differ only in letter case coerce alike |
| Helpers.BooleanImpliesTruthy | app/functions.php:71-73 | whatever `boolean()` accepts, PHP's `boolval()` accepts too |
| Helpers.BooleanTableNonStrings | app/functions.php:76-95 | the doc table for non-strings: 0, 42, 4.2, null, `[]` give false; 1, a non-empty array, an object give true; booleans pass through |
| Helpers.BooleanTableTrueStrings | app/functions.php:86-91 | "1", "yes", "y", "true" are true, in any letter case |
| Helpers.BooleanTableEmptyStrings | app/functions.php:83-85 | "" and "0" are false |
| Helpers.BooleanTableNegatives | app/functions.php:88-90 | "no" and "n" are false |
| Helpers.BooleanOfLongString | app/functions.php:84 | every string longer than four characters, such as "string" or "false", is false |
| Helpers.CombineSafe | app/functions.php:19-32 | empty keys give an empty array; otherwise the keys are exactly the given ones, each once, in first-listed order; each key's last occurrence decides its value: the value at that index when set, else the default |
| Helpers.LimitKeys | app/functions.php:46-64 | empty keys give an empty array; otherwise the keys are exactly the listed keys that exist in the input, and every entry is an entry of the input |
| Helpers.LimitKeysOrder | app/functions.php:56-62 | the kept keys come in the order they are listed, the first listing of a repeated key deciding its place, keeping only those the input has |
| Helpers.LimitKeysIsSubMap | app/functions.php:57-61 | a listed key of the input keeps the input's own value, null included |
| Helpers.ConfigAfterSet | app/functions.php:137-144 | a present key gives its stored value even when empty, a missing key gives the default, and setting one key changes no other |
| MachineDetails.DetermineMachineType | app/MachineDetails.php:189-200 | the type is "ec2" exactly when the fetched hostname contains "ec2", otherwise "local" (a failed fetch included) |
| MachineDetails.ResolveType | app/MachineDetails.php:168-171 | a configured `MACHINE_TYPE` that is not empty overrides detection; otherwise the type is the one detected from the hostname; the hostname is asked for exactly when no type is configured |
| MachineDetails.GetEc2Data | app/MachineDetails.php:239-253 | an empty or non-array document fails; otherwise the result has exactly the record's keys, each taking the document's value when set and its old value otherwise, the machine id coming from the instance id |
| MachineDetails.Ec2DataIdempotent | app/MachineDetails.php:248-253 | merging the same document a second time changes nothing |
| MachineDetails.Ec2DataKeepsUnsetFields | app/MachineDetails.php:249-251 | a field the document leaves unset keeps its previous value |
| MachineDetails.Construct | app/MachineDetails.php:167-182 | the hostname is requested exactly when no type is configured, the document exactly when the type is "ec2", the public IP never; a type other than "ec2" yields the record with type "local" merged with the fixed local data; on "ec2" resolution fails exactly when the document merge fails, and otherwise the details are the merged record; a failed document leaves the type written as "ec2"; the record keeps its fixed keys |
| MachineDetails.GetDetails | app/MachineDetails.php:46-64 | once constructed, the stored record is returned and nothing is requested; success and a stored singleton go together; at most two requests; the record keeps its fixed keys |
| MachineDetails.ResolvedOnce | app/MachineDetails.php:58-64 | after a successful resolution every later call returns the same record, whatever the environment or the service now say |
| MachineDetails.ConfiguredLocal | app/MachineDetails.php:168-181 | a configured non-"ec2" type asks the service nothing and yields the constant local record |
| MachineDetails.DetectedLocal | app/MachineDetails.php:202-211 | a detected local machine gets id and machine id "dev", region "local" and both addresses 127.0.0.1 |
| MachineDetails.InvalidDocumentFails | app/MachineDetails.php:239-243 | an invalid document makes resolution fail with no singleton, not return partial data |
| MachineDetails.MachineIdFromInstanceId | app/MachineDetails.php:245-246 | the machine id is the instance id without its first two characters |
| MachineDetails.PresentStrings | app/MachineDetails.php:102 | `array_filter` keeps exactly the parts that are strings and not falsy |
| MachineDetails.PresentStringsOrder | app/MachineDetails.php:102 | the kept parts keep their relative order: one that comes first among the kept parts came first among the candidates |
| MachineDetails.IdParts | app/MachineDetails.php:96-102 | the id parts are exactly the configured type, region and machine id that are not falsy, each once, never "" or "0", in the order type, region, machine id |
| MachineDetails.FullMachineId | app/MachineDetails.php:96-102 | the id is empty exactly when no part survives, and otherwise starts with the first surviving part |
| MachineDetails.FullMachineIdOfThree | app/MachineDetails.php:96-102 | a configured type, region and machine id that are all set and pairwise different give "type-region-machineId" |
| MachineDetails.FullMachineIdOfTwo | app/MachineDetails.php:96-102 | with no type configured (unset, "" or "0"), a region and machine id that are set and different give "region-machineId" |
| MachineDetails.FullMachineIdLocal | app/MachineDetails.php:96-102 | the local record gives "local-dev", the configured type "local" merging with the region |
| MachineDetails.CachePublicIp | app/MachineDetails.php:124-132 | a null public IP is filled with the fetched address (or `false` when the fetch fails) on EC2 and with 127.0.0.1 elsewhere, and every other field is kept; a set one is left alone and nothing is fetched |
| MachineDetails.LookUpPublicIp | app/MachineDetails.php:119-132 | after a successful lookup the singleton exists and the public IP is set |
| MachineDetails.PublicIp | app/MachineDetails.php:119-135 | as written, the accessor returns the private IP field while caching the public one |
| MachineDetails.PublicIpCorrected | app/MachineDetails.php:124-134 | the corrected accessor returns the cached public IP, which is always set: on the first lookup the fetched address on EC2, 127.0.0.1 elsewhere |
| MachineDetails.PublicIpCached | app/MachineDetails.php:124-132 | a second lookup requests nothing and returns what the first returned |
| MachineDetails.PublicIpReturnsPrivateIp | app/MachineDetails.php:134 | on EC2 with private IP 172.31.59.103 and a fetched 54.210.1.2, the accessor returns 172.31.59.103 |
| Ec2Client.VolumesOf | app/Ec2Backup.php:104-114 | the volumes listed are exactly those with an attachment to the instance |
| Ec2Client.TagsOf | app/Ec2Backup.php:134-144 | the tags listed are exactly those of the resource |
| Ec2Client.SnapshotsOf | app/Ec2Backup.php:161-171 | the snapshots listed are exactly those of the volume |
| Ec2Client.Without | app/Ec2Backup.php:214-219 | deleting ids removes exactly the snapshots with those ids |
| Ec2Client.WithoutWithout | app/Ec2Backup.php:212-226 | deleting one set of ids after another deletes their union |
| Ec2Client.Apply | app/Ec2Backup.php:249-261 | a call that throws, and every describe, leave the state alone; a delete removes exactly its id; a create appends one pending snapshot; volumes and tags never change |
| Ec2Backup.NewSettings | app/Ec2Backup.php:38-46 | the retention count is at least 1: the `(int)` of `MAX_SNAPSHOT_COUNT` when positive, else 4; backups are enabled when `ENABLE` is unset or spells a true word in any case |
| Ec2Backup.GetVolumes | app/Ec2Backup.php:101-129 | a failed describe gives none; otherwise every attached volume appears once, keyed by its id, in the order first listed, with the device of its first attachment |
| Ec2Backup.GetTags | app/Ec2Backup.php:131-156 | a failed describe gives none; every entry is a tag of the instance; for a repeated key the last listed tag wins |
| Ec2Backup.Completed | app/Ec2Backup.php:178-180 | exactly the volume's snapshots in state completed are kept |
| Ec2Backup.CompletedById | app/Ec2Backup.php:177-187 | keyed by snapshot id, with exactly the completed snapshots' ids, each entry from one of them |
| Ec2Backup.GetBackups | app/Ec2Backup.php:158-198 | a failed describe gives none; otherwise exactly the completed snapshots' ids, each once, each entry from a completed snapshot of the volume, oldest first |
| Ec2Backup.Insert | app/Ec2Backup.php:189-195 | inserting into an oldest-first array keeps it oldest first and adds exactly the one entry |
| Ec2Backup.InsertPermutes | app/Ec2Backup.php:189-195 | insertion adds one copy of the entry and changes no other multiplicity |
| Ec2Backup.InsertKeepsDistinctKeys | app/Ec2Backup.php:189-195 | inserting under a new key keeps keys distinct |
| Ec2Backup.SortByStart | app/Ec2Backup.php:189-195 | the sort is oldest first, keeps the length, the entries and the distinct keys |
| Ec2Backup.SortPermutes | app/Ec2Backup.php:189-195 | the sort returns a permutation of its input |
| Ec2Backup.ComparatorNotAntisymmetric | app/Ec2Backup.php:189-195 | the callback answers 1 exactly when the first started later and never -1, so swapping arguments does not negate it |
| Ec2Backup.SortedIffComparatorAgrees | app/Ec2Backup.php:189-195 | an array is oldest first exactly when no entry compares as later than one after it |
| Ec2Backup.PruneSelection | app/Ec2Backup.php:204-209 | nothing is selected when there are at most max backups; otherwise the oldest count minus max, a prefix, never empty |
| Ec2Backup.Deleted | app/Ec2Backup.php:211-226 | the ids counted are exactly the selected ones whose delete did not throw |
| Ec2Backup.DeletedDistinct | app/Ec2Backup.php:211-226 | selected entries under distinct ids are counted once each: the deleted ids are distinct, so the count is the number of snapshots removed |
| Ec2Backup.DeleteSnapshots | app/Ec2Backup.php:211-228 | one delete per selected entry, in order; a throwing delete is skipped and the loop goes on; the count and the state follow the successful deletes only |
| Ec2Backup.DeleteStep | app/Ec2Backup.php:212-226 | one turn of the delete loop adds the id to the deleted ones exactly when its delete succeeds |
| Ec2Backup.PruneBackups | app/Ec2Backup.php:200-229 | at most max backups: 0, only the listing call, nothing deleted; otherwise the calls are exactly the listing then one delete per oldest surplus entry, in order; the count is the number of those deletes that did not throw; a snapshot not selected survives; nothing is added |
| Ec2Backup.Description | app/Ec2Backup.php:251 | the description is the name, " Backup ", then the date |
| Ec2Backup.SnapshotTags | app/Ec2Backup.php:240-246 | the tags start with the name tag, followed by the configured tags in order |
| Ec2Backup.Backup | app/Ec2Backup.php:231-268 | without a volume id: false and no call; otherwise exactly one create call, named after the name or else the volume id, and true exactly when it does not throw |
| Ec2Backup.VolumeName | app/Ec2Backup.php:88-90 | the name is the Name tag or else the instance id, followed by " (device)" exactly when there are several volumes |
| Ec2Backup.VolumeNamesDiffer | app/Ec2Backup.php:88-90 | with several volumes, volumes on different devices get different names |
| Ec2Backup.Create | app/Ec2Backup.php:48-99 | disabled and not forced: no call and no lookup; a failed lookup or a non-EC2 type: no call; on EC2 the volumes then tags are listed, then one create call per listed volume, in order, each with that volume id, the description of its name and date, and the name tag followed by the configured tags; volumes and tags never change |
| Ec2Backup.BackUpInstance | app/Ec2Backup.php:77-98 | on EC2 the listing calls come first; the create calls are exactly one per listed volume, in listing order, each named after the Name tag or instance id (with the device when there are several volumes) and carrying that description and those tags |
| Ec2Backup.BackUpVolumes | app/Ec2Backup.php:80-98 | the create calls are exactly the planned ones, one per volume, in order; one event per volume, about that volume; with pruning off nothing is listed or deleted; otherwise each volume's snapshots are listed before its new one is started |
| Ec2Backup.BackUpVolume | app/Ec2Backup.php:81-97 | for one volume: with pruning on, the calls are the listing then one delete per selected entry, the event carries the number of successful deletes, and the state is the one with those snapshots removed and the new one started; with pruning off no prune call is made; then one create call under the volume's name; the event says whether it went through |
| Ec2Backup.StepKeepsOrder | app/Ec2Backup.php:80-92 | one volume's prune-then-create calls extend the run without breaking prune-before-create |
| Ec2Backup.ListingFirst | app/Ec2Backup.php:77-78 | the two listing calls before the loop start no snapshot and break no order |
| Ec2BackupProperties.MaxCountRoundTrip | app/Ec2Backup.php:43 | a positive count written in decimal is the count kept |
| Ec2BackupProperties.MaxCountNotPositive | app/Ec2Backup.php:44-45 | zero or a negative count falls back to 4 |
| Ec2BackupProperties.DefaultSettings | app/Ec2Backup.php:41-45 | nothing configured: enabled, keep 4 |
| Ec2BackupProperties.EnableWords | app/Ec2Backup.php:41 | `ENABLE` "no", "0", "false" switch backups off and "Yes" keeps them on |
| Ec2BackupProperties.PruneKeepsNewest | app/Ec2Backup.php:207 | exactly the surplus is selected, never one of the newest max, each selected one no newer than any kept one |
| Ec2BackupProperties.PruneSparesOthers | app/Ec2Backup.php:179-180 | a snapshot still pending, failed, or of another volume is never selected |
| Ec2BackupProperties.PruneLeavesNewest | app/Ec2Backup.php:200-229 | when all calls go through, the completed snapshots left are the unselected ones, max of them (or all when fewer) |
| Ec2BackupProperties.PruneTwiceDeletesNothing | app/Ec2Backup.php:200-209 | when the first pruning's calls all go through, pruning again with no new backup in between selects nothing, so no delete is made |
| Ec2BackupProperties.AllDeleted | app/Ec2Backup.php:212-226 | when no delete throws, the deleted ids are the selected ones |
| Ec2BackupProperties.KeptIds | app/Ec2Backup.php:214-219 | deleting ids leaves the volume's completed ids minus those |
| Ec2BackupProperties.NewBackupNotCounted | app/Ec2Backup.php:249-261 | a snapshot just started is pending: the completed ids and the number of backups listed do not change |

## Left out

- I/O is not modelled. This covers the AWS SDK client, the HTTP requests to
  the metadata endpoint, the socket-timeout save and restore
  (app/MachineDetails.php:256-270), and `echo`. The answers of those calls
  are parameters, and a failed fetch is `None`.
- The wording of the log lines and their `json_encode` context is not
  modelled. `create()` records one event per outcome instead.
- The `TAGS` setting is taken as an already decoded list of key-value pairs.
  `json_decode` is not modelled, and neither is a JSON list whose keys would
  be integers.
- Snapshot start times are integers, later being larger, and today's date is
  an opaque string. The Carbon parsing in app/Dates.php is not part of this
  model.
- Ec2Backup.GetBackups: the model sorts oldest first with a stable
  insertion. The callback never answers -1, so the order PHP's `uasort`
  actually produces depends on its internal algorithm, and that order is not
  modelled. ComparatorNotAntisymmetric and SortedIffComparatorAgrees state
  the callback's behaviour.
- Identity-document values are null, false or strings. Numbers, `true` and
  nested arrays in the JSON are not modelled. An instance id that is `false`
  prints as the empty string.
- `(int)` of a string reads optional leading whitespace, a sign and decimal
  digits, and stops at the first other character. So "2.5" gives 2, as in
  PHP. Exponent forms are not modelled: PHP reads "1e3" as 1000, the model
  reads it as 1.
- `getInstance()`, `id()`, `machineId()`, `region()` and `privateIp()` are not
  modelled as members. Each only triggers the same memoised resolution as
  GetDetails and returns one field (`Field`).
- The second `empty($prune)` test (app/Ec2Backup.php:208-209) is dead code.
  Past the first test the selection has count minus max entries, which is at
  least one, as PruneSelection states. The model has no branch for it.
- `DryRun` is always false in the source, so no dry-run path exists.
- backup.php and metadata.php (the command-line glue and dotenv loading) are
  not part of this model. `create()` is modelled with its options as
  parameters; backup.php:44 calls it with none, which is `NoOptions`.
- Helpers.CombineSafe: `$keys` is a list, so the value of the key at
  position i is read at index i. PHP reads `$values[$index]` under the key of
  `$keys`, which may be associative (app/functions.php:27). The key type is
  generic and already normalised, so PHP's coercion of array keys ("1" and 1,
  true and 1, null and "" collide) is not modelled.
- Helpers.LimitKeys: the same generic, normalised key type as CombineSafe,
  so the same PHP key coercion is not modelled.
- Helpers.Config: its own contract says only that the result is the default
  or a string. ConfigAfterSet states the exact lookup.
- Ec2Backup.BackUpInstance: the run-level contract pins the listing calls
  and every create call. It does not state which snapshots each volume's
  pruning deletes, or whether each create went through. Each volume prunes
  against the state the earlier volumes left behind. BackUpVolume states
  both exactly, for one volume against the state it is given.
- Ec2Backup.BackUpVolumes: the same run-level gap as BackUpInstance. The
  deletes and each create's outcome are stated per volume only.
- Ec2Backup.Create: the same run-level gap as BackUpInstance, which it
  calls on EC2.
- MachineDetails.FullMachineId: takes the resolved details record as a
  parameter. The source first triggers the memoised resolution when no
  instance exists yet (app/MachineDetails.php:93-94); GetDetails models that
  step separately.
- Helpers.BooleanOfString: PHP's `switch` compares loosely, so a numeric
  string equal to 1 as a number ("01", "1.0", "1e0", " 1", and "1 " under
  PHP 8) matches the `'1'` case and is true. The model compares the lowered
  string exactly, so those strings are false.
- Helpers.BooleanOfLongString: for the same reason, a numeric string of more
  than four characters that equals 1 as a number ("1.000", "00001") is true
  in PHP but false in the model.
- Ec2Backup.NewSettings: `ENABLE` is read through `boolean()`, so the same
  loose-comparison strings ("01", "1.0", "1e0") enable backups in PHP but
  disable them in the model.

## Findings

| source | as written | input that shows it | evidently intended | confidence | as-written member | corrected member |
|---|---|---|---|---|---|---|
| app/MachineDetails.php:134 | `publicIp()` fetches and caches the public address, then returns the `privateIp` field | on EC2 with private IP 172.31.59.103 and the public address not yet cached, the service answers 54.210.1.2 and the call returns 172.31.59.103 | return the cached `publicIp` field | high; not executed | MachineDetails.PublicIpReturnsPrivateIp | MachineDetails.PublicIpCorrected |
