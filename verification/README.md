# AURCache: storage, identity, logs and verdicts

AURCache builds packages on workers that keep everything they know about their disk in the disk
itself: directory names, subvolume identities, modification times and btrfs quota groups. This
project models the parts of AURCache whose correctness depends on what survives an interruption or
on what a partial view shows, and proves what they promise.

- **The worker's pool** (`Names`, `PoolDisk`, `Lease`, `Refresh`, `Teardown`, `Keep`, `Reclaim`,
  `Resize`). `PoolDisk` holds the pool on disk and the effect of each privileged command. The
  protocols run over it one command at a time, with the process dying between any two and other
  tasks' commands in between: a run is any sequence of such events.
- **The certificate authority's identity** (`Identity`). Three files written in a fixed order, and
  a reader that must choose correctly after any interrupted write.
- **The build log** (`Utf8`, `LogTail`, `LogPoll`, `LogPager`). A bounded window over a growing
  byte log, the poll loop that drives it, and the command line's pager. Text is its UTF-8 bytes.
- **The build watcher** (`Watch`). An exit code that must hold for builds that have since fallen
  off every listing.
- **Byte ranges** (`Ranges`). The `Range` header against section 14.1.2 of RFC 9110.

`Decimal` and `Strings` are Rust's integer printing and parsing and its cutting of text. Code that
updates state in place is a class whose methods are tied to a specification function of the old
state; the theorems about whole runs are lemmas about those functions. `Refresher` and `ImagePool`
carry a ghost record of their events, so that each of their executions is one of the runs the
theorems cover.

## What the proofs found

Several promises hold only under a condition. Each has a lemma with an input that breaks it and,
where there is a condition, a lemma saying exactly when it holds.

- `entry_of` reads more names than the pool writes: `job-05` and `job-+5` are both build 5
  (`Names.TwoNamesOneEntry`, `Names.NameOfEntryOf`). A sweep reports such a build as cleared and
  leaves the entry, as it does `job-5.build` (`Teardown.SweepLeavesNothingOf`,
  `Teardown.AStrayNameOutlivesEverySweep`).
- `reclaim_room` comes to an end for every need exactly when every entry of every kept failure goes
  when that failure is removed (`Reclaim.StopsForEveryNeed`).
- A kept tree can be seen without its keep, which the comment on `keep_build` rules out: another
  lease that takes the chroot between the renames and the move leaves one
  (`Keep.MakingRoomInBetweenLeavesATree`). It happens only after something took the chroot
  (`Keep.ATreeWithoutItsKeepWasRobbed`, `Keep.TheMoveMakesOneExactlyWhen`), and the tree goes at the
  next expiry (`Keep.FragmentsGoAtTheNextExpiry`).
- A sweep can leave an empty group behind, when the cleaner finishes with its volumes between the
  tidy and the last clearing (`Teardown.AGroupFreedInBetweenOutlivesTheSweep`), and exactly then
  (`Teardown.NoEmptyOrphansExactlyWhen`). The next sweep destroys it
  (`Teardown.TheNextSweepDestroysIt`).
- A keep whose end is past what the clock can represent keeps nothing
  (`Keep.AnOverlongKeepKeepsNothing`, `Keep.ExpiryTakesExactlyWhen`).
- A left-over chroot that a lease could not remove is leased as it is: the snapshot is made inside
  it. The leased chroot is a snapshot of the base exactly when nothing was left under its name
  (`Lease.AnUndisturbedLeaseSucceeds`).
- A growth interrupted after the file has grown is not finished by any number of calls for the same
  total (`Resize.AnInterruptedGrowthIsNotFinished`), which say it fits (`Resize.AndSaysItFits`). A
  loop device left stale by it is reported as a pool too full
  (`Resize.AnInterruptedGrowthReadsAsTooFull`). `Resize.ImagePool.SetTotal` says exactly when a call
  that fits leaves the filesystem at its size, and when a pool is reported too full.
- An interrupted repair of the CA's files can change the identity, when the certificate on disk was
  issued for the recorded key without being the recorded certificate
  (`Identity.RepairIsStableExactlyWhen`). An interrupted install can lose a pair the operator
  placed, or leave a store that is refused where the pair was never recorded
  (`Identity.AnInterruptedInstallCanLoseAPlacedPair`, `Identity.InstallIsSafeExactlyWhen`).
- A build the watcher follows only by adoption leaves its scope when it finishes, so its record
  stays unfinished while it is listed (`Watch.AnAdoptedBuildIsNeverSeenToFinish`). The comment on
  `Tracked` says that a followed build stays followed until it settles; the model does what the
  code does.
- The comment on `retire_prev` says it runs to completion or not at all. It can stop between the
  deletion and the rename (`Refresh.RetiringCanStopHalfWay`); short of completion it changes nothing
  exactly when there was no older base or it could not be deleted (`Refresh.Refresher.RetirePrev`).
  Recovery copes either way (`Refresh.RecoveryConverges`).
- The range parser does not ignore every header that section 14.1.2 of RFC 9110 does not write: it
  reads past blanks around the header and its bounds and a sign before a number
  (`Ranges.SignsAndBlanksAreUnderstood`), and past nothing else
  (`Ranges.UnderstoodBeyondTheStandard`).
- It does ignore ranges the standard writes: section 14.1 of RFC 9110 makes the unit's name
  case-insensitive, and `Bytes=0-9` gets the whole file (`Ranges.ACapitalIsIgnored`). A range in any
  spelling but `bytes` is ignored, and one in that spelling answered exactly when it is usable
  (`Ranges.AgreesWithTheStandard`, `Ranges.StandardRangesAnswered`).
- The line a tail opens with is not dropped once only, as the comment on
  `drop_leading_partial_line` has it: a window it leaves empty loses the next page's first line too,
  whole as that is (`LogTail.AnEmptiedWindowLosesALine`). A page that fits is shown whole exactly when
  the window is not empty past the log's start, or no line ends in the page
  (`LogTail.NothingIsDroppedExactlyWhen`).
- A log that shrank to more than a window is read from its start, so the page after it does not
  reach the end; the one after that does (`LogTail.AShrunkLogIsNotWithinReach`,
  `LogTail.RepositionReaches`).

## Model

| member | source | states |
|---|---|---|
| Names.EntryOfNameOf | backend/aurcache-chroot/src/pool.rs:1407-1489 | `entry_of` inverts the name functions for every positive build id, part and kind |
| Names.NamesAreDistinct | backend/aurcache-chroot/src/pool.rs:1407-1425 | names of distinct builds, parts and kinds never collide |
| Names.TwoNamesOneEntry | backend/aurcache-chroot/src/pool.rs:1457-1489 | the parser is not injective: `job-05` and `job-+5` both read as build 5 |
| Names.NameOfEntryOf | backend/aurcache-chroot/src/pool.rs:1457-1489 | a parsed name is the name its entry would be given if and only if its id is written without sign or leading zero |
| Names.BuildNamesAre | backend/aurcache-chroot/src/pool.rs:1457-1489 | exactly what is read as a part of a build or a kept failure: its prefix, digits after one `+` or none whose value is the id, and the part's suffix; nothing else |
| Names.TheNamesOnDisk | backend/aurcache-chroot/src/pool.rs:1407-1455 | every name of build 7, the base and the locks, in so many words |
| Names.CacheNamesAreNotEntries | backend/aurcache-chroot/src/pool.rs:572-580 | no name `ensure_subvolume` accepts is a build's, a kept failure's, the base's or a lock's |
| Names.SysfsRoundTrip | backend/aurcache-chroot/src/qgroup.rs:53-64 | every group is read back from its sysfs directory name |
| Names.BuildGroupRoundTrip | backend/aurcache-chroot/src/qgroup.rs:30-64 | a build's group leads back to that build and no other, by number and by sysfs name, and is no cache's or subvolume's group; a number past the range of ids belongs to no build |
| Names.TheGroupsInSysfs | backend/aurcache-chroot/src/qgroup.rs:22-55 | build 7's group is `1_1007` and the total `2_0` |
| PoolDisk.KeysAreTexts | backend/aurcache-chroot/src/pool.rs:1138-1154 | directories keyed by parsed names are directories keyed by text, read as `entry_builds` reads them |
| PoolDisk.DeadStaysDead | backend/aurcache-chroot/src/pool.rs:747-763 | no command brings a deleted volume's identity back |
| PoolDisk.MembershipIsStable | backend/aurcache-chroot/src/pool.rs:1156-1192 | no command takes a volume still there out of its group, nor its group out of the total |
| PoolDisk.CountIsStable | backend/aurcache-chroot/src/pool.rs:604-607 | no command takes a volume still there, counted directly, out of the total |
| Lease.LeasedVolumesStayCounted | backend/aurcache-chroot/src/pool.rs:770-824 | once a lease returns, its chroot and data are in its group and that group in the total until they are deleted, whatever commands other tasks run before, during and after |
| Lease.ATidyInBetweenFailsTheLease | backend/aurcache-chroot/src/pool.rs:795-822 | another task's tidy can destroy the group made and not yet filled; the lease then fails rather than run uncounted |
| Lease.AnUndisturbedLeaseSucceeds | backend/aurcache-chroot/src/pool.rs:787-824 | over a base and no left-over workdir the lease's own commands succeed: the build's two names hold its chroot and a new workdir, both added to its one counted group, new or left over, with the given limit; the chroot is a new snapshot of the base if and only if nothing was left under its name |
| Lease.ALeftOverWorkdirFailsTheLease | backend/aurcache-chroot/src/pool.rs:789-792 | a workdir left under the build's name fails the lease |
| Refresh.TheBaseIsAlwaysSound | backend/aurcache-chroot/src/pool.rs:616-743 | over any number of refreshes, dying anywhere, `root` is always present, checked and counted, and changes only by exchange with a checked, counted snapshot of it |
| Refresh.ClassificationIsExact | backend/aurcache-chroot/src/pool.rs:1767-1778 | on every reachable state `classify_next` says `Unfinished` iff the refresh died before the exchange, `Previous` iff after |
| Refresh.SnapshotNeverLandsInALeftover | backend/aurcache-chroot/src/pool.rs:669-682 | whenever the candidate is about to be snapshotted, no `root.next` exists that the snapshot would be made inside of |
| Refresh.RecoveryConverges | backend/aurcache-chroot/src/pool.rs:622-667 | recovery, interrupted and rerun any number of times while other tasks work, ends with `root.next` gone, `root` untouched, and `root.prev` the exchanged-out base or untouched, unless another task took it for room |
| Refresh.RecoveryFinishes | backend/aurcache-chroot/src/pool.rs:622-667 | from every reachable state recovery completes with at most two commands that work |
| Refresh.UnreadableLosesOnlyTheRollback | backend/aurcache-chroot/src/pool.rs:656-664 | unreadable identities cost the rollback point, never the base |
| Refresh.Refresher.RecoverRefresh | backend/aurcache-chroot/src/pool.rs:622-667 | is a run of the protocol, succeeding exactly when the commands its state calls for work; on success `root.next` is gone and, when readable, `root.prev` is what a dead refresh left it to be |
| Refresh.Refresher.RetirePrev | backend/aurcache-chroot/src/pool.rs:735-743 | succeeds exactly when its commands work, and then the exchanged-out base is `root.prev`; on failure it is still `root.next` for recovery, and `root.prev` is as it was if and only if there was none or it could not be deleted |
| Refresh.RetiringCanStopHalfWay | backend/aurcache-chroot/src/pool.rs:731-743 | from every state with a `root.prev` to replace, a failed rename leaves it deleted and the new one not yet in its place |
| Refresh.Refresher.SnapshotNext | backend/aurcache-chroot/src/pool.rs:672-682 | succeeds exactly when its commands work; then `root.next` is a new volume snapshotted from `root` and counted |
| Refresh.Refresher.ChargeNext | backend/aurcache-chroot/src/pool.rs:604-607 | the candidate is counted against the total, and no name changes |
| Refresh.Refresher.MakeCandidate | backend/aurcache-worker/src/chroots.rs:418-423 | succeeds exactly when snapshot, count, upgrade and check do; then `root.next` is a new, counted, checked snapshot of `root` |
| Refresh.Refresher.ExchangeRoot | backend/aurcache-chroot/src/pool.rs:705-729 | swaps the two names, or changes nothing |
| Refresh.Refresher.DiscardNext | backend/aurcache-chroot/src/pool.rs:685-695 | runs only on a candidate, never on the old base, and leaves `root` and `root.prev` alone |
| Refresh.Refresher.Refresh | backend/aurcache-worker/src/chroots.rs:362-441 | a whole refresh is a run of the protocol; it swaps a new base in, snapshotted from the old, exactly when every command it needs works, and otherwise leaves `root` as it was |
| Teardown.Pool.RemoveVolumes | backend/aurcache-chroot/src/pool.rs:1232-1277 | exactly the named entries that can be deleted go; the group goes if it is empty; everything else stays in its group |
| Teardown.Pool.RemoveBuilds | backend/aurcache-chroot/src/pool.rs:1195-1230 | the parts of every listed build go, with their groups once empty if asked, and nothing else |
| Teardown.Pool.RemoveKept | backend/aurcache-chroot/src/pool.rs:1207-1218 | a kept failure's chroot, data and tree go and nothing else |
| Teardown.Pool.Release | backend/aurcache-chroot/src/pool.rs:846-853 | a build's parts go; every other volume keeps its identity, time, group and count |
| Teardown.Pool.RenameToKept | backend/aurcache-chroot/src/pool.rs:898-912 | when it succeeds, exactly; the disk is that after the first commands of touch, rename, rename and no others, wherever it stops; on success both volumes are under their kept names, the chroot with the time of the touch, and the groups are as they were |
| Teardown.PartsByName | backend/aurcache-chroot/src/pool.rs:1195-1230 | the three names a build's removal takes, and the three a kept failure's does |
| Teardown.Pool.KeepBuild | backend/aurcache-chroot/src/pool.rs:878-978 | when it keeps and when the tree moves, exactly; then both volumes are kept with their group intact and no `job-` part left, and otherwise nothing of the build is; a tree outside the pool is refused and only the build released |
| Teardown.Pool.ExpireKept | backend/aurcache-chroot/src/pool.rs:1031-1049 | removes exactly the kept failures without time left, with their groups once empty, and counts them |
| Teardown.Pool.TidyGroups | backend/aurcache-chroot/src/pool.rs:1165-1192 | destroys exactly the orphan groups left without members, and takes no live volume out of any group |
| Teardown.TidyingSparesTheLiving | backend/aurcache-chroot/src/pool.rs:1165-1192 | a tidy with no orphan changes nothing, never destroys the group of a build with entries, empty or not, and leaves no orphan without members |
| Teardown.Pool.RecoverBase | backend/aurcache-chroot/src/pool.rs:1014-1020 | the sweep's recovery of the base, also when a deletion does not take effect |
| Teardown.Pool.Sweep | backend/aurcache-chroot/src/pool.rs:987-1026 | the whole directory and every group after a sweep, however far the cleaner gets during it and with what the sweep itself deleted; the count it reports; every volume left as well off as before |
| Teardown.SweptBuildsAre | backend/aurcache-chroot/src/pool.rs:987-1000 | what is counted as cleared: builds with an entry or a group that are neither kept nor in `keep` |
| Teardown.SweepOfTheBase | backend/aurcache-chroot/src/pool.rs:1014-1020 | nothing of the base changes while a refresh holds the lock; otherwise `root.next` goes, to `root.prev` if and only if it can be read to be the base `root` was snapshotted from |
| Teardown.TheLeftoverLockGoes | backend/aurcache-chroot/src/pool.rs:1008-1013 | devtools' `root.lock` goes |
| Teardown.SweepRecoversAsTheRefreshDoes | backend/aurcache-chroot/src/pool.rs:1014-1020 | a sweep that gets the lock leaves the base names as any completed, however often interrupted, recovery does, but for a `root.prev` taken for room |
| Teardown.SweepLeavesNothingOf | backend/aurcache-chroot/src/pool.rs:987-1008 | after a sweep no `job-` entry of a build neither in `keep` nor spared is left, if and only if each was under a name the pool gives |
| Teardown.SweepLeavesOfAKept | backend/aurcache-chroot/src/pool.rs:1031-1049 | after a sweep something is left of a kept failure if and only if it has time left or an entry under a name removing it does not delete |
| Teardown.SweepKeepsWhatItShould | backend/aurcache-chroot/src/pool.rs:987-1026 | parts of running builds, unexpired kept failures, the base, caches and strangers are unchanged by a sweep |
| Teardown.AStrayNameOutlivesEverySweep | backend/aurcache-chroot/src/pool.rs:1457-1489 | `job-5.build` is read as a build and removed by nothing |
| Teardown.OrphanGroups | backend/aurcache-chroot/src/pool.rs:1165-1192 | the group of a build without entries goes if and only if the cleaner was done with all its volumes at the tidy, those this sweep deleted included; otherwise it is left with the rest |
| Teardown.PresentGroups | backend/aurcache-chroot/src/pool.rs:1165-1192 | the group of a build with entries keeps its limit and count and loses only freed members, unless it was empty and removed with the build |
| Teardown.NoEmptyOrphansExactlyWhen | backend/aurcache-chroot/src/pool.rs:1021-1026 | a sweep leaves no empty group of a build without entries if and only if the cleaner finished with none between the tidy and the last clearing |
| Teardown.AGroupFreedInBetweenOutlivesTheSweep | backend/aurcache-chroot/src/pool.rs:1021-1026 | a disk and a sweep where it does |
| Teardown.TheNextSweepDestroysIt | backend/aurcache-chroot/src/pool.rs:1021-1026 | a group emptied that way is gone after the next sweep, whatever commands come in between that do not bring the build back, and whichever deletions take effect |
| Keep.AnInterruptedKeepIsSweptWhole | backend/aurcache-chroot/src/pool.rs:898-956 | for every crash point of a keep, the tree's move included, with other tasks in between, a later sweep leaves nothing of the build or its kept chroot with whatever is there of its workdir and tree, each the same volume, charged and counted, and never a `job-` part |
| Keep.TheseAreThePoolsSteps | backend/aurcache-chroot/src/pool.rs:898-912 | the keep's steps are the pool's commands, in the pool's order |
| Keep.ATreeWithoutItsKeepWasRobbed | backend/aurcache-chroot/src/pool.rs:860-864 | over every run a kept tree is there without its chroot only after an expiry, a lease making room or the failed keep took the chroot |
| Keep.TheMoveMakesOneExactlyWhen | backend/aurcache-chroot/src/pool.rs:913-933 | the move leaves a tree without its keep if and only if there is a tree to move and the chroot is gone by then |
| Keep.MakingRoomInBetweenLeavesATree | backend/aurcache-chroot/src/pool.rs:913-933 | a run of every build with a tree in which that happens |
| Keep.ExpiryHonoursTheKeep | backend/aurcache-chroot/src/pool.rs:1031-1049 | in every interleaving a kept failure with its chroot is expired only if keeping is off, the keep has passed since the touch, or its end does not fit the clock |
| Keep.FragmentsGoAtTheNextExpiry | backend/aurcache-chroot/src/pool.rs:1031-1049 | kept parts whose chroot is gone go at the next expiry |
| Keep.RenamingFirstWouldExpireAtOnce | backend/aurcache-chroot/src/pool.rs:899-908 | with the rename before the touch a build older than the keep would be expired at once; with the touch first it is not |
| Keep.ExpiryTakesExactlyWhen | backend/aurcache-chroot/src/pool.rs:1031-1049 | a kept failure with its chroot is gone after an expiry if and only if it can be deleted and keeping is off, the keep has passed, or its end does not fit the clock |
| Keep.AnOverlongKeepKeepsNothing | backend/aurcache-chroot/src/pool.rs:1038-1042 | a keep that ends past what the clock can hold expires the failure at once, however new |
| Reclaim.FindOldest | backend/aurcache-chroot/src/pool.rs:1107-1115 | finds the minimum of the kept failures by time and then id |
| Reclaim.OlderExactlyWhen | backend/aurcache-chroot/src/pool.rs:1107-1115 | the order is by the kept chroot's time, the beginning of time when it is not there, then by id |
| Reclaim.ByAgeIsSorted | backend/aurcache-chroot/src/pool.rs:1107-1115 | the removal order lists every kept failure once, oldest first |
| Reclaim.RemoveOldestKept | backend/aurcache-chroot/src/pool.rs:1107-1120 | takes exactly the next kept failure of that order, and says whether there was one |
| Reclaim.ReclaimKept | backend/aurcache-chroot/src/pool.rs:1064-1072 | takes the shortest prefix after which the need fits at the reading made then, whatever running builds write meanwhile, or all |
| Reclaim.ReclaimRoom | backend/aurcache-chroot/src/pool.rs:1056-1080 | nothing when the need fits at once; else the shortest prefix of kept failures oldest first, the previous base only when all of them do not do, ending with the need fitting or nothing left |
| Reclaim.ReclaimedInFigures | backend/aurcache-chroot/src/pool.rs:1056-1090 | in figures: nothing is taken when used plus needed is within the limit at once; each failure taken was needed; in the end it is within the limit or no kept failure is left and `root.prev` is gone or stuck; `root.prev` goes only once they are all gone, and nothing else does |
| Reclaim.FitsExactlyWhen | backend/aurcache-chroot/src/pool.rs:1084-1090 | the need fits if and only if nothing is known or limited, or used plus needed is within the limit |
| Reclaim.RemovableStops | backend/aurcache-chroot/src/pool.rs:1056-1080 | the loop returns within as many rounds as there are entries when deletions take effect, whatever is read each round |
| Reclaim.AStuckEntryNeverStops | backend/aurcache-chroot/src/pool.rs:1107-1120 | with one kept entry that does not go, and a need that never fits, no number of rounds ends the loop |
| Reclaim.StopsForEveryNeed | backend/aurcache-chroot/src/pool.rs:1056-1120 | under a limit, and whatever usage each round reads, the loop comes to an end for every need if and only if every kept entry is removable |
| Resize.TheMarginIs | backend/aurcache-chroot/src/pool.rs:156-158 | the margin is the larger of a twentieth of the total and two GiB, unless `u64` cuts it short |
| Resize.SizeForIsMonotone | backend/aurcache-chroot/src/pool.rs:156-158 | a larger total never asks for less |
| Resize.TheFilesystemAlwaysFits | backend/aurcache-chroot/src/pool.rs:393-455 | through any calls and crashes the filesystem never exceeds file or device, and nothing shrinks before the limit it shrinks for is in force |
| Resize.TheSameTotalChangesNothing | backend/aurcache-chroot/src/pool.rs:408-418 | with the file at its size, any calls for that total with crashes and reattachments leave file and filesystem as they are |
| Resize.AnInterruptedGrowthIsNotFinished | backend/aurcache-chroot/src/pool.rs:408-418 | a crash after growing the file is not made good by any number of calls for the same total, crashes and reattachments |
| Resize.AndSaysItFits | backend/aurcache-chroot/src/pool.rs:408-455 | each such call sets the limit, changes no size and reports that it fits |
| Resize.AStaleDeviceReadsAsTooFull | backend/aurcache-chroot/src/pool.rs:419-451 | a device smaller than its file makes a shrink report `TooFull` though the filesystem is smaller than asked |
| Resize.AnInterruptedGrowthReadsAsTooFull | backend/aurcache-chroot/src/pool.rs:408-451 | the run that leads there: a growth that dies once the file has grown, then a total between the device's size and the file's |
| Resize.ImagePool.SetTotal | backend/aurcache-chroot/src/pool.rs:393-455 | which outcome, exactly, by which commands fail; `Fits` leaves the file at `size_for(total)` and says exactly when the filesystem follows; `TooFull` leaves all sizes and applies the limit |
| Resize.ImagePool.Grow | backend/aurcache-chroot/src/pool.rs:410-418 | file, device and filesystem end at `size_for(total)` or an error is reported, in an order that is a run of the protocol |
| Resize.ImagePool.Shrink | backend/aurcache-chroot/src/pool.rs:419-451 | filesystem and file end at `size_for(total)`, or nothing changes and the pool is marked oversized |
| Resize.DevicePool.SetTotal | backend/aurcache-chroot/src/pool.rs:393-407 | nothing is resized unless the limit is set, and the filesystem never exceeds the device |
| Resize.DevicePool.ResizeFilesystem | backend/aurcache-chroot/src/pool.rs:463-522 | the filesystem gets its size or all the device has; otherwise it keeps what it had and says so |
| Identity.NothingMeansNothing | backend/aurcache-ca/src/lib.rs:76-136 | a new CA is generated if and only if all three files are absent; what is found is validated |
| Identity.WhatIsLoaded | backend/aurcache-ca/src/lib.rs:87-136 | exactly when a pair is what is loaded: a valid pair of files before a valid record, and neither beside an unreadable record |
| Identity.FirstCreationInterrupted | backend/aurcache-ca/src/lib.rs:87-136 | a first creation cut off after the key alone is refused, later recovered as the same identity |
| Identity.InstallIsSafeExactlyWhen | backend/aurcache-ca/src/lib.rs:138-177 | over every store that loads, an install cut off anywhere leaves the identity in force or the new one, if and only if a stated condition on the certificate and the record holds |
| Identity.AnInterruptedInstallCanLoseAPlacedPair | backend/aurcache-ca/src/lib.rs:87-136 | a store without a record that is then refused, and one with a placed pair that then loads an older identity |
| Identity.RepairIsStableExactlyWhen | backend/aurcache-ca/src/lib.rs:76-81 | a repair cut off anywhere and rerun ends at the same identity, unless and only unless the certificate on disk fits the recorded key without being its own |
| Identity.AnInterruptedRepairCanChangeTheIdentity | backend/aurcache-ca/src/lib.rs:167-177 | a store where an interrupted repair changes what is loaded |
| Identity.RepairIsIdempotent | backend/aurcache-ca/src/lib.rs:76-81 | a repaired store loads the same identity and repairing it again changes nothing |
| Identity.TheIdentityIsNeverLost | backend/aurcache-ca/src/lib.rs:76-177 | over any run of installs, rotations, overwrites and crashes each followed by a load that may crash too, a valid pair is loaded: the settled one, the interrupted one, or the operator's |
| Identity.ThePairIsNeverMixed | backend/aurcache-ca/src/lib.rs:76-177 | where a certificate fits one key, the whole pair loaded is one of those and never a mixture |
| Identity.TwoInterruptedInstallsBringBackAnOlderIdentity | backend/aurcache-ca/src/lib.rs:138-177 | without a load in between, two interrupted installs can bring back the identity before both |
| Identity.CaStore.Persist | backend/aurcache-ca/src/lib.rs:167-177 | key, certificate, copy, in that order, up to where it dies |
| Identity.CaStore.LoadOrCreate | backend/aurcache-ca/src/lib.rs:76-81 | returns an identity exactly when nothing was refused and all writes were made; it is valid and is what all three files hold; a generated CA only over an empty store; a refusal changes nothing |
| Identity.CaStore.Install | backend/aurcache-ca/src/lib.rs:138-150 | an invalid pair changes nothing; a completed install is what is loaded next |
| Utf8.CharacterAt | backend/aurcache-common/src/api/build_log.rs:62-68 | in well-formed text the announced length of a lead byte is the character's length |
| Utf8.SliceIsUtf8 | backend/aurcache-common/src/api/build_log.rs:39-49 | text between two character boundaries is well-formed |
| Utf8.EncodedIsUtf8 | backend/aurcache-common/src/api/build_log.rs:51-68 | what any sequence of scalar values encodes to, by section 3 of RFC 3629, is well-formed |
| Utf8.Utf8IsEncoded | backend/aurcache-common/src/api/build_log.rs:51-68 | and whatever is well-formed is such an encoding |
| Utf8.AlignIsExact | backend/aurcache-common/src/api/build_log.rs:39-73 | for any page of any text, `align` starts at the first boundary in it and ends at the last one at or before its end, or skips it all |
| LogTail.OneDrainIsLineByLine | frontend-rs/src/log_tail.rs:52-81 | the single drain cuts where draining one leading line at a time would, for every window and cap |
| LogTail.TheTrimKeepsTheMost | frontend-rs/src/log_tail.rs:52-81 | the cut is the first line start that makes the rest fit, or the first character boundary where no line starts there |
| LogTail.TrimIsUtf8 | frontend-rs/src/log_tail.rs:52-81 | trimming well-formed text cuts on a character boundary and leaves well-formed text |
| LogTail.LogWindow.AppendCapped | frontend-rs/src/log_tail.rs:52-81 | the window is the line-by-line trim of window plus chunk, a suffix of it of at most `cap` bytes, the rest counted as discarded |
| LogTail.LogWindow.DropLeadingPartialLine | frontend-rs/src/log_tail.rs:110-114 | drops through the first newline, or nothing |
| LogTail.LogCursor.Position | frontend-rs/src/log_tail.rs:255-268 | stays exactly when the end is neither behind nor more than a window ahead; otherwise the end is within a window from there on and nothing a page could still reach is skipped, or the log shrank and is read from its start |
| LogTail.RepositionReaches | frontend-rs/src/log_tail.rs:99-102 | the cursor is never past the end, is within a window of it if and only if the log did not shrink to more than one, and always after a second time; a jump skips nothing a page could still reach |
| LogTail.AShrunkLogIsNotWithinReach | frontend-rs/src/log_tail.rs:255-268 | a cursor and a shrunk log where the page from there does not reach the end |
| LogTail.LogCursor.AppendPage | frontend-rs/src/log_tail.rs:271-285 | refines the specification the run theorem is about: window, offset and tail mark |
| LogTail.NothingIsDroppedExactlyWhen | frontend-rs/src/log_tail.rs:271-285 | a page that fits is shown whole after what there was, if and only if the window is not empty past the log's start or no line ends in the page |
| LogTail.AnEmptiedWindowLosesALine | frontend-rs/src/log_tail.rs:104-114 | a log and pages where a whole line is never shown |
| LogTail.AppendShows | frontend-rs/src/log_tail.rs:271-285 | a page of any length keeps the window exactly the bytes of the log ending at the offset |
| LogTail.ShownIsUtf8 | frontend-rs/src/log_tail.rs:271-285 | the window is well-formed text, so decoding it changes nothing |
| LogTail.TheWindowIsTheLog | frontend-rs/src/log_tail.rs:253-285 | over any run on a growing log, with restarts into the middle of a character, the window is exactly the log's bytes ending at the offset, and marked as a tail if and only if that is not all of them |
| LogPoll.BuildLogController.FetchPage | frontend-rs/src/build_log.rs:109-158 | one fetch is the specification's fetch: what is shown, and whether the recorded end was reached |
| LogPoll.BuildLogController.PollSettled | frontend-rs/src/build_log.rs:72-93 | a settled build is caught up within two answered fetches from any cursor, within one from inside the log, with the cursor at the very end |
| LogPoll.SettledFetch | frontend-rs/src/build_log.rs:109-158 | one answered fetch brings any cursor inside the log, and one from inside ends it at the log's size |
| LogPoll.TheEndIsShown | frontend-rs/src/build_log.rs:117-150 | a settled log more than a window ahead is shown to its end in one fetch: its last `cap` bytes from the first whole character, less a line cut short |
| LogPoll.TheLastLinesAreShown | frontend-rs/src/build_log.rs:117-150 | that is everything after the first newline of its last `cap` bytes |
| LogPoll.AShortLogIsShownWhole | frontend-rs/src/build_log.rs:117-150 | a log no longer than the window is shown whole when opened, unmarked |
| LogPoll.UnsizedFetch | frontend-rs/src/build_log.rs:141-148 | without a recorded size a fetch is taken for the last if and only if it is made at the end or at a character the log ends in the middle of, and any other gets further |
| LogPager.RenderOutput | backend/aurcache-cli/src/builds.rs:67-127 | terminates, and prints the log from the first character boundary at or after the offset to the last complete character, each byte once, cut at exactly the limit |
| LogPager.ExpectedOfACompleteLog | backend/aurcache-cli/src/builds.rs:67-127 | for a complete log that is everything from the first boundary on |
| Utf8.PageFacts | backend/aurcache-cli/src/builds.rs:91-104 | a page that can hold a character advances, or there is nothing more to print |
| Watch.SettledIsEither | backend/aurcache-common/src/build_state.rs:202-207 | a build has settled if and only if it has succeeded or failed |
| Watch.WatchIncludesExactly | backend/aurcache-cli/src/builds.rs:270-336 | `builds watch` follows, of its package if it has one, everything but what had finished when it began |
| Watch.WaitIncludesExactly | backend/aurcache-cli/src/builds.rs:283-336 | `--wait` follows what its trigger reported, what was not there before, and what of the package is unfinished |
| Watch.NamedIsIncluded | backend/aurcache-cli/src/builds.rs:292-336 | a named build is followed whatever its state |
| Watch.Tracked.Observe | backend/aurcache-cli/src/builds.rs:522-528 | the records after taking in the rows in scope, in order |
| Watch.Tracked.Ask | backend/aurcache-cli/src/builds.rs:419-425 | every build asked for is recorded as answered, or one cannot be found |
| Watch.Tracked.Refresh | backend/aurcache-cli/src/builds.rs:414-425 | one poll: its listings, then what they do not show |
| Watch.TheLastRowCounts | backend/aurcache-cli/src/builds.rs:414-418 | of several rows of a build the last in scope counts, the queue's listing over the page |
| Watch.NotFoundExactlyWhen | backend/aurcache-cli/src/builds.rs:419-425 | a poll fails if and only if the server does not know a build that is named and not found yet, or unfinished and off every listing |
| Watch.SettledIsLeftAlone | backend/aurcache-cli/src/builds.rs:537-548 | a settled record stays at every poll without a row of it in scope |
| Watch.FollowBuilds | backend/aurcache-cli/src/builds.rs:400-465 | stops at the first poll with a verdict or a reason to give up, and at no other |
| Watch.VerdictFromRecords | backend/aurcache-cli/src/builds.rs:440-465 | success if and only if every recorded build is successful; failure if and only if all are successful or failed and one is failed; not found if and only if a build could not be found |
| Watch.FollowedIsTracked | backend/aurcache-cli/src/builds.rs:414-426 | the tracked set only grows and is exactly the builds named or ever listed in scope |
| Watch.SuccessCoversEverythingFollowed | backend/aurcache-cli/src/builds.rs:414-465 | success means every one of them was last recorded successful |
| Watch.SuccessIsTheTruth | backend/aurcache-cli/src/builds.rs:400-465 | when the verdict is success, with reports of settled builds that are true by the end of their poll, and whatever is said of the others in between, every one of them is successful on the server |
| Watch.FailureIsTheTruth | backend/aurcache-cli/src/builds.rs:446-454 | likewise failure means one of them has failed on the server |
| Watch.AWaitCoversItsTrigger | backend/aurcache-cli/src/builds.rs:283-313 | `--wait` answers for what its trigger queued and for every build that appeared after its snapshot |
| Watch.StaleExactlyWhen | backend/aurcache-cli/src/builds.rs:320-336 | an unfinished record is re-read at a poll, by listing or by name, unless and only unless the build is listed with no row in scope |
| Watch.OwnBuildsAreAlwaysReread | backend/aurcache-cli/src/builds.rs:537-548 | an unfinished build that is explicit or not ignored is re-read at every poll |
| Watch.AnAdoptedBuildIsNeverSeenToFinish | backend/aurcache-cli/src/builds.rs:335-336 | a build in scope only by adoption, finished and still listed, keeps its unfinished record over any number of polls, and no verdict is reached |
| Watch.AdoptionCanHang | backend/aurcache-cli/src/builds.rs:301-336 | a trigger and a poll that lead there |
| Ranges.TrimExactly | backend/aurcache-api/src/custom_file_server.rs:156-165 | trimming takes all the blanks at either end and nothing else |
| Ranges.ParseRange | backend/aurcache-api/src/custom_file_server.rs:155-197 | a satisfiable answer has `start < end <= size`, also at saturation |
| Ranges.AgreesWithTheStandard | backend/aurcache-api/src/custom_file_server.rs:155-197 | for every single range RFC 9110 can write, in every spelling of the unit: written `bytes` it is ignored iff invalid or wider than `u64`, 416 iff it selects no byte, otherwise exactly the bytes it selects; in any other spelling it is ignored |
| Ranges.StandardRangesAnswered | backend/aurcache-api/src/custom_file_server.rs:155-197 | such a range is answered if and only if the unit is in lower case and the range is usable |
| Ranges.ACapitalIsIgnored | backend/aurcache-api/src/custom_file_server.rs:156-158 | `Bytes=0-9`, which the RFC writes, is ignored at every size |
| Ranges.EveryHeaderIsAnswered | backend/aurcache-api/src/custom_file_server.rs:155-197 | every header there is: one that is `bytes=`, two bounds around the first dash and no comma is answered as the range its digits write, any other ignored |
| Ranges.UnderstoodBeyondTheStandard | backend/aurcache-api/src/custom_file_server.rs:140-149 | a header the RFC does not write is understood if and only if it is a usable range but for blanks around it or its bounds or signs before its numbers |
| Ranges.SignsAndBlanksAreUnderstood | backend/aurcache-api/src/custom_file_server.rs:155-192 | `bytes=+0-+9` and `bytes=0 - 9`, which the RFC does not write, are satisfied |
| Ranges.EveryPartRoundTrips | backend/aurcache-api/src/custom_file_server.rs:93-113 | every non-empty part, asked for as it is reported, parses back to itself |
| Ranges.PartsReassemble | backend/aurcache-api/src/custom_file_server.rs:93-113 | a file fetched in consecutive parts, wherever cut, comes back whole |

## Left out

- Refresh: starts from a base that is there, checked and counted; `mkarchroot` making the first base, and an operator removing it, are not modelled. So the branch of recovery without a base is in the protocol but not reached.
- Lease: the removal of leftovers and the tidy before the first command, and the cleanup after a failure, are commands like any other task's there; changing owners and modes is left out.
- PoolDisk: a deletion takes effect whole or not at all, a subvolume's contents are not modelled, and new identities are assumed new. Group 1/1000, which would be build 0's, is not represented. A directory is any map from names; a real one has each text under one key, so the theorems range over more than real directories.
- Teardown.Pool.Sweep: `stuck` stands for deletions that do not take effect; the clearing of stale groups and the destruction of empty ones are assumed to work when btrfs does not refuse them.
- Teardown.Pool.KeepBuild: whether the tree is in the pool, and which commands fail, are parameters.
- Keep.AnInterruptedKeepIsSweptWhole: apart from expiry and making room, which are events of their own, other tasks leave this build's names alone and put nothing where its tree is; the tree is one volume under one name of the pool, counted against the total directly. The theorem is about the first sweep after the crash.
- Refresh.RecoveryConverges: no other task touches the modification times of the base's own directories.
- Reclaim.ReclaimRoom: requires that kept entries can be removed, because without that the loop does not terminate; `Reclaim.StopsForEveryNeed` says so both ways.
- Reclaim.ReclaimKept: no other task adds or removes kept failures while room is made; what they write meanwhile is covered.
- Resize.ImagePool.SetTotal: creating the total's group, reading an unreadable image as empty, and how an image is allocated are left out.
- Identity.CaStore.LoadOrCreate: the pair it generates is assumed valid; whether a certificate and a key match and are a CA's is an arbitrary relation. `write_private` is one atomic replacement, as backend/aurcache-common/src/fs.rs promises.
- Identity.TheIdentityIsNeverLost: starts from a complete identity, and nothing installs between an interruption and the next completed load.
- LogTail.TheWindowIsTheLog: the log is well-formed text; decoding of bytes that are not UTF-8 is left out. Offsets are unbounded.
- LogPoll.BuildLogController.PollSettled: the size is known and fixed; a request for the build's details that fails changes nothing and is not a poll here.
- LogPager.RenderOutput: pages hold at least four bytes, one character; below that a page can be all continuation bytes or never advance. What is printed is bytes, before a cut character is replaced.
- Watch.FollowBuilds: stalls, timeouts and heartbeats are a flag of each poll, and a watch that runs out of modelled polls counts as given up.
- Ranges.ParseRange: opening, seeking and streaming the file, and the rest of the handler.
- Running commands as root, formatting, mounting, loop devices, ZFS, and reading `btrfs` output.
- The cache subvolumes' own volumes, whose code is mostly privileged commands.
- X.509, PEM, key generation and signing.
- The server's routes, the database, OAuth and the workers' job protocol.
- The user interface, listings, editors, notices and themes: shallow beside the above.
