# lvm-auto-snapshot rotation, modelled in Dafny

`lvm-auto-snapshot.py` keeps dated read-only snapshots of one LVM logical
volume. Each run does four things:

1. It lists the volumes (`lvs`).
2. It removes every snapshot named `<lv>_backup_YYYY.MM.DD` whose date is more
   than `--days` days before today.
3. It checks that the source volume exists.
4. It creates today's snapshot, unless one with today's name already exists.

Any command that fails ends the run with exit status 1.

This project models that rotation core. Proofs cover:

- the calendar arithmetic the age of a snapshot comes from;
- the snapshot naming scheme and its pattern match;
- the order of the commands a run issues;
- what a run promises about them.

Modules:

- `Wrappers`: the `Option` type.
- `Dates`: Python's `datetime.date` on years 1–9999 (proleptic Gregorian).
  - `MakeDate` returns `None` where the constructor raises `ValueError`.
  - `Ordinal` is `toordinal()`.
  - `AgeDays` is `(today - d).days`.
  - The closed-form day counts are proved equal to year-by-year and
    month-by-month sums.
  - Ordinal order is proved to agree with calendar order.
- `Naming`:
  - `FormatDate` models `strftime("%Y.%m.%d")`, and `BackupName` builds a
    snapshot's name.
  - `MatchBackup` is `lvRe.match`, written as a left-to-right scanner over
    three greedy ASCII digit runs. It is proved sound and complete against
    the shape predicate `Shaped`.
  - A round-trip lemma shows that matching the name built for a date gives
    back that date.
- `Rotation`: the data model and the reference behaviour.
  - `Volume` is a listing entry. `Listing` is either `Unavailable` or
    `Listed`. `Config` holds the command-line values.
  - `Action` is a command: `lvremove` or `lvcreate`.
  - `Outcome` is `Success` (exit status 0) or `Failure(error)` (exit
    status 1).
  - `Classify` decides what the loop does with one volume.
  - `Plan` lists the commands a run issues when all of them succeed.
  - `Execute` stops at the first failing command.
  - `Expected` is the reference for a whole run.
  - `Rotate` is the script's main block. It calls `Pass`, the loop over
    the listing with its invariants, then makes the final checks. It is
    proved to return exactly `Expected`.
- `RotationProperties`: what a run promises. `ListingAfter` gives the
  volume group once the commands of a trace have taken effect: `lvremove`
  drops the named volume, `lvcreate` adds the snapshot. Examples:
  - It removes only expired backups of the source volume in the target group.
  - A create comes last and only after a complete pass.
  - A missing source or an invalid date fails the run.
  - The run stops at the first failing command.
  - The retention boundary is strict.
  - A second run on the same day, against the listing the first one left,
    issues no command.
- `Scenarios`: two concrete runs.
  - A 14-day window on 20 January 2024: one removal and one create.
  - A name dated `99.99.99`: the run aborts.

The volume manager is a parameter:

- The listing is a value.
- `callOk: nat -> bool` says whether the k-th command the run issues
  succeeds.
- A run returns the commands it issued (`trace`) and its outcome.

## Model

| member | source | states |
|---|---|---|
| Dates.DaysBeforeYearIsTotal | lvm-auto-snapshot.py:100 | the closed-form count of days before a year, which date subtraction uses, equals the sum of the lengths of all earlier years |
| Dates.DaysBeforeMonthIsTotal | lvm-auto-snapshot.py:100 | the cumulative month table equals the sum of the lengths of the earlier months of that year, leap February included |
| Dates.DaysBeforeNextYear | lvm-auto-snapshot.py:100 | going from one year to the next adds exactly 365 or 366 days, by the leap rule |
| Dates.MonthBoundaries | lvm-auto-snapshot.py:100 | each month starts the day after the previous one ends, and December ends with the year |
| Dates.NextIsOneDayLater | lvm-auto-snapshot.py:100 | the calendar day after a valid date (other than 9999-12-31) is valid, later, and has an ordinal one larger |
| Dates.OrdinalWithinYear | lvm-auto-snapshot.py:100 | a date's ordinal lies between the first and the last day of its year |
| Dates.OrdinalOrder | lvm-auto-snapshot.py:100 | an earlier date has a smaller ordinal |
| Dates.AgeSign | lvm-auto-snapshot.py:100 | a snapshot's age is positive exactly for a past date, zero exactly for today, negative exactly for a future date |
| Dates.AgeOfPreviousDay | lvm-auto-snapshot.py:100 | a snapshot one calendar day older is exactly one day older |
| Naming.MatchBackup | lvm-auto-snapshot.py:93 | the three groups of a match are ASCII digit strings, so `int()` of each cannot fail for any name LVM allows; the model reads any digit run by its value, with no digit limit |
| Naming.MatchSound | lvm-auto-snapshot.py:80 | a matched name is `<lv>_backup_` then three non-empty digit runs separated by dots, and the character after the third run (if any) is not a digit |
| Naming.MatchComplete | lvm-auto-snapshot.py:80 | every name of that shape is matched, with exactly those three runs as its groups |
| Naming.CandidateIff | lvm-auto-snapshot.py:93 | a name is matched if and only if it has the backup shape, whatever follows the third run |
| Naming.FormatDateShape | lvm-auto-snapshot.py:71 | today's name has 4, 2 and 2 digit fields, has the backup shape, and its fields read back as the year, month and day |
| Naming.MatchBackupName | lvm-auto-snapshot.py:83 | round trip: the backup name built for a date is matched, and its groups give back that date |
| Naming.BackupNameInjective | lvm-auto-snapshot.py:83 | different dates give different backup names |
| Rotation.ScanEndSpec | lvm-auto-snapshot.py:99 | the loop reaches index k exactly when no earlier volume carries an invalid date |
| Rotation.TodaysNameIsNotSource | lvm-auto-snapshot.py:88-90 | today's backup name never equals the source name, so the source test cannot hide today's backup |
| Rotation.PassStep | lvm-auto-snapshot.py:85-105 | one more volume adds its removal if it is expired and nothing otherwise, and sets the source and today's-backup flags exactly when it is that volume |
| Rotation.ExecuteStopsAt | lvm-auto-snapshot.py:48-49 | a run issues commands up to and including the first failing one, and fails naming it |
| Rotation.ExecuteAllSucceed | lvm-auto-snapshot.py:48-49 | when every command succeeds, all of them are issued and the planned outcome stands |
| Rotation.StopsAtBadDate | lvm-auto-snapshot.py:99 | a run that meets an invalid date has issued exactly the removals before it, and fails naming that volume |
| Rotation.StopsAtFailedRemoval | lvm-auto-snapshot.py:103 | when a removal fails, the run has issued the earlier removals and that one, and fails naming it |
| Rotation.EndsAfterPass | lvm-auto-snapshot.py:107-118 | after a complete pass: fail if the source is missing, else succeed if today's backup exists, else issue the create and succeed exactly when it succeeds |
| Rotation.Pass | lvm-auto-snapshot.py:82-105 | the loop either ends the run exactly as the reference does, or finishes the listing having issued all of its removals, with both flags equal to their definitions |
| Rotation.Rotate | lvm-auto-snapshot.py:74-118 | a run issues exactly the commands of the reference run, in the same order, and ends with the same outcome |
| RotationProperties.ExpireOnlyOldBackups | lvm-auto-snapshot.py:87-103 | a volume marked for removal is in the target group, is neither the source nor today's backup, has the backup shape, and is strictly older than the window |
| RotationProperties.BackupVerdict | lvm-auto-snapshot.py:90-105 | the backup named for a date is today's backup when the date is today; otherwise it is removed exactly when its age exceeds the window |
| RotationProperties.FutureBackupKept | lvm-auto-snapshot.py:100-105 | a backup dated after today has a negative age and is kept, for any window of zero days or more |
| RotationProperties.RetentionBoundary | lvm-auto-snapshot.py:101 | the backup exactly `days` old is kept, and the one a day older is removed with age `days + 1` |
| RotationProperties.RemovalsAreExpired | lvm-auto-snapshot.py:101-103 | every planned removal names a volume of the listing that was marked expired |
| RotationProperties.TraceIsPlanPrefix | lvm-auto-snapshot.py:48-49 | the commands a run issues are a prefix of the planned ones |
| RotationProperties.PlanShape | lvm-auto-snapshot.py:85-118 | the plan is the removals up to the first invalid date, followed by at most the create |
| RotationProperties.RunRemovesOnlyExpired | lvm-auto-snapshot.py:87-103 | every removal a run issues names an expired backup from the listing; never another group's volume, the source, or today's backup |
| RotationProperties.CreateComesLast | lvm-auto-snapshot.py:116-118 | a create can only be the last command, and it creates today's backup |
| RotationProperties.CreateOnlyAfterPass | lvm-auto-snapshot.py:107-118 | a run issues a create only if it passed the whole listing, found the source, and did not find today's backup |
| RotationProperties.MissingSourceFails | lvm-auto-snapshot.py:107-110 | without the source volume, the run fails and creates nothing |
| RotationProperties.ExistingBackupNotRecreated | lvm-auto-snapshot.py:112-114 | if today's backup already exists, the run creates nothing |
| RotationProperties.StopsAtFirstFailure | lvm-auto-snapshot.py:48-49 | every command before the last one succeeded; the run fails with a command error exactly when its last command failed, naming that command |
| RotationProperties.ExecuteFailsAtLast | lvm-auto-snapshot.py:48-49 | issuing a command list yields a prefix of it that stops at, and reports, the first failing command |
| RotationProperties.SuccessfulRun | lvm-auto-snapshot.py:82-120 | a successful run had the listing and the source, met no invalid date, and had every command succeed; it removed exactly the expired backups in listing order, then created today's backup unless it existed |
| RotationProperties.HealthyRunSucceeds | lvm-auto-snapshot.py:82-120 | with the source present, no invalid date, and every command succeeding, the run succeeds |
| RotationProperties.InvalidDateAborts | lvm-auto-snapshot.py:99 | a matched name with an impossible date fails the run, and nothing is created |
| RotationProperties.Without | lvm-auto-snapshot.py:103 | removing a volume leaves exactly the other volumes of the group |
| RotationProperties.Untouched | lvm-auto-snapshot.py:103-105 | a volume that no command of a trace removes is still there once the trace has taken effect |
| RotationProperties.AfterRemovals | lvm-auto-snapshot.py:101-105 | after removals only, a volume is there exactly when it was listed and no removal names it |
| RotationProperties.RemovalsComplete | lvm-auto-snapshot.py:101-105 | every expired backup in the listing gets an `lvremove` |
| RotationProperties.RemovalsLeave | lvm-auto-snapshot.py:101-105 | once the run's removals have taken effect, the group holds exactly the listed volumes that are not expired backups |
| RotationProperties.AfterSuccess | lvm-auto-snapshot.py:85-118 | once the commands of a successful run have taken effect, the group holds exactly the listed volumes that were not expired backups, plus today's backup if the run created it |
| RotationProperties.NoRemovals | lvm-auto-snapshot.py:101 | a listing with nothing expired yields no removal |
| RotationProperties.AfterIsSettled | lvm-auto-snapshot.py:85-118 | once the commands of a successful run have taken effect, the group holds no expired backup and no invalid date |
| RotationProperties.KeptVolumeRemains | lvm-auto-snapshot.py:104-105 | a listed volume that is not an expired backup is still there after any prefix of the run's commands, failed run or not |
| RotationProperties.AfterHasSourceAndBackup | lvm-auto-snapshot.py:107-118 | once the commands of a successful run have taken effect, the group holds both the source and today's backup |
| RotationProperties.QuietRun | lvm-auto-snapshot.py:107-114 | a listing with the source, today's backup, nothing expired and no invalid date leads to no command and success |
| RotationProperties.RerunIsNoOp | lvm-auto-snapshot.py:112-114 | a second run on the same day, against the group left once the first successful run's commands have taken effect, issues no command and succeeds |
| Scenarios.JanuaryVerdicts | lvm-auto-snapshot.py:87-105 | with a 14-day window on 2024-01-20, the 19-day-old backup is expired, the 10-day-old one kept, and the source recognised |
| Scenarios.FourteenDayWindow | lvm-auto-snapshot.py:85-118 | that run removes `data_backup_2024.01.01`, then creates `data_backup_2024.01.20`, and succeeds |
| Scenarios.ImpossibleDateStopsRun | lvm-auto-snapshot.py:99 | a listing holding `data_backup_99.99.99` aborts the run before any command, even with the source present |

## Left out

- Argument parsing, logging and verbosity (lines 57–69 and every `logging` call) are left out. `Config` carries the four parsed values, and no log line changes which commands run.
- Command text, `shlex` splitting, `subprocess` and the captured output (lines 39–53) are left out. Each command is an `Action` value, and whether it succeeds comes from the `callOk` parameter.
- Decoding the `lvs` report (lines 74–78 and 85) is reduced to two cases. These all become `Listing.Unavailable`, which gives `Failure(DiscoveryFailed)`:
  - a failing `lvs`;
  - JSON that does not parse;
  - a report without `"report"`;
  - a report whose `data["report"][0]["lv"]` lookup at line 85 raises `IndexError` or `KeyError` before the loop starts.

  Every such case ends the script with status 1 before any command is issued. A report whose entries lack `vg_name` or `lv_name` would make the script raise part-way through the loop. The model takes every entry as well-formed.
- The clock is a parameter. The script reads it at `now()` on line 71 for today's name, and at `today()` on line 100 once per matched name for ages. The model uses one `today` for both, so a run that straddles midnight is not modelled.
- Rotation.Rotate: concurrent changes to the volume group by another process during a run are not modelled.
- Naming.MatchBackup: the pattern at line 80 interpolates `--lv` without escaping it. The model reads the volume name as literal text. In the script, a name holding regular-expression characters matches different names:
  - `.` widens the match. With `--lv a.b`, a backup of another volume such as `axb_backup_2024.01.01` in the same group can be classified and removed.
  - `+` changes the match. With `--lv a+b`, the pattern matches `ab_backup_…` and `aab_backup_…` but never `a+b_backup_…`, so the script never recognises or prunes its own backups.
  - A name that starts with `+`, or holds `+++`, makes `re.compile` at line 80 raise. The script then exits with status 1 before issuing any command, while the model reads the name literally and runs the rotation.
- Naming.FormatDateShape: the model pads `%Y` to four digits. glibc's `strftime` prints years below 1000 without padding, so before year 1000 today's name differs from the script's. Matching and ages are unaffected.
- The model does not separate two kinds of failure that the script distinguishes only in their messages:
  - a date that `datetime.date` rejects (line 99), a rejected year included;
  - a value too large for a C integer (`OverflowError`).

  The script exits with status 1 in both cases. The model reports `Failure(InvalidDate(name))`, because neither names a valid date.
- Naming.DigitsValue: the model reads any digit run by its value, with no digit limit. Python 3.11 and later refuse `int()` of a string of more than 4300 digits, leading zeros included. So `data_backup_` followed by 4297 zeros and `2024.01.01` makes the script raise at line 96, while the model reads the year as 2024 and goes on. That limit only applies to names far longer than the 127 characters LVM allows, so it cannot arise from a real `lvs` listing.
- The invalid-date policy follows the code. The exception at line 99 is not caught, so the run aborts after the removals already issued, and nothing after that volume is handled. The model does not skip the volume and carry on.
- The missing-source check follows the code's exit status, not its message:
  - The loop sets `found` (line 89), but only `lvFound` is initialised (line 82).
  - When the source is absent, `if found:` at line 107 raises `NameError` rather than printing "Could not find LV".
  - In both cases the exit status is 1. The model reports `Failure(SourceMissing)`.
- Messages, tracebacks and exit codes beyond 0 and 1 are left out. `Outcome` distinguishes only success from the kind of failure.
