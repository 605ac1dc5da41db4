/**
 * What one rotation run promises, stated over the reference `Expected` that
 * `Rotation.Rotate` is proved to compute.
 */
module RotationProperties {
  import opened Wrappers
  import opened Dates
  import opened Naming
  import opened Rotation

  /** The volume a removal names. */
  function Target(a: Action): Volume
    requires a.Remove?
  {
    Volume(a.vg, a.name)
  }

  /**
   * Only an old backup of the source volume in the target group is ever
   * marked for removal: never a volume of another group, never the source
   * itself, never today's backup, and only one strictly older than the window.
   */
  lemma ExpireOnlyOldBackups(cfg: Config, today: Date, v: Volume)
    requires Valid(today) && Classify(cfg, today, v).Expire?
    ensures v.vg == cfg.vg && v.name != cfg.lv && v.name != TodaysName(cfg, today)
    ensures MatchBackup(cfg.lv, v.name).Some?
    ensures Shaped(v.name, BackupPrefix(cfg.lv), MatchBackup(cfg.lv, v.name).value)
    ensures Classify(cfg, today, v).age > cfg.days
  {
    MatchSound(cfg.lv, v.name);
  }

  /**
   * The verdict on the backup named for date `d`: today's backup when `d` is
   * today, otherwise removed exactly when its age exceeds the window.
   */
  lemma BackupVerdict(cfg: Config, today: Date, d: Date)
    requires Valid(today) && Valid(d)
    ensures Classify(cfg, today, Volume(cfg.vg, BackupName(cfg.lv, d)))
      == if d == today then TodaysBackup
         else if AgeDays(today, d) > cfg.days then Expire(AgeDays(today, d))
         else Keep(AgeDays(today, d))
  {
    FormatDateShape(cfg.lv, d);
    assert BackupName(cfg.lv, d) != cfg.lv;
    if d != today {
      if BackupName(cfg.lv, d) == TodaysName(cfg, today) {
        BackupNameInjective(cfg.lv, d, today);
      }
      MatchBackupName(cfg.lv, d);
    }
  }

  /** A backup dated after today (a skewed clock) is kept whatever the window, as long as it is not negative. */
  lemma FutureBackupKept(cfg: Config, today: Date, d: Date)
    requires Valid(today) && Valid(d) && Before(today, d) && cfg.days >= 0
    ensures AgeDays(today, d) < 0
    ensures Classify(cfg, today, Volume(cfg.vg, BackupName(cfg.lv, d))) == Keep(AgeDays(today, d))
  {
    AgeSign(today, d);
    BackupVerdict(cfg, today, d);
  }

  /**
   * The boundary is strict: the backup exactly `days` old is kept and the one
   * a calendar day older is removed.
   */
  lemma RetentionBoundary(cfg: Config, today: Date, d: Date)
    requires Valid(today) && Valid(d) && d != Date(MaxYear, 12, 31) && cfg.days >= 0
    requires Valid(Next(d)) && AgeDays(today, Next(d)) == cfg.days
    ensures Classify(cfg, today, Volume(cfg.vg, BackupName(cfg.lv, d))) == Expire(cfg.days + 1)
    ensures Next(d) != today ==> Classify(cfg, today, Volume(cfg.vg, BackupName(cfg.lv, Next(d)))) == Keep(cfg.days)
  {
    AgeOfPreviousDay(today, d);
    AgeSign(today, d);
    BackupVerdict(cfg, today, d);
    BackupVerdict(cfg, today, Next(d));
  }

  lemma {:induction false} RemovalsAreExpired(cfg: Config, today: Date, vols: seq<Volume>, a: Action)
    requires Valid(today) && a in Removals(cfg, today, vols)
    ensures a.Remove? && Target(a) in vols && Classify(cfg, today, Target(a)).Expire?
    decreases |vols|
  {
    var init := vols[..|vols| - 1];
    var v := vols[|vols| - 1];
    if a in Removals(cfg, today, init) {
      RemovalsAreExpired(cfg, today, init, a);
      assert Target(a) in init;
    } else {
      assert a == Remove(v.vg, v.name);
      assert Target(a) == v;
    }
  }

  /** The run issues a prefix of the planned commands. */
  lemma TraceIsPlanPrefix(cfg: Config, today: Date, vols: seq<Volume>, callOk: nat -> bool)
    requires Valid(today)
    ensures var calls, trace := Plan(cfg, today, vols).0, Expected(cfg, today, Listed(vols), callOk).trace;
      |trace| <= |calls| && trace == calls[..|trace|]
  {
  }

  /** The planned commands: the removals up to the first invalid date, then at most the create. */
  lemma PlanShape(cfg: Config, today: Date, vols: seq<Volume>)
    requires Valid(today)
    ensures var calls, k := Plan(cfg, today, vols).0, ScanEnd(cfg, today, vols);
      calls == Removals(cfg, today, vols[..k])
      || calls == Removals(cfg, today, vols[..k]) + [CreateToday(cfg, today)]
  {
  }

  /**
   * Every removal the run issues names a volume of the listing that is an
   * expired backup of the source in the target group: never another group's
   * volume, never the source, never today's backup.
   */
  lemma RunRemovesOnlyExpired(cfg: Config, today: Date, vols: seq<Volume>, callOk: nat -> bool, a: Action)
    requires Valid(today) && a in Expected(cfg, today, Listed(vols), callOk).trace && a.Remove?
    ensures Target(a) in vols && Classify(cfg, today, Target(a)).Expire?
    ensures a.vg == cfg.vg && a.name != cfg.lv && a.name != TodaysName(cfg, today)
  {
    var k := ScanEnd(cfg, today, vols);
    ScanEndSpec(cfg, today, vols);
    TraceIsPlanPrefix(cfg, today, vols, callOk);
    PlanShape(cfg, today, vols);
    var calls := Plan(cfg, today, vols).0;
    assert a in calls;
    assert a in Removals(cfg, today, vols[..k]);
    RemovalsAreExpired(cfg, today, vols[..k], a);
    ExpireOnlyOldBackups(cfg, today, Target(a));
  }

  /** No command is a create except, possibly, the last one, and that one creates today's backup. */
  lemma CreateComesLast(cfg: Config, today: Date, vols: seq<Volume>, callOk: nat -> bool, j: nat)
    requires Valid(today)
    requires j < |Expected(cfg, today, Listed(vols), callOk).trace|
    requires Expected(cfg, today, Listed(vols), callOk).trace[j].Create?
    ensures var trace := Expected(cfg, today, Listed(vols), callOk).trace;
      j == |trace| - 1 && trace[j] == CreateToday(cfg, today)
  {
    var k := ScanEnd(cfg, today, vols);
    TraceIsPlanPrefix(cfg, today, vols, callOk);
    PlanShape(cfg, today, vols);
    var calls := Plan(cfg, today, vols).0;
    var removals := Removals(cfg, today, vols[..k]);
    assert calls[j].Create?;
    if j < |removals| {
      assert calls[j] == removals[j];
      RemovalsAreExpired(cfg, today, vols[..k], removals[j]);
    }
  }

  /** Any create the run issues is the last planned command. */
  lemma CreateOnlyAfterPass(cfg: Config, today: Date, vols: seq<Volume>, callOk: nat -> bool)
    requires Valid(today)
    ensures var trace := Expected(cfg, today, Listed(vols), callOk).trace;
      (exists j :: 0 <= j < |trace| && trace[j].Create?)
        ==> ScanEnd(cfg, today, vols) == |vols| && HasSource(cfg, vols) && !HasTodaysBackup(cfg, today, vols)
  {
    var trace := Expected(cfg, today, Listed(vols), callOk).trace;
    if j :| 0 <= j < |trace| && trace[j].Create? {
      CreateComesLast(cfg, today, vols, callOk, j);
      var k := ScanEnd(cfg, today, vols);
      TraceIsPlanPrefix(cfg, today, vols, callOk);
      var calls := Plan(cfg, today, vols).0;
      assert calls[j].Create?;
      if !(k == |vols| && HasSource(cfg, vols) && !HasTodaysBackup(cfg, today, vols)) {
        assert calls == Removals(cfg, today, vols[..k]);
        RemovalsAreExpired(cfg, today, vols[..k], calls[j]);
      }
    }
  }

  /** If the source volume is not in the target group, the run fails and creates nothing. */
  lemma MissingSourceFails(cfg: Config, today: Date, vols: seq<Volume>, callOk: nat -> bool)
    requires Valid(today) && !HasSource(cfg, vols)
    ensures Expected(cfg, today, Listed(vols), callOk).outcome.Failure?
    ensures var trace := Expected(cfg, today, Listed(vols), callOk).trace;
      forall j :: 0 <= j < |trace| ==> !trace[j].Create?
  {
    CreateOnlyAfterPass(cfg, today, vols, callOk);
  }

  /** If today's backup already exists, the run creates nothing. */
  lemma ExistingBackupNotRecreated(cfg: Config, today: Date, vols: seq<Volume>, callOk: nat -> bool)
    requires Valid(today) && HasTodaysBackup(cfg, today, vols)
    ensures var trace := Expected(cfg, today, Listed(vols), callOk).trace;
      forall j :: 0 <= j < |trace| ==> !trace[j].Create?
  {
    CreateOnlyAfterPass(cfg, today, vols, callOk);
  }

  /**
   * A failing command ends the run: every command before the last one
   * succeeded, and the run fails with a command error exactly when the last
   * command failed, naming that command.
   */
  lemma StopsAtFirstFailure(cfg: Config, today: Date, listing: Listing, callOk: nat -> bool)
    requires Valid(today)
    ensures var run := Expected(cfg, today, listing, callOk);
      (forall j :: 0 <= j < |run.trace| - 1 ==> callOk(j))
      && ((run.outcome.Failure? && run.outcome.error.CommandFailed?)
          <==> (|run.trace| > 0 && !callOk(|run.trace| - 1)))
      && ((run.outcome.Failure? && run.outcome.error.CommandFailed?)
          ==> run.outcome.error.action == run.trace[|run.trace| - 1])
  {
    if listing.Listed? {
      var (calls, ending) := Plan(cfg, today, listing.volumes);
      ExecuteFailsAtLast(calls, callOk, ending);
    }
  }

  /** Issuing a list of commands stops at the first one that fails and reports it. */
  lemma ExecuteFailsAtLast(calls: seq<Action>, callOk: nat -> bool, ending: Outcome)
    requires !(ending.Failure? && ending.error.CommandFailed?)
    ensures var run := Execute(calls, callOk, ending);
      run.trace <= calls
      && (forall j :: 0 <= j < |run.trace| - 1 ==> callOk(j))
      && ((run.outcome.Failure? && run.outcome.error.CommandFailed?)
          <==> (|run.trace| > 0 && !callOk(|run.trace| - 1)))
      && ((run.outcome.Failure? && run.outcome.error.CommandFailed?)
          ==> run.outcome.error.action == run.trace[|run.trace| - 1])
  {
    var k := FirstFailureFrom(|calls|, callOk, 0);
    if k == |calls| && |calls| > 0 {
      assert callOk(|calls| - 1);
    }
  }

  /**
   * A run that ends in success got the source, met no invalid date, had every
   * command succeed, removed exactly the expired backups of the whole listing
   * in listing order, and then created today's backup unless it existed.
   */
  lemma SuccessfulRun(cfg: Config, today: Date, listing: Listing, callOk: nat -> bool)
    requires Valid(today) && Expected(cfg, today, listing, callOk).outcome == Success
    ensures listing.Listed?
    ensures var vols, trace := listing.volumes, Expected(cfg, today, listing, callOk).trace;
      HasSource(cfg, vols)
      && (forall j :: 0 <= j < |vols| ==> !IsBadDate(cfg, today, vols[j]))
      && (forall j :: 0 <= j < |trace| ==> callOk(j))
      && trace == Removals(cfg, today, vols)
                  + (if HasTodaysBackup(cfg, today, vols) then [] else [CreateToday(cfg, today)])
  {
    var vols := listing.volumes;
    ScanEndSpec(cfg, today, vols);
    assert vols[..|vols|] == vols;
  }

  /**
   * With the source present, no invalid date and every command succeeding,
   * the run succeeds.
   */
  lemma HealthyRunSucceeds(cfg: Config, today: Date, vols: seq<Volume>, callOk: nat -> bool)
    requires Valid(today) && HasSource(cfg, vols)
    requires forall j :: 0 <= j < |vols| ==> !IsBadDate(cfg, today, vols[j])
    requires forall j: nat :: callOk(j)
    ensures Expected(cfg, today, Listed(vols), callOk).outcome == Success
  {
    ScanEndSpec(cfg, today, vols);
  }

  /** A matching name with an impossible date aborts the run before any create. */
  lemma InvalidDateAborts(cfg: Config, today: Date, vols: seq<Volume>, callOk: nat -> bool, i: nat)
    requires Valid(today) && i < |vols| && IsBadDate(cfg, today, vols[i])
    ensures Expected(cfg, today, Listed(vols), callOk).outcome.Failure?
    ensures var trace := Expected(cfg, today, Listed(vols), callOk).trace;
      forall j :: 0 <= j < |trace| ==> !trace[j].Create?
  {
    ScanEndSpec(cfg, today, vols);
    CreateOnlyAfterPass(cfg, today, vols, callOk);
  }

  /** The listing with every volume equal to `v` gone, the others in their order. */
  function Without(vols: seq<Volume>, v: Volume): (r: seq<Volume>)
    ensures forall u :: u in r <==> u in vols && u != v
    decreases |vols|
  {
    if vols == [] then []
    else
      var last := vols[|vols| - 1];
      assert vols == vols[..|vols| - 1] + [last];
      Without(vols[..|vols| - 1], v) + (if last == v then [] else [last])
  }

  /** The volume group once command `a` has taken effect: `lvremove` drops the volume, `lvcreate` adds the snapshot. */
  function Carry(vols: seq<Volume>, a: Action): seq<Volume> {
    match a
    case Remove(vg, name) => Without(vols, Volume(vg, name))
    case Create(vg, _, name, _) => vols + [Volume(vg, name)]
  }

  /** The volume group once every command of `trace` has taken effect, in order. */
  function ListingAfter(vols: seq<Volume>, trace: seq<Action>): seq<Volume>
    decreases |trace|
  {
    if trace == [] then vols
    else Carry(ListingAfter(vols, trace[..|trace| - 1]), trace[|trace| - 1])
  }

  /** A listed volume that no command of `trace` removes is still there once the commands have taken effect. */
  lemma {:induction false} Untouched(vols: seq<Volume>, trace: seq<Action>, u: Volume)
    requires u in vols && Remove(u.vg, u.name) !in trace
    ensures u in ListingAfter(vols, trace)
    decreases |trace|
  {
    if trace != [] {
      var init := trace[..|trace| - 1];
      assert trace == init + [trace[|trace| - 1]];
      Untouched(vols, init, u);
    }
  }

  /** After removals only, a volume is there exactly when it was listed and no removal names it. */
  lemma {:induction false} AfterRemovals(vols: seq<Volume>, trace: seq<Action>)
    requires forall j :: 0 <= j < |trace| ==> trace[j].Remove?
    ensures forall u :: u in ListingAfter(vols, trace) <==> u in vols && Remove(u.vg, u.name) !in trace
    decreases |trace|
  {
    if trace != [] {
      var init, a := trace[..|trace| - 1], trace[|trace| - 1];
      assert trace == init + [a];
      AfterRemovals(vols, init);
      assert a == Remove(Target(a).vg, Target(a).name);
    }
  }

  /** Every expired backup of the listing gets its removal. */
  lemma {:induction false} RemovalsComplete(cfg: Config, today: Date, vols: seq<Volume>, u: Volume)
    requires Valid(today) && u in vols && Classify(cfg, today, u).Expire?
    ensures Remove(u.vg, u.name) in Removals(cfg, today, vols)
    decreases |vols|
  {
    var init, last := vols[..|vols| - 1], vols[|vols| - 1];
    assert vols == init + [last];
    if u != last {
      RemovalsComplete(cfg, today, init, u);
    }
  }

  /** Carrying out the removals leaves exactly the listed volumes that are not expired backups. */
  lemma RemovalsLeave(cfg: Config, today: Date, vols: seq<Volume>)
    requires Valid(today)
    ensures var after := ListingAfter(vols, Removals(cfg, today, vols));
      forall u :: u in after <==> u in vols && !Classify(cfg, today, u).Expire?
  {
    var r := Removals(cfg, today, vols);
    forall j | 0 <= j < |r| ensures r[j].Remove? {
      RemovalsAreExpired(cfg, today, vols, r[j]);
    }
    AfterRemovals(vols, r);
    forall u | u in vols
      ensures Remove(u.vg, u.name) in r <==> Classify(cfg, today, u).Expire?
    {
      if Remove(u.vg, u.name) in r {
        RemovalsAreExpired(cfg, today, vols, Remove(u.vg, u.name));
      }
      if Classify(cfg, today, u).Expire? {
        RemovalsComplete(cfg, today, vols, u);
      }
    }
  }

  /**
   * The volume group a successful run leaves: the listed volumes that were
   * not expired backups, plus today's backup if the run created it.
   */
  lemma AfterSuccess(cfg: Config, today: Date, vols: seq<Volume>, callOk: nat -> bool)
    requires Valid(today) && Expected(cfg, today, Listed(vols), callOk).outcome == Success
    ensures var after := ListingAfter(vols, Expected(cfg, today, Listed(vols), callOk).trace);
      var todays := Volume(cfg.vg, TodaysName(cfg, today));
      forall u :: u in after <==> (u in vols && !Classify(cfg, today, u).Expire?)
                                  || (!HasTodaysBackup(cfg, today, vols) && u == todays)
  {
    SuccessfulRun(cfg, today, Listed(vols), callOk);
    var r := Removals(cfg, today, vols);
    RemovalsLeave(cfg, today, vols);
    if !HasTodaysBackup(cfg, today, vols) {
      var t := r + [CreateToday(cfg, today)];
      assert t[..|t| - 1] == r;
    } else {
      assert r + [] == r;
    }
  }

  lemma {:induction false} NoRemovals(cfg: Config, today: Date, vols: seq<Volume>)
    requires Valid(today)
    requires forall j :: 0 <= j < |vols| ==> !Classify(cfg, today, vols[j]).Expire?
    ensures Removals(cfg, today, vols) == []
    decreases |vols|
  {
    if vols != [] {
      NoRemovals(cfg, today, vols[..|vols| - 1]);
    }
  }

  /** The volume group a successful run leaves holds no expired backup and no invalid date. */
  lemma AfterIsSettled(cfg: Config, today: Date, vols: seq<Volume>, callOk: nat -> bool)
    requires Valid(today) && Expected(cfg, today, Listed(vols), callOk).outcome == Success
    ensures var after := ListingAfter(vols, Expected(cfg, today, Listed(vols), callOk).trace);
      forall j :: 0 <= j < |after| ==> !Classify(cfg, today, after[j]).Expire? && !IsBadDate(cfg, today, after[j])
  {
    SuccessfulRun(cfg, today, Listed(vols), callOk);
    AfterSuccess(cfg, today, vols, callOk);
    TodaysNameIsNotSource(cfg, today);
    var after := ListingAfter(vols, Expected(cfg, today, Listed(vols), callOk).trace);
    var todays := Volume(cfg.vg, TodaysName(cfg, today));
    assert Classify(cfg, today, todays) == TodaysBackup;
    forall j | 0 <= j < |after|
      ensures !Classify(cfg, today, after[j]).Expire? && !IsBadDate(cfg, today, after[j])
    {
      assert after[j] in after;
      if after[j] != todays {
        var i :| 0 <= i < |vols| && vols[i] == after[j];
      }
    }
  }

  /**
   * A listed volume that is not an expired backup is still there however far
   * the run got: after any prefix of the commands it issued has taken effect.
   */
  lemma KeptVolumeRemains(cfg: Config, today: Date, vols: seq<Volume>, callOk: nat -> bool, i: nat, n: nat)
    requires Valid(today) && i < |vols| && !Classify(cfg, today, vols[i]).Expire?
    requires n <= |Expected(cfg, today, Listed(vols), callOk).trace|
    ensures vols[i] in ListingAfter(vols, Expected(cfg, today, Listed(vols), callOk).trace[..n])
  {
    var trace := Expected(cfg, today, Listed(vols), callOk).trace;
    var a := Remove(vols[i].vg, vols[i].name);
    if a in trace[..n] {
      RunRemovesOnlyExpired(cfg, today, vols, callOk, a);
      assert false;
    }
    Untouched(vols, trace[..n], vols[i]);
  }

  /** The source volume and today's backup are both in the volume group a successful run leaves. */
  lemma AfterHasSourceAndBackup(cfg: Config, today: Date, vols: seq<Volume>, callOk: nat -> bool)
    requires Valid(today) && Expected(cfg, today, Listed(vols), callOk).outcome == Success
    ensures var after := ListingAfter(vols, Expected(cfg, today, Listed(vols), callOk).trace);
      HasSource(cfg, after) && HasTodaysBackup(cfg, today, after)
  {
    SuccessfulRun(cfg, today, Listed(vols), callOk);
    AfterSuccess(cfg, today, vols, callOk);
    TodaysNameIsNotSource(cfg, today);
    var after := ListingAfter(vols, Expected(cfg, today, Listed(vols), callOk).trace);
    var source, todays := Volume(cfg.vg, cfg.lv), Volume(cfg.vg, TodaysName(cfg, today));
    var s :| 0 <= s < |vols| && vols[s].vg == cfg.vg && vols[s].name == cfg.lv;
    assert vols[s] == source && Classify(cfg, today, source) == Source;
    assert source in after;
    var m :| 0 <= m < |after| && after[m] == source;
    if HasTodaysBackup(cfg, today, vols) {
      var t :| 0 <= t < |vols| && vols[t].vg == cfg.vg && vols[t].name == TodaysName(cfg, today);
      assert vols[t] == todays && Classify(cfg, today, todays) == TodaysBackup;
    }
    assert todays in after;
    var n :| 0 <= n < |after| && after[n] == todays;
  }

  /**
   * Running again on the same day, against the volume group a successful run
   * left behind, issues no command at all and succeeds.
   */
  lemma RerunIsNoOp(cfg: Config, today: Date, vols: seq<Volume>, callOk: nat -> bool, callOk': nat -> bool)
    requires Valid(today) && Expected(cfg, today, Listed(vols), callOk).outcome == Success
    ensures var after := ListingAfter(vols, Expected(cfg, today, Listed(vols), callOk).trace);
      Expected(cfg, today, Listed(after), callOk') == Run([], Success)
  {
    AfterIsSettled(cfg, today, vols, callOk);
    AfterHasSourceAndBackup(cfg, today, vols, callOk);
    QuietRun(cfg, today, ListingAfter(vols, Expected(cfg, today, Listed(vols), callOk).trace), callOk');
  }

  /** A listing with the source, today's backup, nothing expired and no invalid date needs no command. */
  lemma QuietRun(cfg: Config, today: Date, vols: seq<Volume>, callOk: nat -> bool)
    requires Valid(today) && HasSource(cfg, vols) && HasTodaysBackup(cfg, today, vols)
    requires forall j :: 0 <= j < |vols| ==> !Classify(cfg, today, vols[j]).Expire? && !IsBadDate(cfg, today, vols[j])
    ensures Expected(cfg, today, Listed(vols), callOk) == Run([], Success)
  {
    NoRemovals(cfg, today, vols);
    ScanEndSpec(cfg, today, vols);
    assert ScanEnd(cfg, today, vols) == |vols|;
    assert vols[..|vols|] == vols;
    assert Plan(cfg, today, vols) == ([], Success);
  }
}
