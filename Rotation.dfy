/**
 * One rotation pass: classify every volume of the listing, remove expired
 * backups as they are met, then check for the source volume and create
 * today's backup unless it already exists.
 *
 * The volume manager is abstract: the listing is a value (or unavailable),
 * and the k-th command the pass issues (counting from 0) succeeds exactly
 * when `callOk(k)` holds. A failing command ends the run at once; commands
 * issued before it stay done.
 */
module Rotation {
  import opened Wrappers
  import opened Dates
  import opened Naming

  datatype Volume = Volume(vg: string, name: string)

  /** What `lvs` reported: Unavailable when the command failed or its report is missing. */
  datatype Listing = Unavailable | Listed(volumes: seq<Volume>)

  /** The command-line arguments: source volume, its group, retention days, snapshot size. */
  datatype Config = Config(lv: string, vg: string, days: int, sizeGb: int)

  /** The commands the pass issues: `lvremove -f vg/name` and `lvcreate --snapshot vg/origin --name name`. */
  datatype Action =
    | Remove(vg: string, name: string)
    | Create(vg: string, origin: string, name: string, sizeGb: int)

  datatype Error =
    | DiscoveryFailed
    | InvalidDate(name: string)
    | SourceMissing
    | CommandFailed(action: Action)

  datatype Outcome = Success | Failure(error: Error)

  /** The commands issued, in order (a failing one last), and how the run ended. */
  datatype Run = Run(trace: seq<Action>, outcome: Outcome)

  /** How the pass treats one volume of the listing. */
  datatype Verdict =
    | Unrelated
    | Source
    | TodaysBackup
    | Keep(age: int)
    | Expire(age: int)
    | BadDate

  /** The retention rule: a snapshot goes when it is strictly older than the window. */
  predicate IsExpired(age: int, days: int) {
    age > days
  }

  /** The branches of the loop body, in the order the source tests them. */
  function Classify(cfg: Config, today: Date, v: Volume): Verdict
    requires Valid(today)
  {
    if v.vg != cfg.vg then Unrelated
    else if v.name == cfg.lv then Source
    else if v.name == TodaysName(cfg, today) then TodaysBackup
    else DatedVerdict(cfg, today, v.name)
  }

  /** The pattern match, the date it names and the retention rule, for any other name in the group. */
  function DatedVerdict(cfg: Config, today: Date, name: string): Verdict
    requires Valid(today)
  {
    match MatchBackup(cfg.lv, name)
    case None => Unrelated
    case Some(g) =>
      var (y, m, d) := GroupValues(g);
      match MakeDate(y, m, d)
      case None => BadDate
      case Some(date) =>
        var age := AgeDays(today, date);
        if IsExpired(age, cfg.days) then Expire(age) else Keep(age)
  }

  function TodaysName(cfg: Config, today: Date): string
    requires Valid(today)
  {
    BackupName(cfg.lv, today)
  }

  /** Some volume of the listing is `name` in group `vg`. */
  predicate Lists(vols: seq<Volume>, vg: string, name: string) {
    exists j :: 0 <= j < |vols| && vols[j].vg == vg && vols[j].name == name
  }

  predicate HasSource(cfg: Config, vols: seq<Volume>) {
    Lists(vols, cfg.vg, cfg.lv)
  }

  predicate HasTodaysBackup(cfg: Config, today: Date, vols: seq<Volume>)
    requires Valid(today)
  {
    Lists(vols, cfg.vg, TodaysName(cfg, today))
  }

  predicate IsBadDate(cfg: Config, today: Date, v: Volume)
    requires Valid(today)
  {
    Classify(cfg, today, v).BadDate?
  }

  /** The least index at or after `i` whose flag is set, or |flags| when none is. */
  function FirstSetFrom(flags: seq<bool>, i: nat): (k: nat)
    requires i <= |flags|
    ensures i <= k <= |flags|
    ensures forall j :: i <= j < k ==> !flags[j]
    ensures k < |flags| ==> flags[k]
    decreases |flags| - i
  {
    if i == |flags| || flags[i] then i else FirstSetFrom(flags, i + 1)
  }

  function BadDateFlags(cfg: Config, today: Date, vols: seq<Volume>): (flags: seq<bool>)
    requires Valid(today)
  {
    seq(|vols|, j requires 0 <= j < |vols| => IsBadDate(cfg, today, vols[j]))
  }

  /** Index of the first volume whose backup name carries an invalid date; |vols| if none. */
  function ScanEnd(cfg: Config, today: Date, vols: seq<Volume>): nat
    requires Valid(today)
  {
    FirstSetFrom(BadDateFlags(cfg, today, vols), 0)
  }

  /** The pass reaches index `k` exactly when no earlier volume carries an invalid date. */
  lemma ScanEndSpec(cfg: Config, today: Date, vols: seq<Volume>)
    requires Valid(today)
    ensures ScanEnd(cfg, today, vols) <= |vols|
    ensures forall j :: 0 <= j < ScanEnd(cfg, today, vols) ==> !IsBadDate(cfg, today, vols[j])
    ensures ScanEnd(cfg, today, vols) < |vols| ==> IsBadDate(cfg, today, vols[ScanEnd(cfg, today, vols)])
  {
    var flags := BadDateFlags(cfg, today, vols);
    var k := FirstSetFrom(flags, 0);
    forall j | 0 <= j < k ensures !IsBadDate(cfg, today, vols[j]) {
      assert !flags[j];
    }
    if k < |vols| {
      assert flags[k];
    }
  }

  /** The removals for the expired backups of `vols`, in listing order. */
  function Removals(cfg: Config, today: Date, vols: seq<Volume>): seq<Action>
    requires Valid(today)
    decreases |vols|
  {
    if vols == [] then []
    else
      var v := vols[|vols| - 1];
      Removals(cfg, today, vols[..|vols| - 1])
        + (if Classify(cfg, today, v).Expire? then [Remove(v.vg, v.name)] else [])
  }

  function CreateToday(cfg: Config, today: Date): Action
    requires Valid(today)
  {
    Create(cfg.vg, cfg.lv, TodaysName(cfg, today), cfg.sizeGb)
  }

  /**
   * The commands a pass over `vols` issues when every command succeeds, and
   * the outcome it then ends with: removals up to the first invalid date,
   * then the source check, then the create unless today's backup exists.
   */
  function Plan(cfg: Config, today: Date, vols: seq<Volume>): (seq<Action>, Outcome)
    requires Valid(today)
  {
    var k := ScanEnd(cfg, today, vols);
    var removals := Removals(cfg, today, vols[..k]);
    if k < |vols| then (removals, Failure(InvalidDate(vols[k].name)))
    else if !HasSource(cfg, vols) then (removals, Failure(SourceMissing))
    else if HasTodaysBackup(cfg, today, vols) then (removals, Success)
    else (removals + [CreateToday(cfg, today)], Success)
  }

  /** The least index in i .. n-1 whose command fails, or n when none does. */
  function FirstFailureFrom(n: nat, callOk: nat -> bool, i: nat): (k: nat)
    requires i <= n
    ensures i <= k <= n
    ensures forall j :: i <= j < k ==> callOk(j)
    ensures k < n ==> !callOk(k)
    decreases n - i
  {
    if i == n || !callOk(i) then i else FirstFailureFrom(n, callOk, i + 1)
  }

  /** Issue `calls` in order, stopping at the first one that fails. */
  function Execute(calls: seq<Action>, callOk: nat -> bool, ending: Outcome): Run {
    var k := FirstFailureFrom(|calls|, callOk, 0);
    if k < |calls| then Run(calls[..k + 1], Failure(CommandFailed(calls[k])))
    else Run(calls, ending)
  }

  /** The reference for one run of the script. */
  function Expected(cfg: Config, today: Date, listing: Listing, callOk: nat -> bool): Run
    requires Valid(today)
  {
    match listing
    case Unavailable => Run([], Failure(DiscoveryFailed))
    case Listed(vols) =>
      var (calls, ending) := Plan(cfg, today, vols);
      Execute(calls, callOk, ending)
  }

  lemma {:induction false} RemovalsAppend(cfg: Config, today: Date, a: seq<Volume>, b: seq<Volume>)
    requires Valid(today)
    ensures Removals(cfg, today, a + b) == Removals(cfg, today, a) + Removals(cfg, today, b)
    decreases |b|
  {
    if b == [] {
      assert a + b == a;
    } else {
      var b' := b[..|b| - 1];
      assert (a + b)[..|a + b| - 1] == a + b';
      RemovalsAppend(cfg, today, a, b');
    }
  }

  /** Once the first |prefix| commands have succeeded, a failing next command ends the run with it. */
  lemma ExecuteStopsAt(calls: seq<Action>, callOk: nat -> bool, ending: Outcome, prefix: seq<Action>, a: Action, rest: seq<Action>)
    requires calls == prefix + [a] + rest
    requires forall j :: 0 <= j < |prefix| ==> callOk(j)
    requires !callOk(|prefix|)
    ensures Execute(calls, callOk, ending) == Run(prefix + [a], Failure(CommandFailed(a)))
  {
    var k := FirstFailureFrom(|calls|, callOk, 0);
    assert k == |prefix|;
    assert calls[..k + 1] == prefix + [a];
  }

  /** When every command succeeds, all of them are issued and the planned outcome stands. */
  lemma ExecuteAllSucceed(calls: seq<Action>, callOk: nat -> bool, ending: Outcome)
    requires forall j :: 0 <= j < |calls| ==> callOk(j)
    ensures Execute(calls, callOk, ending) == Run(calls, ending)
  {
  }

  /** A volume with a valid date (or none) lets the pass go on to the next one. */
  lemma ScanContinues(cfg: Config, today: Date, vols: seq<Volume>, i: nat)
    requires Valid(today) && i < |vols|
    requires i <= ScanEnd(cfg, today, vols)
    requires !IsBadDate(cfg, today, vols[i])
    ensures i + 1 <= ScanEnd(cfg, today, vols)
  {
    ScanEndSpec(cfg, today, vols);
  }

  /** What one more volume of the listing adds to the removals and to the two flags. */
  lemma PassStep(cfg: Config, today: Date, vols: seq<Volume>, i: nat)
    requires Valid(today) && i < |vols|
    ensures Classify(cfg, today, vols[i]).Expire? ==>
      Removals(cfg, today, vols[..i + 1]) == Removals(cfg, today, vols[..i]) + [Remove(vols[i].vg, vols[i].name)]
    ensures !Classify(cfg, today, vols[i]).Expire? ==>
      Removals(cfg, today, vols[..i + 1]) == Removals(cfg, today, vols[..i])
    ensures HasSource(cfg, vols[..i + 1]) == (HasSource(cfg, vols[..i]) || Classify(cfg, today, vols[i]) == Source)
    ensures HasTodaysBackup(cfg, today, vols[..i + 1])
      == (HasTodaysBackup(cfg, today, vols[..i]) || Classify(cfg, today, vols[i]) == TodaysBackup)
  {
    RemovalsStep(cfg, today, vols, i);
    TodaysNameIsNotSource(cfg, today);
    var v := vols[i];
    assert Classify(cfg, today, v) == Source <==> v.vg == cfg.vg && v.name == cfg.lv;
    assert Classify(cfg, today, v) == TodaysBackup <==> v.vg == cfg.vg && v.name == TodaysName(cfg, today);
    FoundStep(vols, i, cfg.vg, cfg.lv);
    FoundStep(vols, i, cfg.vg, TodaysName(cfg, today));
  }

  lemma RemovalsStep(cfg: Config, today: Date, vols: seq<Volume>, i: nat)
    requires Valid(today) && i < |vols|
    ensures Classify(cfg, today, vols[i]).Expire? ==>
      Removals(cfg, today, vols[..i + 1]) == Removals(cfg, today, vols[..i]) + [Remove(vols[i].vg, vols[i].name)]
    ensures !Classify(cfg, today, vols[i]).Expire? ==>
      Removals(cfg, today, vols[..i + 1]) == Removals(cfg, today, vols[..i])
  {
    assert vols[..i + 1][..i] == vols[..i];
    if !Classify(cfg, today, vols[i]).Expire? {
      assert Removals(cfg, today, vols[..i]) + [] == Removals(cfg, today, vols[..i]);
    }
  }

  /** A volume named `name` in group `vg` is among the first i+1 exactly when it is among the first i or is the (i+1)-th. */
  lemma FoundStep(vols: seq<Volume>, i: nat, vg: string, name: string)
    requires i < |vols|
    ensures Lists(vols[..i + 1], vg, name) == (Lists(vols[..i], vg, name) || (vols[i].vg == vg && vols[i].name == name))
  {
    var p, q := vols[..i + 1], vols[..i];
    if Lists(p, vg, name) {
      var j :| 0 <= j < |p| && p[j].vg == vg && p[j].name == name;
      if j < i {
        assert q[j] == p[j];
      }
    }
    if Lists(q, vg, name) {
      var j :| 0 <= j < |q| && q[j].vg == vg && q[j].name == name;
      assert p[j] == q[j];
    }
    if vols[i].vg == vg && vols[i].name == name {
      assert p[i] == vols[i];
    }
  }

  /** Today's backup name is longer than the source name, so the two never coincide. */
  lemma TodaysNameIsNotSource(cfg: Config, today: Date)
    requires Valid(today)
    ensures TodaysName(cfg, today) != cfg.lv
  {
    FormatDateShape(cfg.lv, today);
  }

  /** The run that meets an invalid date at index i, having issued the removals before it. */
  lemma StopsAtBadDate(cfg: Config, today: Date, vols: seq<Volume>, callOk: nat -> bool, i: nat)
    requires Valid(today) && i < |vols|
    requires i <= ScanEnd(cfg, today, vols)
    requires IsBadDate(cfg, today, vols[i])
    requires forall j :: 0 <= j < |Removals(cfg, today, vols[..i])| ==> callOk(j)
    ensures Expected(cfg, today, Listed(vols), callOk)
      == Run(Removals(cfg, today, vols[..i]), Failure(InvalidDate(vols[i].name)))
  {
    ScanEndSpec(cfg, today, vols);
    var k := ScanEnd(cfg, today, vols);
    assert k == i;
    ExecuteAllSucceed(Removals(cfg, today, vols[..i]), callOk, Failure(InvalidDate(vols[i].name)));
  }

  /** The run whose removal of the expired backup at index i fails. */
  lemma StopsAtFailedRemoval(cfg: Config, today: Date, vols: seq<Volume>, callOk: nat -> bool, i: nat)
    requires Valid(today) && i < |vols|
    requires i < ScanEnd(cfg, today, vols)
    requires Classify(cfg, today, vols[i]).Expire?
    requires forall j :: 0 <= j < |Removals(cfg, today, vols[..i])| ==> callOk(j)
    requires !callOk(|Removals(cfg, today, vols[..i])|)
    ensures var removal := Remove(vols[i].vg, vols[i].name);
      Expected(cfg, today, Listed(vols), callOk)
        == Run(Removals(cfg, today, vols[..i]) + [removal], Failure(CommandFailed(removal)))
  {
    var (calls, ending) := Plan(cfg, today, vols);
    var trace := Removals(cfg, today, vols[..i]);
    var removal := Remove(vols[i].vg, vols[i].name);
    PlanContinuesWith(cfg, today, vols, i);
    ExecuteStopsAt(calls, callOk, ending, trace, removal, calls[|trace| + 1..]);
  }

  /** The removal of an expired backup the pass reaches follows the removals before it in the plan. */
  lemma PlanContinuesWith(cfg: Config, today: Date, vols: seq<Volume>, i: nat)
    requires Valid(today) && i < |vols|
    requires i < ScanEnd(cfg, today, vols)
    requires Classify(cfg, today, vols[i]).Expire?
    ensures var calls, trace := Plan(cfg, today, vols).0, Removals(cfg, today, vols[..i]);
      |trace| < |calls| && calls == trace + [Remove(vols[i].vg, vols[i].name)] + calls[|trace| + 1..]
  {
    var calls := Plan(cfg, today, vols).0;
    var p := Removals(cfg, today, vols[..i]) + [Remove(vols[i].vg, vols[i].name)];
    var r := Removals(cfg, today, vols[..ScanEnd(cfg, today, vols)]);
    PlanStartsWithRemovals(cfg, today, vols);
    RemovalPrecedes(cfg, today, vols, i, ScanEnd(cfg, today, vols));
    assert p <= calls by {
      assert p == r[..|p|] && r == calls[..|r|];
      assert calls[..|r|][..|p|] == calls[..|p|];
    }
    assert calls == p + calls[|p|..] by {
      assert calls == calls[..|p|] + calls[|p|..];
    }
  }

  /** The plan opens with the removals of the volumes before the first invalid date. */
  lemma PlanStartsWithRemovals(cfg: Config, today: Date, vols: seq<Volume>)
    requires Valid(today)
    ensures Removals(cfg, today, vols[..ScanEnd(cfg, today, vols)]) <= Plan(cfg, today, vols).0
  {
    var r := Removals(cfg, today, vols[..ScanEnd(cfg, today, vols)]);
    var calls := Plan(cfg, today, vols).0;
    assert calls == r + [] || calls == r + [CreateToday(cfg, today)];
  }

  /** The removal of an expired volume at index i comes right after the removals before it. */
  lemma RemovalPrecedes(cfg: Config, today: Date, vols: seq<Volume>, i: nat, k: nat)
    requires Valid(today) && i < k <= |vols|
    requires Classify(cfg, today, vols[i]).Expire?
    ensures Removals(cfg, today, vols[..i]) + [Remove(vols[i].vg, vols[i].name)] <= Removals(cfg, today, vols[..k])
  {
    var rest := Removals(cfg, today, vols[i + 1..k]);
    assert vols[..k] == vols[..i + 1] + vols[i + 1..k];
    RemovalsAppend(cfg, today, vols[..i + 1], vols[i + 1..k]);
    RemovalsStep(cfg, today, vols, i);
  }

  /** The run that gets through the whole listing with every removal done. */
  lemma EndsAfterPass(cfg: Config, today: Date, vols: seq<Volume>, callOk: nat -> bool)
    requires Valid(today)
    requires ScanEnd(cfg, today, vols) == |vols|
    requires forall j :: 0 <= j < |Removals(cfg, today, vols)| ==> callOk(j)
    ensures var trace, create := Removals(cfg, today, vols), CreateToday(cfg, today);
      Expected(cfg, today, Listed(vols), callOk)
        == if !HasSource(cfg, vols) then Run(trace, Failure(SourceMissing))
           else if HasTodaysBackup(cfg, today, vols) then Run(trace, Success)
           else if !callOk(|trace|) then Run(trace + [create], Failure(CommandFailed(create)))
           else Run(trace + [create], Success)
  {
    assert vols[..|vols|] == vols;
    var trace, create := Removals(cfg, today, vols), CreateToday(cfg, today);
    var (calls, ending) := Plan(cfg, today, vols);
    if HasSource(cfg, vols) && !HasTodaysBackup(cfg, today, vols) {
      if callOk(|trace|) {
        ExecuteAllSucceed(calls, callOk, ending);
      } else {
        ExecuteStopsAt(calls, callOk, ending, trace, create, []);
      }
    } else {
      ExecuteAllSucceed(calls, callOk, ending);
    }
  }

  /** The first n commands all succeed. */
  predicate Succeeded(callOk: nat -> bool, n: nat) {
    forall j :: 0 <= j < n ==> callOk(j)
  }

  lemma SucceededStep(callOk: nat -> bool, n: nat)
    requires Succeeded(callOk, n) && callOk(n)
    ensures Succeeded(callOk, n + 1)
  {
  }

  /**
   * The loop of the script's main block: one pass over the listing that
   * keeps the "source found" and "today's backup found" flags and issues each
   * removal as it meets it. It either ends the run early (an invalid date or
   * a failed removal), or gets through the listing with every removal done.
   */
  method Pass(cfg: Config, today: Date, vols: seq<Volume>, callOk: nat -> bool)
      returns (trace: seq<Action>, sourceFound: bool, backupFound: bool, stopped: Option<Run>)
    requires Valid(today)
    ensures stopped.Some? ==> stopped.value == Expected(cfg, today, Listed(vols), callOk)
    ensures stopped.None? ==> ScanEnd(cfg, today, vols) == |vols| && trace == Removals(cfg, today, vols)
    ensures stopped.None? ==> Succeeded(callOk, |trace|)
    ensures stopped.None? ==> sourceFound == HasSource(cfg, vols) && backupFound == HasTodaysBackup(cfg, today, vols)
  {
    sourceFound, backupFound, trace := false, false, [];
    for i := 0 to |vols|
      invariant i <= ScanEnd(cfg, today, vols)
      invariant trace == Removals(cfg, today, vols[..i])
      invariant Succeeded(callOk, |trace|)
      invariant sourceFound == HasSource(cfg, vols[..i])
      invariant backupFound == HasTodaysBackup(cfg, today, vols[..i])
    {
      var v := vols[i];
      PassStep(cfg, today, vols, i);
      var verdict := Classify(cfg, today, v);
      if verdict.BadDate? {
        StopsAtBadDate(cfg, today, vols, callOk, i);
        return trace, sourceFound, backupFound, Some(Run(trace, Failure(InvalidDate(v.name))));
      }
      ScanContinues(cfg, today, vols, i);
      if verdict.Expire? {
        var removal := Remove(v.vg, v.name);
        if !callOk(|trace|) {
          StopsAtFailedRemoval(cfg, today, vols, callOk, i);
          return trace, sourceFound, backupFound, Some(Run(trace + [removal], Failure(CommandFailed(removal))));
        }
        SucceededStep(callOk, |trace|);
        trace := trace + [removal];
        assert trace == Removals(cfg, today, vols[..i + 1]);
      } else {
        assert trace == Removals(cfg, today, vols[..i + 1]);
      }
      sourceFound := sourceFound || verdict == Source;
      backupFound := backupFound || verdict == TodaysBackup;
    }
    ScanEndSpec(cfg, today, vols);
    assert vols[..|vols|] == vols;
    stopped := None;
  }

  /**
   * The script's main block: the listing, the pass over it, then the source
   * check and the create unless today's backup was found.
   */
  method Rotate(cfg: Config, today: Date, listing: Listing, callOk: nat -> bool) returns (run: Run)
    requires Valid(today)
    ensures run == Expected(cfg, today, listing, callOk)
  {
    if listing.Unavailable? {
      return Run([], Failure(DiscoveryFailed));
    }
    var vols := listing.volumes;
    var trace, sourceFound, backupFound, stopped := Pass(cfg, today, vols, callOk);
    if stopped.Some? {
      return stopped.value;
    }
    EndsAfterPass(cfg, today, vols, callOk);
    if !sourceFound {
      return Run(trace, Failure(SourceMissing));
    }
    if backupFound {
      return Run(trace, Success);
    }
    var create := CreateToday(cfg, today);
    if !callOk(|trace|) {
      return Run(trace + [create], Failure(CommandFailed(create)));
    }
    return Run(trace + [create], Success);
  }
}
