/**
 * The snapshot naming scheme: the name built for a date, and the start-anchored
 * match of `<lv>_backup_([0-9]+)\.([0-9]+)\.([0-9]+)` written as a direct scan.
 * The source volume name `lv` is treated as a literal prefix.
 */
module Naming {
  import opened Wrappers
  import opened Dates

  predicate IsDigit(c: char) {
    '0' <= c <= '9'
  }

  predicate AllDigits(s: string) {
    forall i :: 0 <= i < |s| ==> IsDigit(s[i])
  }

  function Digit(k: nat): char
    requires k < 10
  {
    ('0' as int + k) as char
  }

  /** Python's `int()` of a string of ASCII digits; leading zeros are allowed. */
  function DigitsValue(s: string): nat
    requires AllDigits(s)
    decreases |s|
  {
    if s == [] then 0 else DigitsValue(s[..|s| - 1]) * 10 + (s[|s| - 1] as int - '0' as int)
  }

  /** The shortest decimal representation of `n`, most significant digit first. */
  function Decimal(n: nat): string
    decreases n
  {
    if n < 10 then [Digit(n)] else Decimal(n / 10) + [Digit(n % 10)]
  }

  function Zeros(k: nat): string {
    seq(k, _ => '0')
  }

  /** `n` written in decimal and zero-padded on the left to at least `width` characters. */
  function Padded(n: nat, width: nat): string {
    var s := Decimal(n);
    if |s| >= width then s else Zeros(width - |s|) + s
  }

  /** `strftime("%Y.%m.%d")`. */
  function FormatDate(d: Date): string
    requires Valid(d)
  {
    Padded(d.year, 4) + ("." + (Padded(d.month, 2) + ("." + Padded(d.day, 2))))
  }

  function BackupPrefix(lv: string): string {
    lv + "_backup_"
  }

  /** The name of the snapshot of `lv` taken on date `d`. */
  function BackupName(lv: string, d: Date): string
    requires Valid(d)
  {
    BackupPrefix(lv) + FormatDate(d)
  }

  /** The three digit runs the pattern captures, and whatever follows the match. */
  datatype Groups = Groups(year: string, month: string, day: string, rest: string)

  /** The three runs separated by dots, then whatever follows them. */
  function Spelled(g: Groups): string {
    g.year + ("." + (g.month + ("." + (g.day + g.rest))))
  }

  /** `s` is `p` followed by three non-empty digit runs separated by dots, then `g.rest`. */
  predicate Shaped(s: string, p: string, g: Groups) {
    g.year != [] && g.month != [] && g.day != []
    && AllDigits(g.year) && AllDigits(g.month) && AllDigits(g.day)
    && s == p + Spelled(g)
  }

  /**
   * `lvRe.match(name)`: the pattern anchored at the start of `name` only, so
   * anything after the third digit run is left unmatched.
   */
  function MatchBackup(lv: string, name: string): (r: Option<Groups>)
    ensures r.Some? ==> AllDigits(r.value.year) && AllDigits(r.value.month) && AllDigits(r.value.day)
  {
    var p := BackupPrefix(lv);
    if p <= name then ScanGroups(name[|p|..], [], []) else None
  }

  /**
   * The scan after the prefix: `done` holds the digit runs already closed by
   * a dot and `cur` the run being read. Each `[0-9]+` is greedy, and a
   * shorter run could only be followed by another digit, never by the `.`
   * the pattern needs next, so every group is a maximal digit run.
   */
  function ScanGroups(s: string, done: seq<string>, cur: string): (r: Option<Groups>)
    requires |done| <= 2 && AllDigits(cur)
    requires forall k :: 0 <= k < |done| ==> AllDigits(done[k])
    ensures r.Some? ==> AllDigits(r.value.year) && AllDigits(r.value.month) && AllDigits(r.value.day)
    decreases |s|
  {
    if s != [] && IsDigit(s[0]) then ScanGroups(s[1..], done, cur + [s[0]])
    else if cur == [] then None
    else if |done| == 2 then Some(Groups(done[0], done[1], cur, s))
    else if s != [] && s[0] == '.' then ScanGroups(s[1..], done + [cur], [])
    else None
  }

  /** The text the scan has consumed for the closed runs: each run followed by its dot. */
  function Closed(done: seq<string>): string
    decreases |done|
  {
    if done == [] then [] else Closed(done[..|done| - 1]) + done[|done| - 1] + "."
  }

  /** Reading a digit run moves it, whole, onto the run being read. */
  lemma {:induction false} ScanDigits(d: string, t: string, done: seq<string>, cur: string)
    requires |done| <= 2 && AllDigits(cur) && AllDigits(d)
    requires forall k :: 0 <= k < |done| ==> AllDigits(done[k])
    ensures AllDigits(cur + d)
    ensures ScanGroups(d + t, done, cur) == ScanGroups(t, done, cur + d)
    decreases |d|
  {
    if d == [] {
      assert d + t == t && cur + d == cur;
    } else {
      assert (d + t)[0] == d[0] && (d + t)[1..] == d[1..] + t;
      assert cur + [d[0]] + d[1..] == cur + d;
      ScanDigits(d[1..], t, done, cur + [d[0]]);
    }
  }

  /** Once two runs are closed and a third is under way, the scan always succeeds. */
  lemma {:induction false} ScanFinishes(t: string, done: seq<string>, cur: string)
    requires |done| == 2 && AllDigits(cur) && cur != []
    requires forall k :: 0 <= k < |done| ==> AllDigits(done[k])
    ensures ScanGroups(t, done, cur).Some?
    decreases |t|
  {
    if t != [] && IsDigit(t[0]) {
      ScanFinishes(t[1..], done, cur + [t[0]]);
    }
  }

  /** What the scan returns spells out every character it was given. */
  lemma {:induction false} ScanText(s: string, done: seq<string>, cur: string)
    requires |done| <= 2 && AllDigits(cur)
    requires forall k :: 0 <= k < |done| ==> AllDigits(done[k])
    requires ScanGroups(s, done, cur).Some?
    ensures Closed(done) + cur + s == Spelled(ScanGroups(s, done, cur).value)
    decreases |s|
  {
    if s != [] && IsDigit(s[0]) {
      ScanText(s[1..], done, cur + [s[0]]);
      ShiftDigit(Closed(done), cur, s);
    } else if |done| == 2 {
      ClosedPair(done, cur, s);
    } else {
      ScanText(s[1..], done + [cur], []);
      CloseRun(done, cur, s);
    }
  }

  /** The runs the scan returns are non-empty, and the third is not followed by a digit. */
  lemma {:induction false} ScanRuns(s: string, done: seq<string>, cur: string)
    requires |done| <= 2 && AllDigits(cur)
    requires forall k :: 0 <= k < |done| ==> AllDigits(done[k]) && done[k] != []
    requires ScanGroups(s, done, cur).Some?
    ensures var g := ScanGroups(s, done, cur).value;
      g.year != [] && g.month != [] && g.day != [] && (g.rest == [] || !IsDigit(g.rest[0]))
    decreases |s|
  {
    if s != [] && IsDigit(s[0]) {
      ScanRuns(s[1..], done, cur + [s[0]]);
    } else if |done| < 2 {
      ScanRuns(s[1..], done + [cur], []);
    }
  }

  lemma ShiftDigit(c: string, cur: string, s: string)
    requires s != []
    ensures c + (cur + [s[0]]) + s[1..] == c + cur + s
  {
    assert [s[0]] + s[1..] == s;
  }

  lemma CloseRun(done: seq<string>, cur: string, s: string)
    requires s != [] && s[0] == '.'
    ensures Closed(done + [cur]) + [] + s[1..] == Closed(done) + cur + s
  {
    assert (done + [cur])[..|done|] == done;
    assert "." + s[1..] == s;
  }

  lemma ClosedPair(done: seq<string>, cur: string, s: string)
    requires |done| == 2
    ensures Closed(done) + cur + s == done[0] + ("." + (done[1] + ("." + (cur + s))))
  {
    assert done[..1] == [done[0]];
    assert [done[0]][..0] == [];
    assert Closed([done[0]]) == [] + done[0] + ".";
    assert Closed(done) == [] + done[0] + "." + done[1] + ".";
  }

  /**
   * Soundness of the match: a matched name is `<lv>_backup_` followed by three
   * non-empty digit runs separated by dots, and the day run is not followed by
   * a further digit.
   */
  lemma MatchSound(lv: string, name: string)
    requires MatchBackup(lv, name).Some?
    ensures Shaped(name, BackupPrefix(lv), MatchBackup(lv, name).value)
    ensures var rest := MatchBackup(lv, name).value.rest; rest == [] || !IsDigit(rest[0])
  {
    var p := BackupPrefix(lv);
    var t := name[|p|..];
    assert MatchBackup(lv, name) == ScanGroups(t, [], []);
    ScanText(t, [], []);
    ScanRuns(t, [], []);
    assert Closed([]) + [] + t == t;
    PrefixSplit(p, name);
  }

  lemma PrefixSplit(p: string, s: string)
    requires p <= s
    ensures s == p + s[|p|..]
  {
  }

  /**
   * Completeness of the match: a name of the backup shape whose day run is
   * not followed by a further digit is matched, with exactly those groups.
   */
  lemma MatchComplete(lv: string, name: string, g: Groups)
    requires Shaped(name, BackupPrefix(lv), g)
    requires g.rest == [] || !IsDigit(g.rest[0])
    ensures MatchBackup(lv, name) == Some(g)
  {
    var p := BackupPrefix(lv);
    assert name[|p|..] == Spelled(g);
    ScanShaped(g);
  }

  /** Every name of the backup shape is matched, whatever follows the third run. */
  lemma ShapedIsMatched(lv: string, name: string, g: Groups)
    requires Shaped(name, BackupPrefix(lv), g)
    ensures MatchBackup(lv, name).Some?
  {
    var p := BackupPrefix(lv);
    assert name[|p|..] == Spelled(g);
    ScanShaped(g);
    ScanFinishes(g.rest, [g.year, g.month], g.day);
  }

  /** Scanning three runs closes the first two and leaves the third under way before what follows it. */
  lemma ScanShaped(g: Groups)
    requires g.year != [] && g.month != [] && g.day != []
    requires AllDigits(g.year) && AllDigits(g.month) && AllDigits(g.day)
    ensures ScanGroups(Spelled(g), [], []) == ScanGroups(g.rest, [g.year, g.month], g.day)
  {
    var s3 := g.day + g.rest;
    var s2 := g.month + ("." + s3);
    var s1 := g.year + ("." + s2);
    assert ScanGroups(s1, [], []) == ScanGroups("." + s2, [], g.year) by {
      ScanDigits(g.year, "." + s2, [], []);
      assert [] + g.year == g.year;
    }
    assert ScanGroups("." + s2, [], g.year) == ScanGroups(s2, [g.year], []) by {
      assert ("." + s2)[1..] == s2;
      assert [] + [g.year] == [g.year];
    }
    assert ScanGroups(s2, [g.year], []) == ScanGroups("." + s3, [g.year], g.month) by {
      ScanDigits(g.month, "." + s3, [g.year], []);
      assert [] + g.month == g.month;
    }
    assert ScanGroups("." + s3, [g.year], g.month) == ScanGroups(s3, [g.year, g.month], []) by {
      assert ("." + s3)[1..] == s3;
      assert [g.year] + [g.month] == [g.year, g.month];
    }
    assert ScanGroups(s3, [g.year, g.month], []) == ScanGroups(g.rest, [g.year, g.month], g.day) by {
      ScanDigits(g.day, g.rest, [g.year, g.month], []);
      assert [] + g.day == g.day;
    }
  }

  /**
   * A name is a backup candidate exactly when it begins with `<lv>_backup_`
   * followed by three non-empty digit runs separated by dots; whatever comes
   * after the third run is ignored.
   */
  lemma CandidateIff(lv: string, name: string)
    ensures MatchBackup(lv, name).Some? <==> exists g :: Shaped(name, BackupPrefix(lv), g)
  {
    if MatchBackup(lv, name).Some? {
      MatchSound(lv, name);
    }
    if g :| Shaped(name, BackupPrefix(lv), g) {
      ShapedIsMatched(lv, name, g);
    }
  }

  function Pow10(k: nat): nat {
    if k == 0 then 1 else 10 * Pow10(k - 1)
  }

  /** The decimal representation is a non-empty digit string with value `n` and at most `k` digits below 10^k. */
  lemma {:induction false} DecimalDigits(n: nat, k: nat)
    requires 1 <= k && n < Pow10(k)
    ensures AllDigits(Decimal(n)) && 1 <= |Decimal(n)| <= k
    ensures DigitsValue(Decimal(n)) == n
    decreases n
  {
    if n >= 10 {
      assert k > 1;
      assert n / 10 < Pow10(k - 1);
      DecimalDigits(n / 10, k - 1);
      var s := Decimal(n);
      assert s[..|s| - 1] == Decimal(n / 10);
    }
  }

  /** Leading zeros do not change the value `int()` reads. */
  lemma {:induction false} LeadingZerosValue(k: nat, s: string)
    requires AllDigits(s)
    ensures AllDigits(Zeros(k) + s)
    ensures DigitsValue(Zeros(k) + s) == DigitsValue(s)
    decreases |s|
  {
    if s == [] {
      assert Zeros(k) + s == Zeros(k);
      ZerosValue(k);
    } else {
      var z := Zeros(k) + s;
      assert z[..|z| - 1] == Zeros(k) + s[..|s| - 1];
      LeadingZerosValue(k, s[..|s| - 1]);
    }
  }

  lemma {:induction false} ZerosValue(k: nat)
    ensures AllDigits(Zeros(k)) && DigitsValue(Zeros(k)) == 0
    decreases k
  {
    if k > 0 {
      assert Zeros(k)[..k - 1] == Zeros(k - 1);
      ZerosValue(k - 1);
    }
  }

  /** A number below 10^w, zero-padded to width w, is w digits whose value is the number. */
  lemma PaddedDigits(n: nat, w: nat)
    requires 1 <= w && n < Pow10(w)
    ensures AllDigits(Padded(n, w)) && |Padded(n, w)| == w
    ensures DigitsValue(Padded(n, w)) == n
  {
    DecimalDigits(n, w);
    if |Decimal(n)| < w {
      LeadingZerosValue(w - |Decimal(n)|, Decimal(n));
    }
  }

  /**
   * Today's backup name is `<lv>_backup_` followed by the year in four digits,
   * a dot, the month in two digits, a dot and the day in two digits.
   */
  lemma FormatDateShape(lv: string, d: Date)
    requires Valid(d)
    ensures var g := Groups(Padded(d.year, 4), Padded(d.month, 2), Padded(d.day, 2), "");
      |g.year| == 4 && |g.month| == 2 && |g.day| == 2
      && Shaped(BackupName(lv, d), BackupPrefix(lv), g)
      && GroupValues(g) == (d.year, d.month, d.day)
  {
    assert Pow10(2) == 100 && Pow10(4) == 10000;
    PaddedDigits(d.year, 4);
    PaddedDigits(d.month, 2);
    PaddedDigits(d.day, 2);
    var g := Groups(Padded(d.year, 4), Padded(d.month, 2), Padded(d.day, 2), "");
    assert g.day + g.rest == g.day;
  }

  /** Round trip: matching the name built for a date yields that date's year, month and day. */
  lemma MatchBackupName(lv: string, d: Date)
    requires Valid(d)
    ensures MatchBackup(lv, BackupName(lv, d)).Some?
    ensures var g := MatchBackup(lv, BackupName(lv, d)).value;
      AllDigits(g.year) && AllDigits(g.month) && AllDigits(g.day)
      && GroupValues(g) == (d.year, d.month, d.day)
  {
    FormatDateShape(lv, d);
    MatchComplete(lv, BackupName(lv, d), Groups(Padded(d.year, 4), Padded(d.month, 2), Padded(d.day, 2), ""));
  }

  /** Different dates give different backup names. */
  lemma BackupNameInjective(lv: string, d1: Date, d2: Date)
    requires Valid(d1) && Valid(d2) && BackupName(lv, d1) == BackupName(lv, d2)
    ensures d1 == d2
  {
    MatchBackupName(lv, d1);
    MatchBackupName(lv, d2);
  }

  /** The integers `int(match.group(1..3))`. */
  function GroupValues(g: Groups): (int, int, int)
    requires AllDigits(g.year) && AllDigits(g.month) && AllDigits(g.day)
  {
    (DigitsValue(g.year), DigitsValue(g.month), DigitsValue(g.day))
  }
}
