/** Worked runs of the rotation on small listings. */
module Scenarios {
  import opened Wrappers
  import opened Dates
  import opened Naming
  import opened Rotation
  import opened RotationProperties

  function AllSucceed(k: nat): bool {
    true
  }

  lemma PaddedLiterals()
    ensures Padded(2024, 4) == "2024"
    ensures Padded(1, 2) == "01" && Padded(10, 2) == "10" && Padded(20, 2) == "20"
  {
    assert Decimal(2) == "2";
    assert Decimal(20) == "20";
    assert Decimal(202) == "202";
    assert Decimal(2024) == "2024";
    assert Decimal(1) == "1" && Zeros(1) == "0";
    assert Decimal(10) == "10";
  }

  function Window(): Config {
    Config("data", "vg0", 14, 5)
  }

  function January(): seq<Volume> {
    [Volume("vg0", "data_backup_2024.01.01"), Volume("vg0", "data_backup_2024.01.10"), Volume("vg0", "data")]
  }

  lemma JanuaryNames()
    ensures BackupName("data", Date(2024, 1, 1)) == "data_backup_2024.01.01"
    ensures BackupName("data", Date(2024, 1, 10)) == "data_backup_2024.01.10"
    ensures BackupName("data", Date(2024, 1, 20)) == "data_backup_2024.01.20"
  {
    PaddedLiterals();
    NameOfDate(Date(2024, 1, 1), "2024", "01", "01");
    NameOfDate(Date(2024, 1, 10), "2024", "01", "10");
    NameOfDate(Date(2024, 1, 20), "2024", "01", "20");
  }

  /** The backup name of `data` spelled from the padded fields of the date. */
  lemma NameOfDate(d: Date, y: string, m: string, dd: string)
    requires Valid(d)
    requires Padded(d.year, 4) == y && Padded(d.month, 2) == m && Padded(d.day, 2) == dd
    ensures BackupName("data", d) == "data_backup_" + y + "." + m + "." + dd
  {
  }

  lemma JanuaryAges()
    ensures AgeDays(Date(2024, 1, 20), Date(2024, 1, 1)) == 19
    ensures AgeDays(Date(2024, 1, 20), Date(2024, 1, 10)) == 10
  {
  }

  lemma JanuaryVerdicts()
    ensures var today := Date(2024, 1, 20);
      Classify(Window(), today, January()[0]) == Expire(19)
      && Classify(Window(), today, January()[1]) == Keep(10)
      && Classify(Window(), today, January()[2]) == Source
      && TodaysName(Window(), today) == "data_backup_2024.01.20"
  {
    var cfg, today := Window(), Date(2024, 1, 20);
    JanuaryNames();
    JanuaryAges();
    BackupVerdict(cfg, today, Date(2024, 1, 1));
    BackupVerdict(cfg, today, Date(2024, 1, 10));
  }

  lemma JanuaryRemovals()
    ensures Removals(Window(), Date(2024, 1, 20), January()) == [Remove("vg0", "data_backup_2024.01.01")]
  {
    var cfg, today, vols := Window(), Date(2024, 1, 20), January();
    JanuaryVerdicts();
    assert vols[..2] == vols[..|vols| - 1];
    assert vols[..1] == vols[..2][..1];
    assert vols[..1][..0] == [];
    assert Removals(cfg, today, vols[..1]) == [Remove("vg0", "data_backup_2024.01.01")];
    assert Removals(cfg, today, vols[..2]) == [Remove("vg0", "data_backup_2024.01.01")];
  }

  lemma JanuaryFlags()
    ensures var cfg, today, vols := Window(), Date(2024, 1, 20), January();
      HasSource(cfg, vols) && !HasTodaysBackup(cfg, today, vols)
      && forall j :: 0 <= j < |vols| ==> !IsBadDate(cfg, today, vols[j])
  {
    var cfg, today, vols := Window(), Date(2024, 1, 20), January();
    JanuaryVerdicts();
    assert vols[2].vg == cfg.vg && vols[2].name == cfg.lv;
    forall j | 0 <= j < |vols| ensures vols[j].name != "data_backup_2024.01.20" {
      assert j == 0 || j == 1 || j == 2;
    }
    forall j | 0 <= j < |vols| ensures !IsBadDate(cfg, today, vols[j]) {
      assert j == 0 || j == 1 || j == 2;
    }
  }

  /**
   * Group vg0 holds `data` and its backups of 1 and 10 January 2024; on
   * 20 January with a 14-day window the 19-day-old backup is removed, the
   * 10-day-old one kept, and `data_backup_2024.01.20` created.
   */
  lemma FourteenDayWindow()
    ensures Expected(Window(), Date(2024, 1, 20), Listed(January()), AllSucceed)
      == Run([Remove("vg0", "data_backup_2024.01.01"), Create("vg0", "data", "data_backup_2024.01.20", 5)], Success)
  {
    var cfg, today, vols := Window(), Date(2024, 1, 20), January();
    JanuaryVerdicts();
    JanuaryFlags();
    JanuaryRemovals();
    HealthyRunSucceeds(cfg, today, vols, AllSucceed);
    SuccessfulRun(cfg, today, Listed(vols), AllSucceed);
  }

  function Impossible(): seq<Volume> {
    [Volume("vg0", "data"), Volume("vg0", "data_backup_99.99.99")]
  }

  lemma ImpossibleMatch()
    ensures MatchBackup("data", "data_backup_99.99.99") == Some(Groups("99", "99", "99", ""))
  {
    var g := Groups("99", "99", "99", "");
    ImpossibleSpelling(g);
    MatchComplete("data", "data_backup_99.99.99", g);
  }

  lemma ImpossibleSpelling(g: Groups)
    requires g == Groups("99", "99", "99", "")
    ensures Shaped("data_backup_99.99.99", BackupPrefix("data"), g)
  {
    assert Spelled(g) == "99.99.99";
  }

  lemma NinetyNine()
    ensures DigitsValue("99") == 99
  {
    assert "99"[..1] == "9";
    assert "9"[..0] == "";
  }

  lemma ImpossibleVerdicts()
    ensures Classify(Window(), Date(2024, 1, 20), Impossible()[0]) == Source
    ensures Classify(Window(), Date(2024, 1, 20), Impossible()[1]) == BadDate
  {
    ImpossibleMatch();
    NinetyNine();
    JanuaryNames();
    assert MakeDate(99, 99, 99) == None;
  }

  /**
   * A name that matches the pattern but carries an impossible date
   * (month 99) stops the run with a failure before anything is created,
   * even with the source present.
   */
  lemma ImpossibleDateStopsRun()
    ensures Expected(Window(), Date(2024, 1, 20), Listed(Impossible()), AllSucceed)
      == Run([], Failure(InvalidDate("data_backup_99.99.99")))
  {
    var cfg, today, vols := Window(), Date(2024, 1, 20), Impossible();
    ImpossibleVerdicts();
    assert IsBadDate(cfg, today, vols[1]);
    assert vols[..1] == [vols[0]] && [vols[0]][..0] == [];
    assert Removals(cfg, today, vols[..1]) == [];
    assert 1 <= ScanEnd(cfg, today, vols) by {
      ScanEndSpec(cfg, today, vols);
    }
    StopsAtBadDate(cfg, today, vols, AllSucceed, 1);
  }
}
