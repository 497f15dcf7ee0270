/** The state of the `App` component of src/App.jsx as an explicit value, and the user
    actions that change it: selecting a region or an alignment, the per-level edits,
    the normal-study reset and report generation. */
module Session {
  import opened Catalog
  import opened Findings
  import Report
  import Text

  /** Selected region, findings store, alignment, and the last generated report text. */
  datatype State = State(region: Region, levels: Store, alignment: string, fullReport: string)

  /** The store holds a finding for exactly the catalogued levels. */
  ghost predicate Valid(s: State)
  {
    s.levels.Keys == set k | k in AllLevels
  }

  /** The state on first render: lumbar region, the seeded store (the two worked
      examples over default records), physiological alignment, no report yet. */
  function Init(): (s: State)
    ensures Valid(s)
    ensures s.region == Lumbar && s.alignment == Alignments[0] && s.fullReport == ""
    ensures s.levels == InitLevels()
  {
    State(Lumbar, InitLevels(), "Physiological", "")
  }

  /** "Normal Study Autopopulate": every catalogued level back to the default record and
      the alignment back to physiological; region and report text stay. */
  function NormalStudy(s: State): (t: State)
    ensures Valid(t)
    ensures forall k :: k in AllLevels ==> t.levels[k] == DefaultLevel()
    ensures t.alignment == Alignments[0]
    ensures t.region == s.region && t.fullReport == s.fullReport
  {
    s.(levels := BlankLevels(), alignment := "Physiological")
  }

  /** "Generate Report": the report text replaces the stored one. When no line break
      was typed into the alignment or a reported field, the stored text splits back into
      exactly the report's lines. */
  function Generate(s: State): (t: State)
    requires Valid(s)
    ensures t.region == s.region && t.levels == s.levels && t.alignment == s.alignment
    ensures '\n' !in s.alignment && (forall k :: k in RegionLevels(s.region) ==> Report.SingleLine(s.levels[k])) ==>
      Text.Split(t.fullReport, '\n') == Report.BuildReport(s.region, s.levels, s.alignment)
  {
    Report.ReportLinesRoundTrip(s.region, s.levels, s.alignment);
    s.(fullReport := Report.ReportText(s.region, s.levels, s.alignment))
  }

  /** What the user can do. The per-level buttons and selects exist only for
      catalogued levels. */
  datatype Action =
    | SelectRegion(region: Region)
    | SelectAlignment(alignment: string)
    | MarkLevelNormal(level: string)
    | EditField(level: string, field: Field, value: string)
    | NormalStudyAutopopulate
    | GenerateReport

  predicate Offered(a: Action)
  {
    match a
    case MarkLevelNormal(lvl) => lvl in AllLevels
    case EditField(lvl, _, _) => lvl in AllLevels
    case _ => true
  }

  /** The state after one action. Selecting a region or an alignment touches nothing
      else, and every action keeps the store total. */
  function Step(s: State, a: Action): (t: State)
    requires Valid(s) && Offered(a)
    ensures Valid(t)
    ensures a.SelectRegion? ==> t == s.(region := a.region)
    ensures a.SelectAlignment? ==> t == s.(alignment := a.alignment)
    ensures !a.GenerateReport? ==> t.fullReport == s.fullReport
    ensures !a.NormalStudyAutopopulate? && !a.SelectAlignment? ==> t.alignment == s.alignment
    ensures !a.SelectRegion? ==> t.region == s.region
  {
    match a
    case SelectRegion(r) => s.(region := r)
    case SelectAlignment(al) => s.(alignment := al)
    case MarkLevelNormal(lvl) => s.(levels := MarkNormal(s.levels, lvl))
    case EditField(lvl, f, v) => s.(levels := UpdateField(s.levels, lvl, f, v))
    case NormalStudyAutopopulate => NormalStudy(s)
    case GenerateReport => Generate(s)
  }

  /** A session: the actions applied in turn. The store stays total throughout. */
  function Run(s: State, actions: seq<Action>): (t: State)
    requires Valid(s)
    requires forall i :: 0 <= i < |actions| ==> Offered(actions[i])
    ensures Valid(t)
    decreases |actions|
  {
    if |actions| == 0 then s
    else Run(Step(s, actions[0]), actions[1..])
  }

  /** Switching region never changes the stored findings, and switching back restores
      the state exactly. */
  lemma RegionSwitchKeepsFindings(s: State, r: Region)
    requires Valid(s)
    ensures Step(s, SelectRegion(r)).levels == s.levels
    ensures Step(Step(s, SelectRegion(r)), SelectRegion(s.region)) == s
  {
  }

  /** Generating twice gives the same state as generating once: the report does not
      read the previously generated text. */
  lemma GenerateIdempotent(s: State)
    requires Valid(s)
    ensures Generate(Generate(s)) == Generate(s)
  {
  }

  /** After the normal-study reset every level line of the report reads as grade II
      alone; none reads "No significant abnormality.". */
  lemma NormalStudyReport(s: State)
    requires Valid(s)
    ensures var t := NormalStudy(s);
      var out := Report.BuildReport(t.region, t.levels, t.alignment);
      var keys := RegionLevels(t.region);
      forall i :: 0 <= i < |keys| ==>
        out[6 + i] == " " + keys[i] + ": " + "Pfirrmann " + PfirrmannGrades[1] + "."
  {
    var t := NormalStudy(s);
    var keys := RegionLevels(t.region);
    var out := Report.BuildReport(t.region, t.levels, t.alignment);
    forall i | 0 <= i < |keys|
      ensures out[6 + i] == " " + keys[i] + ": " + "Pfirrmann " + PfirrmannGrades[1] + "."
    {
      assert keys[i] in AllLevels;
      assert out[6 + i] == Report.LevelLine(keys[i], DefaultLevel());
      Report.DefaultLevelLine(keys[i]);
    }
  }

  /** The report generated on first render: the lumbar header, three grade II levels,
      then the two worked examples. */
  lemma InitialReport()
    ensures var s := Init();
      var out := Report.BuildReport(s.region, s.levels, s.alignment);
      && |out| == 11
      && (forall i :: 6 <= i < 9 ==>
            out[i] == " " + LumbarLevels[i - 6] + ": " + "Pfirrmann " + PfirrmannGrades[1] + ".")
      && out[9] == Report.LevelLine("L4L5", SeedL4L5())
      && out[10] == Report.LevelLine("L5S1", SeedL5S1())
  {
    var s := Init();
    var keys := RegionLevels(s.region);
    assert keys == LumbarLevels;
    assert keys[3] == "L4L5" && keys[4] == "L5S1";
    forall i | 0 <= i < 3
      ensures Report.LevelLine(keys[i], s.levels[keys[i]]) ==
        " " + keys[i] + ": " + "Pfirrmann " + PfirrmannGrades[1] + "."
    {
      assert keys[i] in AllLevels && keys[i] != "L4L5" && keys[i] != "L5S1";
      Report.DefaultLevelLine(keys[i]);
    }
  }
}
