/** The report builder of src/App.jsx (`buildReport`): a title, the alignment section,
    then one line per level of the selected region, each assembling the phrases of the
    level's reported fields in a fixed field order. */
module Report {
  import opened Catalog
  import opened Findings
  import Text

  const NoAbnormality := "No significant abnormality."

  /** Whether the builder writes a phrase for field `f`: a select field unless it holds
      "None", the comment unless it is empty. */
  predicate Reported(d: Finding, f: Field)
  {
    if f == Comments then d.comments != "" else Get(d, f) != "None"
  }

  /** The phrase written for field `f`. */
  function Phrase(d: Finding, f: Field): (p: string)
  {
    match f
    case Pfirrmann => "Pfirrmann " + d.pfirrmann + "."
    case Herniation => "Disc pathology: " + d.herniation + "."
    case Canal => "Canal stenosis: " + d.canal + "."
    case Foraminal => "Foraminal stenosis: " + d.foraminal + "."
    case Modic => "Modic: " + d.modic + "."
    case Comments => d.comments
  }

  /** A select field's phrase opens with its field's own label, hence with one of the
      capitals P, D, C, F and M, and ends with the field's value and a full stop (`PhraseInjective`
      reads the value back); the comment is copied as typed. */
  lemma PhraseShape(d: Finding, f: Field)
    ensures "Pfirrmann " <= Phrase(d, Pfirrmann)
    ensures "Disc pathology: " <= Phrase(d, Herniation)
    ensures "Canal stenosis: " <= Phrase(d, Canal)
    ensures "Foraminal stenosis: " <= Phrase(d, Foraminal)
    ensures "Modic: " <= Phrase(d, Modic)
    ensures var p := Phrase(d, f);
      f != Comments ==> |p| > |Get(d, f)| + 1 && p[0] in "PDCFM" && p[|p| - 1] == '.'
    ensures var p := Phrase(d, f);
      f != Comments ==> p[|p| - 1 - |Get(d, f)|..|p| - 1] == Get(d, f)
    ensures f == Comments ==> Phrase(d, f) == d.comments
  {
  }

  /** The value can be read back from a phrase: two findings give the same phrase for a
      field exactly when they hold the same value there. */
  lemma PhraseInjective(d: Finding, e: Finding, f: Field)
    ensures Phrase(d, f) == Phrase(e, f) <==> Get(d, f) == Get(e, f)
  {
    if Phrase(d, f) == Phrase(e, f) {
      var p := Phrase(d, f);
      match f
      case Pfirrmann =>
        assert Get(d, f) == p[10..|p| - 1] == Get(e, f);
      case Herniation =>
        assert Get(d, f) == p[16..|p| - 1] == Get(e, f);
      case Canal =>
        assert Get(d, f) == p[16..|p| - 1] == Get(e, f);
      case Foraminal =>
        assert Get(d, f) == p[20..|p| - 1] == Get(e, f);
      case Modic =>
        assert Get(d, f) == p[7..|p| - 1] == Get(e, f);
      case Comments =>
    }
  }

  /** How many of the fields `fs` are reported for `d`. */
  function CountReported(d: Finding, fs: seq<Field>): (n: nat)
  {
    if |fs| == 0 then 0
    else (if Reported(d, fs[0]) then 1 else 0) + CountReported(d, fs[1..])
  }

  lemma CountReportedPrefix(d: Finding, fs: seq<Field>, k: nat)
    requires 0 < k <= |fs|
    ensures CountReported(d, fs[..k]) ==
      (if Reported(d, fs[0]) then 1 else 0) + CountReported(d, fs[1..][..k - 1])
  {
    assert fs[..k][1..] == fs[1..][..k - 1];
  }

  /** The phrases of the reported fields among `fs`, in the order of `fs`. */
  function Collect(d: Finding, fs: seq<Field>): (seg: seq<string>)
    ensures |seg| == CountReported(d, fs) <= |fs|
    decreases |fs|
  {
    if |fs| == 0 then []
    else (if Reported(d, fs[0]) then [Phrase(d, fs[0])] else []) + Collect(d, fs[1..])
  }

  /** Where each phrase lands: the phrase of a reported field `fs[k]` sits at the
      position equal to the number of reported fields before it, so the phrases keep the
      order of `fs`; the list is empty exactly when no field is reported. */
  lemma {:induction false} CollectPositions(d: Finding, fs: seq<Field>)
    ensures Collect(d, fs) == [] <==> forall k :: 0 <= k < |fs| ==> !Reported(d, fs[k])
    ensures forall k :: 0 <= k < |fs| && Reported(d, fs[k]) ==>
      CountReported(d, fs[..k]) < |Collect(d, fs)| &&
      Collect(d, fs)[CountReported(d, fs[..k])] == Phrase(d, fs[k])
    decreases |fs|
  {
    if |fs| > 0 {
      CollectPositions(d, fs[1..]);
      var seg := Collect(d, fs);
      forall k | 0 < k < |fs| && Reported(d, fs[k])
        ensures CountReported(d, fs[..k]) < |seg| && seg[CountReported(d, fs[..k])] == Phrase(d, fs[k])
      {
        CountReportedPrefix(d, fs, k);
        assert fs[1..][k - 1] == fs[k];
      }
      assert fs[..0] == [];
      if forall k :: 0 <= k < |fs| ==> !Reported(d, fs[k]) {
        assert forall k :: 0 <= k < |fs[1..]| ==> !Reported(d, fs[1..][k]) by {
          forall k | 0 <= k < |fs[1..]| ensures !Reported(d, fs[1..][k]) {
            assert fs[1..][k] == fs[k + 1];
          }
        }
      }
    }
  }

  /** The phrases of `a + b` are those of `a` followed by those of `b`. */
  lemma {:induction false} CollectAppend(d: Finding, a: seq<Field>, b: seq<Field>)
    ensures Collect(d, a + b) == Collect(d, a) + Collect(d, b)
    decreases |a|
  {
    if |a| > 0 {
      assert (a + b)[0] == a[0];
      assert (a + b)[1..] == a[1..] + b;
      CollectAppend(d, a[1..], b);
      var first := if Reported(d, a[0]) then [Phrase(d, a[0])] else [];
      assert Collect(d, a + b) == first + (Collect(d, a[1..]) + Collect(d, b));
      assert Collect(d, a) == first + Collect(d, a[1..]);
    } else {
      assert a + b == b;
    }
  }

  /** When every field of `fs` is reported, the phrases are exactly their phrases, one
      per field, in order. */
  lemma {:induction false} CollectAllReported(d: Finding, fs: seq<Field>)
    requires forall i :: 0 <= i < |fs| ==> Reported(d, fs[i])
    ensures Collect(d, fs) == seq(|fs|, i requires 0 <= i < |fs| => Phrase(d, fs[i]))
    decreases |fs|
  {
    if |fs| > 0 {
      assert Reported(d, fs[0]);
      forall i | 0 <= i < |fs[1..]| ensures Reported(d, fs[1..][i]) {
        assert fs[1..][i] == fs[i + 1];
      }
      CollectAllReported(d, fs[1..]);
    }
  }

  /** The `seg` list of one level: the phrases of its reported fields in report order. */
  function Segments(d: Finding): (seg: seq<string>)
  {
    Collect(d, FieldOrder)
  }

  /** Nothing to report: every select field "None" and no comment. */
  predicate Unremarkable(d: Finding)
  {
    d.pfirrmann == "None" && d.herniation == "None" && d.canal == "None"
    && d.foraminal == "None" && d.modic == "None" && d.comments == ""
  }

  /** A level has no phrases exactly when nothing is reported, and a reported
      Pfirrmann value always opens the list. */
  lemma SegmentsEmptyIffUnremarkable(d: Finding)
    ensures Segments(d) == [] <==> Unremarkable(d)
    ensures Reported(d, Pfirrmann) ==> |Segments(d)| > 0 && Segments(d)[0] == Phrase(d, Pfirrmann)
  {
    CollectPositions(d, FieldOrder);
    var fo := FieldOrder;
    assert fo[0] == Pfirrmann && fo[1] == Herniation && fo[2] == Canal;
    assert fo[3] == Foraminal && fo[4] == Modic && fo[5] == Comments;
    assert fo[..0] == [];
  }

  /** The line of level `lvl` in the discs section. */
  function LevelLine(lvl: string, d: Finding): (line: string)
    ensures " " + lvl + ": " <= line
  {
    var seg := Segments(d);
    if |seg| == 0 then " " + lvl + ": " + NoAbnormality
    else " " + lvl + ": " + Text.Join(" ", seg)
  }

  /** A level line reads "No significant abnormality." exactly when the level has no
      phrases or its one phrase is a comment with that very text. */
  lemma LevelLineReadsNoAbnormality(lvl: string, d: Finding)
    ensures LevelLine(lvl, d) == " " + lvl + ": " + NoAbnormality <==>
      Segments(d) == [] || Segments(d) == [NoAbnormality]
  {
    var seg := Segments(d);
    JoinReadsAsNoAbnormality(d);
    if |seg| > 0 {
      Text.CancelPrefix(" " + lvl + ": ", Text.Join(" ", seg), NoAbnormality);
    }
  }

  /** Whether one of the five select fields is reported. */
  predicate SelectReported(d: Finding)
  {
    exists f :: f != Comments && Reported(d, f)
  }

  /** The first phrase is the phrase of the first reported field. */
  lemma {:induction false} CollectFirst(d: Finding, fs: seq<Field>, k: nat)
    requires k < |fs| && Reported(d, fs[k])
    requires forall j :: 0 <= j < k ==> !Reported(d, fs[j])
    ensures |Collect(d, fs)| > 0 && Collect(d, fs)[0] == Phrase(d, fs[k])
    decreases k
  {
    if k > 0 {
      assert !Reported(d, fs[0]);
      forall j | 0 <= j < k - 1 ensures !Reported(d, fs[1..][j]) {
        assert fs[1..][j] == fs[j + 1];
      }
      CollectFirst(d, fs[1..], k - 1);
    }
  }

  /** When a select field is reported, the list opens with a labelled phrase: its first
      letter is one of P, D, C, F and M, never the N of "No significant abnormality.". */
  lemma LabelLeads(d: Finding)
    requires SelectReported(d)
    ensures |Segments(d)| > 0 && |Segments(d)[0]| > 0 && Segments(d)[0][0] in "PDCFM"
  {
    var fo := FieldOrder;
    var k: nat;
    if Reported(d, Pfirrmann) { k := 0; }
    else if Reported(d, Herniation) { k := 1; }
    else if Reported(d, Canal) { k := 2; }
    else if Reported(d, Foraminal) { k := 3; }
    else { k := 4; }
    assert fo[k] != Comments;
    CollectFirst(d, fo, k);
    PhraseShape(d, fo[k]);
  }

  /** A non-empty phrase list joins to "No significant abnormality." exactly when it is
      that one comment. */
  lemma JoinReadsAsNoAbnormality(d: Finding)
    ensures |Segments(d)| > 0 ==>
      (Text.Join(" ", Segments(d)) == NoAbnormality <==> Segments(d) == [NoAbnormality])
  {
    var seg := Segments(d);
    if SelectReported(d) {
      LabelLeads(d);
      assert seg[0] <= Text.Join(" ", seg);
      assert Text.Join(" ", seg)[0] == seg[0][0];
      assert NoAbnormality[0] == 'N';
    } else if d.comments != "" {
      forall g | g != Comments ensures !Reported(d, g) {
      }
      OnlyOneReported(d, Comments);
      assert Text.Join(" ", seg) == d.comments;
    } else {
      forall g | g != Comments ensures !Reported(d, g) {
      }
      SegmentsEmptyIffUnremarkable(d);
    }
  }

  /** Field by field: a level reads "No significant abnormality." exactly when its five
      select fields are "None" and its comment is empty or is that very sentence. */
  lemma NoAbnormalityIff(lvl: string, d: Finding)
    ensures LevelLine(lvl, d) == " " + lvl + ": " + NoAbnormality <==>
      d.pfirrmann == "None" && d.herniation == "None" && d.canal == "None"
      && d.foraminal == "None" && d.modic == "None"
      && (d.comments == "" || d.comments == NoAbnormality)
  {
    LevelLineReadsNoAbnormality(lvl, d);
    SegmentsEmptyIffUnremarkable(d);
    if SelectReported(d) {
      LabelLeads(d);
      assert Segments(d)[0] != NoAbnormality;
    } else {
      forall g | g != Comments ensures !Reported(d, g) {
      }
      if d.comments != "" {
        OnlyOneReported(d, Comments);
      }
    }
  }

  /** Every finding whose Pfirrmann value is one of the form's grades yields phrases,
      so such a level is never written as "No significant abnormality.". An unremarkable
      finding is. */
  lemma NoAbnormalityOnlyWithoutGrade(lvl: string, d: Finding)
    ensures Unremarkable(d) ==> LevelLine(lvl, d) == " " + lvl + ": " + NoAbnormality
    ensures d.pfirrmann in PfirrmannGrades ==> LevelLine(lvl, d) != " " + lvl + ": " + NoAbnormality
  {
    SegmentsEmptyIffUnremarkable(d);
    if d.pfirrmann in PfirrmannGrades {
      assert Reported(d, Pfirrmann);
      var seg := Segments(d);
      var head := " " + lvl + ": ";
      var p := Phrase(d, Pfirrmann);
      assert p[0] == 'P';
      assert seg[0] <= Text.Join(" ", seg);
      assert LevelLine(lvl, d)[|head|] == p[0];
      assert (head + NoAbnormality)[|head|] == 'N';
    }
  }

  /** A comment reading "No significant abnormality." on an otherwise unreported level
      gives the same line as an unremarkable level: the line alone does not tell the two
      apart. */
  lemma CommentCanReadAsNoAbnormality(lvl: string)
    ensures var d := Finding("None", "None", "None", "None", "None", NoAbnormality);
      !Unremarkable(d) && LevelLine(lvl, d) == " " + lvl + ": " + NoAbnormality
  {
    var d := Finding("None", "None", "None", "None", "None", NoAbnormality);
    OnlyOneReported(d, Comments);
    assert Segments(d) == [NoAbnormality];
  }

  /** A level with exactly one reported field has that field's phrase as its only phrase. */
  lemma OnlyOneReported(d: Finding, f: Field)
    requires Reported(d, f)
    requires forall g :: g != f ==> !Reported(d, g)
    ensures Segments(d) == [Phrase(d, f)]
  {
    var fo := FieldOrder;
    CollectPositions(d, fo);
    var k :| 0 <= k < 6 && fo[k] == f;
    assert CountReported(d, fo) == 1;
    assert CountReported(d, fo[..k]) == 0;
  }

  /** A level with exactly one reported field reads as that field's phrase alone. */
  lemma OnlyOneReportedLine(lvl: string, d: Finding, f: Field)
    requires Reported(d, f)
    requires forall g :: g != f ==> !Reported(d, g)
    ensures LevelLine(lvl, d) == " " + lvl + ": " + Phrase(d, f)
  {
    OnlyOneReported(d, f);
    assert Text.Join(" ", [Phrase(d, f)]) == Phrase(d, f);
  }

  /** A level whose only reported field is its Pfirrmann value reads as that grade alone. */
  lemma GradeOnlyLine(lvl: string, d: Finding)
    requires d.pfirrmann != "None" && d.herniation == "None" && d.canal == "None"
    requires d.foraminal == "None" && d.modic == "None" && d.comments == ""
    ensures LevelLine(lvl, d) == " " + lvl + ": " + "Pfirrmann " + d.pfirrmann + "."
  {
    forall g | g != Pfirrmann ensures !Reported(d, g) {
    }
    OnlyOneReportedLine(lvl, d, Pfirrmann);
  }

  /** A level holding the default record reads as its Pfirrmann grade, grade II, alone. */
  lemma DefaultLevelLine(lvl: string)
    ensures LevelLine(lvl, DefaultLevel()) == " " + lvl + ": " + "Pfirrmann " + PfirrmannGrades[1] + "."
  {
    GradeOnlyLine(lvl, DefaultLevel());
  }

  /** A level whose five select fields are all set and whose comment is empty reads as
      the five phrases in field order. */
  lemma FiveFieldsReported(d: Finding)
    requires d.pfirrmann != "None" && d.herniation != "None" && d.canal != "None"
    requires d.foraminal != "None" && d.modic != "None" && d.comments == ""
    ensures Segments(d) == [Phrase(d, Pfirrmann), Phrase(d, Herniation), Phrase(d, Canal),
                            Phrase(d, Foraminal), Phrase(d, Modic)]
  {
    var fo := FieldOrder;
    var head := [Pfirrmann, Herniation, Canal, Foraminal, Modic];
    assert fo == head + [Comments];
    CollectAppend(d, head, [Comments]);
    CollectAllReported(d, head);
  }

  /** The worked example at L4L5 reads as its grade, a bulge, mild canal and foraminal
      stenosis and a type II Modic change, in that order. */
  lemma SeedL4L5Phrases()
    ensures Segments(SeedL4L5()) == [
      "Pfirrmann " + "III \U{2013} Inhomogeneous, intermediate, normal/slightly decreased height" + ".",
      "Disc pathology: " + "Broad-based disc bulge" + ".",
      "Canal stenosis: " + "Mild" + ".",
      "Foraminal stenosis: " + "Mild" + ".",
      "Modic: " + "Type II" + "."]
  {
    FiveFieldsReported(SeedL4L5());
  }

  /** A level with grade, disc pathology, canal and foraminal stenosis set, no Modic
      change and no comment reads as those four phrases in field order. */
  lemma FourFieldsReported(d: Finding)
    requires d.pfirrmann != "None" && d.herniation != "None" && d.canal != "None"
    requires d.foraminal != "None" && d.modic == "None" && d.comments == ""
    ensures Segments(d) == [Phrase(d, Pfirrmann), Phrase(d, Herniation), Phrase(d, Canal),
                            Phrase(d, Foraminal)]
  {
    var fo := FieldOrder;
    var head := [Pfirrmann, Herniation, Canal, Foraminal];
    assert fo == head + [Modic, Comments];
    CollectAppend(d, head, [Modic, Comments]);
    CollectAllReported(d, head);
    assert Collect(d, [Modic, Comments]) == [] by {
      assert [Modic, Comments][1..] == [Comments];
    }
  }

  /** The worked example at L5S1 reads as its grade, its protrusion, mild canal and
      moderate foraminal stenosis; it has no Modic phrase. */
  lemma SeedL5S1Phrases()
    ensures Segments(SeedL5S1()) == [
      "Pfirrmann " + "III \U{2013} Inhomogeneous, intermediate, normal/slightly decreased height" + ".",
      "Disc pathology: " + "Central / paracentral disc protrusion" + ".",
      "Canal stenosis: " + "Mild" + ".",
      "Foraminal stenosis: " + "Moderate" + "."]
  {
    FourFieldsReported(SeedL5S1());
  }

  /** The lines of levels `keys`, one per key, in order. */
  function LevelLines(keys: seq<string>, levels: Store): (lines: seq<string>)
    requires forall k :: k in keys ==> k in levels
  {
    seq(|keys|, i requires 0 <= i < |keys| => LevelLine(keys[i], levels[keys[i]]))
  }

  /** The title line: the region's name in capitals, the whole spine written out. */
  function Title(r: Region): (t: string)
    ensures t == "MRI " + Text.AsciiUpper(Id(r)) + " SPINE"
  {
    UpperNameIsUpperCasedId(r);
    if r == Whole then "MRI WHOLE SPINE" else "MRI " + UpperName(r) + " SPINE"
  }

  /** The lines of the report before the level lines. */
  function Preamble(region: Region, alignment: string): (lines: seq<string>)
  {
    [Title(region), "", "ALIGNMENT:", " " + alignment + ".", "", "DISCS & NEURAL FORAMINA:"]
  }

  /** `buildReport`'s `out` list. The findings store must hold every level the region
      shows. */
  function BuildReport(region: Region, levels: Store, alignment: string): (out: seq<string>)
    requires forall k :: k in RegionLevels(region) ==> k in levels
    ensures |out| == 6 + |RegionLevels(region)|
    ensures out[0] == "MRI " + Text.AsciiUpper(Id(region)) + " SPINE"
    ensures out[1..6] == ["", "ALIGNMENT:", " " + alignment + ".", "", "DISCS & NEURAL FORAMINA:"]
    ensures forall i :: 0 <= i < |RegionLevels(region)| ==>
      out[6 + i] == LevelLine(RegionLevels(region)[i], levels[RegionLevels(region)[i]])
  {
    Preamble(region, alignment) + LevelLines(RegionLevels(region), levels)
  }

  /** The report text: the lines joined with newlines. */
  function ReportText(region: Region, levels: Store, alignment: string): (text: string)
    requires forall k :: k in RegionLevels(region) ==> k in levels
  {
    Text.Join("\n", BuildReport(region, levels, alignment))
  }

  /** The report reads the store only at the region's levels: two stores that agree
      there give the same report. */
  lemma ReportReadsOnlyRegionLevels(region: Region, s: Store, t: Store, alignment: string)
    requires forall k :: k in RegionLevels(region) ==> k in s && k in t && s[k] == t[k]
    ensures BuildReport(region, s, alignment) == BuildReport(region, t, alignment)
  {
    LevelLinesAgree(RegionLevels(region), s, t);
  }

  lemma LevelLinesAgree(keys: seq<string>, s: Store, t: Store)
    requires forall k :: k in keys ==> k in s && k in t && s[k] == t[k]
    ensures LevelLines(keys, s) == LevelLines(keys, t)
  {
    forall i | 0 <= i < |keys| ensures LevelLines(keys, s)[i] == LevelLines(keys, t)[i] {
      assert keys[i] in keys;
    }
  }


  /** Editing or marking normal a level outside the region leaves the report as it was. */
  lemma EditOutsideRegionIsInvisible(region: Region, s: Store, lvl: string, f: Field, v: string, alignment: string)
    requires forall k :: k in RegionLevels(region) ==> k in s
    requires lvl in s && lvl !in RegionLevels(region)
    ensures BuildReport(region, UpdateField(s, lvl, f, v), alignment) == BuildReport(region, s, alignment)
    ensures BuildReport(region, MarkNormal(s, lvl), alignment) == BuildReport(region, s, alignment)
  {
    ReportReadsOnlyRegionLevels(region, UpdateField(s, lvl, f, v), s, alignment);
    ReportReadsOnlyRegionLevels(region, MarkNormal(s, lvl), s, alignment);
  }

  /** No field of the finding contains a line break. */
  predicate SingleLine(d: Finding)
  {
    forall f :: '\n' !in Get(d, f)
  }

  lemma {:induction false} CollectSingle(d: Finding, fs: seq<Field>)
    requires SingleLine(d)
    ensures forall i :: 0 <= i < |Collect(d, fs)| ==> '\n' !in Collect(d, fs)[i]
    decreases |fs|
  {
    if |fs| > 0 {
      CollectSingle(d, fs[1..]);
      var f := fs[0];
      assert '\n' !in Get(d, f);
      assert '\n' !in Phrase(d, f);
    }
  }

  lemma LevelLineSingle(lvl: string, d: Finding)
    requires '\n' !in lvl && SingleLine(d)
    ensures '\n' !in LevelLine(lvl, d)
  {
    var seg := Segments(d);
    CollectSingle(d, FieldOrder);
    Text.JoinWithoutChar(" ", seg, '\n');
    var head := " " + lvl + ": ";
    assert '\n' !in head;
    if |seg| == 0 {
      assert '\n' !in NoAbnormality;
      assert LevelLine(lvl, d) == head + NoAbnormality;
    } else {
      assert LevelLine(lvl, d) == head + Text.Join(" ", seg);
    }
  }

  /** When neither the alignment nor any field of a level in the region contains a line
      break, splitting the report text at line breaks gives back the `out` list: the
      report has exactly 6 + |levels of the region| lines. */
  lemma ReportLinesRoundTrip(region: Region, levels: Store, alignment: string)
    requires forall k :: k in RegionLevels(region) ==> k in levels
    ensures '\n' !in alignment && (forall k :: k in RegionLevels(region) ==> SingleLine(levels[k])) ==>
      Text.Split(ReportText(region, levels, alignment), '\n') == BuildReport(region, levels, alignment)
  {
    if '\n' !in alignment && forall k :: k in RegionLevels(region) ==> SingleLine(levels[k]) {
      SingleLineReport(region, levels, alignment);
    }
  }

  lemma SingleLineReport(region: Region, levels: Store, alignment: string)
    requires forall k :: k in RegionLevels(region) ==> k in levels && SingleLine(levels[k])
    requires '\n' !in alignment
    ensures Text.Split(ReportText(region, levels, alignment), '\n') == BuildReport(region, levels, alignment)
  {
    var out := BuildReport(region, levels, alignment);
    var pre := Preamble(region, alignment);
    var keys := RegionLevels(region);
    var lines := LevelLines(keys, levels);
    assert out == pre + lines;
    PreambleSingle(region, alignment);
    LevelLinesSingle(keys, levels);
    forall i | 0 <= i < |out| ensures '\n' !in out[i] {
      if i < 6 {
        assert out[i] == pre[i];
      } else {
        assert out[i] == lines[i - 6];
      }
    }
    Text.SplitJoin(out, '\n');
  }

  lemma LevelLinesSingle(keys: seq<string>, levels: Store)
    requires forall k :: k in keys ==> k in AllLevels && k in levels && SingleLine(levels[k])
    ensures forall i :: 0 <= i < |keys| ==> '\n' !in LevelLines(keys, levels)[i]
  {
    var lines := LevelLines(keys, levels);
    forall i | 0 <= i < |keys| ensures '\n' !in lines[i] {
      assert keys[i] in keys;
      KeySingle(keys[i]);
      LevelLineSingle(keys[i], levels[keys[i]]);
    }
  }

  lemma PreambleSingle(region: Region, alignment: string)
    requires '\n' !in alignment
    ensures forall i :: 0 <= i < 6 ==> '\n' !in Preamble(region, alignment)[i]
  {
    var pre := Preamble(region, alignment);
    assert pre[0] == Title(region);
    match region
    case Cervical => assert '\n' !in "MRI CERVICAL SPINE";
    case Thoracic => assert '\n' !in "MRI THORACIC SPINE";
    case Lumbar => assert '\n' !in "MRI LUMBAR SPINE";
    case Whole => assert '\n' !in "MRI WHOLE SPINE";
  }

  lemma KeySingle(k: string)
    requires k in AllLevels
    ensures '\n' !in k
  {
  }
}
