/** The findings store of src/App.jsx: one finding record per level key, the default
    record, the worked-example seed, and the copy-on-write edits the level cards make. */
module Findings {
  import opened Catalog

  /** What the form records about one disc level. Every field holds the text the form
      shows; "None" is the "nothing to report" choice of the five select fields. */
  datatype Finding = Finding(
    pfirrmann: string,
    herniation: string,
    canal: string,
    foraminal: string,
    modic: string,
    comments: string)

  /** The six fields of a finding, in the order the report lists them. */
  datatype Field = Pfirrmann | Herniation | Canal | Foraminal | Modic | Comments

  const FieldOrder: seq<Field> := [Pfirrmann, Herniation, Canal, Foraminal, Modic, Comments]

  /** Level key to finding; the session keeps it total over the catalogue. */
  type Store = map<string, Finding>

  /** The choices of the select fields (`PFIRRMANN`, the disc pathology list,
      `STENOSIS`, `MODIC`) and of the alignment select (`ALIGNMENT`). */
  const PfirrmannGrades: seq<string> := [
    "I \U{2013} Homogeneous bright, normal height",
    "II \U{2013} Inhomogeneous, normal height",
    "III \U{2013} Inhomogeneous, intermediate, normal/slightly decreased height",
    "IV \U{2013} Inhomogeneous, dark, moderately decreased height",
    "V \U{2013} Collapsed disc space"]

  const HerniationChoices: seq<string> := [
    "None", "Broad-based disc bulge", "Focal protrusion", "Extrusion",
    "Sequestered fragment", "Annular fissure"]

  const StenosisGrades: seq<string> := ["None", "Mild", "Moderate", "Severe"]

  const ModicTypes: seq<string> := ["None", "Type I", "Type II", "Type III", "Mixed"]

  const Alignments: seq<string> := [
    "Physiological", "Straightening of lordosis", "Reversal of lordosis",
    "Focal kyphosis", "Scoliosis", "Spondylolisthesis"]

  /** A finding whose select fields all hold one of the form's choices. */
  ghost predicate Selectable(d: Finding)
  {
    && d.pfirrmann in PfirrmannGrades
    && d.herniation in HerniationChoices
    && d.canal in StenosisGrades
    && d.foraminal in StenosisGrades
    && d.modic in ModicTypes
  }

  /** The value of one field. */
  function Get(d: Finding, f: Field): (v: string)
  {
    match f
    case Pfirrmann => d.pfirrmann
    case Herniation => d.herniation
    case Canal => d.canal
    case Foraminal => d.foraminal
    case Modic => d.modic
    case Comments => d.comments
  }

  /** `{ ...d, [f]: v }`: the finding with one field replaced. */
  function With(d: Finding, f: Field, v: string): (e: Finding)
    ensures Get(e, f) == v
    ensures forall g :: g != f ==> Get(e, g) == Get(d, g)
  {
    match f
    case Pfirrmann => d.(pfirrmann := v)
    case Herniation => d.(herniation := v)
    case Canal => d.(canal := v)
    case Foraminal => d.(foraminal := v)
    case Modic => d.(modic := v)
    case Comments => d.(comments := v)
  }

  /** Two findings are equal exactly when every field is. */
  lemma FieldsDetermineFinding(d: Finding, e: Finding)
    ensures d == e <==> forall f :: Get(d, f) == Get(e, f)
  {
    if forall f :: Get(d, f) == Get(e, f) {
      assert Get(d, Pfirrmann) == Get(e, Pfirrmann);
      assert Get(d, Herniation) == Get(e, Herniation);
      assert Get(d, Canal) == Get(e, Canal);
      assert Get(d, Foraminal) == Get(e, Foraminal);
      assert Get(d, Modic) == Get(e, Modic);
      assert Get(d, Comments) == Get(e, Comments);
    }
  }

  /** Writing back a field's own value changes nothing; a second write to the same
      field overrides the first. */
  lemma WithLaws(d: Finding, f: Field, v: string, w: string)
    ensures With(d, f, Get(d, f)) == d
    ensures With(With(d, f, v), f, w) == With(d, f, w)
  {
    FieldsDetermineFinding(With(d, f, Get(d, f)), d);
    FieldsDetermineFinding(With(With(d, f, v), f, w), With(d, f, w));
  }

  /** `defaultLevel()`: grade II, no pathology, no stenosis, no Modic change, no comment. */
  function DefaultLevel(): (d: Finding)
    ensures d.pfirrmann == PfirrmannGrades[1]
    ensures d.herniation == HerniationChoices[0] && d.canal == StenosisGrades[0]
    ensures d.foraminal == StenosisGrades[0] && d.modic == ModicTypes[0]
    ensures d.comments == ""
    ensures Selectable(d)
  {
    Finding("II \U{2013} Inhomogeneous, normal height", "None", "None", "None", "None", "")
  }

  /** The worked example pre-filled at L4L5. */
  function SeedL4L5(): (d: Finding)
    ensures Selectable(d) && d != DefaultLevel()
  {
    Finding(
      "III \U{2013} Inhomogeneous, intermediate, normal/slightly decreased height",
      "Broad-based disc bulge", "Mild", "Mild", "Type II", "")
  }

  /** The worked example pre-filled at L5S1; its disc pathology is not one of the form's
      choices. */
  function SeedL5S1(): (d: Finding)
    ensures !Selectable(d) && d.herniation !in HerniationChoices
    ensures d.pfirrmann in PfirrmannGrades && d.canal in StenosisGrades
    ensures d.foraminal in StenosisGrades && d.modic in ModicTypes
  {
    Finding(
      "III \U{2013} Inhomogeneous, intermediate, normal/slightly decreased height",
      "Central / paracentral disc protrusion", "Mild", "Moderate", "None", "")
  }

  /** `keys.forEach(lvl => obj[lvl] = defaultLevel())`: every listed key set to the
      default record, every other entry of `obj` kept. */
  function FillDefault(keys: seq<string>, obj: Store): (r: Store)
    ensures r.Keys == obj.Keys + set k | k in keys
    ensures forall k :: k in keys ==> r[k] == DefaultLevel()
    ensures forall k :: k in obj && k !in keys ==> r[k] == obj[k]
    decreases |keys|
  {
    if |keys| == 0 then obj
    else FillDefault(keys[1..], obj[keys[0] := DefaultLevel()])
  }

  /** The store holds a finding for every catalogued level. */
  ghost predicate Total(s: Store)
  {
    forall k :: k in AllLevels ==> k in s
  }

  /** `initLevels()`: the default record at every level, then the two worked examples. */
  function InitLevels(): (s: Store)
    ensures s.Keys == set k | k in AllLevels
    ensures Total(s) && "L4L5" in s && "L5S1" in s
    ensures s["L4L5"] == SeedL4L5() && s["L5S1"] == SeedL5S1()
    ensures forall k :: k in s && k != "L4L5" && k != "L5S1" ==> s[k] == DefaultLevel()
  {
    assert "L4L5" in LumbarLevels && "L5S1" in LumbarLevels;
    var obj := FillDefault(AllLevels, map[]);
    obj["L4L5" := SeedL4L5()]["L5S1" := SeedL5S1()]
  }

  /** The blank store the normal-study action installs: the default record at every
      catalogued level and nothing else. */
  function BlankLevels(): (s: Store)
    ensures s.Keys == set k | k in AllLevels
    ensures forall k :: k in s ==> s[k] == DefaultLevel()
  {
    FillDefault(AllLevels, map[])
  }

  /** The seeded store differs from the blank one at exactly the two example levels. */
  lemma SeedDiffersFromBlankAtExamplesOnly()
    ensures InitLevels().Keys == BlankLevels().Keys
    ensures forall k :: k in InitLevels() ==>
      (InitLevels()[k] != BlankLevels()[k] <==> k == "L4L5" || k == "L5S1")
  {
    assert "L4L5" in LumbarLevels && "L5S1" in LumbarLevels;
  }

  /** "Mark Normal": `{ ...prev, [lvl]: defaultLevel() }`. */
  function MarkNormal(s: Store, lvl: string): (r: Store)
    ensures r.Keys == s.Keys + {lvl}
    ensures r[lvl] == DefaultLevel()
    ensures forall k :: k in s && k != lvl ==> r[k] == s[k]
  {
    s[lvl := DefaultLevel()]
  }

  /** The six per-field handlers: `{ ...prev, [lvl]: { ...prev[lvl], [f]: v } }`. */
  function UpdateField(s: Store, lvl: string, f: Field, v: string): (r: Store)
    requires lvl in s
    ensures r.Keys == s.Keys
    ensures Get(r[lvl], f) == v
    ensures forall g :: g != f ==> Get(r[lvl], g) == Get(s[lvl], g)
    ensures forall k :: k in s && k != lvl ==> r[k] == s[k]
  {
    s[lvl := With(s[lvl], f, v)]
  }

  /** Selecting the value a field already holds leaves the store as it was, and marking
      a level normal twice is the same as marking it once. */
  lemma EditLaws(s: Store, lvl: string, f: Field)
    requires lvl in s
    ensures UpdateField(s, lvl, f, Get(s[lvl], f)) == s
    ensures MarkNormal(MarkNormal(s, lvl), lvl) == MarkNormal(s, lvl)
  {
    WithLaws(s[lvl], f, "", "");
  }

  /** Both edits keep the store total. */
  lemma EditsPreserveTotal(s: Store, lvl: string, f: Field, v: string)
    requires Total(s) && lvl in s
    ensures Total(UpdateField(s, lvl, f, v))
    ensures Total(MarkNormal(s, lvl))
  {
  }
}
