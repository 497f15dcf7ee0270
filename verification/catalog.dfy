/** The level catalogue of src/App.jsx: the fixed, ordered intervertebral level keys of
    each spine region, the regions a study can cover, and the region-to-levels lookup. */
module Catalog {
  import Text

  /** The study regions offered by the region selector (`REGIONS`). */
  datatype Region = Cervical | Thoracic | Lumbar | Whole

  /** The region's `id` string, as stored in the component state. */
  function Id(r: Region): (id: string)
  {
    match r
    case Cervical => "cervical"
    case Thoracic => "thoracic"
    case Lumbar => "lumbar"
    case Whole => "whole"
  }

  /** The region's id in capitals, the value `toUpperCase` gives for the four ids. */
  function UpperName(r: Region): (name: string)
  {
    match r
    case Cervical => "CERVICAL"
    case Thoracic => "THORACIC"
    case Lumbar => "LUMBAR"
    case Whole => "WHOLE"
  }

  /** The fixed upper-case names agree with upper-casing the ids letter by letter. */
  lemma UpperNameIsUpperCasedId(r: Region)
    ensures UpperName(r) == Text.AsciiUpper(Id(r))
  {
    var u := Text.AsciiUpper(Id(r));
    assert u == UpperName(r);
  }

  const CervicalLevels: seq<string> := ["C2C3", "C3C4", "C4C5", "C5C6", "C6C7", "C7T1"]

  const ThoracicLevels: seq<string> :=
    ["T1T2", "T2T3", "T3T4", "T4T5", "T5T6", "T6T7",
     "T7T8", "T8T9", "T9T10", "T10T11", "T11T12", "T12L1"]

  const LumbarLevels: seq<string> := ["L1L2", "L2L3", "L3L4", "L4L5", "L5S1"]

  const AllLevels: seq<string> := CervicalLevels + ThoracicLevels + LumbarLevels

  /** The levels shown and reported for a region; anything other than the three
      partial regions is the whole spine. */
  function RegionLevels(r: Region): (keys: seq<string>)
    ensures forall k :: k in keys ==> k in AllLevels
    ensures keys == AllLevels <==> r == Whole
    ensures r != Whole ==> |keys| < |AllLevels|
  {
    match r
    case Cervical => CervicalLevels
    case Thoracic => ThoracicLevels
    case Lumbar => LumbarLevels
    case _ => AllLevels
  }

  /** The vertebrae that bound the catalogued discs, head to tail. */
  const Vertebrae: seq<string> :=
    ["C2", "C3", "C4", "C5", "C6", "C7",
     "T1", "T2", "T3", "T4", "T5", "T6", "T7", "T8", "T9", "T10", "T11", "T12",
     "L1", "L2", "L3", "L4", "L5", "S1"]

  /** `keys` names the consecutive disc spaces from vertebra `from` down to vertebra
      `to`, in craniocaudal order. */
  ghost predicate Craniocaudal(keys: seq<string>, from: nat, to: nat)
  {
    from + |keys| == to && to < |Vertebrae| &&
    forall i :: 0 <= i < |keys| ==> keys[i] == Vertebrae[from + i] + Vertebrae[from + i + 1]
  }

  /** No key occurs twice. */
  ghost predicate Distinct(keys: seq<string>)
  {
    forall i, j :: 0 <= i < j < |keys| ==> keys[i] != keys[j]
  }

  /** The whole spine is the cervical, thoracic and lumbar runs end to end: 23 keys,
      none repeated. */
  lemma WholeSpineCatalogue()
    ensures RegionLevels(Whole) == RegionLevels(Cervical) + RegionLevels(Thoracic) + RegionLevels(Lumbar)
    ensures |RegionLevels(Whole)| == 23
    ensures Distinct(RegionLevels(Whole))
  {
    forall i | 0 <= i < |AllLevels|
      ensures forall j :: i < j < |AllLevels| ==> AllLevels[i] != AllLevels[j]
    {
      DistinctFrom(i);
    }
  }

  /** Each key differs from every key after it. */
  lemma DistinctFrom(i: nat)
    requires i < |AllLevels|
    ensures forall j :: i < j < |AllLevels| ==> AllLevels[i] != AllLevels[j]
  {
  }

  /** Every region lists the disc spaces between consecutive vertebrae, head to tail:
      cervical from C2 to T1, thoracic from T1 to L1, lumbar from L1 to S1, and the whole
      spine from C2 to S1. */
  lemma RegionsAreCraniocaudal()
    ensures Craniocaudal(RegionLevels(Cervical), 0, 6)
    ensures Craniocaudal(RegionLevels(Thoracic), 6, 18)
    ensures Craniocaudal(RegionLevels(Lumbar), 18, 23)
    ensures Craniocaudal(RegionLevels(Whole), 0, 23)
    ensures Vertebrae[0] == "C2" && Vertebrae[6] == "T1" && Vertebrae[18] == "L1" && Vertebrae[23] == "S1"
  {
    forall i | 0 <= i < |CervicalLevels|
      ensures CervicalLevels[i] == Vertebrae[i] + Vertebrae[i + 1]
    {
      CervicalDisc(i);
    }
    forall i | 0 <= i < |ThoracicLevels|
      ensures ThoracicLevels[i] == Vertebrae[6 + i] + Vertebrae[6 + i + 1]
    {
      ThoracicDisc(i);
    }
    forall i | 0 <= i < |LumbarLevels|
      ensures LumbarLevels[i] == Vertebrae[18 + i] + Vertebrae[18 + i + 1]
    {
      LumbarDisc(i);
    }
    forall i | 0 <= i < |AllLevels|
      ensures AllLevels[i] == Vertebrae[i] + Vertebrae[i + 1]
    {
      if i < 6 {
        assert AllLevels[i] == CervicalLevels[i];
      } else if i < 18 {
        assert AllLevels[i] == ThoracicLevels[i - 6];
      } else {
        assert AllLevels[i] == LumbarLevels[i - 18];
      }
    }
  }

  lemma CervicalDisc(i: nat)
    requires i < |CervicalLevels|
    ensures CervicalLevels[i] == Vertebrae[i] + Vertebrae[i + 1]
  {
  }

  lemma ThoracicDisc(i: nat)
    requires i < |ThoracicLevels|
    ensures ThoracicLevels[i] == Vertebrae[6 + i] + Vertebrae[6 + i + 1]
  {
  }

  lemma LumbarDisc(i: nat)
    requires i < |LumbarLevels|
    ensures LumbarLevels[i] == Vertebrae[18 + i] + Vertebrae[18 + i + 1]
  {
  }
}
