# Spine MRI report composer — a Dafny model

This project models the report-composition engine inside the `App` component of
`src/App.jsx` (a React form for spine MRI reporting). It models these parts:

- **Level catalogue.** The fixed, ordered level keys of the cervical, thoracic and
  lumbar spine, their concatenation, and the region-to-levels lookup.
- **Findings store.** One finding record per level key. The model covers the default
  record, the seeded store with its two worked examples, the per-field edits and the
  per-level "Mark Normal" reset.
- **Normal-study reset.** Every level goes back to the default record and the alignment
  goes back to "Physiological".
- **Report builder.** `buildReport` turns the region, the store and the alignment into a
  list of lines: a title, the alignment section, and one line per level of the region.
  Each level line puts together the phrases of the fields that are reported, always in
  the same field order.

The React state hooks become an explicit `Session.State` value. Each user action is a
pure function from one state to the next.

Files and modules:

| file | module | contents |
|---|---|---|
| `text.dfy` | `Text` | `join`, single-character `split` (its inverse), ASCII upper-casing |
| `catalog.dfy` | `Catalog` | regions, level keys, `regionLevels` |
| `findings.dfy` | `Findings` | finding records, option lists, default and seed, store edits |
| `report.dfy` | `Report` | phrase selection, level lines, `buildReport` |
| `session.dfy` | `Session` | component state, user actions, normal-study reset, scenarios |

## Notes on the code as written

The model follows the code of `src/App.jsx`, including these details:

- The phrase labels are "Pfirrmann X.", "Disc pathology: X.", "Canal stenosis: X.",
  "Foraminal stenosis: X." and "Modic: X." (src/App.jsx:222-226).
- A comment is copied as typed, with no trimming. It is written whenever it is not
  empty (src/App.jsx:227).
- The Pfirrmann phrase is written whenever the value is not "None". No Pfirrmann grade
  of the form is "None", so a default level reads "Pfirrmann II – Inhomogeneous, normal
  height." and never "No significant abnormality." (`Report.NoAbnormalityOnlyWithoutGrade`,
  `Report.DefaultLevelLine`).
- The L5S1 seed uses the disc pathology "Central / paracentral disc protrusion". That
  value is not one of the form's choices (`Findings.SeedL5S1`).
- The component's state is the region, the findings store, the alignment and the report
  text. "Normal Study Autopopulate" resets the findings and the alignment only.
- A level reads "No significant abnormality." exactly when its phrase list is empty or
  is a single comment that itself reads "No significant abnormality."
  (`Report.LevelLineReadsNoAbnormality`, `Report.NoAbnormalityIff`).

## Model

| member | source | states |
|---|---|---|
| `Catalog.RegionLevels` | src/App.jsx:102-107 | every listed key is catalogued; the full list is returned exactly for the whole spine (the fallback), and each partial region is strictly shorter |
| `Catalog.WholeSpineCatalogue` | src/App.jsx:6-29 | the whole-spine list is cervical ++ thoracic ++ lumbar, has 23 keys, and has no key twice |
| `Catalog.RegionsAreCraniocaudal` | src/App.jsx:6-29 | each key of each region joins two consecutive vertebrae, head to tail, and each run has fixed ends: cervical C2 to T1 (6 keys), thoracic T1 to L1 (12), lumbar L1 to S1 (5), whole spine C2 to S1 (23) |
| `Catalog.UpperNameIsUpperCasedId` | src/App.jsx:208 | the fixed capitalised region names are the region ids upper-cased letter by letter |
| `Findings.With` | src/App.jsx:292-296 | an object-spread field update sets the chosen field to the new value and keeps the other five |
| `Findings.WithLaws` | src/App.jsx:292-296 | writing back a field's own value changes nothing; a second write to a field overrides the first |
| `Findings.DefaultLevel` | src/App.jsx:65-74 | the default record is grade II with "None" in every other select field and no comment; every select field holds one of the form's choices |
| `Findings.SeedL4L5` | src/App.jsx:81-88 | the L4L5 example uses only the form's choices and differs from the default |
| `Findings.SeedL5S1` | src/App.jsx:90-97 | the L5S1 example's disc pathology is not one of the form's choices (src/App.jsx:305-312); its other select fields are |
| `Findings.FillDefault` | src/App.jsx:78 | the forEach loop sets every listed key to the default record, keeps every other entry, and adds exactly the listed keys |
| `Findings.InitLevels` | src/App.jsx:76-100 | the seeded store has exactly the 23 catalogued keys, holds the two examples at L4L5 and L5S1, and holds the default record everywhere else |
| `Findings.BlankLevels` | src/App.jsx:196-197 | the blank store has exactly the catalogued keys, each holding the default record |
| `Findings.SeedDiffersFromBlankAtExamplesOnly` | src/App.jsx:76-100 | the seeded store and the blank store have the same keys and differ at L4L5 and L5S1 and nowhere else |
| `Findings.MarkNormal` | src/App.jsx:280 | "Mark Normal" puts the default record at the level, keeps every other level, and adds no other key |
| `Findings.UpdateField` | src/App.jsx:292-373 | a per-field edit sets that field at that level, keeps the level's other five fields, keeps every other level, and keeps the key set |
| `Findings.EditLaws` | src/App.jsx:280-373 | selecting the value a field already has is a no-op; marking a level normal twice equals marking it once |
| `Findings.EditsPreserveTotal` | src/App.jsx:280-373 | both kinds of edit keep the store total over the catalogue |
| `Report.PhraseInjective` | src/App.jsx:222-227 | two findings give the same phrase for a field exactly when they hold the same value in it, so the value can be read back from the phrase |
| `Report.PhraseShape` | src/App.jsx:222-227 | the phrase `Phrase` writes for each select field opens with that field's own label ("Pfirrmann ", "Disc pathology: ", "Canal stenosis: ", "Foraminal stenosis: ", "Modic: "), hence with one of P, D, C, F, M, ends with a full stop, and holds the field's value just before it (`Report.PhraseInjective` reads it back); a comment's phrase is the comment itself |
| `Report.Collect` | src/App.jsx:220-227 | the phrases of the fields `Reported` accepts (a select field not "None", a non-empty comment): one phrase per reported field, so never more phrases than fields |
| `Report.CollectAppend` | src/App.jsx:220-227 | the phrases of two runs of fields are the phrases of the first run followed by those of the second |
| `Report.CollectAllReported` | src/App.jsx:220-227 | when every field of a run is reported, the phrases are exactly their phrases, one per field, in order |
| `Report.CollectPositions` | src/App.jsx:220-227 | a reported field's phrase sits at the position equal to the number of reported fields before it, so phrases follow field order; the list is empty exactly when no field is reported |
| `Report.SegmentsEmptyIffUnremarkable` | src/App.jsx:220-227 | for `Segments`, the `seg` list of a level (the phrases of its six fields in report order): a level has no phrases exactly when all five select fields are "None" and the comment is empty; a reported Pfirrmann value is always the first phrase |
| `Report.OnlyOneReported` | src/App.jsx:220-227 | a level with exactly one reported field has that field's phrase as its only phrase |
| `Report.FiveFieldsReported` | src/App.jsx:222-226 | with all five select fields set and no comment, the phrases are Pfirrmann, disc pathology, canal, foraminal and Modic, in that order |
| `Report.FourFieldsReported` | src/App.jsx:222-226 | with grade, disc pathology, canal and foraminal stenosis set, no Modic change and no comment, the phrases are those four, in field order |
| `Report.LevelLine` | src/App.jsx:229-230 | every level line starts with a space, the level key and ": " |
| `Report.LevelLineReadsNoAbnormality` | src/App.jsx:220-230 | a level line reads " LVL: No significant abnormality." exactly when the phrase list is empty or is the single phrase "No significant abnormality." |
| `Report.NoAbnormalityIff` | src/App.jsx:220-230 | field by field: a level reads "No significant abnormality." exactly when its five select fields are "None" and its comment is empty or is that sentence |
| `Report.NoAbnormalityOnlyWithoutGrade` | src/App.jsx:222-230 | an unremarkable level reads "No significant abnormality."; a level holding any Pfirrmann grade of the form never does |
| `Report.CommentCanReadAsNoAbnormality` | src/App.jsx:227-230 | a level whose only reported field is a comment reading "No significant abnormality." is not unremarkable, yet gives the same line |
| `Report.OnlyOneReportedLine` | src/App.jsx:220-230 | a level with exactly one reported field reads " LVL: " followed by that field's phrase alone |
| `Report.GradeOnlyLine` | src/App.jsx:220-230 | a level whose only reported field is its Pfirrmann value reads " LVL: Pfirrmann " + the grade + "." |
| `Report.DefaultLevelLine` | src/App.jsx:218-230 | a level holding the default record reads " LVL: Pfirrmann " + grade II of the form's list + ".", that is " LVL: Pfirrmann II – Inhomogeneous, normal height." |
| `Report.SeedL4L5Phrases` | src/App.jsx:81-88 | the L4L5 example yields its grade, bulge, mild canal stenosis, mild foraminal stenosis and type II Modic phrases, in that order |
| `Report.SeedL5S1Phrases` | src/App.jsx:90-97 | the L5S1 example yields its grade, protrusion, mild canal stenosis and moderate foraminal stenosis phrases, and no Modic phrase |
| `Report.Title` | src/App.jsx:208 | the title is "MRI " + the upper-cased region id + " SPINE"; the whole-spine special case agrees with this rule |
| `Report.BuildReport` | src/App.jsx:205-231 | the report has 6 + (levels in region) lines: the six lines of `Preamble` (the title, "", "ALIGNMENT:", " alignment.", "", "DISCS & NEURAL FORAMINA:"), then `LevelLines`, the `LevelLine` of each level of the region in catalogue order |
| `Report.ReportReadsOnlyRegionLevels` | src/App.jsx:216-219 | two stores that agree on the region's levels give the same report |
| `Report.LevelLinesAgree` | src/App.jsx:218-219 | level lines read the store only at the listed keys |
| `Report.EditOutsideRegionIsInvisible` | src/App.jsx:216-219 | editing or marking normal a level outside the region leaves the report unchanged |
| `Report.ReportLinesRoundTrip` | src/App.jsx:233 | `ReportText` joins the lines with line breaks; if no line break was typed into the alignment or a field of a level in the region, splitting that text at line breaks gives back exactly the line list |
| `Text.Join` | src/App.jsx:230 | the join starts with the first part (followed by the separator when there are more), and its length is the parts' lengths plus one separator between neighbours |
| `Text.SplitJoin` | src/App.jsx:233 | splitting a newline join of a non-empty list of parts gives the parts back when no part contains a newline (the empty list joins to "", which splits to [""]) |
| `Session.Init` | src/App.jsx:185-190 | the first state is lumbar, physiological alignment, no report, and the seeded store of `Findings.InitLevels`, over exactly the catalogued keys |
| `Session.NormalStudy` | src/App.jsx:195-200 | after the reset every catalogued level holds the default record and the alignment is "Physiological"; the region and the report text are untouched |
| `Session.Generate` | src/App.jsx:233 | generating keeps region, store and alignment; without typed line breaks, the stored text splits back into the report's lines |
| `Session.Step` | src/App.jsx:248-373 | every user action keeps the store's key set equal to the catalogue; selecting a region or an alignment changes nothing else; only generating changes the report text |
| `Session.Run` | src/App.jsx:184-398 | after any sequence of offered actions the store still holds exactly the catalogued levels |
| `Session.RegionSwitchKeepsFindings` | src/App.jsx:249 | switching region never changes the findings, and switching back restores the state |
| `Session.GenerateIdempotent` | src/App.jsx:205-233 | generating twice equals generating once, because the report does not read the earlier text |
| `Session.NormalStudyReport` | src/App.jsx:195-231 | after the reset every level line of the region reads " LVL: Pfirrmann " + grade II + "." |
| `Session.InitialReport` | src/App.jsx:185-231 | the first report has 11 lines: three grade II levels (L1L2 to L3L4), then the L4L5 and L5S1 example lines |

## Left out

- React rendering: `SectionCard`, `Label`, `Input`, `Select`, `TextArea`, `Tag` and the
  JSX tree are presentation only.
- The `useState` hooks are replaced by the explicit `Session.State` value.
- Typing into the generated-report text area (src/App.jsx:387) is left out. It is free
  text that overwrites the output and is not part of the engine.
- Demographics, technique text, cord/cauda findings, other compartments, impression
  bullets, clipboard export and the remote refinement call are left out. None of them
  appears in src/App.jsx.
- JavaScript's `toUpperCase` is modelled on ASCII letters only. That is exact for the
  four region ids.
- The region is modelled as a closed type with four values. The source keeps it as a
  string that only the four region tags set. `regionLevels` returns all levels for any
  id other than the three partial regions, and in the model that case is the whole spine.
- Findings.UpdateField: requires the level to be in the store. In the source, spreading
  a missing entry gives a record that holds only the edited field. The form edits only
  displayed levels, and those are always in the store.
- Report.BuildReport: requires every level of the region to be in the store. The source
  would fail reading a field of a missing entry; the session invariant rules this out.
- Session.Generate: the line round trip is stated only when no line break was typed into
  the alignment or into a reported field. A comment with a line break makes the text
  hold more lines than the list.
- Session.Step: per-level actions are limited to catalogued levels. The form only shows
  buttons and selects for displayed levels.
