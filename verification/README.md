# HABiT habitat layout and scoring — a verified Dafny model

HABiT (Habitat Interactive Tool) lets a designer place habitat modules
(crew quarters, galley, hygiene station, waste collection system, exercise
area, workstation) on an 8 x 8 grid. It checks the layout for clean/dirty
contamination risks and shows habitability metrics: net habitable volume
(NHV), private quarters for the crew, clean and dirty zone counts,
estimated mass and three status flags. `src/App.jsx` also defines
`calculateScore`, a rubric that grades the layout out of 120 and includes
a check for essential modules. Nothing in the program calls it: it is not
in the context value at src/App.jsx:731-738 and no component renders its
result, so the running program never shows a score, percentage, grade or
essential-modules result. The `Scoring` module models that function as
written. This project models the pure core of `src/App.jsx` in Dafny and
proves properties of it:

- `catalog.dfy` (`Catalog`): the six module types and their catalog entries
  (key, minimum volume, footprint, clean or dirty).
- `layout.dfy` (`Layout`): placed modules and the grid edits: add, one-step
  move, remove, drag-and-drop onto a cell, and the lookup of the module shown
  in a cell.
- `contamination.dfy` (`Contamination`): the clean/dirty adjacency report,
  as the sequence of ordered `(module, module)` pairs in scan order.
- `metrics.dfy` (`Metrics`): required and actual NHV, quarters count,
  clean/dirty counts, estimated mass and the three status flags.
- `scoring.dfy` (`Scoring`): the five-category rubric of the uncalled
  `calculateScore`, out of 120, with the rounded percentage and the
  four-level grade.

The clock reading meant as a new module's id (see "## Findings") and the
random start cell are parameters of `AddModule`. Volumes, ratios and masses are exact `real`s.

Some behaviour of the code that the model keeps:

- The code reports each touching clean/dirty couple twice, once in each
  order, and the separation thresholds count those entries.
- The required volume is 28 m³ per crew member, whatever the mission
  duration.
- Modules sit on whole grid cells. Adjacency means sharing an edge: the
  cells differ by one step along a row or a column.
- The score's maximum is 120, and the essential-modules bonus counts
  towards it.

## Model

| member | source | states |
|---|---|---|
| Catalog.Spec | src/App.jsx:20-75 | every module type has a catalog entry with positive volume and a footprint of at most 3 x 2 cells; exactly crew quarters, galley and workstation are clean |
| Catalog.KeysIdentifyTypes | src/App.jsx:20-75 | two catalog entries share a key only if they are the same type |
| Layout.AddModule | src/App.jsx:177-187 | appends exactly one module, with the stamp as id, the chosen type and the chosen start cell (x, y) in 0..5, leaving the existing modules unchanged; it keeps every module on the grid, and a fresh stamp keeps ids unique |
| Layout.Step | src/App.jsx:196-199 | up/down change only y and left/right only x, by one cell, or zero at the board edge; a module on the board stays on it |
| Layout.MoveModule | src/App.jsx:190-205 | only modules with the given id change, each by one Step; length, order, ids, kinds and all other modules are unchanged; an absent id is a no-op; grid bounds are preserved |
| Layout.MoveUpThenDown | src/App.jsx:196-197 | a step up then a step down restores the layout when the moved modules were not on the top row |
| Layout.MoveLeftThenRight | src/App.jsx:198-199 | a step left then a step right restores the layout when the moved modules were not in the left column |
| Layout.RemoveModule | src/App.jsx:208-210 | the result has no module with the id and only modules of the layout; removing an absent id is a no-op; grid bounds and unique ids are preserved |
| Layout.RemoveDistributes | src/App.jsx:208-210 | removal distributes over concatenation, so the kept modules stay in their original relative order |
| Layout.RemoveCounts | src/App.jsx:209 | each module with another id keeps its exact multiplicity, and modules with the id vanish |
| Layout.RemoveIdempotent | src/App.jsx:209 | removing the same id twice equals removing it once |
| Layout.AddThenRemove | src/App.jsx:177-210 | adding a module under a fresh stamp and then removing that stamp gives back the original layout |
| Layout.CellAt | src/App.jsx:332 | returns nothing exactly when no module is on the cell; otherwise returns the first module in layout order that is on the cell |
| Layout.Drop | src/App.jsx:235-254 | with nothing dragged, or with the target held by a module with another id, the layout is unchanged; otherwise exactly the dragged-id modules move to the target, nothing else changes, and no module with another id is on the target |
| Layout.DropThenLookup | src/App.jsx:240-251 | after a successful drop of a placed module (unique ids), the target cell shows exactly that module at its new position |
| Layout.AddModuleAsWritten | src/App.jsx:179-185 | as written, the appended module has its catalog key as id, whatever the clock said, with the chosen type and start cell (x, y); the existing modules are unchanged |
| Layout.AsWrittenIdsCollide | src/App.jsx:179-185 | as written, two crew quarters share an id: removing one removes both, and dropping one onto a free cell stacks both there |
| Layout.StampedIdsDistinct | src/App.jsx:180 | with the clock stamp kept as the id, the same two additions stay distinct: removal keeps the other module, and a drop moves only the dragged one |
| Contamination.ConflictShape | src/App.jsx:546-550 | a conflicting pair has distinct ids, one clean and one dirty type, and cells at Manhattan distance exactly 1, so never diagonal or shared; conflict is symmetric and never reflexive |
| Contamination.Contaminations | src/App.jsx:540-562 | a pair is reported if and only if it is a conflicting pair of placed modules |
| Contamination.CheckContamination | src/App.jsx:544-559 | the nested scan pushes exactly the report, in outer-then-inner order, and pushes an even number of warnings |
| Contamination.ReportSymmetric | src/App.jsx:544-559 | (a, b) occurs in the report exactly as often as (b, a) |
| Contamination.ReportedOncePerOrder | src/App.jsx:544-559 | without repeated modules, every conflicting couple of placed modules occurs exactly once in each order, and nothing else occurs |
| Contamination.ReportIsEven | src/App.jsx:544-559 | the number of warnings is always even |
| Contamination.HygieneBesideQuarters | src/App.jsx:546-556 | a hygiene station directly beside crew quarters yields exactly the two entries (quarters, hygiene) and (hygiene, quarters) |
| Metrics.CalculateMetrics | src/App.jsx:565-600 | required NHV is 28 times the crew for every duration; actual NHV is 1.3 times the summed catalog volume of the placed modules, non-negative, and positive iff a module is placed; the quarters, clean-zone and dirty-zone counts are the numbers of placed crew quarters, clean modules and dirty modules; the volume status passes iff actual NHV reaches the required NHV; quarters are at most the clean zones; clean plus dirty zones equal the module count; privacy fails only on long missions short of quarters; separation is good iff no two modules conflict; mass is 100 kg per m³ of actual NHV plus 50 kg per module, which is 130 kg per m³ of module volume |
| Metrics.NoWarningsIffNoConflict | src/App.jsx:587 | the report is empty exactly when no two placed modules conflict |
| Metrics.VolumePositive | src/App.jsx:570-571 | summed module volume is non-negative, and positive exactly when a module is placed |
| Metrics.CleanDirtyPartition | src/App.jsx:577-578 | clean zones plus dirty zones equal the number of modules |
| Metrics.QuartersAreClean | src/App.jsx:574-577 | the crew-quarters count never exceeds the clean-zone count |
| Metrics.VolumeAdditive | src/App.jsx:570 | the summed volume of two layouts joined is the sum of their volumes |
| Metrics.RemoveLowersNhv | src/App.jsx:570-571 | with unique ids, removing a placed module lowers actual NHV by exactly 1.3 times its catalog volume |
| Metrics.AddThenRemoveMetrics | src/App.jsx:565-600 | adding a module and removing it by its fresh stamp leaves every metric as it was |
| Metrics.AddRaisesNhv | src/App.jsx:570-584 | adding a module raises actual NHV by 1.3 times its volume, so a sufficient volume stays sufficient |
| Metrics.LongMissionUndersized | src/App.jsx:567-586 | four crew quarters, a galley and a workstation for a crew of four on a long mission give 32.5 m³ against 112 m³ required: volume insufficient, privacy adequate |
| Scoring.VolumeEntries | src/App.jsx:610-629 | insufficient volume gives one entry with 0 of 30 points; sufficient volume with actual NHV at least the required NHV always gives exactly one entry: 30 up to 150% of the required volume, 20 up to 200%, and 10 beyond; the status is excellent, good, poor or fail exactly with 30, 20, 10 or 0 points |
| Scoring.PrivacyEntry | src/App.jsx:631-652 | long missions score 25 iff quarters reach the crew size, 15 iff they fall short but reach three quarters of it, and 0 otherwise; other missions score 25 iff quarters reach half the crew, and never 0; the status is excellent, good or fail exactly with 25, 15 or 0 points |
| Scoring.SeparationEntry | src/App.jsx:654-664 | 30 points and status excellent iff there are no warnings; 15 points and status poor (not good) iff there are one or two; 0 points and status fail iff there are more |
| Scoring.SeparationByCouples | src/App.jsx:654-664 | because warnings come in pairs, half marks mean exactly two warnings (one couple), and zero marks mean at least four (two couples) |
| Scoring.OneCoupleHalfMarks | src/App.jsx:659-661 | crew quarters beside a hygiene station score 15 of 30 for separation |
| Scoring.TwoCouplesNoMarks | src/App.jsx:662-664 | a hygiene station between two crew quarters scores 0 for separation |
| Scoring.MassEntry | src/App.jsx:666-678 | 15 points iff mass is below 3000 kg per crew member, 10 iff it is between 3000 and 4000 kg, and 5 otherwise; the status is excellent, good or poor exactly with 15, 10 or 5 points |
| Scoring.EssentialEntry | src/App.jsx:680-698 | points are 4 times the number of distinct essential types present (galley, hygiene, waste collection, exercise, workstation), at most 20; the status is excellent iff at least four are present, good iff exactly three, and poor iff two or fewer |
| Scoring.PresentCountIsCardinality | src/App.jsx:687-688 | over a list without repeats, counting the present listed types gives the size of the set of present listed types |
| Scoring.AddKeepsEssentials | src/App.jsx:681-689 | placing another module never lowers the essential-modules points |
| Scoring.Percentage | src/App.jsx:701-702 | the percentage is score/120 × 100 rounded to the nearest integer, with halves rounded up |
| Scoring.PercentageMonotone | src/App.jsx:701-702 | a higher score never gives a lower percentage |
| Scoring.GradeMonotone | src/App.jsx:704-718 | the grade rises exactly at 60, 75 and 90 per cent, so a higher percentage never gives a worse grade |
| Scoring.CalculateScore | src/App.jsx:603-728 | each of the five entries is the one its rule awards: the volume entry from the metrics' volume status and volumes, privacy from the number of placed quarters, separation from the number of warnings, mass from the estimated mass, and the essential-modules entry from the layout; the entries come in the fixed category order, each within its maximum; the maxima total 120; the score is the sum of the points, within 0..120; the percentage is the score out of 120 as a rounded percentage (Percentage), within 0..100; the grade is that of the percentage |
| Scoring.EmptyLayoutScore | src/App.jsx:603-718 | with no modules and any crew, short and moderate missions score 60 (50%) and long missions 45 (38%); both are graded for redesign |

## Findings

| source | as written | input that shows it | evidently intended | confidence | as-written member | corrected member |
|---|---|---|---|---|---|---|
| src/App.jsx:179-185 | the new module record sets `id: Date.now()`, then spreads the catalog entry, whose own `id` field (for example `'crew_quarters'`) overwrites the timestamp, so all modules of one type share one id | add two crew quarters, then remove one or drag one to a free cell: both are removed, or both are stacked on that cell | each module keeps its timestamp as its id | high; not executed | Layout.AsWrittenIdsCollide | Layout.AddThenRemove |

`Layout.AddModuleAsWritten` builds the as-written record.
`Layout.AddModule` is the corrected operation, and the rest of the model uses it.
`Layout.StampedIdsDistinct` replays the counterexample on the corrected operation.
The contamination check is not affected: modules of one type share a class, and different types have different keys (`Catalog.KeysIdentifyTypes`).

## Left out

- React plumbing is not modelled: the context, the hooks and the component state. All rendering and display text are left out too.
- The drag handlers that only change element styles or classes are left out, as are the drag/drop events themselves. This covers drag start, drag end, drag over, drag enter and drag leave. `Drop` models only the layout update of the drop handler.
- `Date.now()` and `Math.random()` become the `stamp`, `x` and `y` parameters of `AddModule`. The range 0..5 is a precondition.
- Parsing of the crew size input is left out: `parseInt` can give NaN, and the `min`/`max` attributes of the HTML input are not enforced. `crewSize` is an integer, and `CalculateScore` requires it to be at least 1 because the rubric divides by it.
- Module names, colours, warning message strings, the breakdown's category label strings (src/App.jsx:617-693), the essential-modules entry's `details` text (src/App.jsx:697), grade labels and grade colours are presentation output and are not modelled. Categories and the grade are enums.
- Destination and hull geometry are not part of `Mission`, because no computation reads them.
- A placed module stores only id, type and cell. The source copies the catalog fields into it by spread, and the model reads them back through `Catalog.Spec`; both give the same values. Footprint width and height feed no computation.
- Direction strings other than the four arrows do not occur in the source, so `Direction` has only four values.
- Scoring.Percentage: computed exactly. The source computes `score / 120 * 100` in IEEE doubles before rounding, so a score that lands exactly on a half (a score of 3 mod 6) may round differently there.
- Metrics.CalculateMetrics: the NHV, ratio and mass comparisons use exact reals. The source uses doubles, and `1.3` is not exact in binary, so results at a comparison boundary may differ.
- Scoring.CalculateScore: the score is the sum of the points of the pushed breakdown entries. The source keeps a separate running total, but every branch adds exactly the points it pushes, and the volume branch that pushes nothing adds nothing.
