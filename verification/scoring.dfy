/**
  The habitability score: five fixed rubric categories (habitable volume 30,
  privacy 25, clean/dirty separation 30, mass efficiency 15, essential
  modules 20), summed out of 120, turned into a rounded percentage and a
  four-level grade.
 */
module Scoring {
  import opened Catalog
  import opened Layout
  import opened Contamination
  import opened Metrics

  datatype Category = HabitableVolume | Privacy | Separation | MassEfficiency | EssentialModules
  datatype Status = Excellent | Good | Poor | Fail
  datatype Entry = Entry(category: Category, points: int, max: int, status: Status)

  /** The four grades, best first: approved, minor fixes needed, needs
      improvement, redesign. */
  datatype Grade = Approved | MinorFixes | NeedsImprovement | Redesign

  datatype Report = Report(score: int, maxScore: int, percentage: int, grade: Grade, breakdown: seq<Entry>)

  const VolumeMax: int := 30
  const PrivacyMax: int := 25
  const SeparationMax: int := 30
  const MassMax: int := 15
  const EssentialMax: int := 20
  /** The four scored categories plus the essential-modules bonus. */
  const TotalMax: int := VolumeMax + PrivacyMax + SeparationMax + MassMax + EssentialMax

  /** The fixed order in which the rubric emits its categories. */
  const CategoryOrder: seq<Category> := [HabitableVolume, Privacy, Separation, MassEfficiency, EssentialModules]

  predicate WellFormed(e: Entry) {
    0 <= e.points <= e.max
  }

  function SumPoints(entries: seq<Entry>): int {
    if |entries| == 0 then 0 else entries[0].points + SumPoints(entries[1..])
  }

  function SumMax(entries: seq<Entry>): int {
    if |entries| == 0 then 0 else entries[0].max + SumMax(entries[1..])
  }

  // ---------------------------------------------------------------------
  // 1. Habitable volume
  // ---------------------------------------------------------------------

  /** The entries the volume rule pushes: one failing entry when the volume
      is insufficient, otherwise a graded entry by the ratio of actual to
      required volume (100-150% best, up to 200% good, beyond poor). The
      source pushes nothing for a "sufficient" ratio below 1; that case
      cannot arise when the status agrees with the volumes. */
  function VolumeEntries(sufficient: bool, actualNhv: real, minNhv: real): (r: seq<Entry>)
    requires minNhv > 0.0
    ensures |r| <= 1
    ensures forall k :: 0 <= k < |r| ==> r[k].category == HabitableVolume && r[k].max == VolumeMax && WellFormed(r[k])
    ensures !sufficient ==> r == [Entry(HabitableVolume, 0, VolumeMax, Fail)]
    ensures sufficient && actualNhv >= minNhv ==> |r| == 1
    ensures sufficient && |r| == 1 ==> (r[0].points == 30 <==> actualNhv <= 1.5 * minNhv)
    ensures sufficient && |r| == 1 ==> (r[0].points == 20 <==> 1.5 * minNhv < actualNhv <= 2.0 * minNhv)
    ensures sufficient && |r| == 1 ==> (r[0].points == 10 <==> 2.0 * minNhv < actualNhv)
    ensures sufficient && |r| == 1 ==> (r[0].status == Excellent <==> r[0].points == 30)
    ensures sufficient && |r| == 1 ==> (r[0].status == Good <==> r[0].points == 20)
    ensures sufficient && |r| == 1 ==> (r[0].status == Poor <==> r[0].points == 10)
  {
    if sufficient then
      var ratio := actualNhv / minNhv;
      RatioScale(actualNhv, minNhv);
      if 1.0 <= ratio <= 1.5 then [Entry(HabitableVolume, 30, VolumeMax, Excellent)]
      else if 1.5 < ratio <= 2.0 then [Entry(HabitableVolume, 20, VolumeMax, Good)]
      else if ratio > 2.0 then [Entry(HabitableVolume, 10, VolumeMax, Poor)]
      else []
    else [Entry(HabitableVolume, 0, VolumeMax, Fail)]
  }

  /** Comparing the ratio a / b with a bound is comparing a with the scaled
      bound. */
  lemma RatioScale(a: real, b: real)
    requires b > 0.0
    ensures a / b >= 1.0 <==> a >= b
    ensures a / b <= 1.5 <==> a <= 1.5 * b
    ensures a / b <= 2.0 <==> a <= 2.0 * b
  {
    RatioBound(a, b, 1.0);
    RatioBound(a, b, 1.5);
    RatioBound(a, b, 2.0);
  }

  /** The ratio a / b sits on the same side of c as a does of c * b. */
  lemma RatioBound(a: real, b: real, c: real)
    requires b > 0.0
    ensures a / b >= c <==> a >= c * b
    ensures a / b <= c <==> a <= c * b
  {
    var q := a / b;
    assert q * b == a;
    assert (q - c) * b == a - c * b;
    ProductSign(q - c, b);
  }

  /** Multiplying by a positive number keeps the sign. */
  lemma ProductSign(x: real, b: real)
    requires b > 0.0
    ensures x >= 0.0 <==> x * b >= 0.0
    ensures x > 0.0 <==> x * b > 0.0
  {
    if x > 0.0 {
      assert x * b > 0.0;
    } else if x < 0.0 {
      assert (-x) * b > 0.0;
    }
  }

  // ---------------------------------------------------------------------
  // 2. Privacy
  // ---------------------------------------------------------------------

  /** Long missions need a private quarters per crew member for full marks
      and three quarters of that for partial marks; shorter missions get full
      marks from half and partial marks otherwise, never zero. */
  function PrivacyEntry(duration: Duration, quarters: int, crewSize: int): (e: Entry)
    ensures e.category == Privacy && e.max == PrivacyMax && WellFormed(e)
    ensures e.points == 0 || e.points == 15 || e.points == 25
    ensures duration == Long ==> (e.points == 25 <==> quarters >= crewSize)
    ensures duration == Long ==> (e.points == 15 <==> quarters < crewSize && 4 * quarters >= 3 * crewSize)
    ensures duration != Long ==> e.points != 0
    ensures duration != Long ==> (e.points == 25 <==> 2 * quarters >= crewSize)
    ensures e.status == Excellent <==> e.points == 25
    ensures e.status == Good <==> e.points == 15
    ensures e.status == Fail <==> e.points == 0
  {
    if duration == Long then
      if quarters >= crewSize then Entry(Privacy, 25, PrivacyMax, Excellent)
      else if quarters as real >= crewSize as real * 0.75 then Entry(Privacy, 15, PrivacyMax, Good)
      else Entry(Privacy, 0, PrivacyMax, Fail)
    else
      if quarters as real >= crewSize as real * 0.5 then Entry(Privacy, 25, PrivacyMax, Excellent)
      else Entry(Privacy, 15, PrivacyMax, Good)
  }

  // ---------------------------------------------------------------------
  // 3. Clean/dirty separation
  // ---------------------------------------------------------------------

  function SeparationEntry(warnings: nat): (e: Entry)
    ensures e.category == Separation && e.max == SeparationMax && WellFormed(e)
    ensures e.points == 30 <==> warnings == 0
    ensures e.points == 15 <==> 1 <= warnings <= 2
    ensures e.points == 0 <==> warnings > 2
    ensures e.status == Excellent <==> warnings == 0
    ensures e.status == Poor <==> 1 <= warnings <= 2
    ensures e.status == Fail <==> warnings > 2
  {
    if warnings == 0 then Entry(Separation, 30, SeparationMax, Excellent)
    else if warnings <= 2 then Entry(Separation, 15, SeparationMax, Poor)
    else Entry(Separation, 0, SeparationMax, Fail)
  }

  /** Because every touching clean/dirty couple is reported in both orders,
      the separation rule gives half marks exactly when there are two
      warnings (a single couple) and nothing from four warnings (two couples)
      on. */
  lemma SeparationByCouples(layout: seq<Module>)
    ensures var w := |Contaminations(layout)|;
            && (SeparationEntry(w).points == 15 <==> w == 2)
            && (SeparationEntry(w).points == 0 <==> w >= 4)
  {
    ReportIsEven(layout);
  }

  /** Scenario: one crew quarters beside one hygiene station costs half the
      separation marks. */
  lemma OneCoupleHalfMarks(q: ModuleId, h: ModuleId)
    requires q != h
    ensures SeparationEntry(|Contaminations([Module(q, CrewQuarters, 2, 3), Module(h, Hygiene, 3, 3)])|).points == 15
  {
    HygieneBesideQuarters(q, h);
  }

  /** Scenario: a hygiene station between two crew quarters in one row is
      two couples, four warnings, and no separation marks. */
  lemma TwoCouplesNoMarks(q1: ModuleId, h: ModuleId, q2: ModuleId)
    requires q1 != h && h != q2 && q1 != q2
    ensures SeparationEntry(|Contaminations([Module(q1, CrewQuarters, 1, 3), Module(h, Hygiene, 2, 3),
                                             Module(q2, CrewQuarters, 3, 3)])|).points == 0
  {
    var a, b, c := Module(q1, CrewQuarters, 1, 3), Module(h, Hygiene, 2, 3), Module(q2, CrewQuarters, 3, 3);
    var l := [a, b, c];
    assert Conflicting(a, b) && Conflicting(b, a) && Conflicting(c, b) && Conflicting(b, c);
    assert !Conflicting(a, a) && !Conflicting(a, c) && !Conflicting(b, b) && !Conflicting(c, a) && !Conflicting(c, c);
    assert l[1..] == [b, c] && [b, c][1..] == [c] && [c][1..] == [];
    assert Row(a, [c]) == [] + Row(a, []);
    assert Row(b, [c]) == [(b, c)] + Row(b, []);
    assert Row(c, [c]) == [] + Row(c, []);
    assert Row(a, [b, c]) == [(a, b)] + Row(a, [c]);
    assert Row(b, [b, c]) == [] + Row(b, [c]);
    assert Row(c, [b, c]) == [(c, b)] + Row(c, [c]);
    assert Row(a, l) == [] + Row(a, [b, c]);
    assert Row(b, l) == [(b, a)] + Row(b, [b, c]);
    assert Row(c, l) == [] + Row(c, [b, c]);
    assert Pairs(l, l) == Row(a, l) + Pairs([b, c], l);
    assert Pairs([b, c], l) == Row(b, l) + Pairs([c], l);
    assert Pairs([c], l) == Row(c, l) + Pairs([], l);
    assert |Contaminations(l)| == 4;
  }

  // ---------------------------------------------------------------------
  // 4. Mass efficiency
  // ---------------------------------------------------------------------

  /** Graded by estimated mass per crew member: under 3000 kg best, under
      4000 kg good, otherwise poor (never zero). */
  function MassEntry(mass: real, crewSize: int): (e: Entry)
    requires crewSize >= 1
    ensures e.category == MassEfficiency && e.max == MassMax && WellFormed(e)
    ensures e.points == 15 <==> mass < 3000.0 * crewSize as real
    ensures e.points == 10 <==> 3000.0 * crewSize as real <= mass < 4000.0 * crewSize as real
    ensures e.points == 5 <==> 4000.0 * crewSize as real <= mass
    ensures e.status == Excellent <==> e.points == 15
    ensures e.status == Good <==> e.points == 10
    ensures e.status == Poor <==> e.points == 5
  {
    var perCrew := mass / crewSize as real;
    PerCrewScale(mass, crewSize as real);
    if perCrew < 3000.0 then Entry(MassEfficiency, 15, MassMax, Excellent)
    else if perCrew < 4000.0 then Entry(MassEfficiency, 10, MassMax, Good)
    else Entry(MassEfficiency, 5, MassMax, Poor)
  }

  lemma PerCrewScale(a: real, c: real)
    requires c > 0.0
    ensures a / c < 3000.0 <==> a < 3000.0 * c
    ensures a / c < 4000.0 <==> a < 4000.0 * c
  {
    RatioBound(a, c, 3000.0);
    RatioBound(a, c, 4000.0);
  }

  // ---------------------------------------------------------------------
  // 5. Essential modules
  // ---------------------------------------------------------------------

  predicate Present(layout: seq<Module>, t: ModuleType) {
    exists i :: 0 <= i < |layout| && layout[i].kind == t
  }

  /** How many of `types` have at least one module placed. */
  function PresentCount(layout: seq<Module>, types: seq<ModuleType>): nat {
    if |types| == 0 then 0
    else (if Present(layout, types[0]) then 1 else 0) + PresentCount(layout, types[1..])
  }

  /** The set of essential types present in the layout. */
  function PresentEssentials(layout: seq<Module>): set<ModuleType> {
    set t | t in EssentialTypes && Present(layout, t)
  }

  /** Four points per essential type present, counting each type once
      however many modules of it are placed. */
  function EssentialEntry(layout: seq<Module>): (e: Entry)
    ensures e.category == EssentialModules && e.max == EssentialMax && WellFormed(e)
    ensures e.points == 4 * |PresentEssentials(layout)|
    ensures e.status == Excellent <==> |PresentEssentials(layout)| >= 4
    ensures e.status == Good <==> |PresentEssentials(layout)| == 3
    ensures e.status == Poor <==> |PresentEssentials(layout)| <= 2
  {
    var n := PresentCount(layout, EssentialTypes);
    PresentCountIsCardinality(layout, EssentialTypes);
    assert PresentEssentials(layout) == (set t | t in EssentialTypes && Present(layout, t));
    EssentialsBounded(layout);
    Entry(EssentialModules, n * 4, EssentialMax,
          if n >= 4 then Excellent else if n >= 3 then Good else Poor)
  }

  lemma EssentialsBounded(layout: seq<Module>)
    ensures |PresentEssentials(layout)| <= 5
  {
    var all: set<ModuleType> := {Galley, Hygiene, Wcs, Exercise, Workstation};
    assert PresentEssentials(layout) <= all;
    assert |all| == 5;
    SubsetCard(PresentEssentials(layout), all);
  }

  lemma SubsetCard(a: set<ModuleType>, b: set<ModuleType>)
    requires a <= b
    ensures |a| <= |b|
  {
    assert b == a + (b - a);
  }

  /** Counting the listed types that are present, over a list without
      repeats, is the size of the set of present listed types. */
  lemma {:induction false} PresentCountIsCardinality(layout: seq<Module>, types: seq<ModuleType>)
    requires forall i, j :: 0 <= i < j < |types| ==> types[i] != types[j]
    ensures PresentCount(layout, types) == |set t | t in types && Present(layout, t)|
  {
    if |types| == 0 {
      assert (set t | t in types && Present(layout, t)) == {};
    } else {
      var rest := types[1..];
      PresentCountIsCardinality(layout, rest);
      var s := set t | t in types && Present(layout, t);
      var s' := set t | t in rest && Present(layout, t);
      assert types[0] !in rest;
      if Present(layout, types[0]) {
        assert s == s' + {types[0]};
      } else {
        assert s == s';
      }
    }
  }

  /** Placing another module never lowers the essential-modules points. */
  lemma AddKeepsEssentials(layout: seq<Module>, kind: ModuleType, stamp: int, x: int, y: int)
    requires 0 <= x < SpawnRange && 0 <= y < SpawnRange
    ensures EssentialEntry(layout).points <= EssentialEntry(AddModule(layout, kind, stamp, x, y)).points
  {
    var l := AddModule(layout, kind, stamp, x, y);
    assert PresentEssentials(layout) <= PresentEssentials(l) by {
      forall t | t in PresentEssentials(layout) ensures t in PresentEssentials(l) {
        var i :| 0 <= i < |layout| && layout[i].kind == t;
        assert l[i] == layout[i];
      }
    }
    SubsetCard(PresentEssentials(layout), PresentEssentials(l));
  }

  // ---------------------------------------------------------------------
  // Percentage and grade
  // ---------------------------------------------------------------------

  /** score out of 120 as a percentage, rounded to the nearest integer with
      halves rounded up. */
  function Percentage(score: int): (p: int)
    ensures (p as real) - 0.5 <= (score as real) * 100.0 / 120.0 < (p as real) + 0.5
  {
    var n := score * 100 + 60;
    var p := n / 120;
    var rem := n % 120;
    assert n == 120 * p + rem && 0 <= rem < 120;
    assert (score as real) * 100.0 / 120.0 == (p as real) + ((rem - 60) as real) / 120.0;
    p
  }

  lemma PercentageMonotone(s: int, t: int)
    requires s <= t
    ensures Percentage(s) <= Percentage(t)
  {
  }

  function GradeOf(percentage: int): Grade {
    if percentage >= 90 then Approved
    else if percentage >= 75 then MinorFixes
    else if percentage >= 60 then NeedsImprovement
    else Redesign
  }

  /** Position of a grade on the scale, best highest. */
  function GradeRank(g: Grade): nat {
    match g
    case Redesign => 0
    case NeedsImprovement => 1
    case MinorFixes => 2
    case Approved => 3
  }

  /** A higher percentage never earns a worse grade, and the grade moves
      up exactly at 60, 75 and 90 per cent. */
  lemma GradeMonotone(p: int, q: int)
    requires p <= q
    ensures GradeRank(GradeOf(p)) <= GradeRank(GradeOf(q))
    ensures GradeRank(GradeOf(p)) == (if p >= 60 then 1 else 0) + (if p >= 75 then 1 else 0) + (if p >= 90 then 1 else 0)
  {
  }

  // ---------------------------------------------------------------------
  // calculateScore
  // ---------------------------------------------------------------------

  /** calculateScore: exactly one entry per category in the fixed order,
      each the entry its rule awards and within its maximum; the score is the
      sum of the entries' points, out of 120, so within 0..120, and the
      percentage within 0..100. */
  function CalculateScore(mission: Mission, layout: seq<Module>): (r: Report)
    requires mission.crewSize >= 1
    ensures |r.breakdown| == |CategoryOrder|
    ensures forall k :: 0 <= k < |r.breakdown| ==> r.breakdown[k].category == CategoryOrder[k]
    ensures forall k :: 0 <= k < |r.breakdown| ==> WellFormed(r.breakdown[k])
    ensures var m := CalculateMetrics(mission, layout);
            [r.breakdown[0]] == VolumeEntries(m.nhvSufficient, m.actualNhv, m.minNhv as real)
    ensures r.breakdown[1] == PrivacyEntry(mission.duration, CountKind(layout, CrewQuarters), mission.crewSize)
    ensures r.breakdown[2] == SeparationEntry(|Contaminations(layout)|)
    ensures r.breakdown[3] == MassEntry(EstimatedMass(layout), mission.crewSize)
    ensures r.breakdown[4] == EssentialEntry(layout)
    ensures r.maxScore == SumMax(r.breakdown) == 120
    ensures r.score == SumPoints(r.breakdown)
    ensures 0 <= r.score <= r.maxScore
    ensures r.percentage == Percentage(r.score) && 0 <= r.percentage <= 100
    ensures r.grade == GradeOf(r.percentage)
  {
    var m := CalculateMetrics(mission, layout);
    var warnings := Contaminations(layout);
    var volume := VolumeEntries(m.nhvSufficient, m.actualNhv, m.minNhv as real);
    var privacy := PrivacyEntry(mission.duration, m.crewQuarters, mission.crewSize);
    var separation := SeparationEntry(|warnings|);
    var mass := MassEntry(m.estimatedMass, mission.crewSize);
    var essentials := EssentialEntry(layout);
    var breakdown := volume + [privacy] + [separation] + [mass] + [essentials];
    var score := SumPoints(breakdown);
    Assemble(volume, privacy, separation, mass, essentials);
    var percentage := Percentage(score);
    Report(score, TotalMax, percentage, GradeOf(percentage), breakdown)
  }

  /** The breakdown the five rules push, in order, when the volume rule
      pushed its one entry. */
  lemma Assemble(volume: seq<Entry>, privacy: Entry, separation: Entry, mass: Entry, essentials: Entry)
    requires |volume| == 1 && volume[0].category == HabitableVolume && volume[0].max == VolumeMax && WellFormed(volume[0])
    requires privacy.category == Privacy && privacy.max == PrivacyMax && WellFormed(privacy)
    requires separation.category == Separation && separation.max == SeparationMax && WellFormed(separation)
    requires mass.category == MassEfficiency && mass.max == MassMax && WellFormed(mass)
    requires essentials.category == EssentialModules && essentials.max == EssentialMax && WellFormed(essentials)
    ensures var b := volume + [privacy] + [separation] + [mass] + [essentials];
            && |b| == |CategoryOrder|
            && (forall k :: 0 <= k < |b| ==> b[k].category == CategoryOrder[k] && WellFormed(b[k]))
            && SumMax(b) == 120
            && 0 <= SumPoints(b) <= 120
            && 0 <= Percentage(SumPoints(b)) <= 100
  {
    var b := volume + [privacy] + [separation] + [mass] + [essentials];
    assert b == [volume[0], privacy, separation, mass, essentials];
    BreakdownSums(b);
    PercentageMonotone(0, SumPoints(b));
    PercentageMonotone(SumPoints(b), 120);
    assert Percentage(0) == 0 && Percentage(120) == 100;
  }

  /** The totals of a five-entry breakdown, spelled out. */
  lemma SumsOfFive(b: seq<Entry>)
    requires |b| == 5
    ensures SumPoints(b) == b[0].points + b[1].points + b[2].points + b[3].points + b[4].points
    ensures SumMax(b) == b[0].max + b[1].max + b[2].max + b[3].max + b[4].max
  {
    assert b[4..][1..] == [];
    assert b[3..][1..] == b[4..];
    assert b[2..][1..] == b[3..];
    assert b[1..][1..] == b[2..];
    assert SumPoints(b[4..]) == b[4].points;
    assert SumPoints(b[3..]) == b[3].points + b[4].points;
    assert SumPoints(b[2..]) == b[2].points + b[3].points + b[4].points;
    assert SumPoints(b[1..]) == b[1].points + b[2].points + b[3].points + b[4].points;
    assert SumMax(b[4..]) == b[4].max;
    assert SumMax(b[3..]) == b[3].max + b[4].max;
    assert SumMax(b[2..]) == b[2].max + b[3].max + b[4].max;
    assert SumMax(b[1..]) == b[1].max + b[2].max + b[3].max + b[4].max;
  }

  /** Five well-formed entries with the rubric's maxima sum to at most 120. */
  lemma BreakdownSums(b: seq<Entry>)
    requires |b| == 5
    requires forall k :: 0 <= k < 5 ==> WellFormed(b[k])
    requires b[0].max == 30 && b[1].max == 25 && b[2].max == 30 && b[3].max == 15 && b[4].max == 20
    ensures SumMax(b) == 120
    ensures 0 <= SumPoints(b) <= 120
  {
    SumsOfFive(b);
    assert WellFormed(b[0]) && WellFormed(b[1]) && WellFormed(b[2]) && WellFormed(b[3]) && WellFormed(b[4]);
  }

  /** Scenario: an empty layout with any crew scores 0 + 15 + 30 + 15 + 0
      = 60 (50%) on a short or moderate mission and 0 + 0 + 30 + 15 + 0 = 45
      (38%) on a long one; both grade as a redesign. */
  lemma EmptyLayoutScore(duration: Duration, crewSize: int)
    requires crewSize >= 1
    ensures var r := CalculateScore(Mission(duration, crewSize), []);
            && r.score == (if duration == Long then 45 else 60)
            && r.percentage == (if duration == Long then 38 else 50)
            && r.grade == Redesign
  {
    var m := CalculateMetrics(Mission(duration, crewSize), []);
    assert m.crewQuarters == 0 && m.actualNhv == 0.0 && !m.nhvSufficient;
    assert PresentEssentials([]) == {};
    var r := CalculateScore(Mission(duration, crewSize), []);
    var b := r.breakdown;
    assert b[0].points == 0 && b[2].points == 30 && b[3].points == 15 && b[4].points == 0;
    assert b[1].points == (if duration == Long then 0 else 15);
    SumsOfFive(b);
  }
}
