/**
  Habitability metrics of a layout under a mission configuration: required
  and actual net habitable volume (NHV), private quarters, clean and dirty
  zone counts, estimated mass, and the three pass/fail statuses.

  Volumes and mass are exact reals; the source computes them in IEEE
  doubles, so results at a comparison boundary may differ from it.
 */
module Metrics {
  import opened Catalog
  import opened Layout
  import opened Contamination

  datatype Duration = Short | Moderate | Long

  /** The mission parameters the rules read. Destination and hull geometry
      are chosen by the designer too but feed no computation here. */
  datatype Mission = Mission(duration: Duration, crewSize: int)

  /** Required NHV per crew member, in cubic metres. */
  const NhvPerCrew: int := 28
  /** Packing-inefficiency factor applied to the summed module volumes. */
  const PackingFactor: real := 1.3
  /** Mass estimate: kilograms per cubic metre of NHV, and per module. */
  const MassPerVolume: real := 100.0
  const MassPerModule: real := 50.0

  datatype Metrics = Metrics(
    minNhv: int,
    actualNhv: real,
    nhvSufficient: bool,
    crewQuarters: nat,
    privacyAdequate: bool,
    cleanZones: nat,
    dirtyZones: nat,
    separationGood: bool,
    estimatedMass: real)

  /** Summed catalog volume of the placed modules. */
  function ModuleVolume(layout: seq<Module>): real {
    if |layout| == 0 then 0.0 else Spec(layout[0].kind).minVolume + ModuleVolume(layout[1..])
  }

  /** The actual net habitable volume: the summed catalog volume scaled by
      the packing-inefficiency factor 1.3. */
  function ActualNhv(layout: seq<Module>): real {
    ModuleVolume(layout) * PackingFactor
  }

  function CountKind(layout: seq<Module>, t: ModuleType): nat {
    if |layout| == 0 then 0 else (if layout[0].kind == t then 1 else 0) + CountKind(layout[1..], t)
  }

  function CountClean(layout: seq<Module>, clean: bool): nat {
    if |layout| == 0 then 0 else (if IsClean(layout[0]) == clean then 1 else 0) + CountClean(layout[1..], clean)
  }

  function EstimatedMass(layout: seq<Module>): real {
    ActualNhv(layout) * MassPerVolume + (|layout| as real) * MassPerModule
  }

  /** calculateMetrics. The required volume is 28 cubic metres per crew
      member whatever the duration; the volume status passes exactly when the
      packed volume reaches it; privacy can fail only on long missions; the
      separation status is good exactly when no two modules conflict. */
  function CalculateMetrics(mission: Mission, layout: seq<Module>): (r: Metrics)
    ensures r.minNhv == NhvPerCrew * mission.crewSize
    ensures r.actualNhv == ActualNhv(layout)
    ensures r.actualNhv >= 0.0 && (|layout| > 0 <==> r.actualNhv > 0.0)
    ensures r.nhvSufficient <==> r.actualNhv >= r.minNhv as real
    ensures r.crewQuarters == CountKind(layout, CrewQuarters)
    ensures r.cleanZones == CountClean(layout, true) && r.dirtyZones == CountClean(layout, false)
    ensures r.crewQuarters <= r.cleanZones
    ensures r.cleanZones + r.dirtyZones == |layout|
    ensures r.privacyAdequate <==> mission.duration != Long || r.crewQuarters >= mission.crewSize
    ensures r.separationGood <==>
              forall i, j :: 0 <= i < |layout| && 0 <= j < |layout| ==> !Conflicting(layout[i], layout[j])
    ensures r.estimatedMass == MassPerVolume * r.actualNhv + MassPerModule * |layout| as real
    ensures r.estimatedMass == 130.0 * ModuleVolume(layout) + 50.0 * |layout| as real
  {
    var minNhv := mission.crewSize * NhvPerCrew;
    var actualNhv := ActualNhv(layout);
    var crewQuarters := CountKind(layout, CrewQuarters);
    var cleanZones := CountClean(layout, true);
    var dirtyZones := CountClean(layout, false);
    var nhvSufficient := actualNhv >= minNhv as real;
    var privacyAdequate := (mission.duration == Long && crewQuarters >= mission.crewSize)
                           || mission.duration != Long;
    var warnings := Contaminations(layout);
    var separationGood := |warnings| == 0;
    VolumePositive(layout);
    CleanDirtyPartition(layout);
    QuartersAreClean(layout);
    NoWarningsIffNoConflict(layout);
    Metrics(minNhv, actualNhv, nhvSufficient, crewQuarters, privacyAdequate,
            cleanZones, dirtyZones, separationGood, EstimatedMass(layout))
  }

  // ---------------------------------------------------------------------
  // Lemmas
  // ---------------------------------------------------------------------

  /** The contamination report is empty exactly when no two placed modules
      conflict. */
  lemma NoWarningsIffNoConflict(layout: seq<Module>)
    ensures |Contaminations(layout)| == 0 <==>
              forall i, j :: 0 <= i < |layout| && 0 <= j < |layout| ==> !Conflicting(layout[i], layout[j])
  {
    var warnings := Contaminations(layout);
    if |warnings| != 0 {
      var p := warnings[0];
      assert p in warnings;
      var i :| 0 <= i < |layout| && layout[i] == p.0;
      var j :| 0 <= j < |layout| && layout[j] == p.1;
      assert Conflicting(layout[i], layout[j]);
    }
  }

  /** The summed volume is positive exactly when some module is placed. */
  lemma {:induction false} VolumePositive(layout: seq<Module>)
    ensures ModuleVolume(layout) >= 0.0
    ensures |layout| > 0 <==> ModuleVolume(layout) > 0.0
  {
    if |layout| > 0 {
      VolumePositive(layout[1..]);
    }
  }

  /** Every module is either clean or dirty. */
  lemma {:induction false} CleanDirtyPartition(layout: seq<Module>)
    ensures CountClean(layout, true) + CountClean(layout, false) == |layout|
  {
    if |layout| > 0 {
      CleanDirtyPartition(layout[1..]);
    }
  }

  /** Crew quarters are clean zones. */
  lemma {:induction false} QuartersAreClean(layout: seq<Module>)
    ensures CountKind(layout, CrewQuarters) <= CountClean(layout, true)
  {
    if |layout| > 0 {
      QuartersAreClean(layout[1..]);
    }
  }

  /** Volume is additive over concatenation of layouts. */
  lemma {:induction false} VolumeAdditive(a: seq<Module>, b: seq<Module>)
    ensures ModuleVolume(a + b) == ModuleVolume(a) + ModuleVolume(b)
  {
    if |a| == 0 {
      assert a + b == b;
    } else {
      assert (a + b)[1..] == a[1..] + b;
      VolumeAdditive(a[1..], b);
    }
  }

  /** With unique ids, removing the id of the module at index i removes just
      that module. */
  lemma RemoveAt(layout: seq<Module>, i: int)
    requires UniqueIds(layout)
    requires 0 <= i < |layout|
    ensures RemoveModule(layout, layout[i].id) == layout[..i] + layout[i + 1..]
  {
    var id := layout[i].id;
    var pre, mid, post := layout[..i], [layout[i]], layout[i + 1..];
    assert layout == (pre + mid) + post;
    assert !HasId(pre, id) by {
      forall k | 0 <= k < |pre| ensures pre[k].id != id {
        assert pre[k] == layout[k];
      }
    }
    assert !HasId(post, id) by {
      forall k | 0 <= k < |post| ensures post[k].id != id {
        assert post[k] == layout[i + 1 + k];
      }
    }
    var rPre, rMid, rPost := RemoveModule(pre, id), RemoveModule(mid, id), RemoveModule(post, id);
    assert rPre == pre;
    assert rPost == post;
    assert rMid == [] by {
      assert mid[1..] == [];
    }
    RemoveDistributes(pre + mid, post, id);
    RemoveDistributes(pre, mid, id);
    assert RemoveModule(pre + mid, id) == pre;
  }

  /** The volume of a layout split around one module is the volume before
      it, plus the module's, plus the volume after it. */
  lemma VolumeAround(pre: seq<Module>, m: Module, post: seq<Module>)
    ensures ModuleVolume(pre + [m] + post) == ModuleVolume(pre) + Spec(m.kind).minVolume + ModuleVolume(post)
  {
    SingletonVolume(m);
    VolumeAdditive(pre + [m], post);
    VolumeAdditive(pre, [m]);
  }

  lemma SingletonVolume(m: Module)
    ensures ModuleVolume([m]) == Spec(m.kind).minVolume
  {
    assert [m][1..] == [];
  }

  /** In a layout with unique ids, removing a placed module lowers the
      actual NHV by exactly 1.3 times that module's catalog volume. */
  lemma RemoveLowersNhv(layout: seq<Module>, i: int)
    requires UniqueIds(layout)
    requires 0 <= i < |layout|
    ensures ActualNhv(RemoveModule(layout, layout[i].id))
            == ActualNhv(layout) - PackingFactor * Spec(layout[i].kind).minVolume
  {
    RemoveAt(layout, i);
    SplitAt(layout, i);
    VolumeDrop(layout[..i], layout[i], layout[i + 1..]);
  }

  lemma SplitAt(layout: seq<Module>, i: int)
    requires 0 <= i < |layout|
    ensures layout == layout[..i] + [layout[i]] + layout[i + 1..]
  {
  }

  lemma VolumeDrop(pre: seq<Module>, m: Module, post: seq<Module>)
    ensures ActualNhv(pre + post) == ActualNhv(pre + [m] + post) - PackingFactor * Spec(m.kind).minVolume
  {
    VolumeAround(pre, m, post);
    VolumeAdditive(pre, post);
  }

  /** Adding a module and removing it again by its fresh stamp leaves every
      metric as it was. */
  lemma AddThenRemoveMetrics(mission: Mission, layout: seq<Module>, kind: ModuleType, stamp: int, x: int, y: int)
    requires 0 <= x < SpawnRange && 0 <= y < SpawnRange
    requires !HasId(layout, Stamp(stamp))
    ensures CalculateMetrics(mission, RemoveModule(AddModule(layout, kind, stamp, x, y), Stamp(stamp)))
            == CalculateMetrics(mission, layout)
  {
    AddThenRemove(layout, kind, stamp, x, y);
  }

  /** Adding a module raises the actual NHV by 1.3 times its catalog volume,
      so a sufficient volume stays sufficient. */
  lemma AddRaisesNhv(mission: Mission, layout: seq<Module>, kind: ModuleType, stamp: int, x: int, y: int)
    requires 0 <= x < SpawnRange && 0 <= y < SpawnRange
    ensures ActualNhv(AddModule(layout, kind, stamp, x, y)) == ActualNhv(layout) + PackingFactor * Spec(kind).minVolume
    ensures CalculateMetrics(mission, layout).nhvSufficient ==>
            CalculateMetrics(mission, AddModule(layout, kind, stamp, x, y)).nhvSufficient
  {
    var m := Module(Stamp(stamp), kind, x, y);
    VolumeAdditive(layout, [m]);
    assert ModuleVolume([m]) == Spec(kind).minVolume + ModuleVolume([]);
  }

  /** Scenario: four crew quarters, a galley and a workstation for a crew of
      four on a long mission give 25 cubic metres of modules, 32.5 packed,
      against 112 required: insufficient. */
  lemma LongMissionUndersized(ids: seq<int>)
    requires |ids| == 6
    ensures var layout := [Module(Stamp(ids[0]), CrewQuarters, 0, 0), Module(Stamp(ids[1]), CrewQuarters, 2, 0),
                           Module(Stamp(ids[2]), CrewQuarters, 4, 0), Module(Stamp(ids[3]), CrewQuarters, 0, 2),
                           Module(Stamp(ids[4]), Galley, 2, 2), Module(Stamp(ids[5]), Workstation, 4, 2)];
            var r := CalculateMetrics(Mission(Long, 4), layout);
            r.actualNhv == 32.5 && r.minNhv == 112 && !r.nhvSufficient && r.crewQuarters == 4 && r.privacyAdequate
  {
    var layout := [Module(Stamp(ids[0]), CrewQuarters, 0, 0), Module(Stamp(ids[1]), CrewQuarters, 2, 0),
                   Module(Stamp(ids[2]), CrewQuarters, 4, 0), Module(Stamp(ids[3]), CrewQuarters, 0, 2),
                   Module(Stamp(ids[4]), Galley, 2, 2), Module(Stamp(ids[5]), Workstation, 4, 2)];
    assert ModuleVolume(layout[5..]) == 3.0;
    assert ModuleVolume(layout[4..]) == 11.0;
    assert ModuleVolume(layout[3..]) == 14.5;
    assert ModuleVolume(layout[2..]) == 18.0;
    assert ModuleVolume(layout[1..]) == 21.5;
    assert ModuleVolume(layout) == 25.0;
    assert CountKind(layout[5..], CrewQuarters) == 0;
    assert CountKind(layout[4..], CrewQuarters) == 0;
    assert CountKind(layout[3..], CrewQuarters) == 1;
    assert CountKind(layout[2..], CrewQuarters) == 2;
    assert CountKind(layout[1..], CrewQuarters) == 3;
    assert CountKind(layout, CrewQuarters) == 4;
  }
}
