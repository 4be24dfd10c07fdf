/**
  The module catalog: the six kinds of habitat module a designer can place,
  with the physical attributes the layout and scoring rules read.
  Display name and colour are presentation data and are not modelled.
 */
module Catalog {

  datatype ModuleType = CrewQuarters | Galley | Hygiene | Wcs | Exercise | Workstation

  /** One catalog entry. `key` is the entry's own identifier string
      ("crew_quarters", ...); `minVolume` is in cubic metres. */
  datatype TypeSpec = TypeSpec(key: string, minVolume: real, width: int, height: int, isClean: bool)

  /** The catalog is total: every module type has exactly one entry. Clean
      zones are the quarters, the galley and the workstation; hygiene, waste
      collection and exercise are dirty. */
  function Spec(t: ModuleType): (s: TypeSpec)
    ensures s.minVolume > 0.0
    ensures 1 <= s.width <= 3 && 1 <= s.height <= 2
    ensures s.isClean <==> (t == CrewQuarters || t == Galley || t == Workstation)
  {
    match t
    case CrewQuarters => TypeSpec("crew_quarters", 3.5, 2, 2, true)
    case Galley       => TypeSpec("galley", 8.0, 3, 2, true)
    case Hygiene      => TypeSpec("hygiene", 2.0, 2, 1, false)
    case Wcs          => TypeSpec("wcs", 1.5, 1, 1, false)
    case Exercise     => TypeSpec("exercise", 4.0, 2, 2, false)
    case Workstation  => TypeSpec("workstation", 3.0, 2, 2, true)
  }

  /** The catalog keys identify the types: two entries share a key only when
      they are the same entry. */
  lemma KeysIdentifyTypes(s: ModuleType, t: ModuleType)
    ensures Spec(s).key == Spec(t).key <==> s == t
  {
  }

  /** The module types the scoring rubric rewards for being present, in the
      order the rubric checks them. Crew quarters are scored separately. */
  const EssentialTypes: seq<ModuleType> := [Galley, Hygiene, Wcs, Exercise, Workstation]
}
