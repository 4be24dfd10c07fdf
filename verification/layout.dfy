/**
  The design grid: an 8 x 8 board of integer cells holding an insertion-ordered
  sequence of placed modules, and the four edits the designer can make to it
  (add, step-move, remove, drag-and-drop), plus the cell lookup the board uses
  to decide which module to draw in a cell.

  The clock that stamps new modules and the random start cell are parameters.
 */
module Layout {
  import opened Catalog

  const GridSize: int := 8
  /** New modules start at a random cell whose coordinates are drawn from 0..5. */
  const SpawnRange: int := 6

  datatype Option<T> = None | Some(value: T)

  /** A module's id is whatever its `id` field holds: a clock reading in
      milliseconds, or (see AddModuleAsWritten) a catalog key string. */
  datatype ModuleId = Stamp(ms: int) | TypeKey(key: string)

  /** A placed module. Its catalog attributes (volume, cleanliness) are read
      through Spec(kind). */
  datatype Module = Module(id: ModuleId, kind: ModuleType, x: int, y: int)

  datatype Direction = Up | Down | Left | Right

  function Max(a: int, b: int): int { if a < b then b else a }
  function Min(a: int, b: int): int { if a < b then a else b }

  predicate InGrid(m: Module) {
    0 <= m.x < GridSize && 0 <= m.y < GridSize
  }

  predicate AllInGrid(layout: seq<Module>) {
    forall i :: 0 <= i < |layout| ==> InGrid(layout[i])
  }

  predicate HasId(layout: seq<Module>, id: ModuleId) {
    exists i :: 0 <= i < |layout| && layout[i].id == id
  }

  predicate UniqueIds(layout: seq<Module>) {
    forall i, j :: 0 <= i < j < |layout| ==> layout[i].id != layout[j].id
  }

  predicate OccupiesCell(m: Module, x: int, y: int) {
    m.x == x && m.y == y
  }

  // ---------------------------------------------------------------------
  // addModule
  // ---------------------------------------------------------------------

  /** Appends a new module of the given kind, identified by the clock
      reading `stamp`, at a start cell in 0..5 x 0..5. Everything already
      placed stays as it was; a fresh stamp keeps ids unique. */
  function AddModule(layout: seq<Module>, kind: ModuleType, stamp: int, x: int, y: int): (r: seq<Module>)
    requires 0 <= x < SpawnRange && 0 <= y < SpawnRange
    ensures |r| == |layout| + 1 && r[..|layout|] == layout
    ensures r[|layout|] == Module(Stamp(stamp), kind, x, y)
    ensures InGrid(r[|layout|])
    ensures AllInGrid(layout) ==> AllInGrid(r)
    ensures UniqueIds(layout) && !HasId(layout, Stamp(stamp)) ==> UniqueIds(r)
  {
    layout + [Module(Stamp(stamp), kind, x, y)]
  }

  // ---------------------------------------------------------------------
  // moveModule
  // ---------------------------------------------------------------------

  /** One arrow-button step of a single module: up and down change only `y`,
      left and right only `x`, each by one cell, clamped to the board edge. */
  function Step(m: Module, dir: Direction): (r: Module)
    ensures r.id == m.id && r.kind == m.kind
    ensures dir == Up || dir == Down ==> r.x == m.x
    ensures dir == Left || dir == Right ==> r.y == m.y
    ensures InGrid(m) ==> InGrid(r)
    ensures InGrid(m) && dir == Up ==> r.y == (if m.y == 0 then 0 else m.y - 1)
    ensures InGrid(m) && dir == Down ==> r.y == (if m.y == GridSize - 1 then m.y else m.y + 1)
    ensures InGrid(m) && dir == Left ==> r.x == (if m.x == 0 then 0 else m.x - 1)
    ensures InGrid(m) && dir == Right ==> r.x == (if m.x == GridSize - 1 then m.x else m.x + 1)
  {
    match dir
    case Up    => m.(y := Max(0, m.y - 1))
    case Down  => m.(y := Min(GridSize - 1, m.y + 1))
    case Left  => m.(x := Max(0, m.x - 1))
    case Right => m.(x := Min(GridSize - 1, m.x + 1))
  }

  /** Steps every module whose id is `id`; all other modules, the length and
      the order of the layout are untouched. */
  function MoveModule(layout: seq<Module>, id: ModuleId, dir: Direction): (r: seq<Module>)
    ensures |r| == |layout|
    ensures forall i :: 0 <= i < |layout| && layout[i].id != id ==> r[i] == layout[i]
    ensures forall i :: 0 <= i < |layout| && layout[i].id == id ==> r[i] == Step(layout[i], dir)
    ensures forall i :: 0 <= i < |layout| ==> r[i].id == layout[i].id && r[i].kind == layout[i].kind
    ensures AllInGrid(layout) ==> AllInGrid(r)
    ensures !HasId(layout, id) ==> r == layout
  {
    seq(|layout|, i requires 0 <= i < |layout| =>
      if layout[i].id == id then Step(layout[i], dir) else layout[i])
  }

  /** A step up followed by a step down restores the layout whenever the
      moved modules were not on the top row (and all are on the board). */
  lemma MoveUpThenDown(layout: seq<Module>, id: ModuleId)
    requires AllInGrid(layout)
    requires forall i :: 0 <= i < |layout| && layout[i].id == id ==> layout[i].y > 0
    ensures MoveModule(MoveModule(layout, id, Up), id, Down) == layout
  {
    var r := MoveModule(MoveModule(layout, id, Up), id, Down);
    assert forall i :: 0 <= i < |layout| ==> r[i] == layout[i] by {
      forall i | 0 <= i < |layout|
        ensures r[i] == layout[i]
      {
        assert InGrid(layout[i]);
      }
    }
  }

  /** Likewise a step left followed by a step right, off the left column. */
  lemma MoveLeftThenRight(layout: seq<Module>, id: ModuleId)
    requires AllInGrid(layout)
    requires forall i :: 0 <= i < |layout| && layout[i].id == id ==> layout[i].x > 0
    ensures MoveModule(MoveModule(layout, id, Left), id, Right) == layout
  {
    var r := MoveModule(MoveModule(layout, id, Left), id, Right);
    assert forall i :: 0 <= i < |layout| ==> r[i] == layout[i] by {
      forall i | 0 <= i < |layout|
        ensures r[i] == layout[i]
      {
        assert InGrid(layout[i]);
      }
    }
  }

  // ---------------------------------------------------------------------
  // removeModule
  // ---------------------------------------------------------------------

  /** Keeps exactly the modules whose id differs from `id`, in their order. */
  function RemoveModule(layout: seq<Module>, id: ModuleId): (r: seq<Module>)
    ensures !HasId(r, id)
    ensures |r| <= |layout|
    ensures forall m :: m in r ==> m in layout && m.id != id
    ensures !HasId(layout, id) ==> r == layout
    ensures AllInGrid(layout) ==> AllInGrid(r)
    ensures UniqueIds(layout) ==> UniqueIds(r)
  {
    if |layout| == 0 then []
    else if layout[0].id == id then RemoveModule(layout[1..], id)
    else [layout[0]] + RemoveModule(layout[1..], id)
  }

  /** Removal works piecewise, so it keeps the relative order of the modules
      it keeps. */
  lemma {:induction false} RemoveDistributes(a: seq<Module>, b: seq<Module>, id: ModuleId)
    ensures RemoveModule(a + b, id) == RemoveModule(a, id) + RemoveModule(b, id)
  {
    if |a| == 0 {
      assert a + b == b;
    } else {
      assert (a + b)[1..] == a[1..] + b;
      RemoveDistributes(a[1..], b, id);
    }
  }

  /** Removal drops exactly the modules carrying the id: each other module
      keeps its multiplicity. */
  lemma {:induction false} RemoveCounts(layout: seq<Module>, id: ModuleId, m: Module)
    ensures multiset(RemoveModule(layout, id))[m] == if m.id == id then 0 else multiset(layout)[m]
  {
    if |layout| > 0 {
      RemoveCounts(layout[1..], id, m);
      assert layout == [layout[0]] + layout[1..];
    }
  }

  /** Removing twice is removing once. */
  lemma RemoveIdempotent(layout: seq<Module>, id: ModuleId)
    ensures RemoveModule(RemoveModule(layout, id), id) == RemoveModule(layout, id)
  {
  }

  /** Adding a module with a fresh stamp and then removing it by that stamp
      gives back the original layout. */
  lemma AddThenRemove(layout: seq<Module>, kind: ModuleType, stamp: int, x: int, y: int)
    requires 0 <= x < SpawnRange && 0 <= y < SpawnRange
    requires !HasId(layout, Stamp(stamp))
    ensures RemoveModule(AddModule(layout, kind, stamp, x, y), Stamp(stamp)) == layout
  {
    var m := Module(Stamp(stamp), kind, x, y);
    RemoveDistributes(layout, [m], Stamp(stamp));
    assert RemoveModule([m], Stamp(stamp)) == [];
  }

  // ---------------------------------------------------------------------
  // Cell lookup and handleDrop
  // ---------------------------------------------------------------------

  /** The module drawn in cell (x, y): the first one in layout order whose
      coordinates are that cell, or None for an empty cell. */
  function CellAt(layout: seq<Module>, x: int, y: int): (r: Option<Module>)
    ensures r.None? <==> forall i :: 0 <= i < |layout| ==> !OccupiesCell(layout[i], x, y)
    ensures r.Some? ==> exists i :: 0 <= i < |layout| && layout[i] == r.value && OccupiesCell(layout[i], x, y)
                                    && forall k :: 0 <= k < i ==> !OccupiesCell(layout[k], x, y)
  {
    if |layout| == 0 then None
    else if OccupiesCell(layout[0], x, y) then Some(layout[0])
    else
      var rest := CellAt(layout[1..], x, y);
      assert forall i :: 1 <= i < |layout| ==> layout[i] == layout[1..][i - 1];
      rest
  }

  /** Whether some module other than the one with id `id` sits on (x, y). */
  predicate TakenByOther(layout: seq<Module>, id: ModuleId, x: int, y: int) {
    exists i :: 0 <= i < |layout| && layout[i].id != id && OccupiesCell(layout[i], x, y)
  }

  /** Dropping the dragged module on cell (tx, ty): with nothing dragged, or
      with the cell held by a module of another id, the layout is unchanged;
      otherwise every module with the dragged id is relocated there and
      nothing else changes. */
  function Drop(layout: seq<Module>, dragged: Option<Module>, tx: int, ty: int): (r: seq<Module>)
    ensures dragged.None? ==> r == layout
    ensures dragged.Some? && TakenByOther(layout, dragged.value.id, tx, ty) ==> r == layout
    ensures |r| == |layout|
    ensures dragged.Some? && !TakenByOther(layout, dragged.value.id, tx, ty) ==>
      && (forall i :: 0 <= i < |layout| && layout[i].id != dragged.value.id ==> r[i] == layout[i])
      && (forall i :: 0 <= i < |layout| && layout[i].id == dragged.value.id ==>
            r[i] == layout[i].(x := tx, y := ty))
      && !TakenByOther(r, dragged.value.id, tx, ty)
    ensures forall i :: 0 <= i < |layout| ==> r[i].id == layout[i].id && r[i].kind == layout[i].kind
  {
    match dragged
    case None => layout
    case Some(d) =>
      if TakenByOther(layout, d.id, tx, ty) then layout
      else seq(|layout|, i requires 0 <= i < |layout| =>
             if layout[i].id == d.id then layout[i].(x := tx, y := ty) else layout[i])
  }

  /** After a successful drop of a module that is on the board, in a layout
      with unique ids, the target cell shows exactly that module. */
  lemma DropThenLookup(layout: seq<Module>, d: Module, tx: int, ty: int)
    requires UniqueIds(layout)
    requires d in layout
    requires !TakenByOther(layout, d.id, tx, ty)
    ensures CellAt(Drop(layout, Some(d), tx, ty), tx, ty) == Some(d.(x := tx, y := ty))
  {
    var r := Drop(layout, Some(d), tx, ty);
    var i :| 0 <= i < |layout| && layout[i] == d;
    assert OccupiesCell(r[i], tx, ty);
    var c := CellAt(r, tx, ty);
    var j :| 0 <= j < |r| && r[j] == c.value && OccupiesCell(r[j], tx, ty)
             && forall k :: 0 <= k < j ==> !OccupiesCell(r[k], tx, ty);
    assert r[j].id == d.id;
  }

  // ---------------------------------------------------------------------
  // The source's addModule, as written
  // ---------------------------------------------------------------------

  /** addModule exactly as the record literal builds it: the id is set from
      the clock and then overwritten by the catalog entry's own `id` field
      (its key) when the entry is spread into the record, so the stamp is
      lost. */
  function AddModuleAsWritten(layout: seq<Module>, kind: ModuleType, stamp: int, x: int, y: int): (r: seq<Module>)
    requires 0 <= x < SpawnRange && 0 <= y < SpawnRange
    ensures |r| == |layout| + 1 && r[..|layout|] == layout
    ensures r[|layout|] == Module(TypeKey(Spec(kind).key), kind, x, y)
  {
    layout + [Module(TypeKey(Spec(kind).key), kind, x, y)]
  }

  /** As written, two modules of one type share an id whatever the clock
      said: removing one removes both, and dragging one onto a free cell
      stacks both there. */
  lemma AsWrittenIdsCollide()
    ensures var l := AddModuleAsWritten(AddModuleAsWritten([], CrewQuarters, 1, 0, 0), CrewQuarters, 2, 3, 3);
            && !UniqueIds(l)
            && RemoveModule(l, l[0].id) == []
            && Drop(l, Some(l[0]), 5, 5) == [l[0].(x := 5, y := 5), l[1].(x := 5, y := 5)]
  {
    var l := AddModuleAsWritten(AddModuleAsWritten([], CrewQuarters, 1, 0, 0), CrewQuarters, 2, 3, 3);
    assert l[0].id == l[1].id;
    assert !TakenByOther(l, l[0].id, 5, 5);
  }

  /** With the clock stamp kept as the id, the same two additions stay
      distinguishable: removing the first keeps the second. */
  lemma StampedIdsDistinct()
    ensures var l := AddModule(AddModule([], CrewQuarters, 1, 0, 0), CrewQuarters, 2, 3, 3);
            && UniqueIds(l)
            && RemoveModule(l, l[0].id) == [l[1]]
            && Drop(l, Some(l[0]), 5, 5) == [l[0].(x := 5, y := 5), l[1]]
  {
    var l := AddModule(AddModule([], CrewQuarters, 1, 0, 0), CrewQuarters, 2, 3, 3);
    assert !TakenByOther(l, l[0].id, 5, 5);
  }
}
