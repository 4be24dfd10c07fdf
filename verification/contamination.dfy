/**
  Cross-contamination check: every ordered pair of placed modules (in the
  nested scan order, outer module first) whose ids differ, whose clean/dirty
  classes differ and whose cells touch along a side. Pairs are not
  deduplicated, so each touching clean/dirty couple is reported once in each
  order.
 */
module Contamination {
  import opened Catalog
  import opened Layout

  type Pair = (Module, Module)

  function Abs(n: int): int { if n < 0 then -n else n }

  function IsClean(m: Module): bool { Spec(m.kind).isClean }

  /** 4-neighbourhood on the grid: one step along a row or along a column. */
  predicate Adjacent(a: Module, b: Module) {
    (Abs(a.x - b.x) == 1 && a.y == b.y) || (Abs(a.y - b.y) == 1 && a.x == b.x)
  }

  predicate Conflicting(a: Module, b: Module) {
    a.id != b.id && IsClean(a) != IsClean(b) && Adjacent(a, b)
  }

  /** A reported pair is one clean and one dirty module at Manhattan distance
      exactly one, so never a diagonal, a shared cell, or a same-class pair;
      and the relation is symmetric. */
  lemma ConflictShape(a: Module, b: Module)
    ensures Conflicting(a, b) ==> Abs(a.x - b.x) + Abs(a.y - b.y) == 1
    ensures Conflicting(a, b) ==> a.id != b.id && (a.kind == CrewQuarters || a.kind == Galley || a.kind == Workstation
                                                 <==> !(b.kind == CrewQuarters || b.kind == Galley || b.kind == Workstation))
    ensures Conflicting(a, b) <==> Conflicting(b, a)
    ensures !Conflicting(a, a)
  {
  }

  /** The inner scan for one outer module `a`, over `inner` in order. */
  function Row(a: Module, inner: seq<Module>): seq<Pair> {
    if |inner| == 0 then []
    else (if Conflicting(a, inner[0]) then [(a, inner[0])] else []) + Row(a, inner[1..])
  }

  /** The outer scan over `outer`, each module scanned against all of `inner`. */
  function Pairs(outer: seq<Module>, inner: seq<Module>): seq<Pair> {
    if |outer| == 0 then [] else Row(outer[0], inner) + Pairs(outer[1..], inner)
  }

  /** checkContamination: the layout scanned against itself. A pair is
      reported if and only if it is a conflicting pair of placed modules. */
  function Contaminations(layout: seq<Module>): (r: seq<Pair>)
    ensures forall p :: p in r ==> p.0 in layout && p.1 in layout && Conflicting(p.0, p.1)
    ensures forall i, j :: 0 <= i < |layout| && 0 <= j < |layout| && Conflicting(layout[i], layout[j]) ==>
              (layout[i], layout[j]) in r
  {
    PairsMembers(layout, layout);
    Pairs(layout, layout)
  }

  lemma {:induction false} RowMembers(a: Module, inner: seq<Module>)
    ensures forall p :: p in Row(a, inner) ==> p.0 == a && p.1 in inner && Conflicting(a, p.1)
    ensures forall b :: b in inner && Conflicting(a, b) ==> (a, b) in Row(a, inner)
  {
    if |inner| > 0 {
      RowMembers(a, inner[1..]);
      assert forall b :: b in inner ==> b == inner[0] || b in inner[1..];
    }
  }

  lemma {:induction false} PairsMembers(outer: seq<Module>, inner: seq<Module>)
    ensures forall p :: p in Pairs(outer, inner) ==> p.0 in outer && p.1 in inner && Conflicting(p.0, p.1)
    ensures forall a, b :: a in outer && b in inner && Conflicting(a, b) ==> (a, b) in Pairs(outer, inner)
  {
    if |outer| > 0 {
      RowMembers(outer[0], inner);
      PairsMembers(outer[1..], inner);
      assert forall a :: a in outer ==> a == outer[0] || a in outer[1..];
    }
  }

  // ---------------------------------------------------------------------
  // Scan order: appending to either scan appends to the report
  // ---------------------------------------------------------------------

  lemma {:induction false} RowSnoc(a: Module, inner: seq<Module>, b: Module)
    ensures Row(a, inner + [b]) == Row(a, inner) + (if Conflicting(a, b) then [(a, b)] else [])
  {
    if |inner| == 0 {
      assert inner + [b] == [b];
    } else {
      assert (inner + [b])[1..] == inner[1..] + [b];
      RowSnoc(a, inner[1..], b);
    }
  }

  lemma {:induction false} PairsSnoc(outer: seq<Module>, a: Module, inner: seq<Module>)
    ensures Pairs(outer + [a], inner) == Pairs(outer, inner) + Row(a, inner)
  {
    if |outer| == 0 {
      assert outer + [a] == [a];
    } else {
      assert (outer + [a])[1..] == outer[1..] + [a];
      PairsSnoc(outer[1..], a, inner);
    }
  }

  /** checkContamination as the source writes it: two nested forEach loops
      pushing a warning for every qualifying ordered pair. */
  method CheckContamination(layout: seq<Module>) returns (warnings: seq<Pair>)
    ensures warnings == Contaminations(layout)
    ensures |warnings| % 2 == 0
  {
    warnings := [];
    var i := 0;
    while i < |layout|
      invariant 0 <= i <= |layout|
      invariant warnings == Pairs(layout[..i], layout)
    {
      var j := 0;
      while j < |layout|
        invariant 0 <= j <= |layout|
        invariant warnings == Pairs(layout[..i], layout) + Row(layout[i], layout[..j])
      {
        RowSnoc(layout[i], layout[..j], layout[j]);
        assert layout[..j + 1] == layout[..j] + [layout[j]];
        if Conflicting(layout[i], layout[j]) {
          warnings := warnings + [(layout[i], layout[j])];
        }
        j := j + 1;
      }
      assert layout[..j] == layout;
      PairsSnoc(layout[..i], layout[i], layout);
      assert layout[..i + 1] == layout[..i] + [layout[i]];
      i := i + 1;
    }
    assert layout[..i] == layout;
    ReportIsEven(layout);
  }

  // ---------------------------------------------------------------------
  // Counting: each couple is reported once per order
  // ---------------------------------------------------------------------

  /** Each ordered pair (a, b) of conflicting modules is reported once for
      every occurrence of a times every occurrence of b. */
  lemma {:induction false} PairsCount(outer: seq<Module>, inner: seq<Module>, a: Module, b: Module)
    ensures multiset(Pairs(outer, inner))[(a, b)]
            == if Conflicting(a, b) then multiset(outer)[a] * multiset(inner)[b] else 0
  {
    if |outer| > 0 {
      var row, rest := Row(outer[0], inner), Pairs(outer[1..], inner);
      var head := if outer[0] == a then 1 else 0;
      var n, k := multiset(outer[1..])[a], multiset(inner)[b];
      PairsCount(outer[1..], inner, a, b);
      RowCount(outer[0], inner, a, b);
      assert Pairs(outer, inner) == row + rest;
      CountConcat(row, rest, (a, b));
      OccurrencesOfHead(outer, a);
      if Conflicting(a, b) {
        Distribute(head, n, k);
      }
    }
  }

  lemma OccurrencesOfHead(s: seq<Module>, a: Module)
    requires |s| > 0
    ensures multiset(s)[a] == (if s[0] == a then 1 else 0) + multiset(s[1..])[a]
  {
    assert s == [s[0]] + s[1..];
  }

  /** The two steps of PairsCount kept apart from its unfolded context, where
      the solver would otherwise search the whole report for them. */
  lemma CountConcat(x: seq<Pair>, y: seq<Pair>, p: Pair)
    ensures multiset(x + y)[p] == multiset(x)[p] + multiset(y)[p]
  {
  }

  lemma Distribute(h: int, n: int, k: int)
    ensures (h + n) * k == h * k + n * k
  {
  }

  lemma {:induction false} RowCount(c: Module, inner: seq<Module>, a: Module, b: Module)
    ensures multiset(Row(c, inner))[(a, b)]
            == if c == a && Conflicting(a, b) then multiset(inner)[b] else 0
  {
    if |inner| > 0 {
      RowCount(c, inner[1..], a, b);
      assert inner == [inner[0]] + inner[1..];
    }
  }

  /** The report is symmetric: (a, b) appears exactly as often as (b, a). */
  lemma ReportSymmetric(layout: seq<Module>, a: Module, b: Module)
    ensures multiset(Contaminations(layout))[(a, b)] == multiset(Contaminations(layout))[(b, a)]
  {
    var na := multiset(layout)[a];
    var nb := multiset(layout)[b];
    var report := Pairs(layout, layout);
    assert Contaminations(layout) == report;
    PairsCount(layout, layout, a, b);
    PairsCount(layout, layout, b, a);
    ConflictShape(a, b);
    if Conflicting(a, b) {
      assert multiset(report)[(a, b)] == na * nb;
      assert multiset(report)[(b, a)] == nb * na;
      assert na * nb == nb * na;
    }
  }

  /** In a layout without repeated modules, every touching clean/dirty couple
      is reported exactly once in each order, and nothing else is reported. */
  lemma ReportedOncePerOrder(layout: seq<Module>, a: Module, b: Module)
    requires forall i, j :: 0 <= i < j < |layout| ==> layout[i] != layout[j]
    requires a in layout && b in layout
    ensures multiset(Contaminations(layout))[(a, b)] == if Conflicting(a, b) then 1 else 0
  {
    assert Contaminations(layout) == Pairs(layout, layout);
    PairsCount(layout, layout, a, b);
    OccursOnce(layout, a);
    OccursOnce(layout, b);
  }

  lemma {:induction false} OccursOnce(s: seq<Module>, m: Module)
    requires forall i, j :: 0 <= i < j < |s| ==> s[i] != s[j]
    requires m in s
    ensures multiset(s)[m] == 1
  {
    assert s == [s[0]] + s[1..];
    if s[0] == m {
      assert m !in s[1..];
    } else {
      OccursOnce(s[1..], m);
    }
  }

  lemma {:induction false} RowSymmetricLength(a: Module, outer: seq<Module>)
    ensures |Row(a, outer)| == |Pairs(outer, [a])|
  {
    if |outer| > 0 {
      RowSymmetricLength(a, outer[1..]);
      ConflictShape(a, outer[0]);
      assert [a][1..] == [];
      assert Row(outer[0], [a]) == (if Conflicting(outer[0], a) then [(outer[0], a)] else []) + Row(outer[0], []);
    }
  }

  /** Adding one module to the inner scan adds one report per outer module
      conflicting with it. */
  lemma {:induction false} PairsInnerSnoc(outer: seq<Module>, inner: seq<Module>, m: Module)
    ensures |Pairs(outer, inner + [m])| == |Pairs(outer, inner)| + |Pairs(outer, [m])|
  {
    if |outer| > 0 {
      PairsInnerSnoc(outer[1..], inner, m);
      RowSnoc(outer[0], inner, m);
      assert [m][1..] == [];
      assert Row(outer[0], [m]) == (if Conflicting(outer[0], m) then [(outer[0], m)] else []) + Row(outer[0], []);
    }
  }

  /** Growing the layout by one module m adds the reports of m against the
      old modules, once in each order. */
  lemma PairsGrow(p: seq<Module>, m: Module)
    ensures |Pairs(p + [m], p + [m])| == |Pairs(p, p)| + 2 * |Row(m, p)|
  {
    var l := p + [m];
    PairsSnoc(p, m, l);
    PairsInnerSnoc(p, p, m);
    RowSnoc(m, p, m);
    RowSymmetricLength(m, p);
    ConflictShape(m, m);
  }

  lemma {:induction false} SelfPairsEven(layout: seq<Module>)
    ensures |Pairs(layout, layout)| % 2 == 0
  {
    if |layout| > 0 {
      var p := layout[..|layout| - 1];
      var m := layout[|layout| - 1];
      assert layout == p + [m];
      SelfPairsEven(p);
      PairsGrow(p, m);
    }
  }

  /** The number of warnings is always even. */
  lemma ReportIsEven(layout: seq<Module>)
    ensures |Contaminations(layout)| % 2 == 0
  {
    SelfPairsEven(layout);
  }

  /** Scenario: a hygiene station directly right of a crew quarters gives the
      couple once in each order, so two warnings. */
  lemma HygieneBesideQuarters(q: ModuleId, h: ModuleId)
    requires q != h
    ensures var cq := Module(q, CrewQuarters, 2, 3);
            var hy := Module(h, Hygiene, 3, 3);
            Contaminations([cq, hy]) == [(cq, hy), (hy, cq)]
  {
    var cq := Module(q, CrewQuarters, 2, 3);
    var hy := Module(h, Hygiene, 3, 3);
    var l := [cq, hy];
    assert l[1..] == [hy] && [hy][1..] == [];
    assert Conflicting(cq, hy) && Conflicting(hy, cq);
    assert !Conflicting(cq, cq) && !Conflicting(hy, hy);
    assert Row(cq, [hy]) == [(cq, hy)] + Row(cq, []);
    assert Row(cq, l) == [(cq, hy)];
    assert Row(hy, [hy]) == [] + Row(hy, []);
    assert Row(hy, l) == [(hy, cq)];
    assert Pairs(l, l) == Row(cq, l) + Pairs([hy], l);
    assert Pairs([hy], l) == Row(hy, l) + Pairs([], l);
  }
}
