/** Top-level compression (`compress`): a module of the hierarchy whose only child is itself
    a module is replaced by that child, in place; nothing below the top level changes. */
module Compression {
  import opened Rules

  /** `'children' in g and len(g['children']) == 1` and the only child has children too. */
  predicate Collapses(g: Node) {
    g.Module? && |g.children| == 1 && g.children[0].Module?
  }

  /** What compression puts at the place of `g`. */
  function CompressOne(g: Node): (r: Node)
    ensures r == g || (Collapses(g) && r == g.children[0])
  {
    if Collapses(g) then g.children[0] else g
  }

  /** The hierarchy after `compress`. */
  function Compressed(h: seq<Node>): seq<Node> {
    if h == [] then [] else Compressed(h[..|h| - 1]) + [CompressOne(h[|h| - 1])]
  }

  /** Compression keeps the length, and each element is the original one unless it
      collapses, in which case it is its only child. */
  lemma {:induction false} CompressedElements(h: seq<Node>)
    ensures |Compressed(h)| == |h|
    ensures forall i :: 0 <= i < |h| ==>
      Compressed(h)[i] == (if Collapses(h[i]) then h[i].children[0] else h[i])
  {
    if h != [] {
      var p := h[..|h| - 1];
      CompressedElements(p);
      assert forall i :: 0 <= i < |p| ==> h[i] == p[i];
    }
  }

  /** The replacements the first loop collects: the position of every collapsing module
      and its only child, in list order. */
  function Replacements(h: seq<Node>): seq<(nat, Node)> {
    if h == [] then []
    else
      var g := h[|h| - 1];
      Replacements(h[..|h| - 1]) + (if Collapses(g) then [(|h| - 1, g.children[0])] else [])
  }

  lemma {:induction false} ReplacementsInRange(h: seq<Node>)
    ensures forall k :: 0 <= k < |Replacements(h)| ==> Replacements(h)[k].0 < |h|
  {
    if h != [] {
      ReplacementsInRange(h[..|h| - 1]);
    }
  }

  /** The second loop: every replacement written at its position, one after the other. */
  function Apply(h: seq<Node>, rs: seq<(nat, Node)>): seq<Node>
    requires forall k :: 0 <= k < |rs| ==> rs[k].0 < |h|
    ensures |Apply(h, rs)| == |h|
  {
    if rs == [] then h
    else
      var r := rs[|rs| - 1];
      Apply(h, rs[..|rs| - 1])[r.0 := r.1]
  }

  /** Writing the replacements collected from the first `n` elements compresses exactly
      those elements. */
  lemma {:induction false} ApplyReplacements(h: seq<Node>, n: nat)
    requires n <= |h|
    ensures forall k :: 0 <= k < |Replacements(h[..n])| ==> Replacements(h[..n])[k].0 < |h|
    ensures forall j :: 0 <= j < |h| ==>
      Apply(h, Replacements(h[..n]))[j] == (if j < n then CompressOne(h[j]) else h[j])
  {
    ReplacementsInRange(h[..n]);
    if n > 0 {
      ApplyReplacements(h, n - 1);
      assert h[..n][..n - 1] == h[..n - 1];
      var rs := Replacements(h[..n - 1]);
      if Collapses(h[n - 1]) {
        var rs' := rs + [(n - 1, h[n - 1].children[0])];
        assert Replacements(h[..n]) == rs';
        assert rs'[..|rs'| - 1] == rs;
      } else {
        assert Replacements(h[..n]) == rs;
      }
    }
  }

  /** `compress(hierarchy)` on the list itself: collect the replacements, then write each
      one at its position. */
  method Compress(hierarchy: array<Node>)
    modifies hierarchy
    ensures hierarchy[..] == Compressed(old(hierarchy[..]))
  {
    ghost var h := hierarchy[..];
    var replacements: seq<(nat, Node)> := [];
    var i := 0;
    while i < hierarchy.Length
      invariant 0 <= i <= hierarchy.Length
      invariant replacements == Replacements(h[..i])
    {
      var g := hierarchy[i];
      assert h[..i + 1][..i] == h[..i];
      if g.Module? && |g.children| == 1 {
        var onlyChild := g.children[0];
        if onlyChild.Module? {
          replacements := replacements + [(i, onlyChild)];
        }
      }
      i := i + 1;
    }
    assert h[..i] == h;
    ReplacementsInRange(h);
    var k := 0;
    while k < |replacements|
      invariant 0 <= k <= |replacements|
      invariant hierarchy[..] == Apply(h, replacements[..k])
    {
      var (ti, that) := replacements[k];
      assert replacements[..k + 1][..k] == replacements[..k];
      hierarchy[ti] := that;
      k := k + 1;
    }
    assert replacements[..k] == replacements;
    ApplyReplacements(h, |h|);
    CompressedElements(h);
  }

  /** A collapsing module and its only child hold the same courses. */
  lemma CollapseLeaves(g: Node)
    requires Collapses(g)
    ensures Leaves(g.children[0]) == Leaves(g)
  {
    assert ChildLeaves(g, 1) == ChildLeaves(g, 0) + Leaves(g.children[0]);
  }

  /** Compression removes no course and adds none: the courses of the hierarchy, in order,
      are those it had. */
  lemma {:induction false} CompressKeepsLeaves(h: seq<Node>)
    ensures ForestLeaves(Compressed(h)) == ForestLeaves(h)
  {
    if h != [] {
      var p := h[..|h| - 1];
      var g := h[|h| - 1];
      CompressKeepsLeaves(p);
      var c := Compressed(h);
      assert c[..|c| - 1] == Compressed(p);
      if Collapses(g) {
        CollapseLeaves(g);
      }
    }
  }

  /** Compression creates no empty module. */
  lemma CompressNoEmpty(h: seq<Node>)
    requires NoEmptyForest(h)
    ensures NoEmptyForest(Compressed(h))
  {
    CompressedElements(h);
    forall i | 0 <= i < |h|
      ensures NoEmptyModules(Compressed(h)[i])
    {
      assert NoEmptyModules(h[i]);
    }
  }

  /** A module whose sole child is a module whose sole child is a module collapses again on
      a second pass: compression is not idempotent. */
  lemma CompressNotIdempotent(c: Courses.Course)
    ensures var inner := Module("c", "z", [Leaf(c)]);
      var h := [Module("a", "x", [Module("b", "y", [inner])])];
      Compressed(h) == [Module("b", "y", [inner])]
      && Compressed(Compressed(h)) == [inner]
  {
    var inner := Module("c", "z", [Leaf(c)]);
    var mid := Module("b", "y", [inner]);
    var h := [Module("a", "x", [mid])];
    assert h[..0] == [];
    assert Compressed(h) == [mid];
    assert [mid][..0] == [];
  }

  /** A replaced element differs from the original. */
  lemma CollapseChanges(g: Node)
    requires Collapses(g)
    ensures g.children[0] != g
  {
    assert g.children[0] in g.children;
  }

  /** A second pass changes the hierarchy exactly when some element collapses into a
      module that collapses too. */
  lemma CompressTwice(h: seq<Node>)
    ensures Compressed(Compressed(h)) == Compressed(h) <==>
      forall i :: 0 <= i < |h| ==> !(Collapses(h[i]) && Collapses(h[i].children[0]))
  {
    CompressedElements(h);
    CompressedElements(Compressed(h));
    var c := Compressed(h);
    if forall i :: 0 <= i < |h| ==> !(Collapses(h[i]) && Collapses(h[i].children[0])) {
      forall i | 0 <= i < |h|
        ensures Compressed(c)[i] == c[i]
      {
        if Collapses(h[i]) {
          assert c[i] == h[i].children[0];
        }
      }
    } else {
      var i :| 0 <= i < |h| && Collapses(h[i]) && Collapses(h[i].children[0]);
      assert c[i] == h[i].children[0];
      CollapseChanges(c[i]);
      assert Compressed(c)[i] != c[i];
    }
  }
}
