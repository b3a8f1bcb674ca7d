/** The run of `draw_graph_for_degree_programme`: parse the top-level module groups of the
    degree programme, clean the deferred prerequisite lists, compress the hierarchy and
    write the graph. */
module Pipeline {
  import opened SisuData
  import opened Courses
  import opened Prerequisites
  import opened Rules
  import opened Compression
  import opened Emission

  /** The hierarchy loop: each top-level module group that yields a module is appended, in
      order; the first error aborts the run. Every call starts with the full `fuel`. */
  function Hierarchy(cat: Catalog, gids: seq<Id>, fuel: nat, st: State): (r: Result<(seq<Node>, State)>)
    ensures r.Ok? ==> AllModules(r.value.0) && NoEmptyForest(r.value.0) && |r.value.0| <= |gids|
  {
    if gids == [] then Ok(([], st))
    else match Hierarchy(cat, gids[..|gids| - 1], fuel, st)
      case Err(e) => Err(e)
      case Ok((h, s)) =>
        match ParseModuleGroup(cat, gids[|gids| - 1], fuel, s)
        case Err(e) => Err(e)
        case Ok((None, s')) => Ok((h, s'))
        case Ok((Some(smg), s')) => Ok((h + [smg], s'))
  }

  lemma ForestLeavesSnoc(h: seq<Node>, n: Node)
    ensures ForestLeaves(h + [n]) == ForestLeaves(h) + Leaves(n)
  {
    assert (h + [n])[..|h|] == h;
  }

  /** Parsing the hierarchy keeps the representation invariant and queues both lists of
      every course in it. */
  lemma {:induction false} HierarchyQueues(cat: Catalog, gids: seq<Id>, fuel: nat, st: State)
    requires Valid(st)
    ensures var r := Hierarchy(cat, gids, fuel, st);
      r.Ok? ==> Grows(st, r.value.1) && LeavesQueued(ForestLeaves(r.value.0), r.value.1.queue)
  {
    if gids != [] {
      var p := gids[..|gids| - 1];
      HierarchyQueues(cat, p, fuel, st);
      var hp := Hierarchy(cat, p, fuel, st);
      if hp.Ok? {
        var (h, s) := hp.value;
        ParseModuleGroupQueues(cat, gids[|gids| - 1], fuel, s);
        var m := ParseModuleGroup(cat, gids[|gids| - 1], fuel, s);
        if m.Ok? {
          var s' := m.value.1;
          GrowsTrans(st, s, s', ForestLeaves(h));
          if m.value.0.Some? {
            var smg := m.value.0.value;
            ForestLeavesSnoc(h, smg);
            LeavesQueuedAppend(ForestLeaves(h), Leaves(smg), s'.queue);
          }
        }
      }
    }
  }

  lemma LeavesQueuedAppend(a: seq<Course>, b: seq<Course>, queue: seq<Handle>)
    requires LeavesQueued(a, queue) && LeavesQueued(b, queue)
    ensures LeavesQueued(a + b, queue)
  {
    forall i | 0 <= i < |a + b|
      ensures (a + b)[i].recPrqs in queue && (a + b)[i].comPrqs in queue
    {
      if i >= |a| {
        assert (a + b)[i] == b[i - |a|];
      }
    }
  }

  /** `module_hierarchy.append(smg)` for each top-level group, as a loop. */
  method ParseHierarchy(cat: Catalog, gids: seq<Id>, fuel: nat, st: State) returns (r: Result<(seq<Node>, State)>)
    ensures r == Hierarchy(cat, gids, fuel, st)
  {
    var moduleHierarchy: seq<Node> := [];
    var cur := st;
    var i := 0;
    while i < |gids|
      invariant 0 <= i <= |gids|
      invariant Hierarchy(cat, gids[..i], fuel, st) == Ok((moduleHierarchy, cur))
    {
      assert gids[..i + 1][..i] == gids[..i];
      var gid := gids[i];
      var smg := ParseModuleGroup(cat, gid, fuel, cur);
      if smg.Err? {
        assert Hierarchy(cat, gids[..i + 1], fuel, st).Err?;
        HierarchyErrorStays(cat, gids, i + 1, fuel, st);
        return Err(smg.error);
      }
      match smg.value.0 {
        case Some(g) => moduleHierarchy := moduleHierarchy + [g];
        case None =>
      }
      cur := smg.value.1;
      i := i + 1;
    }
    assert gids[..i] == gids;
    r := Ok((moduleHierarchy, cur));
  }

  /** An error in the first `n` groups is the result of the whole loop. */
  lemma {:induction false} HierarchyErrorStays(cat: Catalog, gids: seq<Id>, n: nat, fuel: nat, st: State)
    requires n <= |gids|
    requires Hierarchy(cat, gids[..n], fuel, st).Err?
    ensures Hierarchy(cat, gids, fuel, st) == Hierarchy(cat, gids[..n], fuel, st)
    decreases |gids| - n
  {
    if n < |gids| {
      assert gids[..n + 1][..n] == gids[..n];
      HierarchyErrorStays(cat, gids, n + 1, fuel, st);
    } else {
      assert gids[..n] == gids;
    }
  }

  /** Compression keeps every element a module. */
  lemma CompressAllModules(h: seq<Node>)
    requires AllModules(h)
    ensures AllModules(Compressed(h))
  {
    CompressedElements(h);
    forall i | 0 <= i < |h|
      ensures Compressed(h)[i].Module?
    {
      assert h[i].Module?;
    }
  }

  /** The state after parsing and validation, and the compressed hierarchy. */
  function Parsed(cat: Catalog, gids: seq<Id>, fuel: nat, st: State): (r: Result<(seq<Node>, State)>)
    requires Valid(st)
    ensures r.Ok? ==> AllModules(r.value.0) && Valid(r.value.1)
  {
    HierarchyQueues(cat, gids, fuel, st);
    match Hierarchy(cat, gids, fuel, st)
    case Err(e) => Err(e)
    case Ok((h, s)) =>
      ValidateValid(cat, s, s.queue);
      match Validate(cat, s, s.queue)
      case Err(e) => Err(e)
      case Ok(s2) =>
        CompressAllModules(h);
        Ok((Compressed(h), s2))
  }

  /** The lines of the file for the degree programme whose top-level groups are `gids`. */
  function Run(cat: Catalog, gids: seq<Id>, fuel: nat, st: State, rawBlacklist: seq<string>,
               alsoRecommended: bool, manual: seq<seq<Edge>>): Result<seq<Line>>
    requires Valid(st)
  {
    match Parsed(cat, gids, fuel, st)
    case Err(e) => Err(e)
    case Ok((h, s)) =>
      Ok(Graph(Context(s.registry, s.lists), s.order, h, rawBlacklist, alsoRecommended, manual).out)
  }

  /** `draw_graph_for_degree_programme` from the top-level groups on. */
  method DrawGraphForDegreeProgramme(cat: Catalog, gids: seq<Id>, fuel: nat, st: State, rawBlacklist: seq<string>,
                                     alsoRecommended: bool, manual: seq<seq<Edge>>) returns (r: Result<seq<Line>>)
    requires Valid(st)
    ensures r == Run(cat, gids, fuel, st, rawBlacklist, alsoRecommended, manual)
  {
    HierarchyQueues(cat, gids, fuel, st);
    var parsed := ParseHierarchy(cat, gids, fuel, st);
    if parsed.Err? {
      return Err(parsed.error);
    }
    var (h, s) := parsed.value;
    var validated := ValidateAndClean(cat, s);
    if validated.Err? {
      return Err(validated.error);
    }
    var s2 := validated.value;
    ValidateValid(cat, s, s.queue);
    var hierarchy := new Node[|h|](i requires 0 <= i < |h| => h[i]);
    assert hierarchy[..] == h;
    Compress(hierarchy);
    CompressAllModules(h);
    var lines := DrawGraph(Context(s2.registry, s2.lists), s2.order, hierarchy[..], rawBlacklist, alsoRecommended, manual);
    r := Ok(lines);
  }

  /** What validation promises the drawing: every prerequisite id left in a list of a course
      of the hierarchy resolves and is registered, so `write_course` draws an edge for each
      of them. Unresolvable ids are gone. */
  lemma DrawnCoursesCleaned(cat: Catalog, gids: seq<Id>, fuel: nat, st: State)
    requires Valid(st)
    ensures var p := Parsed(cat, gids, fuel, st);
      p.Ok? ==> forall c :: c in ForestLeaves(p.value.0) ==>
        var s := p.value.1;
        && c.comPrqs < |s.lists| && c.recPrqs < |s.lists|
        && (forall x :: x in s.lists[c.comPrqs] ==> Resolvable(cat, x) && x in s.registry)
        && (forall x :: x in s.lists[c.recPrqs] ==> Resolvable(cat, x) && x in s.registry)
  {
    var p := Parsed(cat, gids, fuel, st);
    if p.Ok? {
      HierarchyQueues(cat, gids, fuel, st);
      var (h, s) := Hierarchy(cat, gids, fuel, st).value;
      var s2 := p.value.1;
      assert Validate(cat, s, s.queue) == Ok(s2);
      CompressKeepsLeaves(h);
      DeferredCleaning(cat, s);
      ValidateRegistry(cat, s, s.queue);
      forall c | c in ForestLeaves(p.value.0)
        ensures && c.comPrqs < |s2.lists| && c.recPrqs < |s2.lists|
          && (forall x :: x in s2.lists[c.comPrqs] ==> Resolvable(cat, x) && x in s2.registry)
          && (forall x :: x in s2.lists[c.recPrqs] ==> Resolvable(cat, x) && x in s2.registry)
      {
        QueuedListCleaned(cat, s, s2, c.comPrqs);
        QueuedListCleaned(cat, s, s2, c.recPrqs);
      }
    }
  }

  /** One queued list after validation. */
  lemma QueuedListCleaned(cat: Catalog, s: State, s2: State, hd: Handle)
    requires QueueInRange(s) && hd in s.queue
    requires Validate(cat, s, s.queue) == Ok(s2)
    requires forall i :: 0 <= i < |s.queue| ==>
        var before := s.lists[s.queue[i]];
        var after := s2.lists[s.queue[i]];
        && (forall x :: x in after ==> Resolvable(cat, x))
        && (forall x :: multiset(after)[x] == if Resolvable(cat, x) then multiset(before)[x] else 0)
    requires forall id :: Queued(s, s.queue, id) && Resolvable(cat, id) ==> id in s2.registry
    ensures hd < |s2.lists| && forall x :: x in s2.lists[hd] ==> Resolvable(cat, x) && x in s2.registry
  {
    var j :| 0 <= j < |s.queue| && s.queue[j] == hd;
    forall x | x in s2.lists[hd]
      ensures Resolvable(cat, x) && x in s2.registry
    {
      assert multiset(s2.lists[hd])[x] > 0;
      assert multiset(s.lists[hd])[x] > 0;
      assert Queued(s, s.queue, x);
    }
  }
}
