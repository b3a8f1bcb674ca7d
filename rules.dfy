/** Rule-tree parsing (`parse_rules`, `parse_module_group`): recursive descent over the
    tagged rules of a module group, building module nodes and course leaves, enqueueing the
    prerequisite lists of every course it resolves. */
module Rules {
  import opened SisuData
  import opened Text
  import opened Courses
  import opened Prerequisites

  /** A node of the hierarchy: a module dict `{'name', 'type', 'children'}` (a module group,
      or a "grouping" for a nameless sub-rule) or a course dict. */
  datatype Node =
    | Module(name: string, kind: string, children: seq<Node>)
    | Leaf(course: Course)

  /** No module node anywhere in `n` has an empty list of children. */
  predicate NoEmptyModules(n: Node) {
    match n
    case Leaf(_) => true
    case Module(_, _, children) =>
      |children| > 0 && forall i :: 0 <= i < |children| ==> NoEmptyModules(children[i])
  }

  predicate NoEmptyForest(ns: seq<Node>) {
    forall i :: 0 <= i < |ns| ==> NoEmptyModules(ns[i])
  }

  /** The characters `.strip("<p>")` and `.strip("</p>")` remove. */
  const OpenTag: set<char> := {'<', 'p', '>'}
  const CloseTag: set<char> := {'<', '/', 'p', '>'}

  /** A description is used when the key is there and the dict is truthy (non-empty). */
  predicate HasDescription(rule: Rule) {
    rule.description.Some? && |rule.description.value| > 0
  }

  /** The name of a grouping node: the Finnish description stripped of white space, then of
      the characters of "<p>", then of those of "</p>"; else "Pakolliset" for a rule whose
      courses are all mandatory; else empty. A description without Finnish text is a
      KeyError. */
  function GroupingName(rule: Rule): (r: Result<string>)
    ensures r.Err? <==> HasDescription(rule) && "fi" !in rule.description.value
    ensures r.Err? ==> r.error == MissingName
    ensures r.Ok? && HasDescription(rule) && |r.value| > 0 ==>
      r.value[0] !in CloseTag && r.value[|r.value| - 1] !in CloseTag
    ensures r.Ok? && HasDescription(rule) ==> |r.value| <= |rule.description.value["fi"]|
    ensures !HasDescription(rule) ==> r == Ok(if rule.allMandatory then "Pakolliset" else "")
  {
    if HasDescription(rule) then
      var d := rule.description.value;
      if "fi" in d then Ok(Strip(Strip(Strip(d["fi"], WhiteSpace), OpenTag), CloseTag))
      else Err(MissingName)
    else if rule.allMandatory then Ok("Pakolliset")
    else Ok("")
  }

  lemma StripNothing(s: string, cs: set<char>)
    requires |s| > 0 && s[0] !in cs && s[|s| - 1] !in cs
    ensures Strip(s, cs) == s
  {
    assert LeadingIn(s, cs) == 0;
    assert TrailingIn(s, cs) == 0;
  }

  /** `str.strip` works on a set of characters, not on a tag: the "p" of "Group" goes. */
  lemma GroupingNameCharacterSet()
    ensures GroupingName(Rule(OtherRule("x"), None, None, Some(map["fi" := "Group"]), false)) == Ok("Grou")
  {
    var s := "Group";
    assert 'G' !in WhiteSpace && 'p' !in WhiteSpace;
    StripNothing(s, WhiteSpace);
    assert s[..4] == "Grou";
    assert TrailingIn("Grou", OpenTag) == 0;
    assert LeadingIn(s, OpenTag) == 0;
    assert TrailingIn(s, OpenTag) == 1;
    assert Strip(s, OpenTag) == "Grou";
    StripNothing("Grou", CloseTag);
  }

  /** `parse_rules(rd, curriculum)`. `fuel` is the number of further nested calls of
      `parse_rules` and `parse_module_group` the interpreter allows; running out is the
      RecursionError. The result is None or a non-empty list of children. */
  function ParseRules(cat: Catalog, rd: Rule, fuel: nat, st: State): (r: Result<(Option<seq<Node>>, State)>)
    ensures r.Ok? && r.value.0.Some? ==> |r.value.0.value| > 0 && NoEmptyForest(r.value.0.value)
    ensures r.Ok? && r.value.0.None? ==> r.value.1 == st
    decreases fuel, 0, 0
  {
    if fuel == 0 then Err(RecursionDepth)
    else match rd.body
      // credits are ignored: the inner rule is parsed in their place
      case CreditsRule(inner) => ParseRules(cat, inner, fuel - 1, st)
      case CompositeRule(rules) =>
        (match ParseComposite(cat, rules, fuel - 1, st)
         case Err(e) => Err(e)
         case Ok((children, s)) => if |children| == 0 then Ok((None, s)) else Ok((Some(children), s)))
      // the branch reads the name `rule`, which is unbound in this frame
      case CourseUnitRule => Err(UnboundRuleName)
      // an unknown type is reported and yields None
      case OtherRule(_) => Ok((None, st))
  }

  /** The loop over the sub-rules of a composite rule: each contributes at most one child,
      in rule order. */
  function ParseComposite(cat: Catalog, rules: seq<Rule>, fuel: nat, st: State): (r: Result<(seq<Node>, State)>)
    ensures r.Ok? ==> |r.value.0| <= |rules| && NoEmptyForest(r.value.0)
    ensures r.Ok? && |r.value.0| == 0 ==> r.value.1 == st
    decreases fuel, |rules|, 1
  {
    if rules == [] then Ok(([], st))
    else match ParseComposite(cat, rules[..|rules| - 1], fuel, st)
      case Err(e) => Err(e)
      case Ok((children, s)) =>
        match ParseSubRule(cat, rules[|rules| - 1], fuel, s)
        case Err(e) => Err(e)
        case Ok((None, s')) => Ok((children, s'))
        case Ok((Some(n), s')) => Ok((children + [n], s'))
  }

  /** One sub-rule of a composite rule, dispatched on which reference it carries: a module
      group, a course (its two lists are queued), or else a grouping node over the rule
      itself, kept only when it has children. */
  function ParseSubRule(cat: Catalog, rule: Rule, fuel: nat, st: State): (r: Result<(Option<Node>, State)>)
    ensures r.Ok? && r.value.0.Some? ==> NoEmptyModules(r.value.0.value)
    ensures r.Ok? && r.value.0.None? ==> r.value.1 == st
    ensures r.Ok? && r.value.0.Some? ==>
      (if rule.moduleGroupId.Some? then r.value.0.value.Module?
       else if rule.courseUnitGroupId.Some? then r.value.0.value.Leaf?
       else r.value.0.value.Module? && r.value.0.value.kind == "grouping")
    decreases fuel, 0, 1
  {
    if rule.moduleGroupId.Some? then
      ParseModuleGroup(cat, rule.moduleGroupId.value, fuel, st)
    else if rule.courseUnitGroupId.Some? then
      match ParseCourse(cat, rule.courseUnitGroupId.value, true, st)
      case Err(e) => Err(e)
      case Ok((None, s)) => Ok((None, s))
      case Ok((Some(c), s)) => Ok((Some(Leaf(c)), Enqueue(Enqueue(s, c.recPrqs), c.comPrqs)))
    else
      match GroupingName(rule)
      case Err(e) => Err(e)
      case Ok(name) =>
        match ParseRules(cat, rule, fuel, st)
        case Err(e) => Err(e)
        case Ok((None, s)) => Ok((None, s))
        case Ok((Some(children), s)) => Ok((Some(Module(name, "grouping", children)), s))
  }

  /** `parse_module_group(gid, curriculum)`: the first variant valid for the curriculum
      whose rule yields children; None when the data is absent or no variant does. */
  function ParseModuleGroup(cat: Catalog, gid: Id, fuel: nat, st: State): (r: Result<(Option<Node>, State)>)
    ensures r.Ok? && r.value.0.Some? ==> r.value.0.value.Module? && NoEmptyModules(r.value.0.value)
    ensures r.Ok? && r.value.0.None? ==> r.value.1 == st
    decreases fuel, 0, 0
  {
    if fuel == 0 then Err(RecursionDepth)
    else if gid !in cat.groups then Ok((None, st))
    else ParseVariants(cat, cat.groups[gid], fuel - 1, st)
  }

  /** The loop over the variants of a module group: invalid variants are skipped, and so is
      a valid variant whose rule yields no children. */
  function ParseVariants(cat: Catalog, vs: seq<GroupVariant>, fuel: nat, st: State): (r: Result<(Option<Node>, State)>)
    ensures r.Ok? && r.value.0.Some? ==> r.value.0.value.Module? && NoEmptyModules(r.value.0.value)
    ensures r.Ok? && r.value.0.None? ==> r.value.1 == st
    decreases fuel, |vs|, 1
  {
    if vs == [] then Ok((None, st))
    else
      var v := vs[0];
      if !ValidFor(v.curriculumPeriodIds, cat.curriculum) then ParseVariants(cat, vs[1..], fuel, st)
      else if "fi" !in v.name then Err(MissingName)
      else match ParseRules(cat, v.rule, fuel, st)
        case Err(e) => Err(e)
        case Ok((None, s)) => ParseVariants(cat, vs[1..], fuel, s)
        case Ok((Some(children), s)) => Ok((Some(Module(v.name["fi"], v.kind, children)), s))
  }

  /** The variant loop moves past `v`: it is not valid for the curriculum, or it has a
      Finnish name and its rule yields no children (and so changes nothing). */
  predicate PassedOver(cat: Catalog, v: GroupVariant, fuel: nat, st: State) {
    !ValidFor(v.curriculumPeriodIds, cat.curriculum)
      || ("fi" in v.name && ParseRules(cat, v.rule, fuel, st) == Ok((None, st)))
  }

  /** Every variant before position `i` is passed over and `vs[i]` is valid. */
  predicate ReachedValid(cat: Catalog, vs: seq<GroupVariant>, i: int, fuel: nat, st: State) {
    && 0 <= i < |vs|
    && (forall j :: 0 <= j < i ==> PassedOver(cat, vs[j], fuel, st))
    && ValidFor(vs[i].curriculumPeriodIds, cat.curriculum)
  }

  /** `vs[i]` is the first variant valid for the curriculum whose rule yields children. */
  predicate Picks(cat: Catalog, vs: seq<GroupVariant>, i: int, fuel: nat, st: State) {
    && ReachedValid(cat, vs, i, fuel, st)
    && "fi" in vs[i].name
    && ParseRules(cat, vs[i].rule, fuel, st).Ok?
    && ParseRules(cat, vs[i].rule, fuel, st).value.0.Some?
  }

  /** The loop reaches the valid variant `vs[i]` and fails on it: no Finnish name, or its
      rule fails. */
  predicate FailsAt(cat: Catalog, vs: seq<GroupVariant>, i: int, fuel: nat, st: State) {
    && ReachedValid(cat, vs, i, fuel, st)
    && ("fi" !in vs[i].name || ParseRules(cat, vs[i].rule, fuel, st).Err?)
  }

  /** `r` is what the variant loop over `vs` must give: the module built from the first
      variant valid for the curriculum whose rule yields children, with its Finnish name,
      its type and exactly those children (every earlier valid variant yields none); None
      exactly when every variant is passed over; a failure exactly when the loop reaches a
      valid variant without a Finnish name or whose rule fails. */
  ghost predicate ChoosesFirst(cat: Catalog, vs: seq<GroupVariant>, fuel: nat, st: State,
                               r: Result<(Option<Node>, State)>) {
    && (forall i :: Picks(cat, vs, i, fuel, st) ==>
          var p := ParseRules(cat, vs[i].rule, fuel, st);
          r == Ok((Some(Module(vs[i].name["fi"], vs[i].kind, p.value.0.value)), p.value.1)))
    && (r.Ok? && r.value.0.Some? ==> exists i :: Picks(cat, vs, i, fuel, st))
    && (r.Ok? && r.value.0.None? <==> forall j :: 0 <= j < |vs| ==> PassedOver(cat, vs[j], fuel, st))
    && (r.Err? <==> exists i :: FailsAt(cat, vs, i, fuel, st))
  }

  /** The variant loop picks the first valid variant whose rule yields children. */
  lemma {:induction false} ParseVariantsFirst(cat: Catalog, vs: seq<GroupVariant>, fuel: nat, st: State)
    ensures ChoosesFirst(cat, vs, fuel, st, ParseVariants(cat, vs, fuel, st))
    decreases |vs|
  {
    if vs != [] {
      var v, t := vs[0], vs[1..];
      ParseVariantsFirst(cat, t, fuel, st);
      assert forall j :: 0 <= j < |t| ==> t[j] == vs[j + 1];
      if PassedOver(cat, v, fuel, st) {
        PassedOverShift(cat, vs, fuel, st);
      } else {
        NotPassedOver(cat, vs, fuel, st);
      }
    }
  }

  /** `parse_module_group` fails when nesting is exhausted, gives None for a group with no
      data, and otherwise picks the first valid variant whose rule yields children. */
  lemma ParseModuleGroupFirst(cat: Catalog, gid: Id, fuel: nat, st: State)
    ensures fuel == 0 ==> ParseModuleGroup(cat, gid, fuel, st) == Err(RecursionDepth)
    ensures fuel > 0 && gid !in cat.groups ==> ParseModuleGroup(cat, gid, fuel, st) == Ok((None, st))
    ensures fuel > 0 && gid in cat.groups ==>
      ChoosesFirst(cat, cat.groups[gid], fuel - 1, st, ParseModuleGroup(cat, gid, fuel, st))
  {
    if fuel > 0 && gid in cat.groups {
      ParseVariantsFirst(cat, cat.groups[gid], fuel - 1, st);
    }
  }

  /** What one sub-rule contributes: a module reference gives the module group's result; a
      course reference gives the course `parse_course` resolves in the main tree, as a leaf,
      with its two lists queued; any other rule gives a "grouping" module named from the
      rule whose children are those the rule yields, failing when the name or the rule
      does. */
  lemma ParseSubRuleNode(cat: Catalog, rule: Rule, fuel: nat, st: State)
    ensures rule.moduleGroupId.Some? ==>
      ParseSubRule(cat, rule, fuel, st) == ParseModuleGroup(cat, rule.moduleGroupId.value, fuel, st)
    ensures rule.moduleGroupId.None? && rule.courseUnitGroupId.Some? ==>
      var r := ParseSubRule(cat, rule, fuel, st);
      var pc := ParseCourse(cat, rule.courseUnitGroupId.value, true, st);
      && (r.Err? <==> pc.Err?)
      && (r.Ok? && r.value.0.Some? <==> pc.Ok? && pc.value.0.Some?)
      && (r.Ok? && r.value.0.Some? ==>
            var c := pc.value.0.value;
            r.value.0.value == Leaf(c) && r.value.1 == pc.value.1.(queue := st.queue + [c.recPrqs, c.comPrqs]))
    ensures rule.moduleGroupId.None? && rule.courseUnitGroupId.None? ==>
      var r := ParseSubRule(cat, rule, fuel, st);
      var name := GroupingName(rule);
      var pr := ParseRules(cat, rule, fuel, st);
      && (r.Err? <==> name.Err? || pr.Err?)
      && (r.Ok? && r.value.0.Some? <==> name.Ok? && pr.Ok? && pr.value.0.Some?)
      && (r.Ok? && r.value.0.Some? ==>
            r.value.0.value == Module(name.value, "grouping", pr.value.0.value) && r.value.1 == pr.value.1)
  {
  }

  /** When the first variant is passed over, the loop goes on with the rest in the same
      state, and every position shifts by one. */
  lemma PassedOverShift(cat: Catalog, vs: seq<GroupVariant>, fuel: nat, st: State)
    requires |vs| > 0 && PassedOver(cat, vs[0], fuel, st)
    ensures ParseVariants(cat, vs, fuel, st) == ParseVariants(cat, vs[1..], fuel, st)
    ensures forall i :: 0 <= i < |vs| - 1 ==>
      (ReachedValid(cat, vs[1..], i, fuel, st) <==> ReachedValid(cat, vs, i + 1, fuel, st))
    ensures forall i :: Picks(cat, vs, i, fuel, st) ==> i > 0 && Picks(cat, vs[1..], i - 1, fuel, st)
    ensures forall i :: Picks(cat, vs[1..], i, fuel, st) ==> Picks(cat, vs, i + 1, fuel, st)
    ensures forall i :: FailsAt(cat, vs, i, fuel, st) ==> i > 0 && FailsAt(cat, vs[1..], i - 1, fuel, st)
    ensures forall i :: FailsAt(cat, vs[1..], i, fuel, st) ==> FailsAt(cat, vs, i + 1, fuel, st)
    ensures (forall j :: 0 <= j < |vs| ==> PassedOver(cat, vs[j], fuel, st))
      <==> (forall j :: 0 <= j < |vs| - 1 ==> PassedOver(cat, vs[1..][j], fuel, st))
  {
    var t := vs[1..];
    assert forall j :: 0 <= j < |t| ==> t[j] == vs[j + 1];
    forall i | 0 <= i < |vs| - 1
      ensures ReachedValid(cat, t, i, fuel, st) <==> ReachedValid(cat, vs, i + 1, fuel, st)
    {
      if ReachedValid(cat, t, i, fuel, st) {
        forall j | 0 <= j < i + 1
          ensures PassedOver(cat, vs[j], fuel, st)
        {
          if j > 0 {
            assert PassedOver(cat, t[j - 1], fuel, st);
          }
        }
      }
    }
    forall i | Picks(cat, vs, i, fuel, st)
      ensures i > 0 && Picks(cat, t, i - 1, fuel, st)
    {
      assert ReachedValid(cat, t, i - 1, fuel, st);
    }
    forall i | FailsAt(cat, vs, i, fuel, st)
      ensures i > 0 && FailsAt(cat, t, i - 1, fuel, st)
    {
      assert ReachedValid(cat, t, i - 1, fuel, st);
    }
    forall i | Picks(cat, t, i, fuel, st)
      ensures Picks(cat, vs, i + 1, fuel, st)
    {
      assert ReachedValid(cat, vs, i + 1, fuel, st);
    }
    forall i | FailsAt(cat, t, i, fuel, st)
      ensures FailsAt(cat, vs, i + 1, fuel, st)
    {
      assert ReachedValid(cat, vs, i + 1, fuel, st);
    }
  }

  /** When the first variant is not passed over, the loop stops at it. */
  lemma NotPassedOver(cat: Catalog, vs: seq<GroupVariant>, fuel: nat, st: State)
    requires |vs| > 0 && !PassedOver(cat, vs[0], fuel, st)
    ensures var r := ParseVariants(cat, vs, fuel, st);
      && (forall i :: Picks(cat, vs, i, fuel, st) ==>
            var p := ParseRules(cat, vs[i].rule, fuel, st);
            r == Ok((Some(Module(vs[i].name["fi"], vs[i].kind, p.value.0.value)), p.value.1)))
      && (r.Ok? && r.value.0.Some? ==> Picks(cat, vs, 0, fuel, st))
      && !(r.Ok? && r.value.0.None?)
      && (r.Err? <==> FailsAt(cat, vs, 0, fuel, st))
      && (forall i :: 0 < i < |vs| ==> !ReachedValid(cat, vs, i, fuel, st))
  {
    assert ReachedValid(cat, vs, 0, fuel, st);
  }

  /** A composite rule is parsed sub-rule by sub-rule: the children of `a + b` are those of
      `a` followed by those of `b`, parsed in the state `a` left behind. Hence the children
      follow rule order and the list is empty exactly when no sub-rule contributed one. */
  lemma {:induction false} ParseCompositeAppend(cat: Catalog, a: seq<Rule>, b: seq<Rule>, fuel: nat, st: State)
    ensures ParseComposite(cat, a + b, fuel, st) ==
      match ParseComposite(cat, a, fuel, st)
      case Err(e) => Err(e)
      case Ok((ca, s)) =>
        match ParseComposite(cat, b, fuel, s)
        case Err(e) => Err(e)
        case Ok((cb, s')) => Ok((ca + cb, s'))
    decreases |b|
  {
    if b == [] {
      assert a + b == a;
      var ra := ParseComposite(cat, a, fuel, st);
      if ra.Ok? {
        assert ra.value.0 + [] == ra.value.0;
      }
    } else {
      var p := b[..|b| - 1];
      ParseCompositeAppend(cat, a, p, fuel, st);
      assert (a + b)[..|a + b| - 1] == a + p;
      assert (a + b)[|a + b| - 1] == b[|b| - 1];
      var ra := ParseComposite(cat, a, fuel, st);
      if ra.Ok? {
        var rp := ParseComposite(cat, p, fuel, ra.value.1);
        if rp.Ok? {
          var rl := ParseSubRule(cat, b[|b| - 1], fuel, rp.value.1);
          if rl.Ok? && rl.value.0.Some? {
            assert ra.value.0 + (rp.value.0 + [rl.value.0.value]) == (ra.value.0 + rp.value.0) + [rl.value.0.value];
          }
        }
      }
    }
  }

  /** A single sub-rule contributes the node its own parse returns, if any. */
  lemma ParseCompositeSingle(cat: Catalog, rule: Rule, fuel: nat, st: State)
    ensures ParseComposite(cat, [rule], fuel, st) ==
      match ParseSubRule(cat, rule, fuel, st)
      case Err(e) => Err(e)
      case Ok((None, s)) => Ok(([], s))
      case Ok((Some(n), s)) => Ok(([n], s))
  {
    assert [rule][..0] == [];
    var r := ParseSubRule(cat, rule, fuel, st);
    if r.Ok? && r.value.0.Some? {
      assert [] + [r.value.0.value] == [r.value.0.value];
    }
  }

  /** The course reference of a `CourseUnitRule` is never read: the branch fails before. */
  lemma CourseUnitRuleFails(cat: Catalog, rd: Rule, fuel: nat, st: State)
    requires rd.body == CourseUnitRule && fuel > 0
    ensures ParseRules(cat, rd, fuel, st) == Err(UnboundRuleName)
  {
  }

  /** The courses of a node, in pre-order. */
  function Leaves(n: Node): seq<Course>
    decreases n, 1, 0
  {
    match n
    case Leaf(c) => [c]
    case Module(_, _, children) => ChildLeaves(n, |children|)
  }

  /** The courses of the first `k` children of module `n`. */
  function ChildLeaves(n: Node, k: nat): seq<Course>
    requires n.Module? && k <= |n.children|
    decreases n, 0, k
  {
    if k == 0 then [] else ChildLeaves(n, k - 1) + Leaves(n.children[k - 1])
  }

  /** The courses of a list of nodes, in order. */
  function ForestLeaves(ns: seq<Node>): seq<Course> {
    if ns == [] then [] else ForestLeaves(ns[..|ns| - 1]) + Leaves(ns[|ns| - 1])
  }

  lemma {:induction false} ChildLeavesForest(n: Node, k: nat)
    requires n.Module? && k <= |n.children|
    ensures ChildLeaves(n, k) == ForestLeaves(n.children[..k])
  {
    if k > 0 {
      ChildLeavesForest(n, k - 1);
      assert n.children[..k][..k - 1] == n.children[..k - 1];
    }
  }

  /** Every course of `cs` has both its lists in the queue. */
  predicate LeavesQueued(cs: seq<Course>, queue: seq<Handle>) {
    forall i :: 0 <= i < |cs| ==> cs[i].recPrqs in queue && cs[i].comPrqs in queue
  }

  /** How a parse may change the state: the representation invariant holds, lists are only
      added and the queue only grows at its end. */
  predicate Grows(st: State, st': State) {
    Valid(st') && ListsExtend(st, st') && st.queue <= st'.queue
  }

  lemma GrowsTrans(st: State, s1: State, s2: State, cs: seq<Course>)
    requires Grows(st, s1) && Grows(s1, s2) && LeavesQueued(cs, s1.queue)
    ensures Grows(st, s2) && LeavesQueued(cs, s2.queue)
  {
    assert s2.queue[..|s1.queue|] == s1.queue;
    forall i | 0 <= i < |cs|
      ensures cs[i].recPrqs in s2.queue && cs[i].comPrqs in s2.queue
    {
      var a :| 0 <= a < |s1.queue| && s1.queue[a] == cs[i].recPrqs;
      var b :| 0 <= b < |s1.queue| && s1.queue[b] == cs[i].comPrqs;
      assert s2.queue[a] == cs[i].recPrqs && s2.queue[b] == cs[i].comPrqs;
    }
  }

  /** Parsing keeps the representation invariant and queues the two lists of every course
      it puts in the tree, so that validation later cleans them. */
  lemma {:induction false} ParseRulesQueues(cat: Catalog, rd: Rule, fuel: nat, st: State)
    requires Valid(st)
    ensures var r := ParseRules(cat, rd, fuel, st);
      r.Ok? ==> Grows(st, r.value.1) && (r.value.0.Some? ==> LeavesQueued(ForestLeaves(r.value.0.value), r.value.1.queue))
    decreases fuel, 0, 0
  {
    if fuel > 0 {
      match rd.body
      case CreditsRule(inner) => ParseRulesQueues(cat, inner, fuel - 1, st);
      case CompositeRule(rules) => ParseCompositeQueues(cat, rules, fuel - 1, st);
      case CourseUnitRule =>
      case OtherRule(_) =>
    }
  }

  lemma {:induction false} ParseCompositeQueues(cat: Catalog, rules: seq<Rule>, fuel: nat, st: State)
    requires Valid(st)
    ensures var r := ParseComposite(cat, rules, fuel, st);
      r.Ok? ==> Grows(st, r.value.1) && LeavesQueued(ForestLeaves(r.value.0), r.value.1.queue)
    decreases fuel, |rules|, 1
  {
    if rules != [] {
      var p := rules[..|rules| - 1];
      ParseCompositeQueues(cat, p, fuel, st);
      var rp := ParseComposite(cat, p, fuel, st);
      if rp.Ok? {
        var s := rp.value.1;
        ParseSubRuleQueues(cat, rules[|rules| - 1], fuel, s);
        var rl := ParseSubRule(cat, rules[|rules| - 1], fuel, s);
        if rl.Ok? {
          var s' := rl.value.1;
          GrowsTrans(st, s, s', ForestLeaves(rp.value.0));
          if rl.value.0.Some? {
            var ch := rp.value.0 + [rl.value.0.value];
            assert ch[..|ch| - 1] == rp.value.0;
            assert ForestLeaves(ch) == ForestLeaves(rp.value.0) + Leaves(rl.value.0.value);
          }
        }
      }
    }
  }

  lemma {:induction false} ParseSubRuleQueues(cat: Catalog, rule: Rule, fuel: nat, st: State)
    requires Valid(st)
    ensures var r := ParseSubRule(cat, rule, fuel, st);
      r.Ok? ==> Grows(st, r.value.1) && (r.value.0.Some? ==> LeavesQueued(Leaves(r.value.0.value), r.value.1.queue))
    decreases fuel, 0, 1
  {
    if rule.moduleGroupId.Some? {
      ParseModuleGroupQueues(cat, rule.moduleGroupId.value, fuel, st);
    } else if rule.courseUnitGroupId.Some? {
      CourseRuleQueues(cat, rule.courseUnitGroupId.value, st);
    } else {
      ParseRulesQueues(cat, rule, fuel, st);
      var rr := ParseRules(cat, rule, fuel, st);
      if GroupingName(rule).Ok? && rr.Ok? && rr.value.0.Some? {
        var n := Module(GroupingName(rule).value, "grouping", rr.value.0.value);
        ChildLeavesForest(n, |n.children|);
        assert n.children[..|n.children|] == n.children;
      }
    }
  }

  /** A course met in the main tree has both its lists queued, after everything queued
      before it. */
  lemma CourseRuleQueues(cat: Catalog, cid: Id, st: State)
    requires Valid(st)
    ensures var rc := ParseCourse(cat, cid, true, st);
      rc.Ok? && rc.value.0.Some? ==>
        var c := rc.value.0.value;
        var s' := Enqueue(Enqueue(rc.value.1, c.recPrqs), c.comPrqs);
        Grows(st, s') && LeavesQueued(Leaves(Leaf(c)), s'.queue)
  {
    ParseCourseValid(cat, cid, true, st);
    ParseCourseBuildsFromFirstValid(cat, cid, true, st);
    var rc := ParseCourse(cat, cid, true, st);
    if rc.Ok? && rc.value.0.Some? {
      var c := rc.value.0.value;
      var s := rc.value.1;
      EnqueueValid(s, c.recPrqs);
      EnqueueValid(Enqueue(s, c.recPrqs), c.comPrqs);
      var s' := Enqueue(Enqueue(s, c.recPrqs), c.comPrqs);
      assert s'.queue == st.queue + [c.recPrqs, c.comPrqs];
      assert s'.queue[|st.queue|] == c.recPrqs && s'.queue[|st.queue| + 1] == c.comPrqs;
    }
  }

  lemma {:induction false} ParseModuleGroupQueues(cat: Catalog, gid: Id, fuel: nat, st: State)
    requires Valid(st)
    ensures var r := ParseModuleGroup(cat, gid, fuel, st);
      r.Ok? ==> Grows(st, r.value.1) && (r.value.0.Some? ==> LeavesQueued(Leaves(r.value.0.value), r.value.1.queue))
    decreases fuel, 0, 0
  {
    if fuel > 0 && gid in cat.groups {
      ParseVariantsQueues(cat, cat.groups[gid], fuel - 1, st);
    }
  }

  lemma {:induction false} ParseVariantsQueues(cat: Catalog, vs: seq<GroupVariant>, fuel: nat, st: State)
    requires Valid(st)
    ensures var r := ParseVariants(cat, vs, fuel, st);
      r.Ok? ==> Grows(st, r.value.1) && (r.value.0.Some? ==> LeavesQueued(Leaves(r.value.0.value), r.value.1.queue))
    decreases fuel, |vs|, 1
  {
    if vs != [] {
      var v := vs[0];
      if !ValidFor(v.curriculumPeriodIds, cat.curriculum) {
        ParseVariantsQueues(cat, vs[1..], fuel, st);
      } else if "fi" in v.name {
        ParseRulesQueues(cat, v.rule, fuel, st);
        var rr := ParseRules(cat, v.rule, fuel, st);
        if rr.Ok? {
          if rr.value.0.None? {
            ParseVariantsQueues(cat, vs[1..], fuel, rr.value.1);
          } else {
            var n := Module(v.name["fi"], v.kind, rr.value.0.value);
            ChildLeavesForest(n, |n.children|);
            assert n.children[..|n.children|] == n.children;
          }
        }
      }
    }
  }
}
