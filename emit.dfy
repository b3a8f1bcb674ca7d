/** Emission (`draw_graph_for_degree_programme` after parsing): clusters for the modules,
    nodes for the courses, prerequisite edges and the "loose" courses drawn outside every
    cluster. The closures `write_course`, `write_cluster` and `write_prerequisites` update
    the counters and lists of an `Emitter`; the file is the sequence of `Line` records it
    appends. Label text (wrapping, HTML markup, icons) is kept as the raw name. */
module Emission {
  import opened SisuData
  import opened Text
  import opened Courses
  import opened Rules
  import Seqs

  /** `(prerequisite key, course key)`. */
  datatype Edge = Edge(source: string, target: string)

  /** One write to the output file. */
  datatype Line =
    | GraphOpen                                           // digraph G {
    | RankDirection                                       // rankdir="LR";
    | ClusterOpen(indent: nat, index: nat)                // subgraph cluster_<index> {
    | ClusterLabel(indent: nat, text: string)               // label = "<name>";
    | ClusterClose(indent: nat)                           // }
    | CourseNode(indent: nat, key: string, code: string, name: string)
    | EdgeLine(indent: nat, edge: Edge, style: string)    // from->to, with [style=...] unless ""
    | SourceRankOpen                                      // { rank=source;
    | SourceRankKey(key: string)                          // <key>;
    | SourceRankClose                                     // }
    | GraphClose                                          // }

  /** The parsed data emission reads: the final registry and the prerequisite lists. */
  datatype Context = Context(registry: map<Id, Course>, lists: seq<seq<Id>>)

  /** The list a handle denotes (every handle of the model is in range, see `Rules.Grows`). */
  function ListAt(ctx: Context, h: Handle): seq<Id> {
    if h < |ctx.lists| then ctx.lists[h] else []
  }

  /** One edge per prerequisite id found in the registry, from that course's key to `key`;
      ids not in the registry are skipped. */
  function CourseEdges(prs: seq<Id>, registry: map<Id, Course>, key: string): seq<Edge> {
    if prs == [] then []
    else
      var pr := prs[|prs| - 1];
      CourseEdges(prs[..|prs| - 1], registry, key) + (if pr in registry then [Edge(registry[pr].key, key)] else [])
  }

  /** `write_course` adds exactly an edge `(cid2c[pr].key, key)` for each registered
      prerequisite `pr`, and nothing for an unregistered one. */
  lemma {:induction false} CourseEdgesMembers(prs: seq<Id>, registry: map<Id, Course>, key: string)
    ensures forall e :: e in CourseEdges(prs, registry, key) <==>
      e.target == key && exists pr :: pr in prs && pr in registry && registry[pr].key == e.source
    ensures |CourseEdges(prs, registry, key)| <= |prs|
  {
    if prs != [] {
      var p := prs[..|prs| - 1];
      CourseEdgesMembers(p, registry, key);
      assert prs == p + [prs[|prs| - 1]];
    }
  }

  /** The positions of `prs` whose id is in the registry, in increasing order. */
  function RegisteredPositions(prs: seq<Id>, registry: map<Id, Course>): seq<nat> {
    if prs == [] then []
    else
      RegisteredPositions(prs[..|prs| - 1], registry) + (if prs[|prs| - 1] in registry then [|prs| - 1] else [])
  }

  /** `write_course` keeps one edge per registered occurrence, in list order: the edges
      are read off `prs` at exactly the positions whose id is registered. */
  lemma {:induction false} CourseEdgesIsFilter(prs: seq<Id>, registry: map<Id, Course>, key: string)
    ensures var ps := RegisteredPositions(prs, registry); var es := CourseEdges(prs, registry, key);
      && |ps| == |es|
      && (forall i, j :: 0 <= i < j < |ps| ==> ps[i] < ps[j])
      && (forall i :: 0 <= i < |ps| ==>
            (ps[i] < |prs| && prs[ps[i]] in registry && es[i] == Edge(registry[prs[ps[i]]].key, key)))
      && (forall q :: 0 <= q < |prs| ==> (q in ps <==> prs[q] in registry))
  {
    if prs != [] {
      var p := prs[..|prs| - 1];
      var x := prs[|prs| - 1];
      CourseEdgesIsFilter(p, registry, key);
      var ps := RegisteredPositions(prs, registry);
      var es := CourseEdges(prs, registry, key);
      var ps0 := RegisteredPositions(p, registry);
      var es0 := CourseEdges(p, registry, key);
      assert ps == ps0 + (if x in registry then [|p|] else []);
      assert es == es0 + (if x in registry then [Edge(registry[x].key, key)] else []);
      assert forall i :: 0 <= i < |p| ==> prs[i] == p[i];
      forall i | 0 <= i < |ps|
        ensures ps[i] < |prs| && prs[ps[i]] in registry && es[i] == Edge(registry[prs[ps[i]]].key, key)
      {
        if i < |ps0| {
          assert ps[i] == ps0[i] && es[i] == es0[i];
        }
      }
      forall q | 0 <= q < |prs|
        ensures q in ps <==> prs[q] in registry
      {
        if q < |p| {
          assert q in RegisteredPositions(p, registry) <==> p[q] in registry;
        }
      }
    }
  }

  /** The edges of `prqs` with neither end in the blacklist, in input order. */
  function Visible(prqs: seq<Edge>, blacklist: seq<string>): seq<Edge> {
    if prqs == [] then []
    else
      var e := prqs[|prqs| - 1];
      Visible(prqs[..|prqs| - 1], blacklist)
        + (if e.source in blacklist || e.target in blacklist then [] else [e])
  }

  /** `write_prerequisites` draws exactly the edges with neither end blacklisted, each as
      often as it was collected. */
  lemma {:induction false} VisibleMembers(prqs: seq<Edge>, blacklist: seq<string>)
    ensures forall e :: e in Visible(prqs, blacklist) <==>
      e in prqs && e.source !in blacklist && e.target !in blacklist
    ensures forall e :: (multiset(Visible(prqs, blacklist))[e]
      == if e.source in blacklist || e.target in blacklist then 0 else multiset(prqs)[e])
  {
    if prqs != [] {
      var p := prqs[..|prqs| - 1];
      var e := prqs[|prqs| - 1];
      VisibleMembers(p, blacklist);
      assert prqs == p + [e];
      assert multiset(prqs) == multiset(p) + multiset{e};
      if !(e.source in blacklist || e.target in blacklist) {
        assert multiset(Visible(prqs, blacklist)) == multiset(Visible(p, blacklist)) + multiset{e};
      }
    }
  }

  /** The drawn edges keep the input order: filtering a concatenation filters each part. */
  lemma {:induction false} VisibleAppend(a: seq<Edge>, b: seq<Edge>, blacklist: seq<string>)
    ensures Visible(a + b, blacklist) == Visible(a, blacklist) + Visible(b, blacklist)
    decreases |b|
  {
    if b == [] {
      assert a + b == a;
    } else {
      var p := b[..|b| - 1];
      VisibleAppend(a, p, blacklist);
      assert (a + b)[..|a + b| - 1] == a + p;
      assert (a + b)[|a + b| - 1] == b[|b| - 1];
    }
  }

  /** The blacklist as `draw_graph_for_degree_programme` compares it: dots replaced. */
  function NormaliseBlacklist(blacklist: seq<string>): (r: seq<string>)
    ensures |r| == |blacklist|
    ensures forall i :: 0 <= i < |r| ==> r[i] == Underscored(blacklist[i])
  {
    if blacklist == [] then [] else [Underscored(blacklist[0])] + NormaliseBlacklist(blacklist[1..])
  }

  /** A course listed by its dotted code is blacklisted under its base key, the one
      without "_alt". */
  lemma BlacklistByCode(code: string, blacklist: seq<string>)
    requires code in blacklist
    ensures CourseKey(code, false) in NormaliseBlacklist(blacklist)
  {
    var i :| 0 <= i < |blacklist| && blacklist[i] == code;
    assert NormaliseBlacklist(blacklist)[i] == Underscored(code);
    assert CourseKey(code, false) == Underscored(code) + "" == Underscored(code);
  }

  /** The values the emission closures share: `sgidx`, `indent`, `in_clusters`,
      `all_com_prqs`, `all_rec_prqs`, and the lines written so far. */
  datatype Emission = Emission(
    sgidx: nat,
    indent: nat,
    inClusters: seq<string>,
    allCom: seq<Edge>,
    allRec: seq<Edge>,
    out: seq<Line>)

  /** The two header lines, before any cluster. */
  const Start: Emission := Emission(1, 0, [], [], [], [GraphOpen, RankDirection])

  /** `write_course(c)`: its node, then its compulsory and recommended edges collected. */
  function CourseEffect(ctx: Context, c: Course, e: Emission): (r: Emission) {
    e.(out := e.out + [CourseNode(e.indent, c.key, c.code, c.name)],
       allCom := e.allCom + CourseEdges(ListAt(ctx, c.comPrqs), ctx.registry, c.key),
       allRec := e.allRec + CourseEdges(ListAt(ctx, c.recPrqs), ctx.registry, c.key))
  }

  /** `write_cluster(sg, blacklist)`: open cluster number `sgidx`, count it, indent, write
      the label, write the children, unindent, close. */
  function ClusterEffect(ctx: Context, sg: Node, blacklist: seq<string>, e: Emission): (r: Emission)
    requires sg.Module?
    ensures r.indent == e.indent
    decreases sg, 1, 0
  {
    var entered := e.(out := e.out + [ClusterOpen(e.indent, e.sgidx), ClusterLabel(e.indent + 1, sg.name)],
                     sgidx := e.sgidx + 1, indent := e.indent + 1);
    var inside := ChildrenEffect(ctx, sg, |sg.children|, blacklist, entered);
    inside.(indent := e.indent, out := inside.out + [ClusterClose(e.indent)])
  }

  /** The loop over the first `k` children of `sg`: a module becomes a nested cluster, a
      blacklisted course is skipped, any other course is written and its key recorded. */
  function ChildrenEffect(ctx: Context, sg: Node, k: nat, blacklist: seq<string>, e: Emission): (r: Emission)
    requires sg.Module? && k <= |sg.children|
    ensures r.indent == e.indent
    decreases sg, 0, k
  {
    if k == 0 then e
    else
      var before := ChildrenEffect(ctx, sg, k - 1, blacklist, e);
      var c := sg.children[k - 1];
      if c.Module? then ClusterEffect(ctx, c, blacklist, before)
      else if c.course.key in blacklist then before
      else
        var w := CourseEffect(ctx, c.course, before);
        w.(inClusters := w.inClusters + [c.course.key])
  }

  predicate AllModules(h: seq<Node>) {
    forall i :: 0 <= i < |h| ==> h[i].Module?
  }

  /** `for sg in module_hierarchy: write_cluster(sg, course_blacklist)`. */
  function ForestEffect(ctx: Context, h: seq<Node>, blacklist: seq<string>, e: Emission): (r: Emission)
    requires AllModules(h)
    ensures r.indent == e.indent
  {
    if h == [] then e
    else ClusterEffect(ctx, h[|h| - 1], blacklist, ForestEffect(ctx, h[..|h| - 1], blacklist, e))
  }

  function EdgeLines(es: seq<Edge>, indent: nat, style: string): (r: seq<Line>)
    ensures |r| == |es|
    ensures forall i :: 0 <= i < |es| ==> r[i] == EdgeLine(indent, es[i], style)
  {
    if es == [] then [] else EdgeLines(es[..|es| - 1], indent, style) + [EdgeLine(indent, es[|es| - 1], style)]
  }

  /** `write_prerequisites(prqs, blacklist, style)`. */
  function PrerequisitesEffect(prqs: seq<Edge>, blacklist: seq<string>, style: string, e: Emission): Emission {
    e.(out := e.out + EdgeLines(Visible(prqs, blacklist), e.indent, style))
  }

  /** The prerequisite end of every edge: what `active_prqs` collects. */
  function Sources(es: seq<Edge>): (r: seq<string>)
    ensures |r| == |es|
    ensures forall i :: 0 <= i < |es| ==> r[i] == es[i].source
  {
    if es == [] then [] else Sources(es[..|es| - 1]) + [es[|es| - 1].source]
  }

  /** The manual prerequisites: the items of every dict of the list, dict by dict. */
  function FlattenManual(manual: seq<seq<Edge>>): seq<Edge> {
    if manual == [] then [] else FlattenManual(manual[..|manual| - 1]) + manual[|manual| - 1]
  }

  /** A registered course is drawn as loose unless its code is among the keys drawn in
      clusters, its key is blacklisted, or its key is not the source of an edge. */
  predicate IsLoose(c: Course, inClusters: seq<string>, blacklist: seq<string>, active: seq<string>) {
    c.code !in inClusters && c.key !in blacklist && c.key in active
  }

  /** The loose courses, in the registry's insertion order. */
  function LooseCourses(registry: map<Id, Course>, order: seq<Id>, inClusters: seq<string>,
                        blacklist: seq<string>, active: seq<string>): seq<Course>
    requires forall i :: 0 <= i < |order| ==> order[i] in registry
  {
    if order == [] then []
    else
      var c := registry[order[|order| - 1]];
      LooseCourses(registry, order[..|order| - 1], inClusters, blacklist, active)
        + (if IsLoose(c, inClusters, blacklist, active) then [c] else [])
  }

  /** Exactly the registered courses passing the test are loose. */
  lemma {:induction false} LooseCoursesMembers(registry: map<Id, Course>, order: seq<Id>, inClusters: seq<string>,
                                               blacklist: seq<string>, active: seq<string>)
    requires forall i :: 0 <= i < |order| ==> order[i] in registry
    ensures forall c :: c in LooseCourses(registry, order, inClusters, blacklist, active) <==>
      IsLoose(c, inClusters, blacklist, active) && exists i :: 0 <= i < |order| && registry[order[i]] == c
  {
    if order != [] {
      var p := order[..|order| - 1];
      LooseCoursesMembers(registry, p, inClusters, blacklist, active);
      assert forall i :: 0 <= i < |p| ==> order[i] == p[i];
    }
  }

  /** The loose-course test compares a code with keys: a course with a dotted code that is
      drawn in a cluster is drawn a second time as a loose course. */
  lemma DottedCodeDrawnAgain()
    ensures var c := Course("A.1", "Course", "A_1", 0, 1);
      LooseCourses(map["id" := c], ["id"], ["A_1"], [], ["A_1"]) == [c]
  {
    var c := Course("A.1", "Course", "A_1", 0, 1);
    assert "A.1" != "A_1";
    assert ["id"][..0] == [];
  }

  /** The blacklist is compared with keys: a course met a second time in the main tree is
      keyed with "_alt", so blacklisting its code does not keep its node out of the file. */
  lemma AltKeyEscapesBlacklist()
    ensures CourseKey("A.1", true) == "A_1_alt"
    ensures var c := Course("A.1", "n", "A_1_alt", 0, 0);
      CourseNode(1, "A_1_alt", "A.1", "n")
        in Graph(Context(map[], []), [], [Module("m", "k", [Leaf(c)])], ["A.1"], false, []).out
  {
    var ctx := Context(map[], []);
    var h := [Module("m", "k", [Leaf(Course("A.1", "n", "A_1_alt", 0, 0))])];
    var blacklist := NormaliseBlacklist(["A.1"]);
    assert |blacklist| == 1 && |blacklist[0]| == 3;
    assert "A_1_alt" !in blacklist;
    GraphLayout(ctx, [], h, ["A.1"], false, []);
    assert h[..0] == [];
  }

  /** Only edge sources are active: a course that is only ever a target is not loose. */
  lemma TargetOnlyNotLoose()
    ensures var c := Course("B", "Course", "B", 0, 1);
      LooseCourses(map["id" := c], ["id"], [], [], Sources([Edge("A", "B")])) == []
  {
    assert Sources([Edge("A", "B")]) == ["A"];
    assert ["id"][..0] == [];
  }

  /** The source-rank entries, one per loose course. */
  function RankKeys(cs: seq<Course>): (r: seq<Line>)
    ensures |r| == |cs|
    ensures forall i :: 0 <= i < |cs| ==> r[i] == SourceRankKey(cs[i].key)
  {
    if cs == [] then [] else RankKeys(cs[..|cs| - 1]) + [SourceRankKey(cs[|cs| - 1].key)]
  }

  /** `for c in loose_courses: write_course(c)`. */
  function CoursesEffect(ctx: Context, cs: seq<Course>, e: Emission): (r: Emission)
    ensures r.indent == e.indent && r.sgidx == e.sgidx && r.inClusters == e.inClusters
  {
    if cs == [] then e else CourseEffect(ctx, cs[|cs| - 1], CoursesEffect(ctx, cs[..|cs| - 1], e))
  }

  /** The keys that `active_prqs` holds after the edges are written. */
  function Active(clusters: Emission, alsoRecommended: bool, manual: seq<seq<Edge>>): seq<string> {
    Sources(clusters.allCom)
      + (if alsoRecommended then Sources(clusters.allRec) else [])
      + (if |manual| > 0 then Sources(FlattenManual(manual)) else [])
  }

  /** The emission after the clusters and the three kinds of edges. */
  function EdgesEffect(clusters: Emission, blacklist: seq<string>, alsoRecommended: bool, manual: seq<seq<Edge>>): Emission {
    var e2 := PrerequisitesEffect(clusters.allCom, blacklist, "", clusters);
    var e3 := if alsoRecommended then PrerequisitesEffect(clusters.allRec, blacklist, "dashed", e2) else e2;
    if |manual| > 0 then PrerequisitesEffect(FlattenManual(manual), blacklist, "dotted", e3) else e3
  }

  /** The whole emission for a parsed and compressed hierarchy: header, clusters, edges
      (compulsory; recommended when asked for; manual when given), the source rank of the
      loose courses, their nodes, and the closing brace. */
  function Graph(ctx: Context, order: seq<Id>, h: seq<Node>, rawBlacklist: seq<string>,
                 alsoRecommended: bool, manual: seq<seq<Edge>>): Emission
    requires AllModules(h)
    requires forall i :: 0 <= i < |order| ==> order[i] in ctx.registry
  {
    var blacklist := NormaliseBlacklist(rawBlacklist);
    var clusters := ForestEffect(ctx, h, blacklist, Start);
    var e4 := EdgesEffect(clusters, blacklist, alsoRecommended, manual);
    var loose := LooseCourses(ctx.registry, order, clusters.inClusters, blacklist, Active(clusters, alsoRecommended, manual));
    var e5 := e4.(out := e4.out + [SourceRankOpen] + RankKeys(loose) + [SourceRankClose]);
    var e6 := CoursesEffect(ctx, loose, e5);
    e6.(out := e6.out + [GraphClose])
  }

  // ---------------------------------------------------------------------------------------
  // Cluster numbering

  /** The numbers of the clusters entered in `lines`, in order. */
  function ClusterNumbers(lines: seq<Line>): seq<nat> {
    if lines == [] then []
    else
      var l := lines[|lines| - 1];
      ClusterNumbers(lines[..|lines| - 1]) + (if l.ClusterOpen? then [l.index] else [])
  }

  lemma {:induction false} ClusterNumbersAppend(a: seq<Line>, b: seq<Line>)
    ensures ClusterNumbers(a + b) == ClusterNumbers(a) + ClusterNumbers(b)
    decreases |b|
  {
    if b == [] {
      assert a + b == a;
    } else {
      var p := b[..|b| - 1];
      ClusterNumbersAppend(a, p);
      assert (a + b)[..|a + b| - 1] == a + p;
      assert (a + b)[|a + b| - 1] == b[|b| - 1];
    }
  }

  /** `lo, lo + 1, ..., hi - 1`. */
  function Range(lo: nat, hi: nat): seq<nat> {
    if hi <= lo then [] else Range(lo, hi - 1) + [hi - 1]
  }

  lemma {:induction false} RangeAppend(a: nat, b: nat, c: nat)
    requires a <= b <= c
    ensures Range(a, b) + Range(b, c) == Range(a, c)
    decreases c
  {
    if b < c {
      RangeAppend(a, b, c - 1);
    }
  }

  lemma RangeIncreasing(a: nat, b: nat)
    ensures forall i, j :: 0 <= i < j < |Range(a, b)| ==> Range(a, b)[i] < Range(a, b)[j]
    ensures |Range(a, b)| == if a <= b then b - a else 0
    decreases b
  {
    if a < b {
      RangeIncreasing(a, b - 1);
      RangeBound(a, b - 1);
    }
  }

  lemma RangeBound(a: nat, b: nat)
    ensures forall i :: 0 <= i < |Range(a, b)| ==> a <= Range(a, b)[i] < b
    decreases b
  {
    if a < b {
      RangeBound(a, b - 1);
    }
  }

  /** Writing cluster `sg` opens the clusters numbered `sgidx`, `sgidx + 1`, ... in
      pre-order, one per module of `sg`. */
  lemma {:induction false} ClusterNumbering(ctx: Context, sg: Node, blacklist: seq<string>, e: Emission)
    requires sg.Module?
    ensures var r := ClusterEffect(ctx, sg, blacklist, e);
      e.sgidx < r.sgidx && ClusterNumbers(r.out) == ClusterNumbers(e.out) + Range(e.sgidx, r.sgidx)
    decreases sg, 1, 0
  {
    var head := [ClusterOpen(e.indent, e.sgidx), ClusterLabel(e.indent + 1, sg.name)];
    var entered := e.(out := e.out + head, sgidx := e.sgidx + 1, indent := e.indent + 1);
    HeadNumbers(e.out, e.indent, e.sgidx, sg.name);
    ChildrenNumbering(ctx, sg, |sg.children|, blacklist, entered);
    var inside := ChildrenEffect(ctx, sg, |sg.children|, blacklist, entered);
    var r := ClusterEffect(ctx, sg, blacklist, e);
    assert r.out == inside.out + [ClusterClose(e.indent)] && r.sgidx == inside.sgidx;
    CloseNumbers(inside.out, e.indent);
    RangeAppend(e.sgidx, e.sgidx + 1, inside.sgidx);
    assert Range(e.sgidx, e.sgidx + 1) == [e.sgidx] by {
      assert Range(e.sgidx, e.sgidx) == [];
    }
    Seqs.AppendAssoc(ClusterNumbers(e.out), [e.sgidx], Range(e.sgidx + 1, inside.sgidx));
  }

  /** The two lines that open a cluster enter one number. */
  lemma HeadNumbers(out: seq<Line>, indent: nat, sgidx: nat, name: string)
    ensures ClusterNumbers(out + [ClusterOpen(indent, sgidx), ClusterLabel(indent + 1, name)])
      == ClusterNumbers(out) + [sgidx]
  {
    var withOpen := out + [ClusterOpen(indent, sgidx)];
    var all := withOpen + [ClusterLabel(indent + 1, name)];
    assert out + [ClusterOpen(indent, sgidx), ClusterLabel(indent + 1, name)] == all;
    assert all[..|all| - 1] == withOpen;
    assert withOpen[..|withOpen| - 1] == out;
  }

  /** Closing a cluster enters none. */
  lemma CloseNumbers(out: seq<Line>, indent: nat)
    ensures ClusterNumbers(out + [ClusterClose(indent)]) == ClusterNumbers(out)
  {
    var all := out + [ClusterClose(indent)];
    assert all[..|all| - 1] == out;
  }

  lemma {:induction false} ChildrenNumbering(ctx: Context, sg: Node, k: nat, blacklist: seq<string>, e: Emission)
    requires sg.Module? && k <= |sg.children|
    ensures var r := ChildrenEffect(ctx, sg, k, blacklist, e);
      e.sgidx <= r.sgidx && ClusterNumbers(r.out) == ClusterNumbers(e.out) + Range(e.sgidx, r.sgidx)
    decreases sg, 0, k
  {
    if k > 0 {
      ChildrenNumbering(ctx, sg, k - 1, blacklist, e);
      var before := ChildrenEffect(ctx, sg, k - 1, blacklist, e);
      var c := sg.children[k - 1];
      if c.Module? {
        ClusterNumbering(ctx, c, blacklist, before);
        RangeAppend(e.sgidx, before.sgidx, ClusterEffect(ctx, c, blacklist, before).sgidx);
      } else if c.course.key !in blacklist {
        var node := [CourseNode(before.indent, c.course.key, c.course.code, c.course.name)];
        ClusterNumbersAppend(before.out, node);
        assert node[..0] == [];
      }
    }
  }

  lemma {:induction false} ForestNumbering(ctx: Context, h: seq<Node>, blacklist: seq<string>, e: Emission)
    requires AllModules(h)
    ensures var r := ForestEffect(ctx, h, blacklist, e);
      e.sgidx <= r.sgidx && ClusterNumbers(r.out) == ClusterNumbers(e.out) + Range(e.sgidx, r.sgidx)
  {
    if h != [] {
      var p := h[..|h| - 1];
      assert AllModules(p);
      ForestNumbering(ctx, p, blacklist, e);
      var before := ForestEffect(ctx, p, blacklist, e);
      var r := ClusterEffect(ctx, h[|h| - 1], blacklist, before);
      assert ForestEffect(ctx, h, blacklist, e) == r;
      ClusterNumbering(ctx, h[|h| - 1], blacklist, before);
      RangeAppend(e.sgidx, before.sgidx, r.sgidx);
      Seqs.AppendAssoc(ClusterNumbers(e.out), Range(e.sgidx, before.sgidx), Range(before.sgidx, r.sgidx));
    }
  }

  // ---------------------------------------------------------------------------------------
  // Blacklist and edges

  /** A line that draws nothing blacklisted. */
  predicate Allowed(l: Line, blacklist: seq<string>) {
    && (l.CourseNode? ==> l.key !in blacklist)
    && (l.SourceRankKey? ==> l.key !in blacklist)
    && (l.EdgeLine? ==> l.edge.source !in blacklist && l.edge.target !in blacklist)
  }

  predicate Respects(lines: seq<Line>, blacklist: seq<string>) {
    forall i :: 0 <= i < |lines| ==> Allowed(lines[i], blacklist)
  }

  /** The edges drawn by `lines`, in order. */
  function EdgesOf(lines: seq<Line>): seq<Edge> {
    if lines == [] then []
    else
      var l := lines[|lines| - 1];
      EdgesOf(lines[..|lines| - 1]) + (if l.EdgeLine? then [l.edge] else [])
  }

  lemma {:induction false} EdgesOfAppend(a: seq<Line>, b: seq<Line>)
    ensures EdgesOf(a + b) == EdgesOf(a) + EdgesOf(b)
    decreases |b|
  {
    if b == [] {
      assert a + b == a;
    } else {
      var p := b[..|b| - 1];
      EdgesOfAppend(a, p);
      assert (a + b)[..|a + b| - 1] == a + p;
      assert (a + b)[|a + b| - 1] == b[|b| - 1];
    }
  }

  lemma {:induction false} EdgesOfEdgeLines(es: seq<Edge>, indent: nat, style: string)
    ensures EdgesOf(EdgeLines(es, indent, style)) == es
  {
    if es != [] {
      var p := es[..|es| - 1];
      EdgesOfEdgeLines(p, indent, style);
      var ls := EdgeLines(es, indent, style);
      assert ls[..|ls| - 1] == EdgeLines(p, indent, style);
    }
  }

  /** Lines that draw no edge. */
  predicate NoEdges(lines: seq<Line>) {
    forall i :: 0 <= i < |lines| ==> !lines[i].EdgeLine?
  }

  lemma {:induction false} EdgesOfNone(lines: seq<Line>)
    requires NoEdges(lines)
    ensures EdgesOf(lines) == []
  {
    if lines != [] {
      EdgesOfNone(lines[..|lines| - 1]);
    }
  }

  /** A cluster draws no edge and no blacklisted course. */
  lemma {:induction false} ClusterClean(ctx: Context, sg: Node, blacklist: seq<string>, e: Emission)
    requires sg.Module?
    ensures var r := ClusterEffect(ctx, sg, blacklist, e);
      && |e.out| <= |r.out| && r.out[..|e.out|] == e.out
      && NoEdges(r.out[|e.out|..]) && Respects(r.out[|e.out|..], blacklist)
    decreases sg, 1, 0
  {
    var head := [ClusterOpen(e.indent, e.sgidx), ClusterLabel(e.indent + 1, sg.name)];
    var entered := e.(out := e.out + head, sgidx := e.sgidx + 1, indent := e.indent + 1);
    ChildrenClean(ctx, sg, |sg.children|, blacklist, entered);
    var inside := ChildrenEffect(ctx, sg, |sg.children|, blacklist, entered);
    var r := ClusterEffect(ctx, sg, blacklist, e);
    assert r.out == inside.out + [ClusterClose(e.indent)];
    assert inside.out[..|e.out|] == e.out by {
      assert inside.out[..|entered.out|][..|e.out|] == e.out;
    }
    forall i | |e.out| <= i < |r.out|
      ensures !r.out[i].EdgeLine? && Allowed(r.out[i], blacklist)
    {
      if i < |entered.out| {
        assert r.out[i] == inside.out[i] == entered.out[i] == head[i - |e.out|];
      } else if i < |inside.out| {
        assert r.out[i] == inside.out[i] == inside.out[|entered.out|..][i - |entered.out|];
      }
    }
  }

  lemma {:induction false} ChildrenClean(ctx: Context, sg: Node, k: nat, blacklist: seq<string>, e: Emission)
    requires sg.Module? && k <= |sg.children|
    ensures var r := ChildrenEffect(ctx, sg, k, blacklist, e);
      && |e.out| <= |r.out| && r.out[..|e.out|] == e.out
      && NoEdges(r.out[|e.out|..]) && Respects(r.out[|e.out|..], blacklist)
    decreases sg, 0, k
  {
    if k > 0 {
      ChildrenClean(ctx, sg, k - 1, blacklist, e);
      var before := ChildrenEffect(ctx, sg, k - 1, blacklist, e);
      var c := sg.children[k - 1];
      var r := ChildrenEffect(ctx, sg, k, blacklist, e);
      if c.Module? {
        ClusterClean(ctx, c, blacklist, before);
        CleanSuffixTrans(e.out, before.out, r.out, blacklist);
      } else if c.course.key !in blacklist {
        var node := [CourseNode(before.indent, c.course.key, c.course.code, c.course.name)];
        assert r.out == before.out + node;
        assert r.out[..|before.out|] == before.out;
        assert r.out[|before.out|..] == node;
        CleanSuffixTrans(e.out, before.out, r.out, blacklist);
      }
    }
  }

  /** Clean growth composes. */
  lemma CleanSuffixTrans(a: seq<Line>, b: seq<Line>, c: seq<Line>, blacklist: seq<string>)
    requires |a| <= |b| <= |c| && b[..|a|] == a && c[..|b|] == b
    requires NoEdges(b[|a|..]) && Respects(b[|a|..], blacklist)
    requires NoEdges(c[|b|..]) && Respects(c[|b|..], blacklist)
    ensures c[..|a|] == a && NoEdges(c[|a|..]) && Respects(c[|a|..], blacklist)
  {
    assert c[..|a|] == c[..|b|][..|a|];
    forall i | |a| <= i < |c|
      ensures !c[i].EdgeLine? && Allowed(c[i], blacklist)
    {
      if i < |b| {
        assert c[i] == b[i] == b[|a|..][i - |a|];
      } else {
        assert c[i] == c[|b|..][i - |b|];
      }
    }
  }

  lemma {:induction false} ForestClean(ctx: Context, h: seq<Node>, blacklist: seq<string>, e: Emission)
    requires AllModules(h)
    ensures var r := ForestEffect(ctx, h, blacklist, e);
      && |e.out| <= |r.out| && r.out[..|e.out|] == e.out
      && NoEdges(r.out[|e.out|..]) && Respects(r.out[|e.out|..], blacklist)
  {
    var r := ForestEffect(ctx, h, blacklist, e);
    if h == [] {
      assert r.out[|e.out|..] == [];
    } else {
      var p := h[..|h| - 1];
      ForestClean(ctx, p, blacklist, e);
      var before := ForestEffect(ctx, p, blacklist, e);
      ClusterClean(ctx, h[|h| - 1], blacklist, before);
      CleanSuffixTrans(e.out, before.out, r.out, blacklist);
    }
  }

  // ---------------------------------------------------------------------------------------
  // Courses drawn in clusters

  /** The courses of `cs` whose key is not blacklisted. */
  function Shown(cs: seq<Course>, blacklist: seq<string>): seq<Course> {
    if cs == [] then []
    else
      var c := cs[|cs| - 1];
      Shown(cs[..|cs| - 1], blacklist) + (if c.key in blacklist then [] else [c])
  }

  function Keys(cs: seq<Course>): seq<string> {
    if cs == [] then [] else Keys(cs[..|cs| - 1]) + [cs[|cs| - 1].key]
  }

  /** The compulsory edges `write_course` collects for each course of `cs`, in order. */
  function ComEdges(ctx: Context, cs: seq<Course>): seq<Edge> {
    if cs == [] then []
    else
      var c := cs[|cs| - 1];
      ComEdges(ctx, cs[..|cs| - 1]) + CourseEdges(ListAt(ctx, c.comPrqs), ctx.registry, c.key)
  }

  /** The recommended edges `write_course` collects for each course of `cs`, in order. */
  function RecEdges(ctx: Context, cs: seq<Course>): seq<Edge> {
    if cs == [] then []
    else
      var c := cs[|cs| - 1];
      RecEdges(ctx, cs[..|cs| - 1]) + CourseEdges(ListAt(ctx, c.recPrqs), ctx.registry, c.key)
  }

  lemma {:induction false} ShownAppend(a: seq<Course>, b: seq<Course>, blacklist: seq<string>)
    ensures Shown(a + b, blacklist) == Shown(a, blacklist) + Shown(b, blacklist)
    decreases |b|
  {
    if b == [] {
      assert a + b == a;
    } else {
      var p := b[..|b| - 1];
      ShownAppend(a, p, blacklist);
      assert (a + b)[..|a + b| - 1] == a + p;
      assert (a + b)[|a + b| - 1] == b[|b| - 1];
    }
  }

  lemma {:induction false} KeysAppend(a: seq<Course>, b: seq<Course>)
    ensures Keys(a + b) == Keys(a) + Keys(b)
    decreases |b|
  {
    if b == [] {
      assert a + b == a;
    } else {
      var p := b[..|b| - 1];
      KeysAppend(a, p);
      assert (a + b)[..|a + b| - 1] == a + p;
      assert (a + b)[|a + b| - 1] == b[|b| - 1];
    }
  }

  lemma {:induction false} ComEdgesAppend(ctx: Context, a: seq<Course>, b: seq<Course>)
    ensures ComEdges(ctx, a + b) == ComEdges(ctx, a) + ComEdges(ctx, b)
    decreases |b|
  {
    if b == [] {
      assert a + b == a;
    } else {
      var p := b[..|b| - 1];
      var x := b[|b| - 1];
      var e := CourseEdges(ListAt(ctx, x.comPrqs), ctx.registry, x.key);
      ComEdgesAppend(ctx, a, p);
      assert (a + b)[..|a + b| - 1] == a + p;
      assert (a + b)[|a + b| - 1] == x;
      assert ComEdges(ctx, a + b) == ComEdges(ctx, a + p) + e;
      assert ComEdges(ctx, b) == ComEdges(ctx, p) + e;
      Seqs.AppendAssoc(ComEdges(ctx, a), ComEdges(ctx, p), e);
    }
  }

  lemma {:induction false} RecEdgesAppend(ctx: Context, a: seq<Course>, b: seq<Course>)
    ensures RecEdges(ctx, a + b) == RecEdges(ctx, a) + RecEdges(ctx, b)
    decreases |b|
  {
    if b == [] {
      assert a + b == a;
    } else {
      var p := b[..|b| - 1];
      var x := b[|b| - 1];
      var e := CourseEdges(ListAt(ctx, x.recPrqs), ctx.registry, x.key);
      RecEdgesAppend(ctx, a, p);
      assert (a + b)[..|a + b| - 1] == a + p;
      assert (a + b)[|a + b| - 1] == x;
      assert RecEdges(ctx, a + b) == RecEdges(ctx, a + p) + e;
      assert RecEdges(ctx, b) == RecEdges(ctx, p) + e;
      Seqs.AppendAssoc(RecEdges(ctx, a), RecEdges(ctx, p), e);
    }
  }

  /** What the clusters record: `in_clusters` gains the keys of the courses of `sg` that
      are not blacklisted, in pre-order, and the edge lists gain exactly those courses'
      edges. */
  predicate CollectsCourses(ctx: Context, cs: seq<Course>, blacklist: seq<string>, e: Emission, r: Emission) {
    && r.inClusters == e.inClusters + Keys(Shown(cs, blacklist))
    && r.allCom == e.allCom + ComEdges(ctx, Shown(cs, blacklist))
    && r.allRec == e.allRec + RecEdges(ctx, Shown(cs, blacklist))
  }

  lemma CollectsTrans(ctx: Context, a: seq<Course>, b: seq<Course>, blacklist: seq<string>, e: Emission, m: Emission, r: Emission)
    requires CollectsCourses(ctx, a, blacklist, e, m) && CollectsCourses(ctx, b, blacklist, m, r)
    ensures CollectsCourses(ctx, a + b, blacklist, e, r)
  {
    ShownAppend(a, b, blacklist);
    KeysTrans(Shown(a, blacklist), Shown(b, blacklist), e.inClusters, m.inClusters, r.inClusters);
    ComTrans(ctx, Shown(a, blacklist), Shown(b, blacklist), e.allCom, m.allCom, r.allCom);
    RecTrans(ctx, Shown(a, blacklist), Shown(b, blacklist), e.allRec, m.allRec, r.allRec);
  }

  lemma KeysTrans(sa: seq<Course>, sb: seq<Course>, x: seq<string>, y: seq<string>, z: seq<string>)
    requires y == x + Keys(sa) && z == y + Keys(sb)
    ensures z == x + Keys(sa + sb)
  {
    KeysAppend(sa, sb);
    Seqs.AppendAssoc(x, Keys(sa), Keys(sb));
  }

  lemma ComTrans(ctx: Context, sa: seq<Course>, sb: seq<Course>, x: seq<Edge>, y: seq<Edge>, z: seq<Edge>)
    requires y == x + ComEdges(ctx, sa) && z == y + ComEdges(ctx, sb)
    ensures z == x + ComEdges(ctx, sa + sb)
  {
    ComEdgesAppend(ctx, sa, sb);
    Seqs.AppendAssoc(x, ComEdges(ctx, sa), ComEdges(ctx, sb));
  }

  lemma RecTrans(ctx: Context, sa: seq<Course>, sb: seq<Course>, x: seq<Edge>, y: seq<Edge>, z: seq<Edge>)
    requires y == x + RecEdges(ctx, sa) && z == y + RecEdges(ctx, sb)
    ensures z == x + RecEdges(ctx, sa + sb)
  {
    RecEdgesAppend(ctx, sa, sb);
    Seqs.AppendAssoc(x, RecEdges(ctx, sa), RecEdges(ctx, sb));
  }

  /** A single course of a cluster: recorded unless blacklisted. */
  lemma LeafCourses(ctx: Context, c: Course, blacklist: seq<string>, e: Emission)
    ensures var r := if c.key in blacklist then e
                     else var w := CourseEffect(ctx, c, e); w.(inClusters := w.inClusters + [c.key]);
      CollectsCourses(ctx, [c], blacklist, e, r)
  {
    SingleCourse(ctx, c);
    assert [c][..0] == [];
    if c.key in blacklist {
      assert Shown([c], blacklist) == [];
      assert Keys([]) == [] && ComEdges(ctx, []) == [] && RecEdges(ctx, []) == [];
    } else {
      assert Shown([c], blacklist) == [c];
    }
  }

  lemma SingleCourse(ctx: Context, c: Course)
    ensures Keys([c]) == [c.key]
    ensures ComEdges(ctx, [c]) == CourseEdges(ListAt(ctx, c.comPrqs), ctx.registry, c.key)
    ensures RecEdges(ctx, [c]) == CourseEdges(ListAt(ctx, c.recPrqs), ctx.registry, c.key)
  {
    assert [c][..0] == [];
  }

  lemma {:induction false} ClusterCourses(ctx: Context, sg: Node, blacklist: seq<string>, e: Emission)
    requires sg.Module?
    ensures CollectsCourses(ctx, Leaves(sg), blacklist, e, ClusterEffect(ctx, sg, blacklist, e))
    decreases sg, 1, 0
  {
    var entered := e.(out := e.out + [ClusterOpen(e.indent, e.sgidx), ClusterLabel(e.indent + 1, sg.name)],
                     sgidx := e.sgidx + 1, indent := e.indent + 1);
    ChildrenCourses(ctx, sg, |sg.children|, blacklist, entered);
  }

  lemma {:induction false} ChildrenCourses(ctx: Context, sg: Node, k: nat, blacklist: seq<string>, e: Emission)
    requires sg.Module? && k <= |sg.children|
    ensures CollectsCourses(ctx, ChildLeaves(sg, k), blacklist, e, ChildrenEffect(ctx, sg, k, blacklist, e))
    decreases sg, 0, k
  {
    if k > 0 {
      ChildrenCourses(ctx, sg, k - 1, blacklist, e);
      var before := ChildrenEffect(ctx, sg, k - 1, blacklist, e);
      var c := sg.children[k - 1];
      var r := ChildrenEffect(ctx, sg, k, blacklist, e);
      if c.Module? {
        ClusterCourses(ctx, c, blacklist, before);
      } else {
        assert Leaves(c) == [c.course];
        LeafCourses(ctx, c.course, blacklist, before);
      }
      CollectsTrans(ctx, ChildLeaves(sg, k - 1), Leaves(c), blacklist, e, before, r);
    }
  }

  lemma {:induction false} ForestCourses(ctx: Context, h: seq<Node>, blacklist: seq<string>, e: Emission)
    requires AllModules(h)
    ensures CollectsCourses(ctx, ForestLeaves(h), blacklist, e, ForestEffect(ctx, h, blacklist, e))
  {
    if h == [] {
      assert Keys([]) == [] && ComEdges(ctx, []) == [] && RecEdges(ctx, []) == [];
    } else {
      var p := h[..|h| - 1];
      ForestCourses(ctx, p, blacklist, e);
      var before := ForestEffect(ctx, p, blacklist, e);
      ClusterCourses(ctx, h[|h| - 1], blacklist, before);
      CollectsTrans(ctx, ForestLeaves(p), Leaves(h[|h| - 1]), blacklist, e, before, ForestEffect(ctx, h, blacklist, e));
    }
  }

  // ---------------------------------------------------------------------------------------
  // The whole file

  /** The nodes `write_course` writes for `cs` at `indent`. */
  function CourseNodes(cs: seq<Course>, indent: nat): (r: seq<Line>)
    ensures |r| == |cs|
    ensures forall i :: 0 <= i < |cs| ==> r[i] == CourseNode(indent, cs[i].key, cs[i].code, cs[i].name)
  {
    if cs == [] then [] else CourseNodes(cs[..|cs| - 1], indent) + [CourseNode(indent, cs[|cs| - 1].key, cs[|cs| - 1].code, cs[|cs| - 1].name)]
  }

  lemma {:induction false} CoursesEffectOut(ctx: Context, cs: seq<Course>, e: Emission)
    ensures CoursesEffect(ctx, cs, e).out == e.out + CourseNodes(cs, e.indent)
  {
    if cs != [] {
      CoursesEffectOut(ctx, cs[..|cs| - 1], e);
    }
  }

  /** The loose courses of a graph. */
  function Loose(ctx: Context, order: seq<Id>, clusters: Emission, blacklist: seq<string>,
                 alsoRecommended: bool, manual: seq<seq<Edge>>): seq<Course>
    requires forall i :: 0 <= i < |order| ==> order[i] in ctx.registry
  {
    LooseCourses(ctx.registry, order, clusters.inClusters, blacklist, Active(clusters, alsoRecommended, manual))
  }

  /** The edge lines of a graph: compulsory plain, recommended dashed, manual dotted. */
  function EdgeSection(clusters: Emission, blacklist: seq<string>, alsoRecommended: bool, manual: seq<seq<Edge>>): seq<Line> {
    EdgeLines(Visible(clusters.allCom, blacklist), 0, "")
      + (if alsoRecommended then EdgeLines(Visible(clusters.allRec, blacklist), 0, "dashed") else [])
      + (if |manual| > 0 then EdgeLines(Visible(FlattenManual(manual), blacklist), 0, "dotted") else [])
  }

  /** The lines after the edges: the source rank of the loose courses, their nodes, `}`. */
  function Tail(loose: seq<Course>): seq<Line> {
    [SourceRankOpen] + RankKeys(loose) + [SourceRankClose] + CourseNodes(loose, 0) + [GraphClose]
  }

  /** The layout of the file: the clusters, then the edges, then the loose courses. */
  lemma GraphLayout(ctx: Context, order: seq<Id>, h: seq<Node>, rawBlacklist: seq<string>,
                    alsoRecommended: bool, manual: seq<seq<Edge>>)
    requires AllModules(h)
    requires forall i :: 0 <= i < |order| ==> order[i] in ctx.registry
    ensures var blacklist := NormaliseBlacklist(rawBlacklist);
      var clusters := ForestEffect(ctx, h, blacklist, Start);
      Graph(ctx, order, h, rawBlacklist, alsoRecommended, manual).out
        == clusters.out + EdgeSection(clusters, blacklist, alsoRecommended, manual)
           + Tail(Loose(ctx, order, clusters, blacklist, alsoRecommended, manual))
  {
    var blacklist := NormaliseBlacklist(rawBlacklist);
    var clusters := ForestEffect(ctx, h, blacklist, Start);
    var e4 := EdgesEffect(clusters, blacklist, alsoRecommended, manual);
    EdgesEffectOut(clusters, blacklist, alsoRecommended, manual);
    var loose := Loose(ctx, order, clusters, blacklist, alsoRecommended, manual);
    var e5 := e4.(out := e4.out + [SourceRankOpen] + RankKeys(loose) + [SourceRankClose]);
    CoursesEffectOut(ctx, loose, e5);
    TailSplit(clusters.out, EdgeSection(clusters, blacklist, alsoRecommended, manual), loose);
  }

  lemma EdgesEffectOut(clusters: Emission, blacklist: seq<string>, alsoRecommended: bool, manual: seq<seq<Edge>>)
    requires clusters.indent == 0
    ensures var r := EdgesEffect(clusters, blacklist, alsoRecommended, manual);
      r.out == clusters.out + EdgeSection(clusters, blacklist, alsoRecommended, manual) && r.indent == 0
  {
  }

  lemma TailSplit(a: seq<Line>, b: seq<Line>, loose: seq<Course>)
    ensures (a + b + [SourceRankOpen] + RankKeys(loose) + [SourceRankClose]) + CourseNodes(loose, 0) + [GraphClose]
      == a + b + Tail(loose)
  {
  }

  /** Lines that open no cluster and draw no edge. */
  predicate Plain(lines: seq<Line>) {
    forall i :: 0 <= i < |lines| ==> !lines[i].ClusterOpen? && !lines[i].EdgeLine?
  }

  lemma {:induction false} PlainLines(lines: seq<Line>)
    requires Plain(lines)
    ensures ClusterNumbers(lines) == [] && EdgesOf(lines) == []
  {
    if lines != [] {
      PlainLines(lines[..|lines| - 1]);
    }
  }

  lemma {:induction false} EdgeLinesNumbers(es: seq<Edge>, indent: nat, style: string)
    ensures ClusterNumbers(EdgeLines(es, indent, style)) == []
  {
    if es != [] {
      var ls := EdgeLines(es, indent, style);
      EdgeLinesNumbers(es[..|es| - 1], indent, style);
      assert ls[..|ls| - 1] == EdgeLines(es[..|es| - 1], indent, style);
    }
  }

  lemma RespectsAppend(a: seq<Line>, b: seq<Line>, blacklist: seq<string>)
    requires Respects(a, blacklist) && Respects(b, blacklist)
    ensures Respects(a + b, blacklist)
  {
    forall i | 0 <= i < |a + b|
      ensures Allowed((a + b)[i], blacklist)
    {
      if i >= |a| {
        assert (a + b)[i] == b[i - |a|];
      }
    }
  }

  /** The cluster part: the header lines, then lines without edges or blacklisted courses. */
  lemma ClustersPart(ctx: Context, h: seq<Node>, blacklist: seq<string>)
    requires AllModules(h)
    ensures var clusters := ForestEffect(ctx, h, blacklist, Start);
      && EdgesOf(clusters.out) == []
      && Respects(clusters.out, blacklist)
      && ClusterNumbers(clusters.out) == Range(1, clusters.sgidx)
  {
    var clusters := ForestEffect(ctx, h, blacklist, Start);
    ForestClean(ctx, h, blacklist, Start);
    ForestNumbering(ctx, h, blacklist, Start);
    var rest := clusters.out[2..];
    assert clusters.out == Start.out + rest;
    StartLines(blacklist);
    EdgesOfAppend(Start.out, rest);
    EdgesOfNone(rest);
    RespectsAppend(Start.out, rest, blacklist);
  }

  /** The two header lines draw no edge, blacklisted course or cluster. */
  lemma StartLines(blacklist: seq<string>)
    ensures EdgesOf(Start.out) == [] && ClusterNumbers(Start.out) == [] && Respects(Start.out, blacklist)
  {
    assert Start.out[..1] == [GraphOpen] && [GraphOpen][..0] == [];
  }

  lemma EdgeLinesRespect(es: seq<Edge>, blacklist: seq<string>, indent: nat, style: string)
    ensures Respects(EdgeLines(Visible(es, blacklist), indent, style), blacklist)
  {
    VisibleMembers(es, blacklist);
    var vs := Visible(es, blacklist);
    forall i | 0 <= i < |vs|
      ensures Allowed(EdgeLines(vs, indent, style)[i], blacklist)
    {
      assert vs[i] in vs;
    }
  }

  /** The edge part draws exactly the visible edges, opens no cluster and respects the
      blacklist. */
  lemma EdgePart(clusters: Emission, blacklist: seq<string>, alsoRecommended: bool, manual: seq<seq<Edge>>)
    ensures var es := EdgeSection(clusters, blacklist, alsoRecommended, manual);
      && EdgesOf(es) == Visible(clusters.allCom, blacklist)
           + (if alsoRecommended then Visible(clusters.allRec, blacklist) else [])
           + (if |manual| > 0 then Visible(FlattenManual(manual), blacklist) else [])
      && ClusterNumbers(es) == []
      && Respects(es, blacklist)
  {
    var l1 := EdgeLines(Visible(clusters.allCom, blacklist), 0, "");
    var l2 := if alsoRecommended then EdgeLines(Visible(clusters.allRec, blacklist), 0, "dashed") else [];
    var l3 := if |manual| > 0 then EdgeLines(Visible(FlattenManual(manual), blacklist), 0, "dotted") else [];
    EdgesOfEdgeLines(Visible(clusters.allCom, blacklist), 0, "");
    EdgeLinesNumbers(Visible(clusters.allCom, blacklist), 0, "");
    EdgeLinesRespect(clusters.allCom, blacklist, 0, "");
    if alsoRecommended {
      EdgesOfEdgeLines(Visible(clusters.allRec, blacklist), 0, "dashed");
      EdgeLinesNumbers(Visible(clusters.allRec, blacklist), 0, "dashed");
      EdgeLinesRespect(clusters.allRec, blacklist, 0, "dashed");
    }
    if |manual| > 0 {
      EdgesOfEdgeLines(Visible(FlattenManual(manual), blacklist), 0, "dotted");
      EdgeLinesNumbers(Visible(FlattenManual(manual), blacklist), 0, "dotted");
      EdgeLinesRespect(FlattenManual(manual), blacklist, 0, "dotted");
    }
    EdgesOfAppend(l1, l2);
    EdgesOfAppend(l1 + l2, l3);
    ClusterNumbersAppend(l1, l2);
    ClusterNumbersAppend(l1 + l2, l3);
    RespectsAppend(l1, l2, blacklist);
    RespectsAppend(l1 + l2, l3, blacklist);
  }

  /** The tail draws no edge, opens no cluster and names no blacklisted course. */
  lemma TailPart(ctx: Context, order: seq<Id>, clusters: Emission, blacklist: seq<string>,
                 alsoRecommended: bool, manual: seq<seq<Edge>>)
    requires forall i :: 0 <= i < |order| ==> order[i] in ctx.registry
    ensures var t := Tail(Loose(ctx, order, clusters, blacklist, alsoRecommended, manual));
      EdgesOf(t) == [] && ClusterNumbers(t) == [] && Respects(t, blacklist)
  {
    var loose := Loose(ctx, order, clusters, blacklist, alsoRecommended, manual);
    LooseCoursesMembers(ctx.registry, order, clusters.inClusters, blacklist, Active(clusters, alsoRecommended, manual));
    forall k | 0 <= k < |loose|
      ensures loose[k].key !in blacklist
    {
      assert loose[k] in loose;
    }
    TailClean(loose, blacklist);
    PlainLines(Tail(loose));
  }

  /** Lines that open no cluster, draw no edge and name no blacklisted course. */
  predicate Clean(lines: seq<Line>, blacklist: seq<string>) {
    forall i :: 0 <= i < |lines| ==> !lines[i].ClusterOpen? && !lines[i].EdgeLine? && Allowed(lines[i], blacklist)
  }

  lemma CleanAppend(a: seq<Line>, b: seq<Line>, blacklist: seq<string>)
    requires Clean(a, blacklist) && Clean(b, blacklist)
    ensures Clean(a + b, blacklist)
  {
    forall i | 0 <= i < |a + b|
      ensures (a + b)[i] == if i < |a| then a[i] else b[i - |a|]
    {
    }
  }

  lemma TailClean(loose: seq<Course>, blacklist: seq<string>)
    requires forall k :: 0 <= k < |loose| ==> loose[k].key !in blacklist
    ensures Clean(Tail(loose), blacklist)
  {
    var keys := RankKeys(loose);
    var nodes := CourseNodes(loose, 0);
    assert Clean(keys, blacklist);
    assert Clean(nodes, blacklist);
    CleanAppend([SourceRankOpen], keys, blacklist);
    CleanAppend([SourceRankOpen] + keys, [SourceRankClose], blacklist);
    CleanAppend([SourceRankOpen] + keys + [SourceRankClose], nodes, blacklist);
    CleanAppend([SourceRankOpen] + keys + [SourceRankClose] + nodes, [GraphClose], blacklist);
  }

  /** Clusters are numbered `1, 2, ...` in the order they are opened, with no gap. */
  lemma GraphClusterNumbers(ctx: Context, order: seq<Id>, h: seq<Node>, rawBlacklist: seq<string>,
                            alsoRecommended: bool, manual: seq<seq<Edge>>)
    requires AllModules(h)
    requires forall i :: 0 <= i < |order| ==> order[i] in ctx.registry
    ensures var r := ForestEffect(ctx, h, NormaliseBlacklist(rawBlacklist), Start);
      ClusterNumbers(Graph(ctx, order, h, rawBlacklist, alsoRecommended, manual).out) == Range(1, r.sgidx)
  {
    var blacklist := NormaliseBlacklist(rawBlacklist);
    var clusters := ForestEffect(ctx, h, blacklist, Start);
    GraphLayout(ctx, order, h, rawBlacklist, alsoRecommended, manual);
    var es := EdgeSection(clusters, blacklist, alsoRecommended, manual);
    var t := Tail(Loose(ctx, order, clusters, blacklist, alsoRecommended, manual));
    ClustersPart(ctx, h, blacklist);
    EdgePart(clusters, blacklist, alsoRecommended, manual);
    TailPart(ctx, order, clusters, blacklist, alsoRecommended, manual);
    ClusterNumbersAppend(clusters.out, es);
    ClusterNumbersAppend(clusters.out + es, t);
  }

  /** Nothing in the file names a key in the normalised blacklist. A blacklisted code
      reaches only the base key of its course (`BlacklistByCode`); a course keyed with
      "_alt" is not covered by its code. */
  lemma GraphRespectsBlacklist(ctx: Context, order: seq<Id>, h: seq<Node>, rawBlacklist: seq<string>,
                               alsoRecommended: bool, manual: seq<seq<Edge>>)
    requires AllModules(h)
    requires forall i :: 0 <= i < |order| ==> order[i] in ctx.registry
    ensures Respects(Graph(ctx, order, h, rawBlacklist, alsoRecommended, manual).out, NormaliseBlacklist(rawBlacklist))
  {
    var blacklist := NormaliseBlacklist(rawBlacklist);
    var clusters := ForestEffect(ctx, h, blacklist, Start);
    GraphLayout(ctx, order, h, rawBlacklist, alsoRecommended, manual);
    var es := EdgeSection(clusters, blacklist, alsoRecommended, manual);
    var t := Tail(Loose(ctx, order, clusters, blacklist, alsoRecommended, manual));
    ClustersPart(ctx, h, blacklist);
    EdgePart(clusters, blacklist, alsoRecommended, manual);
    TailPart(ctx, order, clusters, blacklist, alsoRecommended, manual);
    RespectsAppend(clusters.out, es, blacklist);
    RespectsAppend(clusters.out + es, t, blacklist);
  }

  /** The edges drawn are those of the courses drawn in clusters (compulsory, then
      recommended when asked for), then the manual ones, less any edge touching the
      blacklist. The edges `write_course` collects for loose courses are never drawn. */
  lemma GraphEdges(ctx: Context, order: seq<Id>, h: seq<Node>, rawBlacklist: seq<string>,
                   alsoRecommended: bool, manual: seq<seq<Edge>>)
    requires AllModules(h)
    requires forall i :: 0 <= i < |order| ==> order[i] in ctx.registry
    ensures var blacklist := NormaliseBlacklist(rawBlacklist);
      var shown := Shown(ForestLeaves(h), blacklist);
      EdgesOf(Graph(ctx, order, h, rawBlacklist, alsoRecommended, manual).out)
        == Visible(ComEdges(ctx, shown), blacklist)
           + (if alsoRecommended then Visible(RecEdges(ctx, shown), blacklist) else [])
           + (if |manual| > 0 then Visible(FlattenManual(manual), blacklist) else [])
  {
    var blacklist := NormaliseBlacklist(rawBlacklist);
    var clusters := ForestEffect(ctx, h, blacklist, Start);
    var shown := Shown(ForestLeaves(h), blacklist);
    GraphDrawnEdges(ctx, order, h, rawBlacklist, alsoRecommended, manual);
    ForestCourses(ctx, h, blacklist, Start);
    assert clusters.allCom == [] + ComEdges(ctx, shown) == ComEdges(ctx, shown);
    assert clusters.allRec == [] + RecEdges(ctx, shown) == RecEdges(ctx, shown);
  }

  /** The edges drawn, in terms of the lists the clusters collected. */
  lemma GraphDrawnEdges(ctx: Context, order: seq<Id>, h: seq<Node>, rawBlacklist: seq<string>,
                        alsoRecommended: bool, manual: seq<seq<Edge>>)
    requires AllModules(h)
    requires forall i :: 0 <= i < |order| ==> order[i] in ctx.registry
    ensures var blacklist := NormaliseBlacklist(rawBlacklist);
      var clusters := ForestEffect(ctx, h, blacklist, Start);
      EdgesOf(Graph(ctx, order, h, rawBlacklist, alsoRecommended, manual).out)
        == Visible(clusters.allCom, blacklist)
           + (if alsoRecommended then Visible(clusters.allRec, blacklist) else [])
           + (if |manual| > 0 then Visible(FlattenManual(manual), blacklist) else [])
  {
    var blacklist := NormaliseBlacklist(rawBlacklist);
    var clusters := ForestEffect(ctx, h, blacklist, Start);
    GraphLayout(ctx, order, h, rawBlacklist, alsoRecommended, manual);
    var es := EdgeSection(clusters, blacklist, alsoRecommended, manual);
    var t := Tail(Loose(ctx, order, clusters, blacklist, alsoRecommended, manual));
    ClustersPart(ctx, h, blacklist);
    EdgePart(clusters, blacklist, alsoRecommended, manual);
    TailPart(ctx, order, clusters, blacklist, alsoRecommended, manual);
    EdgesOfAppend(clusters.out, es);
    EdgesOfAppend(clusters.out + es, t);
  }

  /** `in_clusters` holds the keys of the courses of the hierarchy that are not
      blacklisted, in pre-order. */
  lemma GraphInClusters(ctx: Context, h: seq<Node>, blacklist: seq<string>)
    requires AllModules(h)
    ensures ForestEffect(ctx, h, blacklist, Start).inClusters == Keys(Shown(ForestLeaves(h), blacklist))
  {
    ForestCourses(ctx, h, blacklist, Start);
  }

  // ---------------------------------------------------------------------------------------
  // The emitter: the variables the closures of `draw_graph_for_degree_programme` share

  class Emitter {
    const ctx: Context
    var sgidx: nat
    var indent: nat
    var inClusters: seq<string>
    var allCom: seq<Edge>
    var allRec: seq<Edge>
    var out: seq<Line>

    function Snapshot(): Emission
      reads this
    {
      Emission(sgidx, indent, inClusters, allCom, allRec, out)
    }

    /** The header is written, `sgidx = 1`, `indent = 0`, the lists are empty. */
    constructor(ctx: Context)
      ensures this.ctx == ctx && Snapshot() == Start
    {
      this.ctx := ctx;
      sgidx := 1;
      indent := 0;
      inClusters := [];
      allCom := [];
      allRec := [];
      out := [GraphOpen, RankDirection];
    }

    /** `write_course(c)`. */
    method WriteCourse(c: Course)
      modifies this
      ensures Snapshot() == CourseEffect(ctx, c, old(Snapshot()))
    {
      out := out + [CourseNode(indent, c.key, c.code, c.name)];
      var com := ListAt(ctx, c.comPrqs);
      var i := 0;
      while i < |com|
        invariant 0 <= i <= |com|
        invariant allCom == old(allCom) + CourseEdges(com[..i], ctx.registry, c.key)
        invariant out == old(out) + [CourseNode(indent, c.key, c.code, c.name)]
        invariant sgidx == old(sgidx) && indent == old(indent) && inClusters == old(inClusters)
        invariant allRec == old(allRec)
      {
        assert com[..i + 1][..i] == com[..i];
        var pr := com[i];
        if pr in ctx.registry {
          var c2 := ctx.registry[pr];
          allCom := allCom + [Edge(c2.key, c.key)];
        }
        i := i + 1;
      }
      assert com[..i] == com;
      var rec := ListAt(ctx, c.recPrqs);
      i := 0;
      while i < |rec|
        invariant 0 <= i <= |rec|
        invariant allRec == old(allRec) + CourseEdges(rec[..i], ctx.registry, c.key)
        invariant allCom == old(allCom) + CourseEdges(com, ctx.registry, c.key)
        invariant out == old(out) + [CourseNode(indent, c.key, c.code, c.name)]
        invariant sgidx == old(sgidx) && indent == old(indent) && inClusters == old(inClusters)
      {
        assert rec[..i + 1][..i] == rec[..i];
        var pr := rec[i];
        if pr in ctx.registry {
          var c2 := ctx.registry[pr];
          allRec := allRec + [Edge(c2.key, c.key)];
        }
        i := i + 1;
      }
      assert rec[..i] == rec;
    }

    /** `write_cluster(sg, blacklist)`. */
    method WriteCluster(sg: Node, blacklist: seq<string>)
      requires sg.Module?
      modifies this
      ensures Snapshot() == ClusterEffect(ctx, sg, blacklist, old(Snapshot()))
      decreases sg, 1
    {
      out := out + [ClusterOpen(indent, sgidx)];
      sgidx := sgidx + 1;
      indent := indent + 1;
      out := out + [ClusterLabel(indent, sg.name)];
      ghost var entered := Snapshot();
      assert entered == old(Snapshot()).(out := old(out) + [ClusterOpen(old(indent), old(sgidx)), ClusterLabel(old(indent) + 1, sg.name)],
                                        sgidx := old(sgidx) + 1, indent := old(indent) + 1);
      var i := 0;
      while i < |sg.children|
        invariant 0 <= i <= |sg.children|
        invariant Snapshot() == ChildrenEffect(ctx, sg, i, blacklist, entered)
      {
        WriteChild(sg, i, blacklist, entered);
        i := i + 1;
      }
      indent := indent - 1;
      out := out + [ClusterClose(indent)];
    }

    /** The body of the loop over the children of `sg`, for child `i`. */
    method WriteChild(sg: Node, i: nat, blacklist: seq<string>, ghost entered: Emission)
      requires sg.Module? && i < |sg.children|
      requires Snapshot() == ChildrenEffect(ctx, sg, i, blacklist, entered)
      modifies this
      ensures Snapshot() == ChildrenEffect(ctx, sg, i + 1, blacklist, entered)
      decreases sg, 0
    {
      var c := sg.children[i];
      if c.Module? {
        WriteCluster(c, blacklist);
      } else if c.course.key in blacklist {
      } else {
        WriteCourse(c.course);
        inClusters := inClusters + [c.course.key];
      }
    }

    /** `write_prerequisites(prqs, blacklist, style)`. */
    method WritePrerequisites(prqs: seq<Edge>, blacklist: seq<string>, style: string)
      modifies this
      ensures Snapshot() == PrerequisitesEffect(prqs, blacklist, style, old(Snapshot()))
    {
      var i := 0;
      while i < |prqs|
        invariant 0 <= i <= |prqs|
        invariant out == old(out) + EdgeLines(Visible(prqs[..i], blacklist), indent, style)
        invariant sgidx == old(sgidx) && indent == old(indent) && inClusters == old(inClusters)
        invariant allCom == old(allCom) && allRec == old(allRec)
      {
        var e := prqs[i];
        VisibleStep(prqs, i, blacklist);
        if e.source in blacklist || e.target in blacklist {
        } else {
          EdgeLinesSnoc(Visible(prqs[..i], blacklist), e, indent, style);
          out := out + [EdgeLine(indent, e, style)];
          assert out == old(out) + (EdgeLines(Visible(prqs[..i], blacklist), indent, style) + [EdgeLine(indent, e, style)]);
        }
        i := i + 1;
      }
      assert prqs[..i] == prqs;
    }

    /** `for sg in module_hierarchy: write_cluster(sg, course_blacklist)`. */
    method WriteClusters(h: seq<Node>, blacklist: seq<string>)
      requires AllModules(h)
      modifies this
      ensures Snapshot() == ForestEffect(ctx, h, blacklist, old(Snapshot()))
    {
      ghost var e0 := Snapshot();
      var i := 0;
      while i < |h|
        invariant 0 <= i <= |h|
        invariant Snapshot() == ForestEffect(ctx, h[..i], blacklist, e0)
      {
        assert h[..i + 1][..i] == h[..i];
        WriteCluster(h[i], blacklist);
        i := i + 1;
      }
      assert h[..i] == h;
    }

    /** The source rank: `{ rank=source; `, the key of every loose course, `}`; returns the
        loose courses in registry order. */
    method WriteSourceRank(order: seq<Id>, blacklist: seq<string>, active: seq<string>) returns (loose: seq<Course>)
      requires forall i :: 0 <= i < |order| ==> order[i] in ctx.registry
      modifies this
      ensures loose == LooseCourses(ctx.registry, order, inClusters, blacklist, active)
      ensures Snapshot() == old(Snapshot()).(out := old(out) + [SourceRankOpen] + RankKeys(loose) + [SourceRankClose])
    {
      out := out + [SourceRankOpen];
      ghost var start := out;
      loose := [];
      var i := 0;
      assert order[..0] == [];
      while i < |order|
        invariant 0 <= i <= |order|
        invariant loose == LooseCourses(ctx.registry, order[..i], inClusters, blacklist, active)
        invariant out == start + RankKeys(loose)
        invariant sgidx == old(sgidx) && indent == old(indent) && inClusters == old(inClusters)
        invariant allCom == old(allCom) && allRec == old(allRec)
      {
        var c := ctx.registry[order[i]];
        LooseStep(ctx.registry, order, i, inClusters, blacklist, active);
        if c.code in inClusters || c.key in blacklist || c.key !in active {
        } else {
          RankKeysSnoc(loose, c);
          Seqs.AppendAssoc(start, RankKeys(loose), [SourceRankKey(c.key)]);
          out := out + [SourceRankKey(c.key)];
          loose := loose + [c];
        }
        i := i + 1;
      }
      assert order[..i] == order;
      out := out + [SourceRankClose];
    }

    /** `for c in loose_courses: write_course(c)`. */
    method WriteCourses(cs: seq<Course>)
      modifies this
      ensures Snapshot() == CoursesEffect(ctx, cs, old(Snapshot()))
    {
      ghost var e0 := Snapshot();
      var i := 0;
      while i < |cs|
        invariant 0 <= i <= |cs|
        invariant Snapshot() == CoursesEffect(ctx, cs[..i], e0)
      {
        assert cs[..i + 1][..i] == cs[..i];
        WriteCourse(cs[i]);
        i := i + 1;
      }
      assert cs[..i] == cs;
    }
  }

  lemma VisibleStep(prqs: seq<Edge>, i: nat, blacklist: seq<string>)
    requires i < |prqs|
    ensures prqs[i].source in blacklist || prqs[i].target in blacklist ==>
      Visible(prqs[..i + 1], blacklist) == Visible(prqs[..i], blacklist)
    ensures !(prqs[i].source in blacklist || prqs[i].target in blacklist) ==>
      Visible(prqs[..i + 1], blacklist) == Visible(prqs[..i], blacklist) + [prqs[i]]
  {
    assert prqs[..i + 1][..i] == prqs[..i];
    assert Visible(prqs[..i], blacklist) + [] == Visible(prqs[..i], blacklist);
  }

  lemma EdgeLinesSnoc(es: seq<Edge>, e: Edge, indent: nat, style: string)
    ensures EdgeLines(es + [e], indent, style) == EdgeLines(es, indent, style) + [EdgeLine(indent, e, style)]
  {
    assert (es + [e])[..|es|] == es;
  }

  lemma LooseStep(registry: map<Id, Course>, order: seq<Id>, i: nat, inClusters: seq<string>,
                  blacklist: seq<string>, active: seq<string>)
    requires i < |order| && forall k :: 0 <= k < |order| ==> order[k] in registry
    ensures var c := registry[order[i]];
      LooseCourses(registry, order[..i + 1], inClusters, blacklist, active)
        == LooseCourses(registry, order[..i], inClusters, blacklist, active) + (if IsLoose(c, inClusters, blacklist, active) then [c] else [])
  {
    assert order[..i + 1][..i] == order[..i];
  }

  lemma RankKeysSnoc(cs: seq<Course>, c: Course)
    ensures RankKeys(cs + [c]) == RankKeys(cs) + [SourceRankKey(c.key)]
  {
    assert (cs + [c])[..|cs|] == cs;
  }

  /** `man_prqs`: the items of every dict of the list, dict by dict. */
  method CollectManual(manual: seq<seq<Edge>>) returns (manPrqs: seq<Edge>)
    ensures manPrqs == FlattenManual(manual)
  {
    manPrqs := [];
    var i := 0;
    while i < |manual|
      invariant 0 <= i <= |manual|
      invariant manPrqs == FlattenManual(manual[..i])
    {
      assert manual[..i + 1][..i] == manual[..i];
      manPrqs := manPrqs + manual[i];
      i := i + 1;
    }
    assert manual[..i] == manual;
  }

  /** The file `draw_graph_for_degree_programme` writes for a parsed and compressed
      hierarchy, given the final registry (`order` is its insertion order). */
  method DrawGraph(ctx: Context, order: seq<Id>, h: seq<Node>, rawBlacklist: seq<string>,
                   alsoRecommended: bool, manual: seq<seq<Edge>>) returns (lines: seq<Line>)
    requires AllModules(h)
    requires forall i :: 0 <= i < |order| ==> order[i] in ctx.registry
    ensures lines == Graph(ctx, order, h, rawBlacklist, alsoRecommended, manual).out
  {
    var blacklist := NormaliseBlacklist(rawBlacklist);
    var em := new Emitter(ctx);
    em.WriteClusters(h, blacklist);
    ghost var clusters := em.Snapshot();
    em.WritePrerequisites(em.allCom, blacklist, "");
    var active := Sources(em.allCom);
    assert em.allCom == clusters.allCom && em.allRec == clusters.allRec;
    if alsoRecommended {
      em.WritePrerequisites(em.allRec, blacklist, "dashed");
      active := active + Sources(em.allRec);
    }
    assert active == Sources(clusters.allCom) + (if alsoRecommended then Sources(clusters.allRec) else []);
    if |manual| > 0 {
      var manPrqs := CollectManual(manual);
      em.WritePrerequisites(manPrqs, blacklist, "dotted");
      active := active + Sources(manPrqs);
    }
    assert em.Snapshot() == EdgesEffect(clusters, blacklist, alsoRecommended, manual);
    assert active == Active(clusters, alsoRecommended, manual);
    var loose := em.WriteSourceRank(order, blacklist, active);
    em.WriteCourses(loose);
    lines := em.out + [GraphClose];
  }
}
