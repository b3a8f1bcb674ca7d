/** Course resolution (`parse_course`): pick the variant for the curriculum, read its name,
    collect its prerequisite ids, derive its graph key and record it in the registry. */
module Courses {
  import opened SisuData
  import opened Text
  import Seqs

  /** Index into the table of prerequisite lists. A course and the deferred queue refer to
      the same list through the same handle, as the script's course dict and its
      `queued_prerequisites` entry refer to the same Python list. */
  type Handle = nat

  /** The course dict `{'code', 'name', 'rec_prqs', 'com_prqs', 'key'}`. */
  datatype Course = Course(code: string, name: string, key: string, recPrqs: Handle, comPrqs: Handle)

  /** The script's global state: the registry `cid2c` with the order in which its keys were
      first inserted (the order `cid2c.values()` yields), the table of prerequisite lists,
      and the deferred queue `queued_prerequisites` as a list of handles. */
  datatype State = State(
    registry: map<Id, Course>,
    order: seq<Id>,
    lists: seq<seq<Id>>,
    queue: seq<Handle>)

  /** The state at the start of a run. */
  const Initial: State := State(map[], [], [], [])

  predicate NoDuplicates<T(==)>(s: seq<T>) {
    forall i, j :: 0 <= i < j < |s| ==> s[i] != s[j]
  }

  /** Every handle a course or the queue holds denotes a list of the table. */
  predicate HandlesIn(c: Course, lists: seq<seq<Id>>) {
    c.recPrqs < |lists| && c.comPrqs < |lists|
  }

  predicate QueueInRange(st: State) {
    forall i :: 0 <= i < |st.queue| ==> st.queue[i] < |st.lists|
  }

  /** Every list of `st` is still in `st'` with its contents unchanged (more may follow). */
  predicate ListsExtend(st: State, st': State) {
    |st.lists| <= |st'.lists| && forall h :: 0 <= h < |st.lists| ==> st'.lists[h] == st.lists[h]
  }

  /** Representation invariant: `order` lists the registry's keys once each, and every
      handle is in range. */
  predicate Valid(st: State) {
    && NoDuplicates(st.order)
    && (forall id :: id in st.registry ==> id in st.order)
    && (forall i :: 0 <= i < |st.order| ==> st.order[i] in st.registry)
    && (forall id :: id in st.registry ==> HandlesIn(st.registry[id], st.lists))
    && QueueInRange(st)
  }

  lemma InitialValid()
    ensures Valid(Initial)
  {
  }

  /** The index of the first variant whose curriculum periods are empty or contain the
      curriculum, if any. */
  function FirstValid(vs: seq<CourseVariant>, curriculum: string): (r: Option<nat>)
    ensures r.Some? ==> r.value < |vs| && ValidFor(vs[r.value].curriculumPeriodIds, curriculum)
    ensures forall k :: 0 <= k < |vs| && (r.None? || k < r.value) ==>
      !ValidFor(vs[k].curriculumPeriodIds, curriculum)
  {
    if vs == [] then None
    else if ValidFor(vs[0].curriculumPeriodIds, curriculum) then Some(0)
    else match FirstValid(vs[1..], curriculum)
      case None => None
      case Some(i) => Some(i + 1)
  }

  /** All items of all prerequisite groups, group by group. */
  function Flatten(groups: seq<PrereqGroup>): seq<PrereqItem> {
    if groups == [] then []
    else Flatten(groups[..|groups| - 1]) + groups[|groups| - 1].prerequisites
  }

  /** The `courseUnitGroupId` of every item typed "CourseUnit", in item order; the other
      items are skipped with a warning. */
  function CourseUnitIds(items: seq<PrereqItem>): seq<Id> {
    if items == [] then []
    else
      var it := items[|items| - 1];
      CourseUnitIds(items[..|items| - 1]) + (if it.kind == "CourseUnit" then [it.courseUnitGroupId] else [])
  }

  /** The distinct elements of `ids`, each at its first occurrence. */
  function Dedup(ids: seq<Id>): seq<Id> {
    if ids == [] then []
    else
      var d := Dedup(ids[..|ids| - 1]);
      var x := ids[|ids| - 1];
      if x in d then d else d + [x]
  }

  /** The elements of `ids` that are not in `excluded`, in order. */
  function Without(ids: seq<Id>, excluded: seq<Id>): seq<Id> {
    if ids == [] then []
    else
      var x := ids[|ids| - 1];
      Without(ids[..|ids| - 1], excluded) + (if x in excluded then [] else [x])
  }

  lemma {:induction false} CourseUnitIdsMembers(items: seq<PrereqItem>)
    ensures forall x :: x in CourseUnitIds(items) <==>
      exists it :: it in items && it.kind == "CourseUnit" && it.courseUnitGroupId == x
  {
    if items != [] {
      var p := items[..|items| - 1];
      CourseUnitIdsMembers(p);
      assert items == p + [items[|items| - 1]];
    }
  }

  lemma {:induction false} DedupMembers(ids: seq<Id>)
    ensures forall x :: x in Dedup(ids) <==> x in ids
    ensures NoDuplicates(Dedup(ids))
  {
    if ids != [] {
      var p := ids[..|ids| - 1];
      DedupMembers(p);
      assert ids == p + [ids[|ids| - 1]];
    }
  }

  lemma {:induction false} WithoutCounts(ids: seq<Id>, excluded: seq<Id>)
    ensures forall x :: (multiset(Without(ids, excluded))[x]
                         == if x in excluded then 0 else multiset(ids)[x])
    ensures forall x :: x in Without(ids, excluded) <==> x in ids && x !in excluded
  {
    if ids != [] {
      var p := ids[..|ids| - 1];
      var x := ids[|ids| - 1];
      WithoutCounts(p, excluded);
      assert ids == p + [x];
      assert multiset(ids) == multiset(p) + multiset{x};
      var w := Without(p, excluded);
      if x in excluded {
        assert Without(ids, excluded) == w;
      } else {
        assert Without(ids, excluded) == w + [x];
        assert multiset(w + [x]) == multiset(w) + multiset{x};
      }
    }
  }

  lemma FlattenStep(groups: seq<PrereqGroup>, g: nat)
    requires g < |groups|
    ensures Flatten(groups[..g + 1]) == Flatten(groups[..g]) + groups[g].prerequisites
  {
    assert groups[..g + 1][..g] == groups[..g];
  }

  lemma CourseUnitIdsStep(items: seq<PrereqItem>, it: PrereqItem)
    ensures CourseUnitIds(items + [it]) ==
      CourseUnitIds(items) + (if it.kind == "CourseUnit" then [it.courseUnitGroupId] else [])
  {
    assert (items + [it])[..|items|] == items;
  }

  lemma DedupStep(ids: seq<Id>, x: Id)
    ensures Dedup(ids + [x]) == if x in Dedup(ids) then Dedup(ids) else Dedup(ids) + [x]
  {
    assert (ids + [x])[..|ids|] == ids;
  }

  lemma WithoutStep(ids: seq<Id>, x: Id, excluded: seq<Id>)
    ensures Without(ids + [x], excluded) == Without(ids, excluded) + (if x in excluded then [] else [x])
  {
    assert (ids + [x])[..|ids|] == ids;
  }

  /** The CourseUnit ids of `items`, each added unless already present: the body of the
      loop that builds `rprqs`. */
  function CollectNew(items: seq<PrereqItem>): seq<Id> {
    if items == [] then []
    else
      var p := CollectNew(items[..|items| - 1]);
      var it := items[|items| - 1];
      if it.kind == "CourseUnit" && it.courseUnitGroupId !in p then p + [it.courseUnitGroupId] else p
  }

  /** Collecting new ids one by one is deduplicating the CourseUnit ids. */
  lemma {:induction false} CollectNewIsDedup(items: seq<PrereqItem>)
    ensures CollectNew(items) == Dedup(CourseUnitIds(items))
  {
    if items != [] {
      var p := items[..|items| - 1];
      var it := items[|items| - 1];
      CollectNewIsDedup(p);
      assert p + [it] == items;
      CourseUnitIdsStep(p, it);
      if it.kind == "CourseUnit" {
        DedupStep(CourseUnitIds(p), it.courseUnitGroupId);
      } else {
        assert CourseUnitIds(items) == CourseUnitIds(p);
      }
    }
  }

  /** `rec_prqs`: the CourseUnit ids of the recommended groups without repetition. */
  function Recommended(groups: seq<PrereqGroup>): seq<Id> {
    CollectNew(Flatten(groups))
  }

  /** `com_prqs`: the CourseUnit ids of the compulsory groups that are not in `rprqs`.
      The duplicate check reads `rprqs`, not the list being built, so repetitions stay. */
  function Compulsory(groups: seq<PrereqGroup>, rprqs: seq<Id>): seq<Id> {
    Without(CourseUnitIds(Flatten(groups)), rprqs)
  }

  /** The first position of `x` in `s`, or `|s|` when `x` does not occur. */
  function IndexOf(s: seq<Id>, x: Id): (i: nat)
    ensures i <= |s|
    ensures i < |s| <==> x in s
    ensures i < |s| ==> s[i] == x
    ensures forall k :: 0 <= k < i ==> s[k] != x
  {
    if s == [] then 0 else if s[0] == x then 0 else 1 + IndexOf(s[1..], x)
  }

  lemma {:induction false} IndexOfPrefix(s: seq<Id>, n: nat, x: Id)
    requires n <= |s| && x in s[..n]
    ensures IndexOf(s, x) == IndexOf(s[..n], x)
  {
    var i := IndexOf(s[..n], x);
    assert s[i] == x;
    assert forall k :: 0 <= k < i ==> s[k] == s[..n][k];
  }

  /** Dedup keeps first-occurrence order: of two kept ids, the one that comes first in the
      result also occurs first in the input. */
  lemma {:induction false} DedupFirstOccurrenceOrder(ids: seq<Id>)
    ensures forall i, j :: 0 <= i < j < |Dedup(ids)| ==>
      IndexOf(ids, Dedup(ids)[i]) < IndexOf(ids, Dedup(ids)[j])
  {
    if ids != [] {
      var p := ids[..|ids| - 1];
      var x := ids[|ids| - 1];
      var d := Dedup(p);
      DedupFirstOccurrenceOrder(p);
      DedupMembers(p);
      forall y | y in d
        ensures IndexOf(ids, y) == IndexOf(p, y) < |p|
      {
        IndexOfPrefix(ids, |p|, y);
      }
      if x !in d {
        assert x !in p;
        assert IndexOf(ids, x) == |p|;
        assert Dedup(ids) == d + [x];
      }
    }
  }

  /** Recommended prerequisites: only CourseUnit ids of the recommended groups, each once,
      in the order of their first occurrence. */
  lemma RecommendedProperties(groups: seq<PrereqGroup>)
    ensures forall x :: x in Recommended(groups) <==>
      exists it :: it in Flatten(groups) && it.kind == "CourseUnit" && it.courseUnitGroupId == x
    ensures NoDuplicates(Recommended(groups))
    ensures var ids := CourseUnitIds(Flatten(groups)); var r := Recommended(groups);
      forall i, j :: 0 <= i < j < |r| ==> IndexOf(ids, r[i]) < IndexOf(ids, r[j])
  {
    CollectNewIsDedup(Flatten(groups));
    CourseUnitIdsMembers(Flatten(groups));
    DedupMembers(CourseUnitIds(Flatten(groups)));
    DedupFirstOccurrenceOrder(CourseUnitIds(Flatten(groups)));
  }

  /** Compulsory prerequisites: exactly the CourseUnit ids of the compulsory groups that are
      not recommended, each as often as it occurs there. */
  lemma CompulsoryProperties(groups: seq<PrereqGroup>, rprqs: seq<Id>)
    ensures forall x :: x in Compulsory(groups, rprqs) <==>
      x !in rprqs && exists it :: it in Flatten(groups) && it.kind == "CourseUnit" && it.courseUnitGroupId == x
    ensures forall x :: (multiset(Compulsory(groups, rprqs))[x]
                         == if x in rprqs then 0 else multiset(CourseUnitIds(Flatten(groups)))[x])
  {
    CourseUnitIdsMembers(Flatten(groups));
    WithoutCounts(CourseUnitIds(Flatten(groups)), rprqs);
  }

  /** The compulsory list may hold an id twice: the check against repetition reads the
      recommended list. */
  lemma CompulsoryMayRepeat()
    ensures var a := PrereqGroup([PrereqItem("CourseUnit", "a")]);
      Compulsory([a, a], Recommended([])) == ["a", "a"]
  {
    var it := PrereqItem("CourseUnit", "a");
    var a := PrereqGroup([it]);
    var gs := [a, a];
    assert gs[..0] == [] && gs[..2] == gs;
    FlattenStep(gs, 0);
    FlattenStep(gs, 1);
    assert [] + [it] == [it];
    var items := [it] + [it];
    assert Flatten(gs) == items;
    CourseUnitIdsStep([], it);
    CourseUnitIdsStep([it], it);
    var ids := ["a"] + ["a"];
    assert CourseUnitIds(items) == ids;
    assert Recommended([]) == [];
    WithoutStep([], "a", []);
    WithoutStep(["a"], "a", []);
    assert Without(ids, []) == ids;
  }

  /** `c['name']['fi']` if there is one, else `c['name']['en']`. */
  function DisplayName(name: Localized): string
    requires "fi" in name || "en" in name
  {
    if "fi" in name then name["fi"] else name["en"]
  }

  /** The graph key: the code with dots replaced, suffixed with "_alt" on a repeat. */
  function CourseKey(code: string, alt: bool): string {
    Underscored(code) + (if alt then "_alt" else "")
  }

  /** The first variant of `cid` valid for the curriculum has neither a Finnish nor an
      English name: the KeyError of `c['name']['en']`. */
  predicate Unnamed(cat: Catalog, cid: Id) {
    && cid in cat.courses
    && FirstValid(cat.courses[cid], cat.curriculum).Some?
    && var v := cat.courses[cid][FirstValid(cat.courses[cid], cat.curriculum).value];
      "fi" !in v.name && "en" !in v.name
  }

  /** `parse_course(cid, curriculum, in_main_tree)`. `Ok((None, st))` is the script's
      `None`; `Err` is the KeyError raised when the chosen variant has neither a Finnish
      nor an English name. A resolved course gets two fresh lists, and the registry maps
      `cid` to it. */
  function ParseCourse(cat: Catalog, cid: Id, inMainTree: bool, st: State): (r: Result<(Option<Course>, State)>)
    // variant selection: nothing is resolved, and nothing changes, without a valid variant
    ensures (r.Ok? && r.value.0.None?) <==>
      (cid !in cat.courses || forall k :: 0 <= k < |cat.courses[cid]| ==>
        !ValidFor(cat.courses[cid][k].curriculumPeriodIds, cat.curriculum))
    ensures r.Ok? && r.value.0.None? ==> r.value.1 == st
    ensures r.Err? ==> r == Err(MissingName)
    // the only failure: the chosen variant has no name to display
    ensures r.Err? <==> Unnamed(cat, cid)
    ensures r.Ok? ==> ListsExtend(st, r.value.1) && r.value.1.queue == st.queue
  {
    if cid !in cat.courses then Ok((None, st))
    else match FirstValid(cat.courses[cid], cat.curriculum)
      case None => Ok((None, st))
      case Some(i) =>
        var v := cat.courses[cid][i];
        if "fi" !in v.name && "en" !in v.name then Err(MissingName)
        else
          var rprqs := Recommended(v.recommended);
          var cprqs := Compulsory(v.compulsory, rprqs);
          var key := CourseKey(v.code, inMainTree && cid in st.registry);
          var course := Course(v.code, DisplayName(v.name), key, |st.lists|, |st.lists| + 1);
          var order := if cid in st.registry then st.order else st.order + [cid];
          Ok((Some(course), State(st.registry[cid := course], order, st.lists + [rprqs, cprqs], st.queue)))
  }

  /** The variant a course is resolved from: the first one valid for the curriculum. */
  predicate ChosenVariant(cat: Catalog, cid: Id, v: CourseVariant) {
    && cid in cat.courses
    && FirstValid(cat.courses[cid], cat.curriculum).Some?
    && v == cat.courses[cid][FirstValid(cat.courses[cid], cat.curriculum).value]
  }

  /** A resolved course is built from the first valid variant: its code, its name (Finnish,
      else English) and two fresh lists holding its recommended and compulsory ids. */
  lemma ParseCourseBuildsFromFirstValid(cat: Catalog, cid: Id, inMainTree: bool, st: State)
    ensures var r := ParseCourse(cat, cid, inMainTree, st);
      r.Ok? && r.value.0.Some? ==>
      var c := r.value.0.value;
      var st' := r.value.1;
      exists v :: ChosenVariant(cat, cid, v)
        && c.code == v.code
        && ("fi" in v.name || "en" in v.name) && c.name == DisplayName(v.name)
        && c.recPrqs == |st.lists| && c.comPrqs == |st.lists| + 1
        && st'.lists == st.lists + [Recommended(v.recommended), Compulsory(v.compulsory, Recommended(v.recommended))]
  {
    var r := ParseCourse(cat, cid, inMainTree, st);
    if r.Ok? && r.value.0.Some? {
      var v := cat.courses[cid][FirstValid(cat.courses[cid], cat.curriculum).value];
      assert ChosenVariant(cat, cid, v);
    }
  }

  /** The key is the code with dots replaced, with "_alt" appended exactly when the course
      is met in the main tree and `cid` is already registered. */
  lemma ParseCourseKey(cat: Catalog, cid: Id, inMainTree: bool, st: State)
    ensures var r := ParseCourse(cat, cid, inMainTree, st);
      r.Ok? && r.value.0.Some? ==>
      var c := r.value.0.value;
      && (c.key == Underscored(c.code) + "_alt" <==> inMainTree && cid in st.registry)
      && (c.key == Underscored(c.code) || c.key == Underscored(c.code) + "_alt")
  {
  }

  /** Resolving a course maps `cid` to it in the registry and changes no other entry; the
      queue is untouched and a new `cid` goes to the end of the insertion order. */
  lemma ParseCourseRegistry(cat: Catalog, cid: Id, inMainTree: bool, st: State)
    ensures var r := ParseCourse(cat, cid, inMainTree, st);
      r.Ok? && r.value.0.Some? ==>
      var c := r.value.0.value;
      var st' := r.value.1;
      && cid in st'.registry && st'.registry[cid] == c
      && (forall id :: id != cid ==> (id in st'.registry <==> id in st.registry))
      && (forall id :: id != cid && id in st.registry ==> st'.registry[id] == st.registry[id])
      && st'.order == (if cid in st.registry then st.order else st.order + [cid])
      && st'.queue == st.queue
  {
  }

  /** Resolving a course keeps the representation invariant. */
  lemma ParseCourseValid(cat: Catalog, cid: Id, inMainTree: bool, st: State)
    requires Valid(st)
    ensures var r := ParseCourse(cat, cid, inMainTree, st);
      r.Ok? ==> Valid(r.value.1)
  {
    var r := ParseCourse(cat, cid, inMainTree, st);
    if r.Ok? && r.value.0.Some? {
      var st' := r.value.1;
      assert forall i :: 0 <= i < |st'.order| ==> st'.order[i] in st'.registry;
      assert forall id :: id in st'.registry ==> HandlesIn(st'.registry[id], st'.lists);
    }
  }

  /** The loop over the recommended groups that builds `rprqs`. */
  method CollectRecommended(groups: seq<PrereqGroup>) returns (rprqs: seq<Id>)
    ensures rprqs == Recommended(groups)
  {
    rprqs := [];
    ghost var seen: seq<PrereqItem> := [];
    var g := 0;
    while g < |groups|
      invariant 0 <= g <= |groups|
      invariant seen == Flatten(groups[..g])
      invariant rprqs == CollectNew(seen)
    {
      var items := groups[g].prerequisites;
      ghost var before := seen;
      var j := 0;
      while j < |items|
        invariant 0 <= j <= |items|
        invariant seen == before + items[..j]
        invariant rprqs == CollectNew(seen)
      {
        var pr := items[j];
        assert (seen + [pr])[..|seen|] == seen;
        if pr.kind == "CourseUnit" && pr.courseUnitGroupId !in rprqs {
          rprqs := rprqs + [pr.courseUnitGroupId];
        }
        Seqs.ExtendPrefix(before, items, j);
        seen := seen + [pr];
        j := j + 1;
      }
      assert items[..j] == items;
      FlattenStep(groups, g);
      g := g + 1;
    }
    assert groups[..g] == groups;
  }

  /** The loop over the compulsory groups that builds `cprqs`; the membership test reads
      `rprqs`. */
  method CollectCompulsory(groups: seq<PrereqGroup>, rprqs: seq<Id>) returns (cprqs: seq<Id>)
    ensures cprqs == Compulsory(groups, rprqs)
  {
    cprqs := [];
    ghost var seen: seq<PrereqItem> := [];
    var g := 0;
    while g < |groups|
      invariant 0 <= g <= |groups|
      invariant seen == Flatten(groups[..g])
      invariant cprqs == Without(CourseUnitIds(seen), rprqs)
    {
      var items := groups[g].prerequisites;
      ghost var before := seen;
      var j := 0;
      while j < |items|
        invariant 0 <= j <= |items|
        invariant seen == before + items[..j]
        invariant cprqs == Without(CourseUnitIds(seen), rprqs)
      {
        var pr := items[j];
        CompulsoryItemStep(seen, pr, rprqs);
        if pr.kind == "CourseUnit" && pr.courseUnitGroupId !in rprqs {
          cprqs := cprqs + [pr.courseUnitGroupId];
        }
        Seqs.ExtendPrefix(before, items, j);
        seen := seen + [pr];
        j := j + 1;
      }
      assert items[..j] == items;
      FlattenStep(groups, g);
      g := g + 1;
    }
    assert groups[..g] == groups;
  }

  /** One item of the compulsory loop: a CourseUnit id not in `rprqs` is appended, any
      other item leaves the list as it is. */
  lemma CompulsoryItemStep(seen: seq<PrereqItem>, pr: PrereqItem, rprqs: seq<Id>)
    ensures pr.kind == "CourseUnit" && pr.courseUnitGroupId !in rprqs ==>
      Without(CourseUnitIds(seen + [pr]), rprqs) == Without(CourseUnitIds(seen), rprqs) + [pr.courseUnitGroupId]
    ensures !(pr.kind == "CourseUnit" && pr.courseUnitGroupId !in rprqs) ==>
      Without(CourseUnitIds(seen + [pr]), rprqs) == Without(CourseUnitIds(seen), rprqs)
  {
    var ids := CourseUnitIds(seen);
    CourseUnitIdsStep(seen, pr);
    if pr.kind == "CourseUnit" {
      WithoutStep(ids, pr.courseUnitGroupId, rprqs);
      assert Without(ids, rprqs) + [] == Without(ids, rprqs);
    } else {
      assert ids + [] == ids;
    }
  }

  /** `parse_course` as the script runs it: a loop over the variants that skips the ones
      not valid for the curriculum and builds the course from the first one that is. */
  method ParseCourseMethod(cat: Catalog, cid: Id, inMainTree: bool, st: State)
    returns (r: Result<(Option<Course>, State)>)
    ensures r == ParseCourse(cat, cid, inMainTree, st)
  {
    if cid !in cat.courses {
      return Ok((None, st));
    }
    var cData := cat.courses[cid];
    var i := 0;
    while i < |cData|
      invariant 0 <= i <= |cData|
      invariant forall k :: 0 <= k < i ==> !ValidFor(cData[k].curriculumPeriodIds, cat.curriculum)
    {
      var c := cData[i];
      if !ValidFor(c.curriculumPeriodIds, cat.curriculum) {
        i := i + 1;
        continue;
      }
      assert FirstValid(cData, cat.curriculum) == Some(i);
      var code := c.code;
      var name;
      if "fi" in c.name {
        name := c.name["fi"];
      } else if "en" in c.name {
        name := c.name["en"];
      } else {
        return Err(MissingName);
      }
      var rprqs := CollectRecommended(c.recommended);
      var cprqs := CollectCompulsory(c.compulsory, rprqs);
      var key := Underscored(code);
      if inMainTree && cid in st.registry {
        key := key + "_alt";
      }
      assert key == CourseKey(code, inMainTree && cid in st.registry);
      assert name == DisplayName(c.name);
      var course := Course(code, name, key, |st.lists|, |st.lists| + 1);
      var order := if cid in st.registry then st.order else st.order + [cid];
      return Ok((Some(course), State(st.registry[cid := course], order, st.lists + [rprqs, cprqs], st.queue)));
    }
    return Ok((None, st));
  }
}
