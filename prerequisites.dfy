/** Deferred prerequisite cleaning: `queue_validate_and_clean_preprequisites` queues a
    course's prerequisite list by reference while the tree is parsed, and
    `validate_and_clean_queued_preprequisites` later removes from every queued list, in
    place, the ids that `parse_course` cannot resolve. */
module Prerequisites {
  import opened SisuData
  import opened Courses
  import Seqs

  /** `queue_validate_and_clean_preprequisites(reqs)`: the list itself (its handle) is
      appended to the queue; the registry and the lists stay as they are. */
  function Enqueue(st: State, h: Handle): (r: State)
    ensures r.queue == st.queue + [h]
    ensures r.registry == st.registry && r.order == st.order && r.lists == st.lists
  {
    st.(queue := st.queue + [h])
  }

  /** Queueing a list of the table keeps the representation invariant. */
  lemma EnqueueValid(st: State, h: Handle)
    requires Valid(st) && h < |st.lists|
    ensures Valid(Enqueue(st, h))
  {
  }

  /** `parse_course(id, ...)` is not None: the data for `id` is there and one of its
      variants is valid for the curriculum. */
  predicate Resolvable(cat: Catalog, id: Id) {
    id in cat.courses && FirstValid(cat.courses[id], cat.curriculum).Some?
  }

  /** `parse_course` returns a course exactly for a resolvable id whose chosen variant has
      a name, fails exactly for a resolvable id whose chosen variant has none, and answers
      an unresolvable id with None without any change. */
  lemma ParseCourseResolves(cat: Catalog, id: Id, inMainTree: bool, st: State)
    ensures var r := ParseCourse(cat, id, inMainTree, st);
      && (r.Ok? && r.value.0.Some? <==> Resolvable(cat, id) && !Unnamed(cat, id))
      && (r.Err? <==> Resolvable(cat, id) && Unnamed(cat, id))
    ensures !Resolvable(cat, id) ==> ParseCourse(cat, id, inMainTree, st) == Ok((None, st))
  {
  }

  /** The ids of `ids` that resolve, in order: what a queued list holds once cleaned. */
  function Keep(cat: Catalog, ids: seq<Id>): seq<Id> {
    if ids == [] then []
    else
      var x := ids[|ids| - 1];
      Keep(cat, ids[..|ids| - 1]) + (if Resolvable(cat, x) then [x] else [])
  }

  /** The ids of `ids` that do not resolve, in order: the script's `to_rm`. */
  function Dropped(cat: Catalog, ids: seq<Id>): seq<Id> {
    if ids == [] then []
    else
      var x := ids[|ids| - 1];
      Dropped(cat, ids[..|ids| - 1]) + (if Resolvable(cat, x) then [] else [x])
  }

  lemma DroppedStep(cat: Catalog, ids: seq<Id>, x: Id)
    ensures Dropped(cat, ids + [x]) == Dropped(cat, ids) + (if Resolvable(cat, x) then [] else [x])
  {
    assert (ids + [x])[..|ids|] == ids;
  }

  lemma {:induction false} KeepAppend(cat: Catalog, a: seq<Id>, b: seq<Id>)
    ensures Keep(cat, a + b) == Keep(cat, a) + Keep(cat, b)
    ensures Dropped(cat, a + b) == Dropped(cat, a) + Dropped(cat, b)
    decreases |b|
  {
    if b == [] {
      assert a + b == a;
    } else {
      var p := b[..|b| - 1];
      var y := b[|b| - 1];
      KeepAppend(cat, a, p);
      assert a + b == (a + p) + [y];
      assert (a + b)[..|a + b| - 1] == a + p;
    }
  }

  lemma {:induction false} KeepAllResolvable(cat: Catalog, ids: seq<Id>)
    requires forall k :: 0 <= k < |ids| ==> Resolvable(cat, ids[k])
    ensures Keep(cat, ids) == ids && Dropped(cat, ids) == []
  {
    if ids != [] {
      var p := ids[..|ids| - 1];
      KeepAllResolvable(cat, p);
      assert ids == p + [ids[|ids| - 1]];
    }
  }

  lemma {:induction false} KeepMembers(cat: Catalog, ids: seq<Id>)
    ensures forall x :: x in Keep(cat, ids) <==> x in ids && Resolvable(cat, x)
    ensures forall x :: x in Dropped(cat, ids) <==> x in ids && !Resolvable(cat, x)
  {
    if ids != [] {
      var p := ids[..|ids| - 1];
      KeepMembers(cat, p);
      assert ids == p + [ids[|ids| - 1]];
    }
  }

  /** Each id of a list is kept as often as it occurs when it resolves, and is dropped
      every time otherwise. */
  lemma {:induction false} KeepCounts(cat: Catalog, ids: seq<Id>)
    ensures forall x :: multiset(Keep(cat, ids))[x] == if Resolvable(cat, x) then multiset(ids)[x] else 0
    ensures forall x :: multiset(Dropped(cat, ids))[x] == if Resolvable(cat, x) then 0 else multiset(ids)[x]
  {
    if ids != [] {
      var p := ids[..|ids| - 1];
      var y := ids[|ids| - 1];
      KeepCounts(cat, p);
      assert ids == p + [y];
      assert multiset(ids) == multiset(p) + multiset{y};
      if Resolvable(cat, y) {
        assert multiset(Keep(cat, ids)) == multiset(Keep(cat, p)) + multiset{y};
        assert Dropped(cat, ids) == Dropped(cat, p);
      } else {
        assert Keep(cat, ids) == Keep(cat, p);
        assert multiset(Dropped(cat, ids)) == multiset(Dropped(cat, p)) + multiset{y};
      }
    }
  }

  /** The positions of `ids` whose id resolves, in increasing order. */
  function KeptPositions(cat: Catalog, ids: seq<Id>): seq<nat> {
    if ids == [] then []
    else
      KeptPositions(cat, ids[..|ids| - 1]) + (if Resolvable(cat, ids[|ids| - 1]) then [|ids| - 1] else [])
  }

  /** Cleaning is a filter: the cleaned list is `ids` read at exactly the positions whose id
      resolves, in the original order. */
  lemma {:induction false} KeepIsFilter(cat: Catalog, ids: seq<Id>)
    ensures var ps := KeptPositions(cat, ids); var kept := Keep(cat, ids);
      && |ps| == |kept|
      && (forall i, j :: 0 <= i < j < |ps| ==> ps[i] < ps[j])
      && (forall i :: 0 <= i < |ps| ==> ps[i] < |ids| && kept[i] == ids[ps[i]])
      && (forall p :: 0 <= p < |ids| ==> (p in ps <==> Resolvable(cat, ids[p])))
  {
    if ids != [] {
      var p := ids[..|ids| - 1];
      KeepIsFilter(cat, p);
      var ps := KeptPositions(cat, ids);
      var kept := Keep(cat, ids);
      assert forall i :: 0 <= i < |p| ==> ids[i] == p[i];
      forall q | 0 <= q < |ids|
        ensures q in ps <==> Resolvable(cat, ids[q])
      {
        if q < |p| {
          assert q in KeptPositions(cat, p) <==> Resolvable(cat, p[q]);
        }
      }
    }
  }

  /** Cleaning twice is cleaning once. */
  lemma KeepIdempotent(cat: Catalog, ids: seq<Id>)
    ensures Keep(cat, Keep(cat, ids)) == Keep(cat, ids)
  {
    KeepMembers(cat, ids);
    var kept := Keep(cat, ids);
    assert forall k :: 0 <= k < |kept| ==> kept[k] in kept;
    KeepAllResolvable(cat, kept);
  }

  /** A list with something to drop splits around its first unresolvable id `x`: the ids
      before it all resolve, and what is left to drop after `x` is what `b` drops. */
  lemma {:induction false} SplitAtDropped(cat: Catalog, ids: seq<Id>) returns (a: seq<Id>, x: Id, b: seq<Id>)
    requires Dropped(cat, ids) != []
    ensures ids == a + [x] + b
    ensures Keep(cat, a) == a && (forall y :: y in a ==> Resolvable(cat, y)) && !Resolvable(cat, x)
    ensures Dropped(cat, ids) == [x] + Dropped(cat, b)
    decreases |ids|
  {
    var y, t := ids[0], ids[1..];
    assert ids == [y] + t;
    KeepAppend(cat, [y], t);
    KeepSingle(cat, y);
    if !Resolvable(cat, y) {
      a, x, b := [], y, t;
    } else {
      var a', x', b' := SplitAtDropped(cat, t);
      a, x, b := [y] + a', x', b';
      KeepAppend(cat, [y], a');
      Seqs.AppendAssoc([y], a' + [x], b');
      Seqs.AppendAssoc([y], a', [x]);
    }
  }

  lemma KeepSingle(cat: Catalog, y: Id)
    ensures Keep(cat, [y]) == (if Resolvable(cat, y) then [y] else [])
    ensures Dropped(cat, [y]) == (if Resolvable(cat, y) then [] else [y])
  {
    assert [y][..0] == [];
  }

  /** `list.remove(x)` on `ka + b + [x] + c` where `x` occurs neither in `ka` nor in `b`
      removes exactly the `x` after `b`. */
  lemma RemoveFirstOccurrence(ka: seq<Id>, b: seq<Id>, x: Id, c: seq<Id>)
    requires x !in ka && x !in b
    ensures var list := ka + b + [x] + c; var idx := IndexOf(list, x);
      idx == |ka| + |b| && list[..idx] + list[idx + 1..] == ka + b + c
  {
    var list := ka + b + [x] + c;
    var p := |ka| + |b|;
    assert list[p] == x;
    assert forall k :: 0 <= k < p ==> list[k] in ka || list[k] in b;
    assert list[..p] == ka + b;
    assert list[p + 1..] == c;
  }

  /** The registry effect of the first inner loop: `parse_course(rq, curriculum,
      in_main_tree=False)` for every id of the list, in order. */
  function Reparse(cat: Catalog, ids: seq<Id>, st: State): (r: Result<State>)
    ensures r.Ok? ==> ListsExtend(st, r.value) && r.value.queue == st.queue
    decreases |ids|
  {
    if ids == [] then Ok(st)
    else match ParseCourse(cat, ids[0], false, st)
      case Err(e) => Err(e)
      case Ok((_, s)) => Reparse(cat, ids[1..], s)
  }

  /** One iteration of the outer loop: re-parse every id of list `h`, then leave in the list
      exactly its resolvable ids. */
  function CleanList(cat: Catalog, st: State, h: Handle): (r: Result<State>)
    requires h < |st.lists|
    ensures r.Ok? ==> |r.value.lists| >= |st.lists| && r.value.queue == st.queue
    ensures r.Ok? ==> forall k :: 0 <= k < |st.lists| && k != h ==> r.value.lists[k] == st.lists[k]
  {
    match Reparse(cat, st.lists[h], st)
      case Err(e) => Err(e)
      case Ok(s) => Ok(s.(lists := s.lists[h := Keep(cat, st.lists[h])]))
  }

  /** `validate_and_clean_queued_preprequisites`: clean the queued lists in queue order. */
  function Validate(cat: Catalog, st: State, q: seq<Handle>): (r: Result<State>)
    requires forall i :: 0 <= i < |q| ==> q[i] < |st.lists|
    ensures r.Ok? ==> |r.value.lists| >= |st.lists| && r.value.queue == st.queue
    decreases |q|
  {
    if q == [] then Ok(st)
    else match CleanList(cat, st, q[0])
      case Err(e) => Err(e)
      case Ok(s) => Validate(cat, s, q[1..])
  }

  /** The only way validation fails is the KeyError of a nameless course. */
  lemma {:induction false} ValidateError(cat: Catalog, st: State, q: seq<Handle>)
    requires forall i :: 0 <= i < |q| ==> q[i] < |st.lists|
    ensures Validate(cat, st, q).Err? ==> Validate(cat, st, q) == Err(MissingName)
    decreases |q|
  {
    if q != [] {
      ReparseError(cat, st.lists[q[0]], st);
      var c := CleanList(cat, st, q[0]);
      if c.Ok? {
        ValidateError(cat, c.value, q[1..]);
      }
    }
  }

  lemma {:induction false} ReparseError(cat: Catalog, ids: seq<Id>, st: State)
    ensures Reparse(cat, ids, st).Err? ==> Reparse(cat, ids, st) == Err(MissingName)
    decreases |ids|
  {
    if ids != [] {
      var r := ParseCourse(cat, ids[0], false, st);
      if r.Ok? {
        ReparseError(cat, ids[1..], r.value.1);
      }
    }
  }

  /** After validation every queued list holds exactly its resolvable ids, in their
      original order (`Keep`), and every list that was not queued is unchanged. */
  lemma {:induction false} ValidateLists(cat: Catalog, st: State, q: seq<Handle>)
    requires forall i :: 0 <= i < |q| ==> q[i] < |st.lists|
    ensures var r := Validate(cat, st, q);
      r.Ok? ==>
        && (forall i :: 0 <= i < |q| ==> r.value.lists[q[i]] == Keep(cat, st.lists[q[i]]))
        && (forall h :: 0 <= h < |st.lists| && h !in q ==> r.value.lists[h] == st.lists[h])
    decreases |q|
  {
    var r := Validate(cat, st, q);
    if q != [] && r.Ok? {
      var s := CleanList(cat, st, q[0]).value;
      var rest := q[1..];
      ValidateLists(cat, s, rest);
      assert r == Validate(cat, s, rest);
      forall i | 0 <= i < |q|
        ensures r.value.lists[q[i]] == Keep(cat, st.lists[q[i]])
      {
        if q[i] == q[0] {
          if q[0] in rest {
            var j :| 0 <= j < |rest| && rest[j] == q[0];
            assert r.value.lists[rest[j]] == Keep(cat, s.lists[rest[j]]);
            KeepIdempotent(cat, st.lists[q[0]]);
          }
        } else {
          assert rest[i - 1] == q[i];
        }
      }
      forall h | 0 <= h < |st.lists| && h !in q
        ensures r.value.lists[h] == st.lists[h]
      {
        assert h !in rest;
      }
    }
  }

  /** The deferred cleaning promise: once validation succeeds, every id left in a queued
      list resolves, each resolvable id is left as often as it was queued and every
      unresolvable occurrence is gone. */
  lemma DeferredCleaning(cat: Catalog, st: State)
    requires QueueInRange(st)
    ensures var r := Validate(cat, st, st.queue);
      r.Ok? ==> forall i :: 0 <= i < |st.queue| ==>
        var before := st.lists[st.queue[i]];
        var after := r.value.lists[st.queue[i]];
        && (forall x :: x in after ==> Resolvable(cat, x))
        && (forall x :: multiset(after)[x] == if Resolvable(cat, x) then multiset(before)[x] else 0)
  {
    ValidateLists(cat, st, st.queue);
    forall i | 0 <= i < |st.queue|
      ensures var before := st.lists[st.queue[i]];
        && (forall x :: x in Keep(cat, before) ==> Resolvable(cat, x))
        && (forall x :: multiset(Keep(cat, before))[x] == if Resolvable(cat, x) then multiset(before)[x] else 0)
    {
      KeepMembers(cat, st.lists[st.queue[i]]);
      KeepCounts(cat, st.lists[st.queue[i]]);
    }
  }

  /** The key a resolvable course gets when re-parsed outside the main tree: its code with
      dots replaced, without "_alt". */
  function BaseKey(cat: Catalog, id: Id): string
    requires Resolvable(cat, id)
  {
    Text.Underscored(cat.courses[id][FirstValid(cat.courses[id], cat.curriculum).value].code)
  }

  /** Re-parsing a list registers its resolvable ids under their base key and leaves every
      other registry entry as it was. */
  lemma {:induction false} ReparseRegistry(cat: Catalog, ids: seq<Id>, st: State)
    ensures var r := Reparse(cat, ids, st);
      r.Ok? ==>
        && (forall id :: id in ids && Resolvable(cat, id) ==>
              id in r.value.registry && r.value.registry[id].key == BaseKey(cat, id))
        && (forall id :: id !in ids ==>
              (id in r.value.registry <==> id in st.registry)
              && (id in st.registry ==> r.value.registry[id] == st.registry[id]))
    decreases |ids|
  {
    var r := Reparse(cat, ids, st);
    if ids != [] && r.Ok? {
      var p := ParseCourse(cat, ids[0], false, st);
      var s := p.value.1;
      ParseCourseResolves(cat, ids[0], false, st);
      ParseCourseRegistry(cat, ids[0], false, st);
      ReparseRegistry(cat, ids[1..], s);
      assert r == Reparse(cat, ids[1..], s);
      if Resolvable(cat, ids[0]) {
        assert s.registry[ids[0]].key == BaseKey(cat, ids[0]);
      }
      forall id | id in ids && Resolvable(cat, id)
        ensures id in r.value.registry && r.value.registry[id].key == BaseKey(cat, id)
      {
        if id != ids[0] {
          assert id in ids[1..];
        }
      }
    }
  }

  /** Ids that occur in one of the lists `q` names. */
  ghost predicate Queued(st: State, q: seq<Handle>, id: Id)
    requires forall i :: 0 <= i < |q| ==> q[i] < |st.lists|
  {
    exists i :: 0 <= i < |q| && id in st.lists[q[i]]
  }

  /** Validation re-registers every resolvable queued id under its base key (resetting any
      "_alt" key) and leaves the registry entries of ids never queued as they were. */
  lemma {:induction false} ValidateRegistry(cat: Catalog, st: State, q: seq<Handle>)
    requires forall i :: 0 <= i < |q| ==> q[i] < |st.lists|
    ensures var r := Validate(cat, st, q);
      r.Ok? ==>
        && (forall id :: Queued(st, q, id) && Resolvable(cat, id) ==>
              id in r.value.registry && r.value.registry[id].key == BaseKey(cat, id))
        && (forall id :: !Queued(st, q, id) ==>
              (id in r.value.registry <==> id in st.registry)
              && (id in st.registry ==> r.value.registry[id] == st.registry[id]))
    decreases |q|
  {
    var r := Validate(cat, st, q);
    if q != [] && r.Ok? {
      var h := q[0];
      var s0 := Reparse(cat, st.lists[h], st).value;
      var s := CleanList(cat, st, h).value;
      var rest := q[1..];
      ReparseRegistry(cat, st.lists[h], st);
      ValidateRegistry(cat, s, rest);
      assert r == Validate(cat, s, rest);
      KeepMembers(cat, st.lists[h]);
      assert s.registry == s0.registry;
      forall id | Queued(st, q, id) && Resolvable(cat, id)
        ensures id in r.value.registry && r.value.registry[id].key == BaseKey(cat, id)
      {
        var i :| 0 <= i < |q| && id in st.lists[q[i]];
        if i > 0 {
          assert rest[i - 1] == q[i];
          if q[i] == h {
            assert id in s.lists[rest[i - 1]];
          } else {
            assert s.lists[rest[i - 1]] == st.lists[q[i]];
          }
          assert Queued(s, rest, id);
        } else if Queued(s, rest, id) {
        } else {
          assert id in st.lists[h];
        }
      }
      forall id | !Queued(st, q, id)
        ensures (id in r.value.registry <==> id in st.registry)
          && (id in st.registry ==> r.value.registry[id] == st.registry[id])
      {
        assert id !in st.lists[h] by {
          assert q[0] == h;
        }
        forall j | 0 <= j < |rest|
          ensures id !in s.lists[rest[j]]
        {
          assert q[j + 1] == rest[j];
          assert id !in st.lists[q[j + 1]];
        }
      }
    }
  }

  /** Validation keeps the representation invariant. */
  lemma {:induction false} ReparseValid(cat: Catalog, ids: seq<Id>, st: State)
    requires Valid(st)
    ensures Reparse(cat, ids, st).Ok? ==> Valid(Reparse(cat, ids, st).value)
    decreases |ids|
  {
    if ids != [] {
      ParseCourseValid(cat, ids[0], false, st);
      var p := ParseCourse(cat, ids[0], false, st);
      if p.Ok? {
        ReparseValid(cat, ids[1..], p.value.1);
      }
    }
  }

  lemma {:induction false} ValidateValid(cat: Catalog, st: State, q: seq<Handle>)
    requires Valid(st)
    requires forall i :: 0 <= i < |q| ==> q[i] < |st.lists|
    ensures Validate(cat, st, q).Ok? ==> Valid(Validate(cat, st, q).value)
    decreases |q|
  {
    if q != [] {
      ReparseValid(cat, st.lists[q[0]], st);
      var c := CleanList(cat, st, q[0]);
      if c.Ok? {
        ValidateValid(cat, c.value, q[1..]);
      }
    }
  }

  /** The loop step of `RemoveAll`: the list is the cleaned `done` followed by `rest`, and
      `toRm[k]` is the first id of `rest` to drop; removing its first occurrence moves `rest`
      up to and including that occurrence into `done`. */
  lemma RemoveStep(cat: Catalog, done: seq<Id>, rest: seq<Id>, toRm: seq<Id>, k: nat, list: seq<Id>)
      returns (done': seq<Id>, rest': seq<Id>)
    requires k < |toRm|
    requires list == Keep(cat, done) + rest
    requires toRm[k..] == Dropped(cat, rest)
    ensures done' + rest' == done + rest
    ensures IndexOf(list, toRm[k]) < |list|
    ensures list[..IndexOf(list, toRm[k])] + list[IndexOf(list, toRm[k]) + 1..] == Keep(cat, done') + rest'
    ensures toRm[k + 1..] == Dropped(cat, rest')
  {
    var rmid := toRm[k];
    var pending := toRm[k + 1..];
    assert toRm[k..] == [rmid] + pending;
    var a, x, b := SplitAtDropped(cat, rest);
    assert x == ([x] + Dropped(cat, b))[0] == rmid;
    assert pending == ([x] + Dropped(cat, b))[1..] == Dropped(cat, b);
    RemoveAt(cat, done, a, x, b);
    done', rest' := done + a + [x], b;
    Seqs.AppendAssoc(done, a, [x] + b);
    Seqs.AppendAssoc(done + a, [x], b);
    Seqs.AppendAssoc(a, [x], b);
  }

  /** Removing the first occurrence of the unresolvable `x` from the cleaned `done`
      followed by `a + [x] + b`, where `a` is clean, cleans `done + a + [x]`. */
  lemma RemoveAt(cat: Catalog, done: seq<Id>, a: seq<Id>, x: Id, b: seq<Id>)
    requires Keep(cat, a) == a && (forall y :: y in a ==> Resolvable(cat, y)) && !Resolvable(cat, x)
    ensures var list := Keep(cat, done) + (a + [x] + b); var idx := IndexOf(list, x);
      idx < |list| && list[..idx] + list[idx + 1..] == Keep(cat, done + a + [x]) + b
  {
    var ka := Keep(cat, done);
    KeepMembers(cat, done);
    Seqs.AppendAssoc(a, [x], b);
    Seqs.AppendAssoc(ka, a, [x] + b);
    Seqs.AppendAssoc(ka + a, [x], b);
    RemoveFirstOccurrence(ka, a, x, b);
    KeepThrough(cat, done, a, x);
  }

  lemma KeepThrough(cat: Catalog, done: seq<Id>, a: seq<Id>, x: Id)
    requires Keep(cat, a) == a && !Resolvable(cat, x)
    ensures Keep(cat, done + a + [x]) == Keep(cat, done) + a
  {
    KeepAppend(cat, done + a, [x]);
    KeepAppend(cat, done, a);
    KeepSingle(cat, x);
  }

  /** Once nothing is left to drop in `rest`, the list is the cleaned original. */
  lemma RemoveDone(cat: Catalog, done: seq<Id>, rest: seq<Id>)
    requires Dropped(cat, rest) == []
    ensures Keep(cat, done) + rest == Keep(cat, done + rest)
  {
    KeepMembers(cat, rest);
    assert forall t :: 0 <= t < |rest| ==> rest[t] in rest;
    KeepAllResolvable(cat, rest);
    KeepAppend(cat, done, rest);
  }

  /** The first inner loop: `parse_course(rq, curriculum, in_main_tree=False)` for every
      id of `reqs`, collecting in `to_rm` the ids it answers with None. */
  method ReparseAndCollect(cat: Catalog, reqs: seq<Id>, st: State) returns (r: Result<(seq<Id>, State)>)
    ensures Reparse(cat, reqs, st).Err? ==> r == Err(Reparse(cat, reqs, st).error)
    ensures Reparse(cat, reqs, st).Ok? ==> r == Ok((Dropped(cat, reqs), Reparse(cat, reqs, st).value))
  {
    var cur := st;
    var toRm: seq<Id> := [];
    var j := 0;
    while j < |reqs|
      invariant 0 <= j <= |reqs|
      invariant toRm == Dropped(cat, reqs[..j])
      invariant Reparse(cat, reqs[j..], cur) == Reparse(cat, reqs, st)
    {
      var rq := reqs[j];
      var res := ParseCourseMethod(cat, rq, false, cur);
      ParseCourseResolves(cat, rq, false, cur);
      DroppedStep(cat, reqs[..j], rq);
      assert reqs[..j + 1] == reqs[..j] + [rq];
      assert reqs[j..][0] == rq && reqs[j..][1..] == reqs[j + 1..];
      match res {
        case Err(e) =>
          return Err(e);
        case Ok((c, s)) =>
          if c.None? {
            toRm := toRm + [rq];
          }
          cur := s;
      }
      j := j + 1;
    }
    assert reqs[..j] == reqs;
    return Ok((toRm, cur));
  }

  /** The second inner loop: `reqs.remove(rmid)` for every id of `to_rm`, each removing the
      first occurrence still in the list. */
  method RemoveAll(cat: Catalog, reqs: seq<Id>, toRm: seq<Id>) returns (list: seq<Id>)
    requires toRm == Dropped(cat, reqs)
    ensures list == Keep(cat, reqs)
  {
    list := reqs;
    ghost var done: seq<Id> := [];
    ghost var rest := reqs;
    var k := 0;
    while k < |toRm|
      invariant 0 <= k <= |toRm|
      invariant done + rest == reqs
      invariant list == Keep(cat, done) + rest
      invariant toRm[k..] == Dropped(cat, rest)
    {
      var rmid := toRm[k];
      done, rest := RemoveStep(cat, done, rest, toRm, k, list);
      var idx := IndexOf(list, rmid);
      list := list[..idx] + list[idx + 1..];
      k := k + 1;
    }
    RemoveDone(cat, done, rest);
  }

  /** `validate_and_clean_queued_preprequisites` as the script runs it: for each queued
      list, re-parse its ids and collect the unresolvable ones, then remove those from the
      list itself, so that every holder of the list sees it cleaned. */
  method ValidateAndClean(cat: Catalog, st: State) returns (r: Result<State>)
    requires QueueInRange(st)
    ensures r == Validate(cat, st, st.queue)
  {
    var cur := st;
    var i := 0;
    while i < |st.queue|
      invariant 0 <= i <= |st.queue|
      invariant cur.queue == st.queue && QueueInRange(cur)
      invariant Validate(cat, cur, st.queue[i..]) == Validate(cat, st, st.queue)
    {
      var h := st.queue[i];
      assert st.queue[i..][0] == h && st.queue[i..][1..] == st.queue[i + 1..];
      var reqs := cur.lists[h];
      var res := ReparseAndCollect(cat, reqs, cur);
      match res {
        case Err(e) =>
          return Err(e);
        case Ok((toRm, s)) =>
          var list := RemoveAll(cat, reqs, toRm);
          assert CleanList(cat, cur, h) == Ok(s.(lists := s.lists[h := list]));
          cur := s.(lists := s.lists[h := list]);
      }
      i := i + 1;
    }
    return Ok(cur);
  }
}
