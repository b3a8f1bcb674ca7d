# sisu2gv in Dafny

`sisu2gv.py` reads the structure of a degree programme from the Sisu study-information
system and writes a Graphviz file for it. Modules become nested clusters and courses become
nodes. Course prerequisites become edges: compulsory ones are plain, recommended ones are
dashed and manually supplied ones are dotted.

This project models the part of the script between fetching and writing:

- `sisu_data.dfy` (module `SisuData`): the records the script reads. These are course
  variants, module-group variants and the tagged rule tree (`CreditsRule`,
  `CompositeRule`, `CourseUnitRule`, other kinds). The HTTP endpoints and the cache become
  one `Catalog`: a map from an id to its list of variants, where a missing id stands for a
  failed fetch. Three exceptions the script can raise on well-formed records become `Err`:
  a course or group variant without the localized name it reads, or a non-empty rule
  description without a Finnish text (`MissingName`), the
  unbound name `rule` in the `CourseUnitRule` branch (`UnboundRuleName`), and nesting
  deeper than the recursion bound (`RecursionDepth`).
- `text.dfy` (module `Text`): `str.replace(".", "_")` and `str.strip` with its
  character-set semantics.
- `courses.dfy` (module `Courses`): `parse_course`. The global registry `cid2c`, its
  insertion order, the prerequisite lists and the queue `queued_prerequisites` form one
  `State` value, threaded through the parsers. Lists are held in a table and referred to
  by `Handle`. A course and the queue therefore share a list, as the script's dict and
  queue share one Python list. It has a specification function and a loop method proved
  equal to it.
- `prerequisites.dfy` (module `Prerequisites`): the queue and
  `validate_and_clean_queued_preprequisites`. Each queued list is re-resolved, and its
  unresolvable ids are then removed one `list.remove` at a time.
- `rules.dfy` (module `Rules`): `parse_rules` and `parse_module_group` as recursive
  descent over the catalog. A `fuel` bound stands for the interpreter's recursion limit,
  since module groups refer to each other through the data and may cycle.
- `compress.dfy` (module `Compression`): `compress` in place on an array.
- `emit.dfy` (module `Emission`): the closures `write_course`, `write_cluster` and
  `write_prerequisites`. They are methods of class `Emitter`, whose fields are the shared
  variables `sgidx`, `indent`, `in_clusters`, `all_com_prqs`, `all_rec_prqs` and the lines
  written so far. Each method is proved against an effect function. Lemmas over those
  functions cover cluster numbering, blacklisting, which edges are drawn and which courses
  are loose.
- `pipeline.dfy` (module `Pipeline`): the body of `draw_graph_for_degree_programme`. It
  parses the top-level groups, then validates, then compresses, then draws.
- `seqs.dfy` (module `Seqs`): associativity of sequence concatenation, stated once for
  the proofs of the other modules.

## Model

| member | source | states |
|---|---|---|
| Courses.FirstValid | sisu2gv.py:79-83 | the chosen variant is valid for the curriculum (empty periods or containing it) and every earlier variant is not; None only when no variant is valid |
| Courses.CourseUnitIdsMembers | sisu2gv.py:92-96 | an id is collected exactly when some item of some group has type "CourseUnit" and that id |
| Courses.DedupMembers | sisu2gv.py:97-98 | the `not in rprqs` check keeps every id and leaves no duplicate |
| Courses.DedupFirstOccurrenceOrder | sisu2gv.py:97-98 | of two kept ids, the one that occurs first in the input comes first |
| Courses.WithoutCounts | sisu2gv.py:106-107 | the compulsory list keeps each id not in `rprqs` as often as it occurs, and no other id |
| Courses.CollectNewIsDedup | sisu2gv.py:91-98 | appending ids not yet present equals deduplicating the CourseUnit ids |
| Courses.RecommendedProperties | sisu2gv.py:91-98 | `rec_prqs` is exactly the CourseUnit ids of the recommended groups, once each, in first-occurrence order |
| Courses.CompulsoryProperties | sisu2gv.py:100-107 | `com_prqs` is exactly the CourseUnit ids of the compulsory groups not in `rprqs`, each with its multiplicity |
| Courses.CompulsoryMayRepeat | sisu2gv.py:106 | a compulsory id that occurs twice is kept twice, because the check reads `rprqs` |
| Courses.IndexOf | sisu2gv.py:97 | the first position of an id, or the length of the list when the id is absent |
| Courses.ParseCourse | sisu2gv.py:61-118 | None exactly when the catalog lacks the id or no variant is valid, and then the state is unchanged; an error exactly when the first valid variant has neither a Finnish nor an English name; existing lists and the queue are unchanged |
| Courses.ParseCourseBuildsFromFirstValid | sisu2gv.py:79-109 | a resolved course takes its code, its Finnish-else-English name and two new lists, holding its recommended and compulsory ids, from the first valid variant |
| Courses.ParseCourseKey | sisu2gv.py:111-115 | the key is the code with dots replaced, plus "_alt" exactly when `in_main_tree` holds and the id was already registered |
| Courses.ParseCourseRegistry | sisu2gv.py:116-117 | afterwards `cid2c[cid]` is the returned course and no other entry changes; a new id goes to the end of the insertion order, and the queue is untouched |
| Courses.ParseCourseValid | sisu2gv.py:116 | resolving a course keeps the registry, its order and all handles consistent |
| Courses.CollectRecommended | sisu2gv.py:91-98 | the nested loop builds exactly the recommended list |
| Courses.CollectCompulsory | sisu2gv.py:100-107 | the nested loop builds exactly the compulsory list |
| Courses.ParseCourseMethod | sisu2gv.py:61-118 | the loop over variants returns exactly what `ParseCourse` specifies |
| Text.Underscored | sisu2gv.py:111 | same length, no dot left, every dot replaced by an underscore and every other character kept |
| Text.UnderscoredIdempotent | sisu2gv.py:242 | normalising an already normalised code changes nothing |
| Text.Strip | sisu2gv.py:178 | the result is the middle slice left once the leading and trailing characters of the set are gone; a non-empty result neither starts nor ends with one |
| Prerequisites.Enqueue | sisu2gv.py:47-49 | the queue gains the handle at its end and nothing else changes |
| Prerequisites.EnqueueValid | sisu2gv.py:47-49 | enqueuing a handle of the table keeps the state consistent |
| Prerequisites.ParseCourseResolves | sisu2gv.py:55 | re-parsing an id gives a course exactly when the id is resolvable and its chosen variant has a name, fails exactly when it is resolvable without a name, and changes nothing when it is not resolvable |
| Prerequisites.KeepMembers | sisu2gv.py:53-59 | an id survives cleaning exactly when it is in the list and resolvable; the removed ids are exactly the unresolvable ones |
| Prerequisites.KeepCounts | sisu2gv.py:53-59 | a resolvable id keeps all its occurrences and an unresolvable one loses all of them |
| Prerequisites.KeepIsFilter | sisu2gv.py:53-59 | the surviving ids are the resolvable positions of the list, in their original order |
| Prerequisites.KeepIdempotent | sisu2gv.py:51-59 | cleaning a cleaned list changes nothing |
| Prerequisites.Validate | sisu2gv.py:51-59 | validation adds lists only and leaves the queue as it was |
| Prerequisites.ValidateError | sisu2gv.py:55 | validation fails only with a missing name |
| Prerequisites.ValidateLists | sisu2gv.py:51-59 | every queued list becomes its cleaned version, through its handle, and every other list is unchanged |
| Prerequisites.DeferredCleaning | sisu2gv.py:51-59 | after validation every id left in a queued list resolves, and each id is kept as often as queued when resolvable, else not at all |
| Prerequisites.ReparseRegistry | sisu2gv.py:54-56 | re-parsing registers every resolvable id under its base key and changes no other entry |
| Prerequisites.ValidateRegistry | sisu2gv.py:51-59 | validation re-registers every queued resolvable id under its base key, which resets "_alt", and leaves the entries of unqueued ids alone |
| Prerequisites.ValidateValid | sisu2gv.py:51-59 | validation keeps the state consistent |
| Prerequisites.RemoveAll | sisu2gv.py:58-59 | removing the first occurrence of each collected id, in order, leaves exactly the cleaned list |
| Prerequisites.SplitAtDropped | sisu2gv.py:55-59 | a list with an unresolvable id splits around the first one: the ids before it all resolve, and the ids to drop are that one followed by those after it |
| Prerequisites.RemoveStep | sisu2gv.py:58-59 | one `reqs.remove(rmid)` removes the occurrence of `rmid` that is the next id to drop, so the list is the cleaned prefix followed by the untouched rest |
| Prerequisites.ReparseAndCollect | sisu2gv.py:52-57 | the loop re-parses every id and collects exactly the unresolvable ones, in list order |
| Prerequisites.ValidateAndClean | sisu2gv.py:51-59 | the nested loops compute exactly `Validate` over the whole queue |
| Rules.GroupingName | sisu2gv.py:175-180 | an error exactly when a description exists without "fi"; the name does not start or end with a character of `</p>`; without a description it is "Pakolliset" or "" depending on `allMandatory` |
| Rules.GroupingNameCharacterSet | sisu2gv.py:178 | "Group" turns into "Grou", since `strip` removes characters and not a suffix |
| Rules.ParseRules | sisu2gv.py:153-199 | a result list is non-empty and holds no empty module; None leaves the state unchanged |
| Rules.ParseComposite | sisu2gv.py:159-188 | at most one child per sub-rule, none of them empty; no child means no state change |
| Rules.ParseSubRule | sisu2gv.py:162-185 | a module reference gives a module, a course reference gives a leaf, any other rule gives a "grouping" module |
| Rules.ParseSubRuleNode | sisu2gv.py:162-185 | a module reference gives exactly the module group's result; a course reference gives a leaf of exactly the course `parse_course` resolves in the main tree, with its two lists queued, and fails exactly when that does; any other rule gives a "grouping" module named by `GroupingName` with exactly the children of the rule and its state, and fails exactly when the name or the rule does |
| Rules.ParseModuleGroup | sisu2gv.py:146-151 | a result is a non-empty module; None leaves the state unchanged |
| Rules.ParseModuleGroupFirst | sisu2gv.py:120-151 | exhausted nesting fails, a group with no data gives None and the same state, and otherwise the result is the first-valid-variant choice of `ParseVariantsFirst` |
| Rules.ParseVariants | sisu2gv.py:146-151 | a result is a non-empty module; None leaves the state unchanged |
| Rules.ParseVariantsFirst | sisu2gv.py:137-151 | the module is built from the first variant valid for the curriculum whose rule yields children, with its Finnish name, its type and exactly those children and state, every earlier valid variant having a Finnish name and yielding none; None exactly when every variant is skipped that way; an error exactly when the loop reaches a valid variant without a Finnish name or whose rule fails |
| Rules.ParseCompositeAppend | sisu2gv.py:160-188 | the children of `a + b` are those of `a` followed by those of `b`, so they follow rule order |
| Rules.ParseCompositeSingle | sisu2gv.py:161-185 | one sub-rule contributes exactly the node it yields |
| Rules.CourseUnitRuleFails | sisu2gv.py:189-190 | a `CourseUnitRule` fails on the unbound name `rule` |
| Rules.ParseRulesQueues | sisu2gv.py:153-199 | parsing keeps the state consistent, only adds lists, only appends to the queue, and queues both lists of every course in the result |
| Rules.ParseModuleGroupQueues | sisu2gv.py:120-151 | the same for a module group |
| Rules.ParseSubRuleQueues | sisu2gv.py:167-173 | the same for one sub-rule; a course leaf has both its lists queued |
| Compression.CompressOne | sisu2gv.py:206-210 | an element is kept, or else it is a module with one module child and is replaced by that child |
| Compression.CompressedElements | sisu2gv.py:201-213 | compression keeps the length and replaces exactly the collapsing elements by their only child |
| Compression.Compress | sisu2gv.py:201-213 | the two loops on the array leave exactly the compressed hierarchy |
| Compression.CompressKeepsLeaves | sisu2gv.py:201-213 | the courses of the hierarchy, in order, are unchanged |
| Compression.CompressNoEmpty | sisu2gv.py:201-213 | compression creates no empty module |
| Compression.CompressNotIdempotent | sisu2gv.py:201-213 | a module with a sole module child that also has a sole module child collapses again on a second pass |
| Compression.CompressTwice | sisu2gv.py:201-213 | a second pass changes nothing exactly when no element collapses into a module that collapses too |
| Emission.CourseEdgesMembers | sisu2gv.py:303-312 | `write_course` adds an edge `(cid2c[pr].key, key)` exactly for the registered prerequisites, and no more edges than ids |
| Emission.CourseEdgesIsFilter | sisu2gv.py:303-312 | the edges correspond one to one, in order, to the positions of the prerequisite list whose id is registered, each edge running from that course's key to `key` |
| Emission.VisibleMembers | sisu2gv.py:336-337 | exactly the edges with neither end blacklisted are drawn, each as often as collected |
| Emission.VisibleAppend | sisu2gv.py:336-342 | the drawn edges keep their input order |
| Emission.NormaliseBlacklist | sisu2gv.py:241-242 | the blacklist entries have their dots replaced, entry by entry |
| Emission.BlacklistByCode | sisu2gv.py:241-242 | a course blacklisted by its dotted code is blacklisted under its base key, the one without "_alt" |
| Emission.ClusterEffect | sisu2gv.py:314-333 | `indent` is back at its entry value after a cluster |
| Emission.ClusterNumbering | sisu2gv.py:318-319 | a cluster opens clusters numbered consecutively from `sgidx`, in pre-order, and raises `sgidx` |
| Emission.ForestNumbering | sisu2gv.py:345-346 | the hierarchy opens clusters numbered consecutively |
| Emission.RangeIncreasing | sisu2gv.py:319 | the cluster numbers strictly increase |
| Emission.ClusterClean | sisu2gv.py:314-333 | a cluster draws no edge and no blacklisted course |
| Emission.ClusterCourses | sisu2gv.py:323-330 | `in_clusters` gains the keys of the non-blacklisted courses of the cluster, in pre-order, and the edge lists gain exactly their edges |
| Emission.ForestCourses | sisu2gv.py:345-346 | the same for the whole hierarchy |
| Emission.LooseCoursesMembers | sisu2gv.py:362-377 | a course is loose exactly when it is registered, its code is not among the cluster keys, its key is not blacklisted and its key is an edge source |
| Emission.DottedCodeDrawnAgain | sisu2gv.py:371 | a course with a dotted code, drawn in a cluster, is drawn again as a loose course, because its code is compared with keys |
| Emission.AltKeyEscapesBlacklist | sisu2gv.py:241-327 | a course keyed with "_alt", because it was met a second time in the main tree, is drawn although its code is blacklisted, since the blacklist is compared with keys |
| Emission.TargetOnlyNotLoose | sisu2gv.py:350 | a course that is only an edge target is not loose, because only sources are active |
| Emission.GraphLayout | sisu2gv.py:277-383 | the file is the clusters, then the compulsory, recommended and manual edges, then the source rank of the loose courses, their nodes and the closing brace |
| Emission.GraphClusterNumbers | sisu2gv.py:280-346 | the clusters of the file are numbered 1, 2, ... with no gap |
| Emission.GraphRespectsBlacklist | sisu2gv.py:241-377 | no node, edge or source-rank entry of the file names a key of the dot-replaced blacklist |
| Emission.GraphEdges | sisu2gv.py:345-360 | the drawn edges are those of the non-blacklisted cluster courses, then the manual ones, minus any touching the blacklist; edges collected for loose courses are never drawn |
| Emission.GraphInClusters | sisu2gv.py:323-330 | `in_clusters` holds the keys of the non-blacklisted courses of the hierarchy, in pre-order |
| Emission.Emitter.constructor | sisu2gv.py:277-285 | the header is written, `sgidx` is 1, `indent` is 0 and the lists are empty |
| Emission.Emitter.WriteCourse | sisu2gv.py:287-312 | it writes the node and appends the compulsory and then the recommended edges |
| Emission.Emitter.WriteCluster | sisu2gv.py:314-333 | the recursive method produces exactly the cluster's effect |
| Emission.Emitter.WriteChild | sisu2gv.py:323-330 | handling one child of the cluster extends the effect of the children before it by that child: a nested cluster, nothing for a blacklisted course, else the course written and its key recorded as in a cluster |
| Emission.Emitter.WritePrerequisites | sisu2gv.py:335-342 | it writes one edge line per visible edge, in order, with the style, and changes nothing else |
| Emission.Emitter.WriteClusters | sisu2gv.py:345-346 | one cluster per module of the hierarchy, in order |
| Emission.Emitter.WriteSourceRank | sisu2gv.py:362-378 | it returns the loose courses in registry order and writes the rank block with their keys |
| Emission.Emitter.WriteCourses | sisu2gv.py:380-381 | one node per loose course, in order |
| Emission.CollectManual | sisu2gv.py:356-358 | the manual edges are the items of every dict, dict by dict |
| Emission.DrawGraph | sisu2gv.py:276-383 | the lines written are exactly those `Graph` specifies |
| Pipeline.Hierarchy | sisu2gv.py:255-262 | the hierarchy holds only modules, none empty, at most one per top-level group |
| Pipeline.HierarchyQueues | sisu2gv.py:258-262 | parsing the hierarchy keeps the state consistent and queues both lists of every course in it |
| Pipeline.ParseHierarchy | sisu2gv.py:255-262 | the loop computes exactly the specified hierarchy, with the first error ending it |
| Pipeline.CompressAllModules | sisu2gv.py:268 | compression keeps every element of the hierarchy a module |
| Pipeline.Parsed | sisu2gv.py:255-268 | after parsing, validation and compression the hierarchy holds only modules and the state is consistent |
| Pipeline.DrawGraphForDegreeProgramme | sisu2gv.py:255-383 | parse, validate, compress and draw produce exactly the specified file, or the first error |
| Pipeline.DrawnCoursesCleaned | sisu2gv.py:51-59 | every prerequisite id left in a list of a course of the hierarchy resolves and is registered, so `write_course` draws an edge for each |

## Left out

- HTTP requests, status-code handling and the disk cache (`get_cached`, `store_to_cache`) are replaced by the `Catalog` map, where a missing id is a failed fetch. The fetch of the degree programme itself, with its `None` return, is not modelled: the top-level module-group ids are a parameter.
- The record fields the script reads (`curriculumPeriodIds`, `code`, `type`, `rules`, and so on) are assumed present. Only the missing localized names the code evidently risks are modelled, as `MissingName`.
- Command-line parsing, logging, the `pprint` debug dump and loading the extra-data file are not modelled. Without `-b` the command line passes `None` as the blacklist, which would fail at `in blacklist`; the model always takes a list.
- `course_icons` lookups and the `KeyError` that an extra-data dict without `manual_prerequisites` would raise are not modelled. Manual prerequisites are a list of edge lists, where an empty list means none are given.
- `textwrap.fill`, the HTML table label and the icon text are not modelled. A node line keeps the raw key, code and name.
- Writing the file is modelled as appending `Line` records; indentation is kept as a number.
- Python's recursion limit is modelled by `fuel`, where each nested `parse_rules` or `parse_module_group` call uses one unit and running out gives `RecursionDepth`. The exact depth at which the interpreter fails is not modelled.
- Rules.ParseModuleGroup, Rules.ParseVariants: their own contracts state only the shape of a result and that None changes nothing; which variant is chosen, with which children, and when the loop fails are stated by `Rules.ParseModuleGroupFirst` and `Rules.ParseVariantsFirst`.
- Rules.ParseSubRule: its own contract states only the kind of node; the node itself is stated by `Rules.ParseSubRuleNode`.
- Compression.Compress: the second loop writes each replacement at the position where it was found. The script instead looks it up with `hierarchy.index(this)`, the first element equal to it. The two differ when an earlier replacement made an element equal to a later collapsing one (for example `[A, B]` where `A`'s only child equals `B` and `B` collapses). The positional reading is modelled.
- Emission.ListAt: a handle outside the table denotes the empty list. Every handle the parsers produce lies in the table (`Courses.Valid`), so this default is never used on parsed data.
- Compression is not idempotent. One pass replaces a module whose only child is a module by that child, without looking again at the replacement; when that child itself has a single module child, a second pass collapses it too (`Compression.CompressNotIdempotent`, and `Compression.CompressTwice` for exactly when a second pass changes something).
- Validation re-parses every id of every queued prerequisite list with `in_main_tree=False` (`Prerequisites.ReparseAndCollect`). This can add courses that occur only as prerequisites to the registry, and then they can be drawn as loose; the model keeps that behaviour.
- The blacklist holds codes, but it is compared with keys after replacing dots. A course whose key gained "_alt" is therefore not kept out by its code, and its node and edges are drawn; the model keeps that behaviour (`Emission.AltKeyEscapesBlacklist`).
- The edges `write_course` collects while drawing loose courses are never written, since the edge section comes earlier; `Emission.GraphEdges` states this.
