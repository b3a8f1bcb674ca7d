/** Records read from the curriculum API, as the script sees them after JSON decoding.
    Fetching and the on-disk cache are abstracted into a `Catalog`: a map from a group
    identifier to the list of variant records the endpoint returns; an absent identifier
    stands for a failed fetch. */
module SisuData {

  type Id = string

  datatype Option<+T> = None | Some(value: T)

  /** The exceptions that end a run of the script. */
  datatype Error =
    | MissingName      // KeyError on a localized name ('en' of a course without 'fi', 'fi' of a module group or description)
    | UnboundRuleName  // UnboundLocalError: the CourseUnitRule branch reads the name `rule`
    | RecursionDepth   // RecursionError: the interpreter's limit on nested calls

  datatype Result<+T> = Ok(value: T) | Err(error: Error)

  /** A localized text object, language code to text (`{"fi": ..., "en": ...}`). */
  type Localized = map<string, string>

  /** One item of a prerequisite group; only items of type "CourseUnit" become edges. */
  datatype PrereqItem = PrereqItem(kind: string, courseUnitGroupId: Id)

  datatype PrereqGroup = PrereqGroup(prerequisites: seq<PrereqItem>)

  /** One variant of a course unit (one element of the course-unit endpoint's list). */
  datatype CourseVariant = CourseVariant(
    curriculumPeriodIds: seq<string>,
    code: string,
    name: Localized,
    recommended: seq<PrereqGroup>,  // recommendedFormalPrerequisites
    compulsory: seq<PrereqGroup>)   // compulsoryFormalPrerequisites

  /** The `type` tag of a rule with the fields that tag brings along. */
  datatype RuleBody =
    | CreditsRule(rule: Rule)
    | CompositeRule(rules: seq<Rule>)
    | CourseUnitRule
    | OtherRule(kind: string)

  /** A rule object. Inside a composite rule a sub-rule is dispatched on which reference
      field is present, before its `type` is looked at. */
  datatype Rule = Rule(
    body: RuleBody,
    moduleGroupId: Option<Id>,
    courseUnitGroupId: Option<Id>,
    description: Option<Localized>,  // None: key absent or null
    allMandatory: bool)              // false: key absent or false

  /** One variant of a module group (one element of the module-group endpoint's list). */
  datatype GroupVariant = GroupVariant(
    curriculumPeriodIds: seq<string>,
    name: Localized,
    kind: string,
    rule: Rule)

  /** Everything the endpoints would return, plus the curriculum period code of the run. */
  datatype Catalog = Catalog(
    courses: map<Id, seq<CourseVariant>>,
    groups: map<Id, seq<GroupVariant>>,
    curriculum: string)

  /** A variant applies to the curriculum when its period list is empty or names it. */
  predicate ValidFor(periods: seq<string>, curriculum: string) {
    |periods| == 0 || curriculum in periods
  }
}
