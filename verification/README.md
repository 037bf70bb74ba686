# bjond-utilities in Dafny

This project models the core of the Bjond utilities library (Java) and proves
properties of the model. The core has two parts and a set of small helpers.

- **The Bjond property filter.** It is a Jackson bean-property filter. Its action is
  INCLUDE or EXCLUDE and it has a set of active flags. For every bean property it decides,
  from the property's `@BjondFilter(flags = ...)` annotation, whether the property is
  written (`PropertyFilter`, in `property_filter.dfy`).
- **The schema title pass.** Jackson builds the JSON Schema of a class. A custom schema
  wrapper then copies `@JsonTitle` annotations onto it. The class-level title becomes the
  root title. Each property of an object schema takes the title of the same-named field
  declared on the wrapper's original class (`SchemaTitles`, in `schema_titles.dfy`).
- **Helpers** whose behaviour can be stated precisely:
  - set difference (`PersonUtils`);
  - Cartesian product, case-insensitive enum lookup, the runtime-mode check, getter names,
    quoting, and the bean property helpers, with a bean seen as a map from property name
    to a possibly-null value (`MiscUtils`);
  - (value, unit) pairs to periods, the unit range table, and time-range predicates
    (`JodaTimeUtils`);
  - null-safe date comparisons (`DateTimeUtils`).

Java exceptions are modelled as the `Failure` side of a `Result`. Where an operation
accepts a null argument or returns null, Java `null` is `None`. Other null
arguments are outside the model; "## Left out" lists them, including the null endpoints
that Joda reads as the current time. Instants are integers (milliseconds). The current time and the calendar
subtraction of a period are parameters. A Java `Set` handed to `takeDifference` is
modelled by its iteration order: a sequence without repetitions.

The model follows the code, including where it does less than one might expect:
- The filtered writer of `BjondPropertyFilter.toJSON` uses a plain `ObjectMapper`, so
  null values are not suppressed by it. Null omission belongs to the other mappers of the
  library, which are not part of this model.
- The title pass has no guard against cyclic types, and none is modelled.
- Schema titles are not applied to every node of the tree. `finalSchema` titles only the
  direct properties of an object schema. It always uses the fields declared on the
  wrapper's original class, and nested wrappers inherit that class from the factory.
- `toPeriod` reads each pair as (value, unit), as its code and its documentation example
  do. Its error message says "first unit, second value", which does not match the code.

## Model

| member | source | states |
|---|---|---|
| PropertyFilter.PassThrough | src/main/java/com/bjond/json/BjondPropertyFilter.java:30-37 | the no-argument filter writes every property, whatever its annotation and whether or not the generator can omit fields |
| PropertyFilter.MakeFilter | src/main/java/com/bjond/json/BjondPropertyFilter.java:39-42 | the filter keeps the given action, and its active flags are exactly the flags passed, as a set |
| PropertyFilter.HandleExclude | src/main/java/com/bjond/json/BjondPropertyFilter.java:59-77 | never writes an omitted field; an unannotated property is written; an annotated one is skipped iff one of its flags is active |
| PropertyFilter.HandleInclude | src/main/java/com/bjond/json/BjondPropertyFilter.java:79-96 | never writes an omitted field; an unannotated property is skipped; an annotated one is written iff one of its flags is active |
| PropertyFilter.IncludesWriter | src/main/java/com/bjond/json/BjondPropertyFilter.java:98-106 | every property writer is accepted, so the omitted-field branch of both handlers is dead |
| PropertyFilter.SerializeAsField | src/main/java/com/bjond/json/BjondPropertyFilter.java:44-106 | the "serialize as omitted field" path is never taken; EXCLUDE writes an unannotated property and skips an annotated one iff one of its flags is active; INCLUDE skips an unannotated property and writes an annotated one iff one of its flags is active |
| PropertyFilter.SerializeAsFieldIsDecide | src/main/java/com/bjond/json/BjondPropertyFilter.java:59-96 | the filter agrees with the blacklist/whitelist policy over tag sets, in which a missing annotation means no tags |
| PropertyFilter.IncludeWithoutFlagsSkipsAll | src/main/java/com/bjond/json/BjondPropertyFilter.java:79-96 | an INCLUDE filter with no active flags skips every property |
| PropertyFilter.ActionsOppositeOnOverlap | src/main/java/com/bjond/json/BjondPropertyFilter.java:59-96 | when an annotated property's flags meet the active set, EXCLUDE skips it and INCLUDE writes it |
| PropertyFilter.EmptyAnnotationIsNoAnnotation | src/main/java/com/bjond/json/BjondPropertyFilter.java:67-95 | an annotation with no flags is decided like no annotation, under both actions |
| PropertyFilter.DecisionDependsOnlyOnFlagSets | src/main/java/com/bjond/json/BjondPropertyFilter.java:39-96 | the decision depends only on the filter flags and annotation flags as sets (not on order or repetition), and not on whether the generator can omit fields |
| PropertyFilter.WrittenProperties | src/main/java/com/bjond/json/BjondPropertyFilter.java:44-57 | a bean's written properties are exactly the properties the filter decides to write, with no others |
| PropertyFilter.WrittenPropertiesInOrder | src/main/java/com/bjond/json/BjondPropertyFilter.java:44-57 | the written names are the names of the writers the filter decides to write, kept in the order the writers are visited |
| PropertyFilter.PassThroughWritesAll | src/main/java/com/bjond/json/BjondPropertyFilter.java:30-37 | the pass-through filter writes every property of a bean, in order |
| PropertyFilter.IncludeWithoutFlagsWritesNothing | src/main/java/com/bjond/json/BjondPropertyFilter.java:79-96 | an INCLUDE filter with no active flags writes no property of any bean |
| PropertyFilter.ConfigureWriter | src/main/java/com/bjond/json/BjondPropertyFilter.java:108-120 | the writer registers a filter built from the given action and flags under the name "Bjond"; it orders map entries by key iff it is not pretty-printing |
| PropertyFilter.PrettyWriterLosesKeyOrder | src/main/java/com/bjond/json/BjondPropertyFilter.java:115-118 | as written, the compact writer orders map entries by key and the pretty writer does not |
| PropertyFilter.ConfigureWriterKeepingOrder | src/main/java/com/bjond/json/BjondPropertyFilter.java:112-120 | corrected writer: map entries are ordered by key in both output forms, and the compact case equals the original writer |
| SchemaTitles.DefaultWrapper | src/main/java/com/bjond/persistence/json/schema/CustomBjondWrapper.java:77-79 | the no-argument wrapper and its factory have no original class |
| SchemaTitles.DefaultWrapperFailsOnProperties | src/main/java/com/bjond/persistence/json/schema/CustomBjondWrapper.java:122-142 | with the no-argument wrapper, an object schema without properties passes unchanged and one with properties fails on the missing class |
| SchemaTitles.WrapperFor | src/main/java/com/bjond/persistence/json/schema/CustomBjondWrapper.java:81-84 | the wrapper and its factory both remember the given class |
| SchemaTitles.GetWrapper | src/main/java/com/bjond/persistence/json/schema/CustomBjondWrapper.java:57-74 | a wrapper made by the factory has the factory's original class and an equal factory |
| SchemaTitles.NestedWrappersKeepOriginalClass | src/main/java/com/bjond/persistence/json/schema/CustomBjondWrapper.java:52-74 | a wrapper reached through any number of nested visits has the root wrapper's original class |
| SchemaTitles.AddTitle | src/main/java/com/bjond/persistence/json/schema/CustomBjondWrapper.java:107-113 | a simple schema gets the title and keeps its kind; a non-simple schema is an error naming it |
| SchemaTitles.ExpectObjectFormat | src/main/java/com/bjond/persistence/json/schema/CustomBjondWrapper.java:90-99 | the visited class's object schema has a title iff the class carries `@JsonTitle`, and then it is that title |
| SchemaTitles.TitleFromFields | src/main/java/com/bjond/persistence/json/schema/CustomBjondWrapper.java:127-138 | the property's schema fails to be titled iff a same-named field has a title and the schema is not simple; otherwise it carries that title, or is unchanged when no same-named field has a title |
| SchemaTitles.TitleProperties | src/main/java/com/bjond/persistence/json/schema/CustomBjondWrapper.java:124-139 | property names and order are kept and each property is retitled as above; a null original class fails iff there is a property; otherwise the pass fails iff some property to be titled has a non-simple schema |
| SchemaTitles.FinalSchema | src/main/java/com/bjond/persistence/json/schema/CustomBjondWrapper.java:122-142 | a schema that is not an object schema is returned unchanged; an object schema keeps its own title and exactly its property names, in order |
| SchemaTitles.JsonSchema | src/main/java/com/bjond/utilities/JSONUtils.java:173-182 | the generated schema is an object schema whose root title is the class's `@JsonTitle`; generation fails iff a titled property has a non-simple schema |
| SchemaTitles.TitleForDeclaredField | src/main/java/com/bjond/persistence/json/schema/CustomBjondWrapper.java:127-131 | with distinct field names, the title applied for a key is `t` iff the declared field of that name carries `@JsonTitle(t)` |
| SchemaTitles.PropertyTitledIffDeclared | src/main/java/com/bjond/persistence/json/schema/CustomBjondWrapper.java:126-132 | after the pass, a property has title `t` (and its kind unchanged) when the same-named declared field carries `@JsonTitle(t)`; a property without such a field is untouched |
| SchemaTitles.EmptyTitleIsWritten | src/main/java/com/bjond/persistence/json/schema/CustomBjondWrapper.java:129-131 | the annotation's presence triggers the title: the default empty title is still written |
| SchemaTitles.NonSimpleTitledPropertyFails | src/main/java/com/bjond/persistence/json/schema/CustomBjondWrapper.java:107-132 | a titled field whose property schema is not simple makes the whole pass fail |
| SchemaTitles.ClientCacheHasNoEffect | src/main/java/com/bjond/persistence/json/schema/CustomBjondWrapper.java:133-136 | classes whose fields differ only in `@JsonClientCache` give identical results |
| SchemaTitles.InheritedFieldsIgnored | src/main/java/com/bjond/persistence/json/schema/CustomBjondWrapper.java:127 | inherited fields never affect the pass; only directly declared fields are consulted |
| SchemaTitles.NestedFinalSchemaUsesRootClass | src/main/java/com/bjond/persistence/json/schema/CustomBjondWrapper.java:115-127 | a nested wrapper's pass equals the root wrapper's pass, so nested object schemas are titled from the root class's fields |
| MiscUtils.IsProductionMode | src/main/java/com/bjond/utilities/MiscUtils.java:194-204 | true iff the environment has `BJOND_RUNTIME_MODE` and its value, lower-cased, is "production" |
| MiscUtils.ProductionModeCases | src/main/java/com/bjond/utilities/MiscUtils.java:181-204 | an environment without the variable is not production; other variables do not matter; "PRODUCTION" and "Production" count; "prod" and "development" do not |
| MiscUtils.ParseEnumCaseInsensitive | src/main/java/com/bjond/utilities/MiscUtils.java:441-450 | a null string gives null; otherwise the result is the first constant, in declaration order, whose name equals the string ignoring case, and null only when no constant does |
| MiscUtils.ParseHttpErrorCode | src/main/java/com/bjond/constants/ErrorCodes.java:28-48 | "invalid_tenant" finds the third HTTP error code constant |
| MiscUtils.GetMethodName | src/main/java/com/bjond/utilities/MiscUtils.java:355-357 | an empty name throws; otherwise the result is "get", then the first character upper-cased (ASCII letters, a locale that is not Turkic), then the rest unchanged |
| MiscUtils.GetterNameRoundTrip | src/main/java/com/bjond/utilities/MiscUtils.java:345-357 | for a getter `get<suffix>` whose suffix starts with an upper-case letter, the Java Beans property name derived from it (first letter lower-cased unless the first two letters are upper-case) leads back to that getter |
| MiscUtils.DoubleQuote | src/main/java/com/bjond/utilities/MiscUtils.java:366-368 | the result starts and ends with a double quote; between them is the value, or the text "null" for a null value |
| MiscUtils.DoubleQuoteNull | src/main/java/com/bjond/utilities/MiscUtils.java:366-368 | a null value quotes exactly like the string "null", and different non-null values quote differently |
| MiscUtils.EscapeSingleAndDoubleQuotes | src/main/java/com/bjond/utilities/MiscUtils.java:377-379 | the two replacements put a backslash before every quote and change nothing else; the length grows by the number of quotes |
| MiscUtils.EscapeInTwoPasses | src/main/java/com/bjond/utilities/MiscUtils.java:377-379 | replacing double quotes and then single quotes equals one pass that escapes both |
| MiscUtils.EscapeRoundTrip | src/main/java/com/bjond/utilities/MiscUtils.java:370-379 | unescaping the escaped text gives the original text back |
| MiscUtils.CartesianProduct | src/main/java/com/bjond/utilities/MiscUtils.java:415-421 | fewer than two sets is an illegal argument; otherwise the product is empty iff some input set is empty |
| MiscUtils.ProductFrom | src/main/java/com/bjond/utilities/MiscUtils.java:453-466 | every combination built from an index lies within the union of the remaining sets |
| MiscUtils.ProductEmptyIffEmptyFactor | src/main/java/com/bjond/utilities/MiscUtils.java:453-466 | the recursive product from an index is empty iff one of the remaining sets is empty |
| MiscUtils.ProductMembersWithinUnion | src/main/java/com/bjond/utilities/MiscUtils.java:453-466 | every combination holds only elements of the input sets |
| MiscUtils.ProductPicksOneFromEach | src/main/java/com/bjond/utilities/MiscUtils.java:453-466 | for pairwise disjoint inputs, every combination holds exactly one element of each input set |
| MiscUtils.ProductSize | src/main/java/com/bjond/utilities/MiscUtils.java:453-466 | for pairwise disjoint inputs, the number of combinations is the product of the input sizes |
| MiscUtils.CartesianProductOfDisjointSets | src/main/java/com/bjond/utilities/MiscUtils.java:413-421 | for two or more pairwise disjoint sets, the product succeeds, has the product of the sizes, and each member takes one element from each set |
| MiscUtils.GetProperties | src/main/java/com/bjond/utilities/MiscUtils.java:339-343 | the properties are the described ones without "class" |
| MiscUtils.GetNullProperties | src/main/java/com/bjond/utilities/MiscUtils.java:303-307 | the null properties are exactly the non-"class" properties whose value is null |
| MiscUtils.GetNonNullProperties | src/main/java/com/bjond/utilities/MiscUtils.java:316-320 | the map holds exactly the non-"class" properties with a value, each mapped to that value |
| MiscUtils.NullAndNonNullPartition | src/main/java/com/bjond/utilities/MiscUtils.java:296-320 | null and non-null properties are disjoint, together make up all properties, and neither holds "class" |
| MiscUtils.MyBeanExample | src/test/java/com/bjond/test/TestUtils.java:59-88 | a bean with two set properties has no null properties and two non-null ones, without "class"; clearing one gives one null property |
| MiscUtils.Extend | src/main/java/com/bjond/utilities/MiscUtils.java:268-276 | a null source changes nothing; otherwise every non-null source property overwrites the destination's property, the others keep their values, and no property is added |
| MiscUtils.ExtendIdempotent | src/main/java/com/bjond/utilities/MiscUtils.java:259-276 | extending twice from the same source equals extending once |
| MiscUtils.ExtendAll | src/main/java/com/bjond/utilities/MiscUtils.java:287-294 | extending from any list of sources keeps the destination's property names |
| MiscUtils.ExtendAllLaterSourcesWin | src/main/java/com/bjond/utilities/MiscUtils.java:278-294 | each property ends with the value from the last source that has it non-null, or keeps the destination's value |
| MiscUtils.ExtendAllAppend | src/main/java/com/bjond/utilities/MiscUtils.java:287-294 | extending from two lists of sources in sequence equals extending from their concatenation |
| PersonUtils.TakeDifference | src/main/java/com/bjond/utilities/PersonUtils.java:42-66 | null reads as empty; `added` holds exactly the elements of the second set missing from the first, and `removed` the converse; both are free of repetitions and disjoint; the result's `IsEmpty` holds iff the sets are equal |
| PersonUtils.NullIsEmptySet | src/main/java/com/bjond/utilities/PersonUtils.java:47-51 | a null argument gives the same result as an empty set |
| PersonUtils.SameSetHasNoDifference | src/main/java/com/bjond/utilities/PersonUtils.java:37-42 | a set compared with itself gives an empty difference |
| PersonUtils.SwapArgumentsSwapsResult | src/main/java/com/bjond/utilities/PersonUtils.java:53-63 | swapping the arguments swaps the added and removed lists |
| JodaTimeUtils.AddUnit | src/main/java/com/bjond/utilities/JodaTimeUtils.java:37-61 | a unit from SECONDS to YEARS adds the value to its own field and leaves the others; any other unit is an invalid-unit error |
| JodaTimeUtils.AccumulatePairs | src/main/java/com/bjond/utilities/JodaTimeUtils.java:31-62 | on success no field is below its starting value; a failure is a negative value or an invalid unit, never a length error |
| JodaTimeUtils.AccumulatePairsSpec | src/main/java/com/bjond/utilities/JodaTimeUtils.java:31-64 | the loop succeeds iff every pair is valid; it then adds each unit's paired values to that field; otherwise it reports the first bad pair, the value checked before the unit |
| JodaTimeUtils.ToPeriod | src/main/java/com/bjond/utilities/JodaTimeUtils.java:24-65 | empty and odd-length arguments are rejected; otherwise it succeeds iff every pair is valid, each field is the sum of the values paired with its unit, and a failure names the first bad pair |
| JodaTimeUtils.ToPeriodAppend | src/main/java/com/bjond/utilities/JodaTimeUtils.java:31-64 | the period of two concatenated valid pair lists is the sum of their periods |
| JodaTimeUtils.ToPeriodExample | src/main/java/com/bjond/utilities/JodaTimeUtils.java:97-103 | 180 SECONDS and 90 DAYS give a period of 180 seconds and 90 days |
| JodaTimeUtils.Range | src/main/java/com/bjond/utilities/JodaTimeUtils.java:131-153 | WEEKS and unknown units are errors; every other unit has a positive range, at most 60 except for YEARS |
| JodaTimeUtils.RangeTable | src/main/java/com/bjond/utilities/JodaTimeUtils.java:134-153 | months 12, days 30, hours 24, minutes 60, seconds 60, years `Integer.MAX_VALUE`; weeks an error |
| JodaTimeUtils.InTimeRange | src/main/java/com/bjond/utilities/JodaTimeUtils.java:89-91 | for start <= end, in range iff within the closed interval; for start > end, only the two endpoints are in range |
| JodaTimeUtils.OutsideTimeRange | src/main/java/com/bjond/utilities/JodaTimeUtils.java:93-95 | for start <= end, outside iff not within the closed interval; for start > end, every instant is outside |
| JodaTimeUtils.TimeRangeComplement | src/main/java/com/bjond/utilities/JodaTimeUtils.java:89-95 | both endpoints are in range even when start > end; when start <= end, in range iff not outside |
| JodaTimeUtils.ReversedRangeOverlaps | src/main/java/com/bjond/utilities/JodaTimeUtils.java:89-95 | when start > end, the start is both in range and outside it |
| JodaTimeUtils.Ago | src/main/java/com/bjond/utilities/JodaTimeUtils.java:19-22 | `ago` succeeds iff `toPeriod` does and is then the anchor minus that period |
| JodaTimeUtils.AfterTimeSpanAgo | src/main/java/com/bjond/utilities/JodaTimeUtils.java:104-107 | fails exactly as toPeriod does; otherwise true iff the instant is at or after now minus the period |
| JodaTimeUtils.BeforeTimeSpanAgo | src/main/java/com/bjond/utilities/JodaTimeUtils.java:117-120 | fails exactly as toPeriod does; otherwise true iff the instant is strictly before now minus the period |
| JodaTimeUtils.AfterIsNotBefore | src/main/java/com/bjond/utilities/JodaTimeUtils.java:104-120 | for valid pairs, "after the span ago" is the negation of "before the span ago"; for invalid pairs both fail with the same error |
| DateTimeUtils.IsNowAfter | src/main/java/com/bjond/utilities/DateTimeUtils.java:61-63 | false for null; otherwise now is strictly later than the date |
| DateTimeUtils.IsNowEqualToOrGreaterThan | src/main/java/com/bjond/utilities/DateTimeUtils.java:71-73 | false for null; otherwise now is at or after the date |
| DateTimeUtils.IsEqualToOrGreaterThan | src/main/java/com/bjond/utilities/DateTimeUtils.java:82-84 | false when either date is null; otherwise the first instant is at or after the second |
| DateTimeUtils.Clone | src/main/java/com/bjond/utilities/DateTimeUtils.java:157-159 | null for null; otherwise a date with the same instant |
| DateTimeUtils.EqualToOrGreaterThanIsTotal | src/main/java/com/bjond/utilities/DateTimeUtils.java:82-84 | for non-null dates one of the two comparisons holds, and both hold iff the instants are equal |
| DateTimeUtils.NowAfterImpliesEqualOrGreater | src/main/java/com/bjond/utilities/DateTimeUtils.java:55-73 | at the same now, "now after" implies "now at or after"; they differ only for a date at now |
| DateTimeUtils.NowComparisonIsDateComparison | src/main/java/com/bjond/utilities/DateTimeUtils.java:61-84 | the "now" comparisons equal the two-date comparison with now as the first date |
| DateTimeUtils.CloneComparesEqual | src/main/java/com/bjond/utilities/DateTimeUtils.java:149-159 | a clone compares at-or-after its original both ways |

## Left out

- Jackson itself is not modelled: the mapper configuration, `toJSON`/`fromJSON`, and the
  structural schema pass that builds the schema tree. The schema tree is an input to the
  title pass. Bean property order and value rendering are library behaviour.
- Null suppression (`NON_NULL` inclusion) and the unknown-filter-id tolerance of the
  library's shared mappers are mapper configuration, not filter logic.
- MakeFilter: a null flag array is not modelled. `Set.set` receives it and throws a
  `NullPointerException`.
- SerializeAsField: a null `action` is not modelled. The `switch` on it throws a
  `NullPointerException`. With a non-null action the `default` branch cannot be
  reached, because `FilterAction` has only two values.
- The provider and visitor context that the wrapper factory passes on are Jackson state.
  They are not modelled.
- The `@JsonClientCache` hook does nothing in the code. It is modelled as a field flag
  that is proved to have no effect.
- Network helpers, UUID generation, `delay`, the readers of `System.getenv` and
  `System.getProperty`, `getHostString`, `readContentsFromResource`, `getMD5`,
  `printSetOfSet`, `toArray`, `fromCamelCaseToLowerHyphen`, the blank-string checks and
  `round`: these are I/O, clock, reflection, third-party string code or floating point.
- `getPropertyValue` uses reflection. A bean is a map from property name to a
  possibly-null value instead. A property readable only through an `isX` getter makes
  the reflective call throw, and that case is not modelled.
- Extend: value conversion by `BeanUtils.populate`, read-only properties, and a null
  destination are not modelled. A source property that the destination lacks is
  ignored.
- EqualsIgnoreCase: case folding covers ASCII letters only. Java's Unicode case mapping
  is not modelled. The same holds for the upper-casing in `getMethodName`.
- IsProductionMode: the environment map is non-null and has no null values, as for
  `System.getenv`. A null map makes `containsKey` throw a `NullPointerException`.
- GetterNameRoundTrip: a getter whose suffix starts with a lower-case letter, such as
  `getx`, is not covered. Its property `x` leads to `getX`, and the reflective lookup
  fails. Upper-case letters are recognised among ASCII letters only.
- InTimeRange, OutsideTimeRange: null endpoints are not modelled. Joda reads a null
  instant in `isBefore`/`isAfter` as the current time, so the code does not throw.
  A null `t` is not modelled either: `t.isAfter` or `t.isBefore` throws a
  `NullPointerException`.
- AfterTimeSpanAgo, BeforeTimeSpanAgo: a null instant, a null `now` or a null pair array
  is not modelled. Each throws a `NullPointerException`.
- ParseEnumCaseInsensitive: a null enum class is not modelled. With a non-null string,
  `getEnumConstants` is called on it and throws a `NullPointerException`.
- CartesianProduct: a null set array and a null set inside it are not modelled. Reading
  the array's `length` or iterating the null set throws a `NullPointerException`.
- GetProperties, GetNullProperties, GetNonNullProperties: a null bean is not modelled.
  What `BeanUtils.describe` does with it is library behaviour.
- ExtendAll: a null array of sources is not modelled. The `for` loop over it throws a
  `NullPointerException`.
- SchemaTitles.JsonSchema: a null class is not modelled. What the mapper does with it is
  library behaviour.
- EscapeSingleAndDoubleQuotes: a null string is not modelled. `s.replace` on it throws a
  `NullPointerException`.
- GetMethodName: a null property name is not modelled. `substring` on it throws a
  `NullPointerException`. The model also assumes a default locale that is not Turkic.
  Under a Turkish or Azeri locale, `toUpperCase()` turns `i` into `İ` (U+0130), so
  the result differs even for ASCII names.
- `toPeriodFromFloat`, `wholePart` and `fractionalPart` use floating point. The calendar
  subtraction inside `ago` is a function parameter.
- JodaTimeUtils.ToPeriod, JodaTimeUtils.Ago: a null pair array is not modelled. Reading
  its `length` throws a `NullPointerException`. A null `anchor` in `ago` is not modelled
  either: `anchor.minus` throws a `NullPointerException`.
- JodaTimeUtils.ToPeriod: period fields are unbounded integers. Overflow of the 32-bit
  fields is not modelled.
- The day-boundary functions of `DateTimeUtils` (`getStartOfDay`, `getEndOfDay`, `today`,
  `tomorrow`, `yesterday`) depend on the default time zone and the system clock.
- A test calls `normalizeToNaturalSortOrder`, which `MiscUtils` does not define.
  There is nothing to model.
- The result of `cartesianProduct` is modelled as a mathematical set of sets. Its
  `HashSet` iteration order is not modelled.

## Findings

| source | as written | input that shows it | evidently intended | confidence | as-written member | corrected member |
|---|---|---|---|---|---|---|
| src/main/java/com/bjond/json/BjondPropertyFilter.java:115-118 | the pretty branch rebuilds the writer from the mapper, dropping `ORDER_MAP_ENTRIES_BY_KEYS` | `toJSON(o, true, action, flags)` | map entries ordered by key in both output forms | medium, not executed | PropertyFilter.PrettyWriterLosesKeyOrder | PropertyFilter.ConfigureWriterKeepingOrder |
