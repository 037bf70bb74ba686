/** The tag-driven property filter used when writing a bean as JSON.

    A filter has an action (INCLUDE or EXCLUDE) and a set of active flags. Every bean
    property may carry a `@BjondFilter(flags = ...)` annotation; for each property the
    filter decides whether the property is written or left out of the output. */
module PropertyFilter {
  import opened Wrappers
  import opened SeqUtil

  datatype FilterAction = Include | Exclude

  /** A configured filter: its action and its active flags (a sorted set in the source,
      so only membership matters). */
  datatype Filter = Filter(action: FilterAction, flags: set<string>)

  /** What the filter knows of one bean property: its name and the flags of its
      `@BjondFilter` annotation, `None` when the property carries no annotation. */
  datatype PropertyWriter = PropertyWriter(name: string, annotation: Option<seq<string>>)

  /** What happens to one property: it is written, it is silently left out, or it is
      written through the generator's "omitted field" path (for generators that cannot
      leave fields out). */
  datatype Decision = Write | Skip | WriteOmitted

  /** The no-argument constructor: "exclude nothing", a pass-through filter. */
  function PassThrough(): (f: Filter)
    ensures forall w: PropertyWriter, canOmit: bool :: SerializeAsField(f, w, canOmit) == Write
  {
    Filter(Exclude, {})
  }

  /** The constructor taking an action and the active flags as varargs. */
  function MakeFilter(action: FilterAction, filterFlags: seq<string>): (f: Filter)
    ensures f.action == action
    ensures forall flag :: flag in f.flags <==> flag in filterFlags
  {
    Filter(action, Elems(filterFlags))
  }

  /** Both `include` overrides: every property writer is accepted. */
  predicate IncludesWriter(w: PropertyWriter)
    ensures IncludesWriter(w)
  {
    true
  }

  /** True when the annotation's flags share at least one flag with the active set. */
  predicate Intersects(annoFlags: seq<string>, flags: set<string>) {
    Elems(annoFlags) * flags != {}
  }

  lemma IntersectsHasWitness(annotation: Option<seq<string>>, flags: set<string>)
    ensures annotation.Some? ==>
              (Intersects(annotation.value, flags) <==> exists flag :: flag in annotation.value && flag in flags)
  {
    if annotation.Some? {
      var annoFlags := annotation.value;
      if Intersects(annoFlags, flags) {
        var flag :| flag in Elems(annoFlags) * flags;
        assert flag in annoFlags && flag in flags;
      }
      forall flag | flag in annoFlags && flag in flags
        ensures flag in Elems(annoFlags) * flags
      {
      }
    }
  }

  function HandleExclude(flags: set<string>, w: PropertyWriter, canOmit: bool): (d: Decision)
    ensures d != WriteOmitted
    ensures w.annotation.None? ==> d == Write
    ensures w.annotation.Some? ==> (d == Skip <==> exists flag :: flag in w.annotation.value && flag in flags)
  {
    IntersectsHasWitness(w.annotation, flags);
    if !IncludesWriter(w) then
      if !canOmit then WriteOmitted else Skip
    else
      match w.annotation
      case Some(annoFlags) => if Intersects(annoFlags, flags) then Skip else Write
      case None => Write
  }

  function HandleInclude(flags: set<string>, w: PropertyWriter, canOmit: bool): (d: Decision)
    ensures d != WriteOmitted
    ensures w.annotation.None? ==> d == Skip
    ensures w.annotation.Some? ==> (d == Write <==> exists flag :: flag in w.annotation.value && flag in flags)
  {
    IntersectsHasWitness(w.annotation, flags);
    if !IncludesWriter(w) then
      if !canOmit then WriteOmitted else Skip
    else
      match w.annotation
      case Some(annoFlags) => if Intersects(annoFlags, flags) then Write else Skip
      case None => Skip
  }

  /** `serializeAsField`: the per-property decision, dispatched on the filter's action.
      `canOmit` is what the JSON generator answers to `canOmitFields()`. */
  function SerializeAsField(f: Filter, w: PropertyWriter, canOmit: bool): (d: Decision)
    ensures d != WriteOmitted
    ensures f.action == Exclude && w.annotation.None? ==> d == Write
    ensures f.action == Include && w.annotation.None? ==> d == Skip
    ensures f.action == Exclude && w.annotation.Some? ==>
              (d == Skip <==> exists flag :: flag in w.annotation.value && flag in f.flags)
    ensures f.action == Include && w.annotation.Some? ==>
              (d == Write <==> exists flag :: flag in w.annotation.value && flag in f.flags)
  {
    match f.action
    case Include => HandleInclude(f.flags, w, canOmit)
    case Exclude => HandleExclude(f.flags, w, canOmit)
  }

  // ---------------------------------------------------------------------------------
  // The policy as a plain decision over tag sets, where a property without an
  // annotation has no tags.

  datatype Verdict = IncludeField | OmitField

  function Tags(w: PropertyWriter): set<string> {
    match w.annotation
    case Some(annoFlags) => Elems(annoFlags)
    case None => {}
  }

  /** The blacklist / whitelist policy stated over tag sets. */
  function Decide(action: FilterAction, active: set<string>, tags: set<string>): Verdict {
    match action
    case Exclude => if tags == {} || tags * active == {} then IncludeField else OmitField
    case Include => if tags != {} && tags * active != {} then IncludeField else OmitField
  }

  /** The filter writes a property exactly when the tag-set policy includes it. */
  lemma SerializeAsFieldIsDecide(f: Filter, w: PropertyWriter, canOmit: bool)
    ensures SerializeAsField(f, w, canOmit) == Write <==> Decide(f.action, f.flags, Tags(w)) == IncludeField
    ensures SerializeAsField(f, w, canOmit) == Skip <==> Decide(f.action, f.flags, Tags(w)) == OmitField
  {
  }

  /** An INCLUDE filter with no active flags writes nothing. */
  lemma IncludeWithoutFlagsSkipsAll(w: PropertyWriter, canOmit: bool)
    ensures SerializeAsField(MakeFilter(Include, []), w, canOmit) == Skip
  {
  }

  /** On an annotated property whose flags meet the active set, the two actions decide
      oppositely. */
  lemma ActionsOppositeOnOverlap(flags: set<string>, w: PropertyWriter, canOmit: bool)
    requires w.annotation.Some? && Intersects(w.annotation.value, flags)
    ensures SerializeAsField(Filter(Exclude, flags), w, canOmit) == Skip
    ensures SerializeAsField(Filter(Include, flags), w, canOmit) == Write
  {
  }

  /** An annotation with an empty flag list behaves exactly like no annotation. */
  lemma EmptyAnnotationIsNoAnnotation(f: Filter, name: string, canOmit: bool)
    ensures SerializeAsField(f, PropertyWriter(name, Some([])), canOmit)
         == SerializeAsField(f, PropertyWriter(name, None), canOmit)
  {
  }

  /** Only the flags as sets matter: the order and repetition of both the filter's
      varargs and the annotation's flags are irrelevant, and so is `canOmitFields`. */
  lemma DecisionDependsOnlyOnFlagSets(action: FilterAction, flags1: seq<string>, flags2: seq<string>,
                                      w1: PropertyWriter, w2: PropertyWriter, canOmit1: bool, canOmit2: bool)
    requires Elems(flags1) == Elems(flags2)
    requires w1.annotation.Some? <==> w2.annotation.Some?
    requires w1.annotation.Some? ==> Elems(w1.annotation.value) == Elems(w2.annotation.value)
    ensures SerializeAsField(MakeFilter(action, flags1), w1, canOmit1)
         == SerializeAsField(MakeFilter(action, flags2), w2, canOmit2)
  {
  }

  // ---------------------------------------------------------------------------------
  // A whole bean: the names of the properties the filter writes, in the order the
  // property writers are visited.

  /** The names of some property writers, in order. */
  function Names(writers: seq<PropertyWriter>): seq<string> {
    if writers == [] then [] else [writers[0].name] + Names(writers[1..])
  }

  function WrittenProperties(f: Filter, writers: seq<PropertyWriter>, canOmit: bool): (names: seq<string>)
    ensures |names| <= |writers|
    ensures forall n :: n in names ==>
              exists w :: w in writers && w.name == n && SerializeAsField(f, w, canOmit) == Write
    ensures forall w :: w in writers && SerializeAsField(f, w, canOmit) == Write ==> w.name in names
  {
    if writers == [] then []
    else
      var rest := WrittenProperties(f, writers[1..], canOmit);
      if SerializeAsField(f, writers[0], canOmit) == Write then [writers[0].name] + rest else rest
  }

  /** The written names are the names of the writers the filter writes, in the order
      the writers are visited. */
  lemma {:induction false} WrittenPropertiesInOrder(f: Filter, writers: seq<PropertyWriter>, canOmit: bool)
    ensures WrittenProperties(f, writers, canOmit) == Names(SeqUtil.Filter(writers, w => SerializeAsField(f, w, canOmit) == Write))
  {
    if writers != [] {
      WrittenPropertiesInOrder(f, writers[1..], canOmit);
    }
  }

  /** The pass-through filter writes every property, in order. */
  lemma {:induction false} PassThroughWritesAll(writers: seq<PropertyWriter>, canOmit: bool)
    ensures WrittenProperties(PassThrough(), writers, canOmit) == seq(|writers|, i requires 0 <= i < |writers| => writers[i].name)
  {
    if writers != [] {
      PassThroughWritesAll(writers[1..], canOmit);
    }
  }

  /** An INCLUDE filter with no active flags writes an empty object. */
  lemma IncludeWithoutFlagsWritesNothing(writers: seq<PropertyWriter>, canOmit: bool)
    ensures WrittenProperties(MakeFilter(Include, []), writers, canOmit) == []
  {
  }

  // ---------------------------------------------------------------------------------
  // `toJSON`: the writer it configures. Only the settings the filter affects are kept.

  datatype WriterConfig = WriterConfig(filterName: string, filter: Filter,
                                       orderMapEntriesByKeys: bool, prettyPrint: bool)

  const FilterName := "Bjond"

  /** The writer as `toJSON` builds it: the compact writer orders map entries by key;
      the pretty writer is rebuilt from the mapper and loses that setting. */
  function ConfigureWriter(pretty: bool, action: FilterAction, flags: seq<string>): (w: WriterConfig)
    ensures w.filterName == FilterName
    ensures w.filter == MakeFilter(action, flags)
    ensures w.orderMapEntriesByKeys <==> !pretty
    ensures w.prettyPrint <==> pretty
  {
    var filter := MakeFilter(action, flags);
    if pretty then WriterConfig(FilterName, filter, false, true)
    else WriterConfig(FilterName, filter, true, false)
  }

  /** As written, asking for pretty output also drops the ordering of map entries. */
  lemma PrettyWriterLosesKeyOrder(action: FilterAction, flags: seq<string>)
    ensures ConfigureWriter(false, action, flags).orderMapEntriesByKeys
    ensures !ConfigureWriter(true, action, flags).orderMapEntriesByKeys
  {
  }

  /** The writer with pretty printing added on top of the ordered writer, so that map
      entries are ordered by key whichever output form is asked for. */
  function ConfigureWriterKeepingOrder(pretty: bool, action: FilterAction, flags: seq<string>): (w: WriterConfig)
    ensures w.filterName == FilterName
    ensures w.filter == MakeFilter(action, flags)
    ensures w.orderMapEntriesByKeys
    ensures w.prettyPrint <==> pretty
    ensures w.(prettyPrint := false) == ConfigureWriter(false, action, flags)
  {
    var ordered := WriterConfig(FilterName, MakeFilter(action, flags), true, false);
    if pretty then ordered.(prettyPrint := true) else ordered
  }
}
