/** The title pass over a generated JSON Schema.

    Jackson builds the structural schema of a class; a custom schema wrapper then copies
    `@JsonTitle` annotations onto it: the class-level annotation becomes the root title,
    and each property of an object schema takes the title of the same-named field
    declared on the wrapper's original class. */
module SchemaTitles {
  import opened Wrappers

  /** A schema node. Every node kind Jackson produces is "simple" (it has one type and a
      title slot) except the union type schema. */
  datatype Schema =
    | Simple(kind: Kind, title: Option<string>)
    | UnionType(elements: seq<Schema>)

  datatype Kind =
    | ObjectType(properties: seq<Property>)
    | ArrayType(items: Option<Schema>)
    | StringType
    | NumberType
    | IntegerType
    | BooleanType
    | NullType
    | AnyType

  /** One entry of an object schema's (insertion-ordered) property map. */
  datatype Property = Property(name: string, schema: Schema)

  /** A field of a class: its name, its `@JsonTitle(title = ...)` annotation if any
      (the annotation's default title is ""), and whether it carries `@JsonClientCache`. */
  datatype FieldDecl = FieldDecl(name: string, title: Option<string>, clientCache: bool)

  /** A class as the title pass sees it: its own `@JsonTitle`, the fields it declares
      itself, and the fields it inherits. */
  datatype ClassDecl = ClassDecl(title: Option<string>, declaredFields: seq<FieldDecl>,
                                 inheritedFields: seq<FieldDecl>)

  datatype SchemaError =
    | NonSimpleSchema(schema: Schema)   // the runtime exception thrown by addTitle
    | NullOriginalClass                 // the null dereference of a wrapper built without a class

  /** The wrapper factory and the wrapper: both remember the class the schema is for
      (null when built with the no-argument constructors). */
  datatype WrapperFactory = WrapperFactory(originalClass: Option<ClassDecl>)
  datatype Wrapper = Wrapper(originalClass: Option<ClassDecl>, factory: WrapperFactory)

  predicate IsObjectSchema(s: Schema) {
    s.Simple? && s.kind.ObjectType?
  }

  /** A property name is not declared twice by one class (as in any Java class). */
  predicate DistinctFieldNames(fields: seq<FieldDecl>) {
    forall i, j :: 0 <= i < j < |fields| ==> fields[i].name != fields[j].name
  }

  // ---------------------------------------------------------------------------------
  // Wrappers and their factory

  /** The no-argument wrapper: no original class. */
  function DefaultWrapper(): (w: Wrapper)
    ensures w.originalClass.None? && w.factory.originalClass.None?
  {
    Wrapper(None, WrapperFactory(None))
  }

  /** The wrapper for a class: the class is remembered by the wrapper and its factory. */
  function WrapperFor(clazz: Option<ClassDecl>): (w: Wrapper)
    ensures w.originalClass == clazz && w.factory.originalClass == clazz
  {
    Wrapper(clazz, WrapperFactory(clazz))
  }

  /** Both `getWrapper` overloads of the factory: a fresh wrapper for the factory's class
      (the provider and visitor context they also set are not modelled). */
  function GetWrapper(factory: WrapperFactory): (w: Wrapper)
    ensures w.originalClass == factory.originalClass
    ensures w.factory == factory
  {
    WrapperFor(factory.originalClass)
  }

  /** The wrapper reached after `depth` nested visits, each asking the previous wrapper's
      factory for a new wrapper. */
  function Nested(root: Wrapper, depth: nat): Wrapper {
    if depth == 0 then root else GetWrapper(Nested(root, depth - 1).factory)
  }

  /** Nested wrappers consult the same original class as the root wrapper. */
  lemma {:induction false} NestedWrappersKeepOriginalClass(clazz: Option<ClassDecl>, depth: nat)
    ensures Nested(WrapperFor(clazz), depth).originalClass == clazz
    ensures Nested(WrapperFor(clazz), depth).factory.originalClass == clazz
  {
    if depth > 0 {
      NestedWrappersKeepOriginalClass(clazz, depth - 1);
    }
  }

  // ---------------------------------------------------------------------------------
  // Titles

  /** `addTitle`: set the title of a simple schema; any other schema is an error. */
  function AddTitle(schema: Schema, title: string): (r: Result<Schema, SchemaError>)
    ensures r.Success? <==> schema.Simple?
    ensures r.Success? ==> r.value.Simple? && r.value.kind == schema.kind && r.value.title == Some(title)
    ensures r.Failure? ==> r.error == NonSimpleSchema(schema)
  {
    match schema
    case Simple(kind, _) => Success(Simple(kind, Some(title)))
    case UnionType(_) => Failure(NonSimpleSchema(schema))
  }

  /** `expectObjectFormat`: the untitled object schema of a visited class, titled from the
      class-level `@JsonTitle` when there is one. */
  function ExpectObjectFormat(rawClass: ClassDecl): (s: Schema)
    ensures s.Simple? && s.kind == ObjectType([])
    ensures s.title.Some? <==> rawClass.title.Some?
    ensures rawClass.title.Some? ==> s.title == rawClass.title
  {
    var untitled := Simple(ObjectType([]), None);
    match rawClass.title
    case None => untitled
    case Some(t) => AddTitle(untitled, t).value
  }

  /** The title of the last field named `key` that carries `@JsonTitle`, if any: what
      the inner loop over the declared fields leaves on the property's schema. */
  function TitleFor(fields: seq<FieldDecl>, key: string): Option<string> {
    if fields == [] then None
    else
      match TitleFor(fields[1..], key)
      case Some(t) => Some(t)
      case None => if fields[0].name == key then fields[0].title else None
  }

  /** The inner loop: visit the declared fields in order and title the property's
      schema from every same-named field that carries `@JsonTitle`. */
  function TitleFromFields(fields: seq<FieldDecl>, key: string, schema: Schema): (r: Result<Schema, SchemaError>)
    ensures r.Failure? <==> TitleFor(fields, key).Some? && schema.UnionType?
    ensures r.Failure? ==> r.error == NonSimpleSchema(schema)
    ensures r.Success? ==>
              r.value == match TitleFor(fields, key)
                         case Some(t) => Simple(schema.kind, Some(t))
                         case None => schema
  {
    if fields == [] then Success(schema)
    else if fields[0].name == key && fields[0].title.Some? then
      var titled :- AddTitle(schema, fields[0].title.value);
      TitleFromFields(fields[1..], key, titled)
    else
      TitleFromFields(fields[1..], key, schema)
  }

  /** The schema of one property after the pass, as a reference: retitled when a
      declared field of that name carries a title, untouched otherwise. */
  function Retitled(fields: seq<FieldDecl>, p: Property): Property
    requires TitleFor(fields, p.name).Some? ==> p.schema.Simple?
  {
    match TitleFor(fields, p.name)
    case Some(t) => Property(p.name, Simple(p.schema.kind, Some(t)))
    case None => p
  }

  /** True when some property would have to be titled but its schema is not simple. */
  predicate BlockedProperty(fields: seq<FieldDecl>, props: seq<Property>) {
    exists i :: 0 <= i < |props| && TitleFor(fields, props[i].name).Some? && props[i].schema.UnionType?
  }

  /** The outer loop over the object schema's properties, in order; the first property
      that cannot be titled aborts the pass. */
  function TitleProperties(originalClass: Option<ClassDecl>, props: seq<Property>): (r: Result<seq<Property>, SchemaError>)
    ensures props == [] ==> r == Success([])
    ensures props != [] && originalClass.None? ==> r == Failure(NullOriginalClass)
    ensures originalClass.Some? ==> (r.Failure? <==> BlockedProperty(originalClass.value.declaredFields, props))
    ensures r.Success? ==> |r.value| == |props|
    ensures r.Success? ==> forall i :: 0 <= i < |props| ==> r.value[i].name == props[i].name
    ensures r.Success? && originalClass.Some? ==>
              forall i :: 0 <= i < |props| ==> r.value[i] == Retitled(originalClass.value.declaredFields, props[i])
  {
    if props == [] then Success([])
    else
      match originalClass
      case None => Failure(NullOriginalClass)
      case Some(c) =>
        var first :- TitleFromFields(c.declaredFields, props[0].name, props[0].schema);
        var rest :- TitleProperties(originalClass, props[1..]);
        assert forall i :: 1 <= i < |props| ==> props[i] == props[1..][i - 1];
        Success([Property(props[0].name, first)] + rest)
  }

  /** `finalSchema`: the title pass applied to the schema Jackson built. */
  function FinalSchema(w: Wrapper, schema: Schema): (r: Result<Schema, SchemaError>)
    ensures !IsObjectSchema(schema) ==> r == Success(schema)
    ensures IsObjectSchema(schema) && r.Success? ==>
              IsObjectSchema(r.value) && r.value.title == schema.title
              && |r.value.kind.properties| == |schema.kind.properties|
              && forall i :: 0 <= i < |schema.kind.properties| ==>
                   r.value.kind.properties[i].name == schema.kind.properties[i].name
  {
    match schema
    case Simple(ObjectType(props), title) =>
      var titled :- TitleProperties(w.originalClass, props);
      Success(Simple(ObjectType(titled), title))
    case _ => Success(schema)
  }

  /** The schema of a class end to end: the root object schema (titled by
      `expectObjectFormat`, its properties filled in by Jackson's structural pass) then
      the title pass of the root wrapper. */
  function JsonSchema(clazz: ClassDecl, props: seq<Property>): (r: Result<Schema, SchemaError>)
    ensures r.Success? ==> IsObjectSchema(r.value) && r.value.title == clazz.title
    ensures r.Failure? <==> BlockedProperty(clazz.declaredFields, props)
  {
    var root := ExpectObjectFormat(clazz);
    FinalSchema(WrapperFor(Some(clazz)), Simple(ObjectType(props), root.title))
  }

  // ---------------------------------------------------------------------------------
  // Properties of the pass

  /** With distinct field names, `TitleFor` is exactly the `@JsonTitle` of the declared
      field of that name. */
  lemma {:induction false} TitleForDeclaredField(fields: seq<FieldDecl>, key: string, t: string)
    requires DistinctFieldNames(fields)
    ensures TitleFor(fields, key) == Some(t) <==>
              exists i :: 0 <= i < |fields| && fields[i].name == key && fields[i].title == Some(t)
  {
    if fields != [] {
      var tail := fields[1..];
      assert DistinctFieldNames(tail) by {
        forall i, j | 0 <= i < j < |tail| ensures tail[i].name != tail[j].name {
          assert tail[i] == fields[i + 1] && tail[j] == fields[j + 1];
        }
      }
      TitleForDeclaredField(tail, key, t);
      if exists i :: 0 <= i < |fields| && fields[i].name == key && fields[i].title == Some(t) {
        var i :| 0 <= i < |fields| && fields[i].name == key && fields[i].title == Some(t);
        if i == 0 {
          forall j | 0 <= j < |tail| ensures tail[j].name != key {
            assert tail[j] == fields[j + 1];
          }
          TitleForAbsent(tail, key);
        } else {
          assert tail[i - 1] == fields[i];
        }
      }
      if TitleFor(fields, key) == Some(t) && TitleFor(tail, key) == Some(t) {
        var i :| 0 <= i < |tail| && tail[i].name == key && tail[i].title == Some(t);
        assert fields[i + 1] == tail[i];
      }
    }
  }

  /** No field of that name: no title. */
  lemma {:induction false} TitleForAbsent(fields: seq<FieldDecl>, key: string)
    requires forall j :: 0 <= j < |fields| ==> fields[j].name != key
    ensures TitleFor(fields, key).None?
  {
    if fields != [] {
      TitleForAbsent(fields[1..], key);
    }
  }

  /** The pass titles a property with `t` exactly when a field of that name declared on
      the original class carries `@JsonTitle(t)`; other properties are left as they are. */
  lemma PropertyTitledIffDeclared(c: ClassDecl, schema: Schema, i: int, t: string)
    requires DistinctFieldNames(c.declaredFields)
    requires IsObjectSchema(schema) && 0 <= i < |schema.kind.properties|
    requires FinalSchema(WrapperFor(Some(c)), schema).Success?
    ensures var p := schema.kind.properties[i];
            var q := FinalSchema(WrapperFor(Some(c)), schema).value.kind.properties[i];
            (q.schema.Simple? && q.schema.title == Some(t) && q.schema.kind == p.schema.kind
             <== exists j :: 0 <= j < |c.declaredFields| && c.declaredFields[j].name == p.name
                             && c.declaredFields[j].title == Some(t))
    ensures var p := schema.kind.properties[i];
            var q := FinalSchema(WrapperFor(Some(c)), schema).value.kind.properties[i];
            (forall j :: 0 <= j < |c.declaredFields| && c.declaredFields[j].name == p.name
                         ==> c.declaredFields[j].title.None?) ==> q == p
  {
    var p := schema.kind.properties[i];
    var fields := c.declaredFields;
    TitleForDeclaredField(fields, p.name, t);
    if forall j :: 0 <= j < |fields| && fields[j].name == p.name ==> fields[j].title.None? {
      if TitleFor(fields, p.name).Some? {
        TitleForDeclaredField(fields, p.name, TitleFor(fields, p.name).value);
      }
    }
  }

  /** The default title "" is still written: the annotation's presence, not its content,
      triggers the title. */
  lemma EmptyTitleIsWritten(key: string, schema: Schema)
    requires schema.Simple?
    ensures TitleFromFields([FieldDecl(key, Some(""), false)], key, schema) == Success(Simple(schema.kind, Some("")))
  {
  }

  /** A titled field whose property schema is not simple makes the whole pass fail. */
  lemma NonSimpleTitledPropertyFails(c: ClassDecl, schema: Schema, i: int)
    requires IsObjectSchema(schema) && 0 <= i < |schema.kind.properties|
    requires TitleFor(c.declaredFields, schema.kind.properties[i].name).Some?
    requires schema.kind.properties[i].schema.UnionType?
    ensures FinalSchema(WrapperFor(Some(c)), schema).Failure?
  {
  }

  /** Fields that agree on names and titles give the same titles, whatever their
      `@JsonClientCache` marks. */
  lemma {:induction false} TitleForIgnoresClientCache(f1: seq<FieldDecl>, f2: seq<FieldDecl>, key: string)
    requires |f1| == |f2|
    requires forall i :: 0 <= i < |f1| ==> f1[i].name == f2[i].name && f1[i].title == f2[i].title
    ensures TitleFor(f1, key) == TitleFor(f2, key)
  {
    if f1 != [] {
      TitleForIgnoresClientCache(f1[1..], f2[1..], key);
    }
  }

  /** The pass over the properties depends on the class only through `TitleFor`. */
  lemma {:induction false} TitlePropertiesDependOnTitles(c1: ClassDecl, c2: ClassDecl, props: seq<Property>)
    requires forall i :: 0 <= i < |props| ==>
               TitleFor(c1.declaredFields, props[i].name) == TitleFor(c2.declaredFields, props[i].name)
    ensures TitleProperties(Some(c1), props) == TitleProperties(Some(c2), props)
  {
    if props != [] {
      assert TitleFor(c1.declaredFields, props[0].name) == TitleFor(c2.declaredFields, props[0].name);
      TitlePropertiesDependOnTitles(c1, c2, props[1..]);
    }
  }

  /** `@JsonClientCache` has no effect: the pass gives the same result with or without it.
      This holds by construction, since the title pass never reads the flag. */
  lemma ClientCacheHasNoEffect(c1: ClassDecl, c2: ClassDecl, schema: Schema)
    requires |c1.declaredFields| == |c2.declaredFields|
    requires forall i :: 0 <= i < |c1.declaredFields| ==>
               c1.declaredFields[i].name == c2.declaredFields[i].name
               && c1.declaredFields[i].title == c2.declaredFields[i].title
    ensures FinalSchema(WrapperFor(Some(c1)), schema) == FinalSchema(WrapperFor(Some(c2)), schema)
  {
    if IsObjectSchema(schema) {
      var props := schema.kind.properties;
      forall i | 0 <= i < |props|
        ensures TitleFor(c1.declaredFields, props[i].name) == TitleFor(c2.declaredFields, props[i].name)
      {
        TitleForIgnoresClientCache(c1.declaredFields, c2.declaredFields, props[i].name);
      }
      TitlePropertiesDependOnTitles(c1, c2, props);
    }
  }

  /** Only directly declared fields are consulted: inherited fields never title anything.
      This holds by construction, since the title pass reads only the declared fields. */
  lemma InheritedFieldsIgnored(title: Option<string>, declared: seq<FieldDecl>,
                               inherited1: seq<FieldDecl>, inherited2: seq<FieldDecl>, schema: Schema)
    ensures FinalSchema(WrapperFor(Some(ClassDecl(title, declared, inherited1))), schema)
         == FinalSchema(WrapperFor(Some(ClassDecl(title, declared, inherited2))), schema)
  {
    if IsObjectSchema(schema) {
      TitlePropertiesDependOnTitles(ClassDecl(title, declared, inherited1),
                                    ClassDecl(title, declared, inherited2), schema.kind.properties);
    }
  }

  /** A wrapper reached through nested visits gives the same pass as the root wrapper:
      nested object schemas are titled from the root class's declared fields. */
  lemma NestedFinalSchemaUsesRootClass(clazz: Option<ClassDecl>, depth: nat, schema: Schema)
    ensures FinalSchema(Nested(WrapperFor(clazz), depth), schema) == FinalSchema(WrapperFor(clazz), schema)
  {
    NestedWrappersKeepOriginalClass(clazz, depth);
  }

  /** A wrapper built without a class cannot title an object schema that has
      properties: looking up the declared fields of the missing class fails. */
  lemma DefaultWrapperFailsOnProperties(schema: Schema)
    requires IsObjectSchema(schema)
    ensures schema.kind.properties == [] ==> FinalSchema(DefaultWrapper(), schema) == Success(schema)
    ensures schema.kind.properties != [] ==> FinalSchema(DefaultWrapper(), schema) == Failure(NullOriginalClass)
  {
  }
}
