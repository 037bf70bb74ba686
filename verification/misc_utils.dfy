/** Pure helpers of the miscellaneous utilities class: case-insensitive lookups, getter
    names, quoting, the Cartesian product of sets, and bean property helpers over beans
    seen as maps from property name to a possibly-null value. */
module MiscUtils {
  import opened Wrappers

  // ---------------------------------------------------------------------------------
  // Case-insensitive comparison (ASCII letters only)

  predicate IsUpper(c: char) {
    'A' <= c <= 'Z'
  }

  predicate IsLower(c: char) {
    'a' <= c <= 'z'
  }

  function ToLower(c: char): (r: char)
    ensures IsUpper(c) ==> IsLower(r) && r as int == c as int + 32
    ensures !IsUpper(c) ==> r == c
  {
    if IsUpper(c) then (c as int + 32) as char else c
  }

  function ToUpper(c: char): (r: char)
    ensures IsLower(c) ==> IsUpper(r) && r as int == c as int - 32
    ensures !IsLower(c) ==> r == c
  {
    if IsLower(c) then (c as int - 32) as char else c
  }

  /** `equalsIgnoreCase`, and `compareToIgnoreCase(..) == 0`, on ASCII text. */
  predicate EqualsIgnoreCase(a: string, b: string) {
    |a| == |b| && forall i :: 0 <= i < |a| ==> ToLower(a[i]) == ToLower(b[i])
  }

  // ---------------------------------------------------------------------------------
  // Runtime mode

  const RuntimeModeKey := "BJOND_RUNTIME_MODE"
  const ProductionMode := "production"

  /** `isProductionMode(env)`: the mode variable is set and reads "production" in any
      letter case. */
  function IsProductionMode(env: map<string, string>): (r: bool)
    ensures r <==> RuntimeModeKey in env && |env[RuntimeModeKey]| == |ProductionMode|
                   && forall i :: 0 <= i < |ProductionMode| ==> ToLower(env[RuntimeModeKey][i]) == ProductionMode[i]
  {
    if RuntimeModeKey !in env then false
    else EqualsIgnoreCase(ProductionMode, env[RuntimeModeKey])
  }

  /** Only the mode variable matters, and any letter case of "production" selects it. */
  lemma ProductionModeCases(env: map<string, string>, key: string, value: string)
    ensures RuntimeModeKey !in env ==> !IsProductionMode(env)
    ensures key != RuntimeModeKey ==> IsProductionMode(env[key := value]) == IsProductionMode(env)
    ensures IsProductionMode(env[RuntimeModeKey := "PRODUCTION"])
    ensures IsProductionMode(env[RuntimeModeKey := "Production"])
    ensures !IsProductionMode(env[RuntimeModeKey := "prod"])
    ensures !IsProductionMode(env[RuntimeModeKey := "development"])
  {
    var up := env[RuntimeModeKey := "PRODUCTION"];
    assert up[RuntimeModeKey] == "PRODUCTION";
    var cap := env[RuntimeModeKey := "Production"];
    assert cap[RuntimeModeKey] == "Production";
    var dev := env[RuntimeModeKey := "development"];
    assert ToLower(dev[RuntimeModeKey][0]) != ProductionMode[0];
  }

  // ---------------------------------------------------------------------------------
  // Enum lookup

  /** `parseEnumCaseInsensitive`: the index, in declaration order, of the first enum
      constant whose name equals `s` ignoring case; `None` for a null `s` or no match. */
  method ParseEnumCaseInsensitive(constants: seq<string>, s: Option<string>) returns (r: Option<nat>)
    ensures s.None? ==> r.None?
    ensures r.Some? ==> s.Some? && r.value < |constants| && EqualsIgnoreCase(constants[r.value], s.value)
    ensures r.Some? ==> forall j :: 0 <= j < r.value ==> !EqualsIgnoreCase(constants[j], s.value)
    ensures r.None? && s.Some? ==> forall j :: 0 <= j < |constants| ==> !EqualsIgnoreCase(constants[j], s.value)
  {
    if s.None? {
      return None;
    }
    var i := 0;
    while i < |constants|
      invariant 0 <= i <= |constants|
      invariant forall j :: 0 <= j < i ==> !EqualsIgnoreCase(constants[j], s.value)
    {
      if EqualsIgnoreCase(constants[i], s.value) {
        return Some(i);
      }
      i := i + 1;
    }
    return None;
  }

  /** The HTTP error code constants, in declaration order: a sample enum. */
  const HttpErrorCodes: seq<string> := [
    "UNKNOWN_USER", "UNKNOWN_TENANT", "INVALID_TENANT", "TAMPERING_DETECTED",
    "UNEXPECTED_ERROR", "AUTHENTICATION_FAILED", "PASSWORD_EXPIRED", "ACCOUNT_EXPIRED",
    "ACCOUNT_LOCKED", "AUTHORIZATION_FAILED", "MAX_PASSWORD_FAILURES_REACHED",
    "DATABASE_ERROR", "REST_INTERFACE_DOES_NOT_EXIST", "SESSION_DOES_NOT_EXIST",
    "CYCLIC_DEPENDENCY", "VALIDATION_ERROR", "CONSTRAINT_VIOLATION",
    "PERSON_RELATIONSHIP_TYPE_IN_USE", "BJOND_SERVER_COMMUNICATION_FAILURE"]

  /** A lower-case spelling finds its constant. */
  method ParseHttpErrorCode() returns (r: Option<nat>)
    ensures r == Some(2)
  {
    r := ParseEnumCaseInsensitive(HttpErrorCodes, Some("invalid_tenant"));
    assert EqualsIgnoreCase(HttpErrorCodes[2], "invalid_tenant");
    assert !EqualsIgnoreCase(HttpErrorCodes[0], "invalid_tenant") by {
      assert |HttpErrorCodes[0]| != |"invalid_tenant"|;
    }
    assert !EqualsIgnoreCase(HttpErrorCodes[1], "invalid_tenant") by {
      assert ToLower(HttpErrorCodes[1][0]) != ToLower("invalid_tenant"[0]);
    }
  }

  // ---------------------------------------------------------------------------------
  // Getter names

  datatype StringError = StringIndexOutOfBounds

  /** `getMethodName`: "get", the property's first character upper-cased, then the rest
      of the name; an empty name makes `substring(0, 1)` throw. */
  function GetMethodName(propertyName: string): (r: Result<string, StringError>)
    ensures r.Failure? <==> propertyName == ""
    ensures r.Success? ==> |r.value| == |propertyName| + 3 && r.value[..3] == "get"
    ensures r.Success? ==> r.value[3] == ToUpper(propertyName[0]) && r.value[4..] == propertyName[1..]
  {
    if propertyName == "" then Failure(StringIndexOutOfBounds)
    else Success("get" + [ToUpper(propertyName[0])] + propertyName[1..])
  }

  /** `Introspector.decapitalize`, the rule that names a Java Beans property after its
      getter's suffix: a name whose first two characters are upper-case stays as it is
      ("URL", "XValue"); otherwise its first character is lower-cased. */
  function Decapitalize(name: string): (r: string)
    ensures |r| == |name|
    ensures name != [] ==> r[1..] == name[1..]
    ensures |name| > 1 && IsUpper(name[0]) && IsUpper(name[1]) ==> r == name
    ensures name != [] && !(|name| > 1 && IsUpper(name[0]) && IsUpper(name[1])) ==> r[0] == ToLower(name[0])
  {
    if name == [] then name
    else if |name| > 1 && IsUpper(name[0]) && IsUpper(name[1]) then name
    else [ToLower(name[0])] + name[1..]
  }

  /** A property named from a getter `get<suffix>`, whose suffix starts with an
      upper-case letter, leads `getMethodName` back to that getter. */
  lemma GetterNameRoundTrip(suffix: string)
    requires suffix != [] && IsUpper(suffix[0])
    ensures GetMethodName(Decapitalize(suffix)) == Success("get" + suffix)
  {
    var name := Decapitalize(suffix);
    assert ToUpper(name[0]) == suffix[0];
    assert [suffix[0]] + suffix[1..] == suffix;
    assert "get" + [ToUpper(name[0])] + name[1..] == "get" + suffix;
  }

  // ---------------------------------------------------------------------------------
  // Quoting

  /** How string concatenation renders a possibly-null string: null becomes "null". */
  function Rendered(value: Option<string>): string {
    match value
    case Some(text) => text
    case None => "null"
  }

  /** `doubleQuote`: the value between double quotes; a null value is quoted as the
      text "null". */
  function DoubleQuote(value: Option<string>): (r: string)
    ensures |r| >= 2 && r[0] == '"' && r[|r| - 1] == '"'
    ensures value.Some? ==> r[1..|r| - 1] == value.value
    ensures value.None? ==> r == "\"null\""
  {
    "\"" + Rendered(value) + "\""
  }

  /** A null value and the text "null" quote alike, and quoting is injective on
      non-null values. */
  lemma DoubleQuoteNull(a: string, b: string)
    ensures DoubleQuote(None) == DoubleQuote(Some("null"))
    ensures DoubleQuote(Some(a)) == DoubleQuote(Some(b)) ==> a == b
  {
    var qa := DoubleQuote(Some(a));
    var qb := DoubleQuote(Some(b));
    if qa == qb {
      assert a == qa[1..|qa| - 1] == qb[1..|qb| - 1] == b;
    }
  }

  predicate IsQuote(c: char) {
    c == '"' || c == '\''
  }

  /** `String.replace` for a one-character target: every occurrence of `target` becomes
      `replacement`, scanning left to right. */
  function ReplaceChar(s: string, target: char, replacement: string): string {
    if s == [] then []
    else (if s[0] == target then replacement else [s[0]]) + ReplaceChar(s[1..], target, replacement)
  }

  /** `escapeSingleAndDoubleQuotes`: first every double quote, then every single quote,
      is replaced by a backslash followed by that quote. */
  function EscapeSingleAndDoubleQuotes(s: string): (r: string)
    ensures r == Escaped(s)
    ensures |r| == |s| + CountQuotes(s)
  {
    EscapeInTwoPasses(s);
    EscapedLength(s);
    ReplaceChar(ReplaceChar(s, '"', "\\\""), '\'', "\\'")
  }

  /** The escaping as one pass: a backslash goes before each quote, nothing else changes. */
  function Escaped(s: string): string {
    if s == [] then []
    else (if IsQuote(s[0]) then ['\\', s[0]] else [s[0]]) + Escaped(s[1..])
  }

  function CountQuotes(s: string): nat {
    if s == [] then 0 else (if IsQuote(s[0]) then 1 else 0) + CountQuotes(s[1..])
  }

  lemma {:induction false} ReplaceCharAppend(a: string, b: string, target: char, replacement: string)
    ensures ReplaceChar(a + b, target, replacement) == ReplaceChar(a, target, replacement) + ReplaceChar(b, target, replacement)
  {
    if a != [] {
      assert (a + b)[1..] == a[1..] + b;
      ReplaceCharAppend(a[1..], b, target, replacement);
    } else {
      assert a + b == b;
    }
  }

  lemma {:induction false} EscapeInTwoPasses(s: string)
    ensures ReplaceChar(ReplaceChar(s, '"', "\\\""), '\'', "\\'") == Escaped(s)
  {
    if s != [] {
      var head := if s[0] == '"' then "\\\"" else [s[0]];
      assert ReplaceChar(s, '"', "\\\"") == head + ReplaceChar(s[1..], '"', "\\\"");
      ReplaceCharAppend(head, ReplaceChar(s[1..], '"', "\\\""), '\'', "\\'");
      EscapeInTwoPasses(s[1..]);
      if s[0] == '"' {
        assert ReplaceChar(head, '\'', "\\'") == "\\\"" by {
          assert head[1..][1..] == [];
        }
      } else if s[0] == '\'' {
        assert ReplaceChar(head, '\'', "\\'") == "\\'" by {
          assert head[1..] == [];
        }
      } else {
        assert ReplaceChar(head, '\'', "\\'") == [s[0]] by {
          assert head[1..] == [];
        }
      }
    }
  }

  lemma {:induction false} EscapedLength(s: string)
    ensures |Escaped(s)| == |s| + CountQuotes(s)
  {
    if s != [] {
      EscapedLength(s[1..]);
    }
  }

  /** Reading escaped text back: a backslash followed by a quote stands for the quote. */
  function Unescaped(s: string): string {
    if s == [] then []
    else if |s| >= 2 && s[0] == '\\' && IsQuote(s[1]) then [s[1]] + Unescaped(s[2..])
    else [s[0]] + Unescaped(s[1..])
  }

  lemma {:induction false} EscapedNeverStartsWithQuote(s: string)
    ensures Escaped(s) != [] ==> !IsQuote(Escaped(s)[0])
  {
  }

  /** Escaping loses nothing: unescaping gives the original text back. */
  lemma {:induction false} EscapeRoundTrip(s: string)
    ensures Unescaped(EscapeSingleAndDoubleQuotes(s)) == s
  {
    EscapeRoundTripOnePass(s);
  }

  lemma {:induction false} EscapeRoundTripOnePass(s: string)
    ensures Unescaped(Escaped(s)) == s
  {
    if s != [] {
      var rest := Escaped(s[1..]);
      EscapeRoundTripOnePass(s[1..]);
      if IsQuote(s[0]) {
        assert Escaped(s) == ['\\', s[0]] + rest;
        assert Escaped(s)[2..] == rest;
      } else {
        assert Escaped(s) == [s[0]] + rest;
        assert Escaped(s)[1..] == rest;
        EscapedNeverStartsWithQuote(s[1..]);
      }
    }
  }

  // ---------------------------------------------------------------------------------
  // Cartesian product

  datatype ArgumentError = FewerThanTwoSets(count: nat)

  /** `_cartesianProduct(index, sets)`: every set made of one element of each of
      `sets[index..]` (as sets, so equal combinations collapse). */
  function ProductFrom<T>(sets: seq<set<T>>, index: nat): (r: set<set<T>>)
    requires index <= |sets|
    ensures forall m :: m in r ==> m <= UnionFrom(sets, index)
    decreases |sets| - index
  {
    if index == |sets| then {{}}
    else
      var rest := ProductFrom(sets, index + 1);
      forall m | m in Step(sets[index], rest) ensures m <= UnionFrom(sets, index) {
        var x, s :| x in sets[index] && s in rest && m == s + {x};
      }
      Step(sets[index], rest)
  }

  /** `cartesianProduct`: fewer than two sets is an illegal argument. */
  function CartesianProduct<T>(sets: seq<set<T>>): (r: Result<set<set<T>>, ArgumentError>)
    ensures r.Failure? <==> |sets| < 2
    ensures r.Failure? ==> r.error == FewerThanTwoSets(|sets|)
    ensures r.Success? ==> (r.value == {} <==> exists i :: 0 <= i < |sets| && sets[i] == {})
  {
    if |sets| < 2 then Failure(FewerThanTwoSets(|sets|))
    else
      ProductEmptyIffEmptyFactor(sets, 0);
      Success(ProductFrom(sets, 0))
  }

  /** The union of `sets[index..]`. */
  function UnionFrom<T>(sets: seq<set<T>>, index: nat): set<T>
    requires index <= |sets|
    decreases |sets| - index
  {
    if index == |sets| then {} else sets[index] + UnionFrom(sets, index + 1)
  }

  predicate PairwiseDisjoint<T>(sets: seq<set<T>>) {
    forall i, j :: 0 <= i < j < |sets| ==> sets[i] !! sets[j]
  }

  /** The product of the sizes of `sets[index..]`. */
  function SizeProduct<T>(sets: seq<set<T>>, index: nat): nat
    requires index <= |sets|
    decreases |sets| - index
  {
    if index == |sets| then 1 else |sets[index]| * SizeProduct(sets, index + 1)
  }

  /** The product is empty exactly when one of the factors is. */
  lemma {:induction false} ProductEmptyIffEmptyFactor<T>(sets: seq<set<T>>, index: nat)
    requires index <= |sets|
    ensures ProductFrom(sets, index) == {} <==> exists i :: index <= i < |sets| && sets[i] == {}
    decreases |sets| - index
  {
    if index < |sets| {
      ProductEmptyIffEmptyFactor(sets, index + 1);
      if sets[index] != {} && ProductFrom(sets, index + 1) != {} {
        var x :| x in sets[index];
        var s :| s in ProductFrom(sets, index + 1);
        assert s + {x} in ProductFrom(sets, index);
      }
    }
  }

  /** Every combination is drawn from the union of the factors. */
  lemma {:induction false} ProductMembersWithinUnion<T>(sets: seq<set<T>>, index: nat, m: set<T>)
    requires index <= |sets|
    requires m in ProductFrom(sets, index)
    ensures m <= UnionFrom(sets, index)
    decreases |sets| - index
  {
    if index < |sets| {
      var x, s :| x in sets[index] && s in ProductFrom(sets, index + 1) && m == s + {x};
      ProductMembersWithinUnion(sets, index + 1, s);
    }
  }

  lemma {:induction false} DisjointFromLaterUnion<T>(sets: seq<set<T>>, index: nat, k: nat)
    requires PairwiseDisjoint(sets)
    requires k < index <= |sets|
    ensures sets[k] !! UnionFrom(sets, index)
    decreases |sets| - index
  {
    if index < |sets| {
      DisjointFromLaterUnion(sets, index + 1, k);
    }
  }

  /** For pairwise disjoint factors, every combination holds exactly one element of each
      factor and nothing else. */
  lemma {:induction false} ProductPicksOneFromEach<T>(sets: seq<set<T>>, index: nat, m: set<T>, k: nat)
    requires PairwiseDisjoint(sets)
    requires index <= k < |sets|
    requires m in ProductFrom(sets, index)
    ensures m <= UnionFrom(sets, index)
    ensures exists x :: m * sets[k] == {x}
    decreases |sets| - index
  {
    ProductMembersWithinUnion(sets, index, m);
    var x, s :| x in sets[index] && s in ProductFrom(sets, index + 1) && m == s + {x};
    ProductMembersWithinUnion(sets, index + 1, s);
    if k == index {
      DisjointFromLaterUnion(sets, index + 1, index);
      assert m * sets[k] == {x};
    } else {
      ProductPicksOneFromEach(sets, index + 1, s, k);
      var y :| s * sets[k] == {y};
      assert x !in sets[k] by {
        assert sets[index] !! sets[k];
      }
      assert m * sets[k] == {y};
    }
  }

  /** Adding one new element to each set of a family keeps the family's size. */
  lemma {:induction false} AddToEachKeepsSize<T>(a: T, family: set<set<T>>)
    requires forall s :: s in family ==> a !in s
    ensures |set s | s in family :: s + {a}| == |family|
    decreases |family|
  {
    if family != {} {
      var s0 :| s0 in family;
      var rest := family - {s0};
      AddToEachKeepsSize(a, rest);
      var image := set s | s in family :: s + {a};
      var restImage := set s | s in rest :: s + {a};
      assert image == restImage + {s0 + {a}};
      forall s1 | s1 in rest ensures s1 + {a} != s0 + {a} {
        assert s1 != s0;
        assert (s1 + {a}) - {a} == s1;
        assert (s0 + {a}) - {a} == s0;
      }
      assert s0 + {a} !in restImage;
    } else {
      assert (set s | s in family :: s + {a}) == {};
    }
  }

  /** One step of the product: each element of the factor added to each set of the family. */
  function Step<T>(factor: set<T>, family: set<set<T>>): set<set<T>> {
    set x, s | x in factor && s in family :: s + {x}
  }

  lemma StepSplits<T>(a: T, factor: set<T>, family: set<set<T>>)
    requires a in factor
    ensures Step(factor, family) == Step(factor - {a}, family) + (set s | s in family :: s + {a})
  {
  }

  /** Sets built from different elements of the factor differ, when the family does not
      meet the factor. */
  lemma StepPartsDisjoint<T>(a: T, factor: set<T>, family: set<set<T>>)
    requires a in factor
    requires forall s :: s in family ==> s !! factor
    ensures Step(factor - {a}, family) !! (set s | s in family :: s + {a})
  {
    forall m | m in Step(factor - {a}, family) ensures m !in (set s | s in family :: s + {a}) {
      var x, s :| x in factor - {a} && s in family && m == s + {x};
      assert m * factor == {x};
      forall s' | s' in family ensures m != s' + {a} {
        assert (s' + {a}) * factor == {a};
      }
    }
  }

  lemma MulDistributes(a: nat, b: nat)
    ensures (a + 1) * b == a * b + b
  {
  }

  /** The size of one step of the product, when no set of the family meets the factor. */
  lemma {:induction false} ProductStepSize<T>(factor: set<T>, family: set<set<T>>)
    requires forall s :: s in family ==> s !! factor
    ensures |Step(factor, family)| == |factor| * |family|
    decreases |factor|
  {
    if factor == {} {
      assert Step(factor, family) == {};
    } else {
      var a :| a in factor;
      var rest := factor - {a};
      assert forall s :: s in family ==> s !! rest;
      ProductStepSize(rest, family);
      var aImage := set s | s in family :: s + {a};
      AddToEachKeepsSize(a, family);
      StepSplits(a, factor, family);
      StepPartsDisjoint(a, factor, family);
      assert |Step(factor, family)| == |Step(rest, family)| + |aImage|;
      assert |factor| == |rest| + 1;
      assert |factor| * |family| == |rest| * |family| + |family| by {
        MulDistributes(|rest|, |family|);
      }
    }
  }

  /** For pairwise disjoint factors the product has the product of their sizes. */
  lemma {:induction false} ProductSize<T>(sets: seq<set<T>>, index: nat)
    requires PairwiseDisjoint(sets)
    requires index <= |sets|
    ensures |ProductFrom(sets, index)| == SizeProduct(sets, index)
    decreases |sets| - index
  {
    if index < |sets| {
      ProductSize(sets, index + 1);
      var family := ProductFrom(sets, index + 1);
      forall s | s in family ensures s !! sets[index] {
        ProductMembersWithinUnion(sets, index + 1, s);
        DisjointFromLaterUnion(sets, index + 1, index);
      }
      ProductStepSize(sets[index], family);
      assert ProductFrom(sets, index) == Step(sets[index], family);
    } else {
      assert ProductFrom(sets, index) == {{}};
    }
  }

  /** `cartesianProduct` of pairwise disjoint sets: each combination takes exactly one
      element of every input set, and there are as many as the product of the sizes. */
  lemma CartesianProductOfDisjointSets<T>(sets: seq<set<T>>)
    requires |sets| >= 2 && PairwiseDisjoint(sets)
    ensures CartesianProduct(sets).Success?
    ensures |CartesianProduct(sets).value| == SizeProduct(sets, 0)
    ensures forall m, k :: m in CartesianProduct(sets).value && 0 <= k < |sets| ==>
              m <= UnionFrom(sets, 0) && exists x :: m * sets[k] == {x}
  {
    ProductSize(sets, 0);
    forall m, k | m in CartesianProduct(sets).value && 0 <= k < |sets|
      ensures m <= UnionFrom(sets, 0) && exists x :: m * sets[k] == {x}
    {
      ProductPicksOneFromEach(sets, 0, m, k);
    }
  }

  // ---------------------------------------------------------------------------------
  // Beans as maps from property name to a possibly-null value. The bean description
  // always lists the "class" property, which every helper drops.

  type Bean<V> = map<string, Option<V>>

  const ClassProperty := "class"

  /** `getProperties`: the bean's property names without "class". */
  function GetProperties<V>(bean: Bean<V>): (r: set<string>)
    ensures forall k :: k in r <==> k in bean && k != ClassProperty
  {
    bean.Keys - {ClassProperty}
  }

  /** `getNullProperties`: the properties whose getter returns null. */
  function GetNullProperties<V>(bean: Bean<V>): (r: set<string>)
    ensures forall k :: k in r <==> k in bean && k != ClassProperty && bean[k].None?
  {
    set k | k in GetProperties(bean) && bean[k].None?
  }

  /** `getNonNullProperties`: the properties whose getter returns a value, with it. */
  function GetNonNullProperties<V>(bean: Bean<V>): (r: map<string, V>)
    ensures forall k :: k in r <==> k in bean && k != ClassProperty && bean[k].Some?
    ensures forall k :: k in r ==> bean[k] == Some(r[k])
  {
    map k | k in GetProperties(bean) && bean[k].Some? :: bean[k].value
  }

  /** The null and non-null properties split the bean's properties, "class" in neither. */
  lemma NullAndNonNullPartition<V>(bean: Bean<V>)
    ensures GetNullProperties(bean) !! GetNonNullProperties(bean).Keys
    ensures GetNullProperties(bean) + GetNonNullProperties(bean).Keys == GetProperties(bean)
    ensures ClassProperty !in GetNullProperties(bean) && ClassProperty !in GetNonNullProperties(bean)
  {
  }

  /** The bean of the property-helper tests: two string properties, both set, then the
      second cleared. */
  lemma MyBeanExample(cls: string, s1: string, s2: string)
    ensures var bean := map[ClassProperty := Some(cls), "prop1" := Some(s1), "prop2" := Some(s2)];
            |GetNullProperties(bean)| == 0 && |GetNonNullProperties(bean).Keys| == 2
            && ClassProperty !in GetNonNullProperties(bean)
    ensures var bean := map[ClassProperty := Some(cls), "prop1" := Some(s1), "prop2" := None];
            |GetNullProperties(bean)| == 1
  {
    var full := map[ClassProperty := Some(cls), "prop1" := Some(s1), "prop2" := Some(s2)];
    assert GetNullProperties(full) == {};
    assert GetNonNullProperties(full).Keys == {"prop1", "prop2"};
    var cleared := map[ClassProperty := Some(cls), "prop1" := Some(s1), "prop2" := None];
    assert GetNullProperties(cleared) == {"prop2"};
  }

  /** `extend(o1, o2)`: every non-null property of `o2` is copied onto the property of
      `o1` with the same name; properties `o1` does not have are ignored, and a null
      `o2` changes nothing. */
  function Extend<V>(o1: Bean<V>, o2: Option<Bean<V>>): (r: Bean<V>)
    ensures r.Keys == o1.Keys
    ensures o2.None? ==> r == o1
    ensures forall k :: k in o1 ==>
              r[k] == if o2.Some? && k in GetNonNullProperties(o2.value)
                      then Some(GetNonNullProperties(o2.value)[k]) else o1[k]
  {
    match o2
    case None => o1
    case Some(source) =>
      var props := GetNonNullProperties(source);
      map k | k in o1 :: if k in props then Some(props[k]) else o1[k]
  }

  /** Extending twice from the same source is the same as extending once. */
  lemma ExtendIdempotent<V>(o1: Bean<V>, o2: Option<Bean<V>>)
    ensures Extend(Extend(o1, o2), o2) == Extend(o1, o2)
  {
  }

  /** The varargs `extend`: the sources are applied left to right. */
  function ExtendAll<V>(o1: Bean<V>, sources: seq<Option<Bean<V>>>): (r: Bean<V>)
    ensures r.Keys == o1.Keys
  {
    if sources == [] then o1 else ExtendAll(Extend(o1, sources[0]), sources[1..])
  }

  /** The value of property `k` in the last non-null source where it is non-null. */
  function LastNonNull<V>(sources: seq<Option<Bean<V>>>, k: string): Option<V> {
    if sources == [] then None
    else
      match LastNonNull(sources[1..], k)
      case Some(v) => Some(v)
      case None =>
        if sources[0].Some? && k in GetNonNullProperties(sources[0].value)
        then Some(GetNonNullProperties(sources[0].value)[k]) else None
  }

  /** Later sources win: each property ends with the value of the last source that has
      it non-null, and keeps the destination's value when no source has. */
  lemma {:induction false} ExtendAllLaterSourcesWin<V>(o1: Bean<V>, sources: seq<Option<Bean<V>>>, k: string)
    requires k in o1
    ensures ExtendAll(o1, sources)[k] == match LastNonNull(sources, k)
                                         case Some(v) => Some(v)
                                         case None => o1[k]
  {
    if sources != [] {
      ExtendAllLaterSourcesWin(Extend(o1, sources[0]), sources[1..], k);
    }
  }

  /** Folding over two runs of sources is folding over the first, then the second. */
  lemma {:induction false} ExtendAllAppend<V>(o1: Bean<V>, a: seq<Option<Bean<V>>>, b: seq<Option<Bean<V>>>)
    ensures ExtendAll(o1, a + b) == ExtendAll(ExtendAll(o1, a), b)
  {
    if a == [] {
      assert a + b == b;
    } else {
      assert (a + b)[0] == a[0] && (a + b)[1..] == a[1..] + b;
      ExtendAllAppend(Extend(o1, a[0]), a[1..], b);
    }
  }
}
