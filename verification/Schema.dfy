/**
 The meaning of the JSON Schema keywords that constraints are written with: section 6 of
 "JSON Schema Validation: A Vocabulary for Structural Validation of JSON", draft 2020-12, and
 `allOf` of section 10.2.1.1 of JSON Schema Core.
 */
module SchemaSemantics {
  import opened Wrappers
  import opened JsonValues

  /**
   What is taken from libraries: regular expressions, and the keywords that neither the merge nor
   this module knows, whose meaning may depend on the keyword, its argument and the instance.
   */
  datatype Vocabulary = Vocabulary(
    regexValid: string -> bool,
    regexMatches: (string, string) -> bool,
    otherValid: (string, Json) -> bool,
    otherAccepts: (string, Json, Json) -> bool)

  predicate IsNumericBound(keyword: string) {
    keyword in {"minimum", "maximum", "exclusiveMinimum", "exclusiveMaximum"}
  }

  predicate IsSizeBound(keyword: string) {
    keyword in {"minLength", "maxLength", "minItems", "maxItems", "minProperties", "maxProperties"}
  }

  predicate IsLowerBound(keyword: string) {
    keyword in {"minimum", "exclusiveMinimum", "minLength", "minItems", "minProperties"}
  }

  predicate IsUpperBound(keyword: string) {
    keyword in {"maximum", "exclusiveMaximum", "maxLength", "maxItems", "maxProperties"}
  }

  /** The keywords `mergeSchemaKeywords` has a case for. */
  predicate IsHandled(keyword: string) {
    keyword in {"const", "enum", "pattern", "multipleOf"} || IsLowerBound(keyword) || IsUpperBound(keyword)
  }

  predicate IsInteger(x: real) {
    x.Floor as real == x
  }

  predicate IsMultiple(x: real, unit: real)
    requires unit != 0.0
  {
    IsInteger(x / unit)
  }

  /** What a bound keyword bounds; a bound accepts every instance of another type. */
  function Measured(keyword: string, v: Json): Option<real> {
    if IsNumericBound(keyword) then
      if v.Num? then Some(v.n) else None
    else if keyword in {"minLength", "maxLength"} then
      if v.Str? then Some(|v.s| as real) else None
    else if keyword in {"minItems", "maxItems"} then
      if v.Arr? then Some(|v.items| as real) else None
    else
      if v.Obj? then Some(|v.fields| as real) else None
  }

  predicate WithinBound(keyword: string, bound: real, x: real) {
    if keyword == "exclusiveMinimum" then x > bound
    else if keyword == "exclusiveMaximum" then x < bound
    else if IsLowerBound(keyword) then x >= bound
    else x <= bound
  }

  /**
   Whether one keyword with argument `arg` accepts the instance `v`. An argument of the wrong type
   accepts nothing: the schema then does not compile, and every value is reported.
   */
  predicate KeywordAccepts(voc: Vocabulary, keyword: string, arg: Json, v: Json)
    decreases arg, 0
  {
    if keyword == "const" then v == arg
    else if keyword == "enum" then arg.Arr? && v in arg.items
    else if IsLowerBound(keyword) || IsUpperBound(keyword) then
      arg.Num? && (Measured(keyword, v).Some? ==> WithinBound(keyword, arg.n, Measured(keyword, v).value))
    else if keyword == "pattern" then arg.Str? && (v.Str? ==> voc.regexMatches(arg.s, v.s))
    else if keyword == "multipleOf" then arg.Num? && arg.n != 0.0 && (v.Num? ==> IsMultiple(v.n, arg.n))
    else if keyword == "allOf" then
      arg.Arr? && forall i | 0 <= i < |arg.items| :: SubschemaAccepts(voc, arg.items[i], v)
    else voc.otherAccepts(keyword, arg, v)
  }

  predicate SubschemaAccepts(voc: Vocabulary, schema: Json, v: Json)
    decreases schema, 2
  {
    schema == Bool(true) || (schema.Obj? && Accepts(voc, schema.fields, v))
  }

  /** Whether the schema accepts the instance: all its keywords do. */
  predicate Accepts(voc: Vocabulary, schema: Fields, v: Json)
    decreases Obj(schema), 1
  {
    forall k | k in schema :: KeywordAccepts(voc, k, schema[k], v)
  }

  /** Whether the JSON Schema compiler takes the schema. */
  predicate Compiles(voc: Vocabulary, schema: Fields)
    decreases Obj(schema), 1
  {
    forall k | k in schema :: KeywordCompiles(voc, k, schema[k])
  }

  predicate KeywordCompiles(voc: Vocabulary, keyword: string, arg: Json)
    decreases arg, 0
  {
    if keyword == "const" then true
    else if keyword == "enum" then arg.Arr?
    else if IsNumericBound(keyword) then arg.Num?
    else if IsSizeBound(keyword) then arg.Num? && arg.n >= 0.0 && IsInteger(arg.n)
    else if keyword == "pattern" then arg.Str? && voc.regexValid(arg.s)
    else if keyword == "multipleOf" then arg.Num? && arg.n > 0.0
    else if keyword == "allOf" then
      arg.Arr? && |arg.items| > 0 &&
      forall i | 0 <= i < |arg.items| ::
        arg.items[i].Bool? || (arg.items[i].Obj? && Compiles(voc, arg.items[i].fields))
    else voc.otherValid(keyword, arg)
  }

  /** Whether the merge can read the argument of a handled keyword. */
  predicate Readable(keyword: string, arg: Json) {
    if keyword == "const" then true
    else if keyword == "enum" then arg.Arr?
    else if keyword == "pattern" then arg.Str?
    else if IsHandled(keyword) then arg.Num?
    else true
  }

  // ----- The vocabulary, keyword by keyword

  function Times(z: int, unit: real): real {
    z as real * unit
  }

  lemma MultipleExactly(x: real, unit: real)
    requires unit > 0.0
    ensures IsMultiple(x, unit) <==> exists z: int :: x == Times(z, unit)
  {
    if IsMultiple(x, unit) {
      assert x == Times((x / unit).Floor, unit);
    }
    forall z: int | x == Times(z, unit)
      ensures IsMultiple(x, unit)
    {
      assert x / unit == z as real;
    }
  }

  /** A multiple divides without a remainder; patterns and multiples pass instances of other types. */
  lemma AcceptsExactly(voc: Vocabulary, arg: Json, v: Json)
    ensures KeywordAccepts(voc, "const", arg, v) <==> v == arg
    ensures arg.Arr? ==> (KeywordAccepts(voc, "enum", arg, v) <==> exists i | 0 <= i < |arg.items| :: arg.items[i] == v)
    ensures arg.Str? ==> (KeywordAccepts(voc, "pattern", arg, v) <==> !v.Str? || voc.regexMatches(arg.s, v.s))
    ensures arg.Num? && arg.n > 0.0 ==>
      (KeywordAccepts(voc, "multipleOf", arg, v) <==> !v.Num? || exists z: int :: v.n == Times(z, arg.n))
  {
    if arg.Num? && arg.n > 0.0 && v.Num? {
      MultipleExactly(v.n, arg.n);
    }
  }

  /** And so do bounds. */
  lemma OtherTypesPass(voc: Vocabulary, k: string, arg: Json, v: Json)
    requires arg.Num?
    requires match k
      case "minimum" | "maximum" | "exclusiveMinimum" | "exclusiveMaximum" => !v.Num?
      case "minLength" | "maxLength" => !v.Str?
      case "minItems" | "maxItems" => !v.Arr?
      case "minProperties" | "maxProperties" => !v.Obj?
      case _ => false
    ensures KeywordAccepts(voc, k, arg, v)
  {
  }

  /** Sizes are natural numbers. */
  lemma SizesCompile(voc: Vocabulary, k: string, arg: Json)
    requires k in ["minLength", "maxLength", "minItems", "maxItems", "minProperties", "maxProperties"]
    ensures KeywordCompiles(voc, k, arg) <==> exists n: nat :: arg == Num(Times(n, 1.0))
  {
    if arg.Num? {
      MultipleExactly(arg.n, 1.0);
      assert arg.n / 1.0 == arg.n;
    }
  }

  /** A bound on numbers takes any number, a multiple positive ones, a pattern valid ones, and an enum any list. */
  lemma {:induction false} ArgumentsCompile(voc: Vocabulary, arg: Json)
    ensures KeywordCompiles(voc, "const", arg)
    ensures KeywordCompiles(voc, "enum", arg) <==> arg.Arr?
    ensures KeywordCompiles(voc, "pattern", arg) <==> arg.Str? && voc.regexValid(arg.s)
    ensures KeywordCompiles(voc, "multipleOf", arg) <==> arg.Num? && arg.n > 0.0
    ensures KeywordCompiles(voc, "minimum", arg) <==> arg.Num?
    ensures KeywordCompiles(voc, "maximum", arg) <==> arg.Num?
    ensures KeywordCompiles(voc, "exclusiveMinimum", arg) <==> arg.Num?
    ensures KeywordCompiles(voc, "exclusiveMaximum", arg) <==> arg.Num?
  {
  }

  /** A list of subschemas is not empty, and has no member that does not compile. */
  lemma {:induction false} AllOfCompiles(voc: Vocabulary, arg: Json)
    ensures KeywordCompiles(voc, "allOf", arg)
       <==> && arg.Arr? && arg.items != []
            && !exists i | 0 <= i < |arg.items| ::
                 !arg.items[i].Bool? && (arg.items[i].Obj? ==> !Compiles(voc, arg.items[i].fields))
  {
  }
}
