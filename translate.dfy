/**
 * The translation rules, as functions: one type, one property, one
 * structure, one enumeration. Translating a type can record anonymous-union
 * keys that have no configured name; each function returns those keys next
 * to its result, and the translator adds them to its `anon_missing` set.
 */
module Translate {
  import opened Wrappers
  import opened Errors
  import opened Target
  import opened Schema
  import opened Configuration

  /** A result together with the anonymous-union keys recorded while computing it. */
  datatype Outcome<T> = Outcome(result: Result<T, Failure>, missing: set<string>)

  type TypeOutcome = Outcome<Option<TypeRef>>

  /** The placeholder type given to an anonymous union without a configured name. */
  const Placeholder: string := "todo!()"

  // ---------------------------------------------------------------------
  // Types
  // ---------------------------------------------------------------------

  /** The base-type table of the translation (not the one of `into_reference`). */
  function BaseTranslation(b: BaseType): (r: Result<TypeRef, Failure>)
  {
    match b
    case Uri => Ok(New("crate::Uri"))
    case DocumentUri => Ok(New("crate::DocumentUri"))
    case Integer => Ok(New("i64"))
    case Uinteger => Ok(New("u32"))
    case Decimal => Ok(New("f32"))
    case RegExp => Err(Panicked(RegExpBase))
    case String => Ok(New("String"))
    case Boolean => Ok(New("bool"))
    case Null => Err(Panicked(NullBase))
  }

  /** An inline structure literal with no properties, the `{}` arm of a union. */
  predicate IsEmptyLiteral(t: Type)
  {
    t.Literal? && |t.literal.properties| == 0
  }

  /** The arms of a union that are not empty literals, in their order. */
  function RetainNonEmpty(items: seq<Type>): (kept: seq<Type>)
    ensures |kept| <= |items|
    ensures forall i :: 0 <= i < |kept| ==> kept[i] in items && !IsEmptyLiteral(kept[i])
  {
    if items == [] then []
    else if IsEmptyLiteral(items[0]) then RetainNonEmpty(items[1..])
    else [items[0]] + RetainNonEmpty(items[1..])
  }

  /** Every arm that is not an empty literal survives the filter. */
  lemma {:induction false} RetainKeepsNonEmpty(items: seq<Type>)
    ensures forall x :: x in items && !IsEmptyLiteral(x) ==> x in RetainNonEmpty(items)
  {
    if items != [] {
      RetainKeepsNonEmpty(items[1..]);
      assert forall x :: x in items ==> x == items[0] || x in items[1..];
    }
  }

  /** `Type::translate`. */
  function TypeTranslation(anonMappings: map<string, string>, t: Type): (r: TypeOutcome)
    decreases t, 1
  {
    match t
    case Base(b) =>
      (match BaseTranslation(b)
       case Ok(x) => Outcome(Ok(Some(x)), {})
       case Err(f) => Outcome(Err(f), {}))
    case Array(element) => ArrayTypeTranslation(anonMappings, element)
    case Reference(name) => Outcome(Ok(Some(New(name))), {})
    case Map(key, value) => MapTypeTranslation(anonMappings, key, value)
    case Or(items) => UnionTranslation(anonMappings, items)
    case Tuple(_) => Outcome(Err(Bail(TupleType)), {})
    case Literal(_) => Outcome(Err(Bail(LiteralType)), {})
    case StringLiteral(_) => Outcome(Ok(None), {})
    case IntegerLiteral(n) => Outcome(Err(Bail(IntegerLiteralType(n))), {})
    case BooleanLiteral(b) => Outcome(Err(Bail(BooleanLiteralType(b))), {})
  }

  /** The `Array` arm of `Type::translate`: `Vec<element>`, or the element's own outcome when it has no type. */
  function ArrayTypeTranslation(anonMappings: map<string, string>, element: Type): (r: TypeOutcome)
    decreases Array(element), 0
  {
    var e := TypeTranslation(anonMappings, element);
    match e.result
    case Ok(Some(x)) => Outcome(Ok(Some(NewGenerics("Vec", [x]))), e.missing)
    case _ => e
  }

  /** The `Map` arm of `Type::translate`: the key first, then the value, then the `HashMap`. */
  function MapTypeTranslation(anonMappings: map<string, string>, key: Type, value: Type): (r: TypeOutcome)
    decreases Map(key, value), 0
  {
    var k := TypeTranslation(anonMappings, key);
    match k.result
    case Ok(Some(kx)) =>
      var v := TypeTranslation(anonMappings, value);
      (match v.result
       case Ok(Some(vx)) =>
         Outcome(Ok(Some(NewGenerics("std::collections::HashMap", [kx, vx]))), k.missing + v.missing)
       case _ => Outcome(v.result, k.missing + v.missing))
    case _ => k
  }

  /**
   * The `Or` arm of `Type::translate`: after dropping empty literals, a sole
   * arm stands for itself, `[T, Null]` is `Option<T>`, and anything else is
   * named through the anonymous-union table.
   */
  function UnionTranslation(anonMappings: map<string, string>, items: seq<Type>): (r: TypeOutcome)
    decreases Or(items), 0
  {
    var kept := RetainNonEmpty(items);
    if |kept| == 1 then
      TypeTranslation(anonMappings, kept[0])
    else if |kept| == 2 && kept[1] == Base(Null) then
      var inner := TypeTranslation(anonMappings, kept[0]);
      (match inner.result
       case Ok(Some(x)) => Outcome(Ok(Some(NewGenerics("Option", [x]))), inner.missing)
       case _ => inner)
    else
      (match LookupAnon(anonMappings, kept)
       case Err(f) => Outcome(Err(f), {})
       case Ok(Ok(named)) => Outcome(Ok(Some(named)), {})
       case Ok(Err(None)) => Outcome(Err(Bail(UndecidableUnion)), {})
       case Ok(Err(Some(key))) => Outcome(Ok(Some(New(Placeholder))), {key}))
  }

  // ---------------------------------------------------------------------
  // Properties of the type translation
  // ---------------------------------------------------------------------

  lemma {:induction false} RetainAppend(a: seq<Type>, b: seq<Type>)
    ensures RetainNonEmpty(a + b) == RetainNonEmpty(a) + RetainNonEmpty(b)
  {
    if a == [] {
      assert a + b == b;
    } else {
      assert (a + b)[1..] == a[1..] + b;
      RetainAppend(a[1..], b);
    }
  }

  lemma {:induction false} RetainIdempotent(items: seq<Type>)
    ensures RetainNonEmpty(RetainNonEmpty(items)) == RetainNonEmpty(items)
  {
    if items != [] {
      RetainIdempotent(items[1..]);
    }
  }

  /** Empty-literal arms make no difference to a union's translation. */
  lemma UnionIgnoresEmptyLiterals(anonMappings: map<string, string>, items: seq<Type>)
    ensures TypeTranslation(anonMappings, Or(items)) == TypeTranslation(anonMappings, Or(RetainNonEmpty(items)))
  {
    var kept := RetainNonEmpty(items);
    RetainIdempotent(items);
    assert TypeTranslation(anonMappings, Or(items)) == UnionTranslation(anonMappings, items);
    assert TypeTranslation(anonMappings, Or(kept)) == UnionTranslation(anonMappings, kept);
    SameArmsSameUnion(anonMappings, items, kept);
  }

  /** A union's translation depends only on the arms it keeps. */
  lemma SameArmsSameUnion(anonMappings: map<string, string>, a: seq<Type>, b: seq<Type>)
    requires RetainNonEmpty(a) == RetainNonEmpty(b)
    ensures UnionTranslation(anonMappings, a) == UnionTranslation(anonMappings, b)
  {
  }

  /**
   * A union that is one arm surrounded only by empty literals translates as
   * that arm does.
   */
  lemma SoleArm(anonMappings: map<string, string>, before: seq<Type>, t: Type, after: seq<Type>)
    requires !IsEmptyLiteral(t)
    requires forall i :: 0 <= i < |before| ==> IsEmptyLiteral(before[i])
    requires forall i :: 0 <= i < |after| ==> IsEmptyLiteral(after[i])
    ensures TypeTranslation(anonMappings, Or(before + [t] + after)) == TypeTranslation(anonMappings, t)
  {
    RetainAppend(before + [t], after);
    RetainAppend(before, [t]);
    assert RetainNonEmpty(before) == [] by { AllEmptyRetained(before); }
    assert RetainNonEmpty(after) == [] by { AllEmptyRetained(after); }
  }

  lemma {:induction false} AllEmptyRetained(items: seq<Type>)
    requires forall i :: 0 <= i < |items| ==> IsEmptyLiteral(items[i])
    ensures RetainNonEmpty(items) == []
  {
    if items != [] {
      AllEmptyRetained(items[1..]);
    }
  }

  /**
   * `[T, Null]` is `Option<T>`: no type when `T` has none, the same failure
   * when `T` fails, and the same recorded keys.
   */
  lemma OptionalUnion(anonMappings: map<string, string>, t: Type)
    requires !IsEmptyLiteral(t)
    ensures var r, u := TypeTranslation(anonMappings, Or([t, Base(Null)])), TypeTranslation(anonMappings, t);
      && r.missing == u.missing
      && (u.result.Ok? && u.result.value.Some? ==>
            r.result == Ok(Some(NewGenerics("Option", [u.result.value.value]))) &&
            r.result.value.value.AsStr() == "Option" + "<" + u.result.value.value.AsStr() + ">")
      && (u.result == Ok(None) ==> r.result == Ok(None))
      && (u.result.Err? ==> r.result == u.result)
  {
    var kept := [t, Base(Null)];
    assert RetainNonEmpty(kept) == kept;
    var u := TypeTranslation(anonMappings, t);
    assert TypeTranslation(anonMappings, Or(kept)) == UnionTranslation(anonMappings, kept);
    assert TypeTranslation(anonMappings, Or(kept)) ==
      match u.result
      case Ok(Some(x)) => Outcome(Ok(Some(NewGenerics("Option", [x]))), u.missing)
      case _ => u;
    if u.result.Ok? && u.result.value.Some? {
      SingleGeneric("Option", u.result.value.value);
    }
  }

  /**
   * `[Null, T]` is not read as optional: unless `T` is itself `Null` or an
   * empty literal, the union goes to the anonymous lookup, where the `Null`
   * arm has no reference, and the translation fails.
   */
  lemma NullFirstIsUndecidable(anonMappings: map<string, string>, t: Type)
    requires !IsEmptyLiteral(t) && t != Base(Null)
    ensures TypeTranslation(anonMappings, Or([Base(Null), t])) == Outcome(Err(Bail(UndecidableUnion)), {})
  {
    assert RetainNonEmpty([Base(Null), t]) == [Base(Null), t];
    assert FirstMiss(Reductions([Base(Null), t])) == 0;
  }

  /**
   * A union that is neither a single arm nor `[T, Null]` is named by the
   * table when every arm reduces: the configured name on a hit, otherwise
   * the placeholder with its key recorded. When no arm can panic but one
   * does not reduce, the translation fails.
   */
  lemma AnonymousUnion(anonMappings: map<string, string>, items: seq<Type>)
    requires var kept := RetainNonEmpty(items);
      |kept| != 1 && !(|kept| == 2 && kept[1] == Base(Null))
    requires forall i :: 0 <= i < |items| ==> !ReducePanics(items[i])
    ensures var kept := RetainNonEmpty(items);
      var r := TypeTranslation(anonMappings, Or(items));
      && ((forall i :: 0 <= i < |kept| ==> Reducible(kept[i])) ==>
            AllReduce(kept) &&
            var key := AnonKey(ReferencesOf(kept));
            r == if key in anonMappings then Outcome(Ok(Some(New(anonMappings[key]))), {})
                 else Outcome(Ok(Some(New(Placeholder))), {key}))
      && ((exists i :: 0 <= i < |kept| && !Reducible(kept[i])) ==> r == Outcome(Err(Bail(UndecidableUnion)), {}))
  {
    var kept := RetainNonEmpty(items);
    assert TypeTranslation(anonMappings, Or(items)) ==
      match LookupAnon(anonMappings, kept)
      case Err(f) => Outcome(Err(f), {})
      case Ok(Ok(named)) => Outcome(Ok(Some(named)), {})
      case Ok(Err(None)) => Outcome(Err(Bail(UndecidableUnion)), {})
      case Ok(Err(Some(key))) => Outcome(Ok(Some(New(Placeholder))), {key});
    LookupAnonWithoutPanics(anonMappings, kept);
  }

  /** Only keys that were looked up and not found are recorded. */
  lemma {:induction false} RecordedKeysAreUnmapped(anonMappings: map<string, string>, t: Type)
    ensures forall key :: key in TypeTranslation(anonMappings, t).missing ==> key !in anonMappings
  {
    match t
    case Array(element) =>
      RecordedKeysAreUnmapped(anonMappings, element);
    case Map(key, value) =>
      RecordedKeysAreUnmapped(anonMappings, key);
      RecordedKeysAreUnmapped(anonMappings, value);
    case Or(items) =>
      var kept := RetainNonEmpty(items);
      if |kept| == 1 || (|kept| == 2 && kept[1] == Base(Null)) {
        RecordedKeysAreUnmapped(anonMappings, kept[0]);
      }
    case _ =>
  }

  /** Names, the plain scalar base types and arrays of them: where both tables agree. */
  predicate Plain(t: Type)
  {
    match t
    case Reference(_) => true
    case Base(b) => b in {Integer, Uinteger, String, Boolean}
    case Array(element) => Plain(element)
    case _ => false
  }

  /**
   * On plain types the translation gives exactly the reference that
   * `into_reference` gives, and records nothing.
   */
  lemma {:induction false} PlainTypesTranslateAsReduced(anonMappings: map<string, string>, t: Type)
    requires Plain(t)
    ensures IsReference(IntoReference(t))
    ensures TypeTranslation(anonMappings, t) == Outcome(IntoReference(t), {})
  {
    match t
    case Array(element) =>
      PlainTypesTranslateAsReduced(anonMappings, element);
    case _ =>
  }

  /**
   * The two base-type tables: they agree on the scalar types, the
   * translation qualifies the URI types with `crate::`, names `Decimal`
   * `f32` where `into_reference` has nothing, and panics on `RegExp` and
   * `Null`, which `into_reference` leaves unnamed.
   */
  lemma BaseTables(b: BaseType)
    ensures b in {Integer, Uinteger, String, Boolean} ==>
      BaseTranslation(b).Ok? && BaseReference(b) == Some(BaseTranslation(b).value)
    ensures b in {Uri, DocumentUri} ==>
      BaseTranslation(b).Ok? && BaseReference(b).Some? &&
      BaseTranslation(b).value.AsStr() == "crate::" + BaseReference(b).value.AsStr()
    ensures b == Decimal ==> BaseReference(b).None? && BaseTranslation(b) == Ok(New("f32"))
    ensures b in {RegExp, Null} ==> BaseReference(b).None? && BaseTranslation(b).Err? && BaseTranslation(b).error.Panicked?
  {
  }

  /** An array has no type when its element has none, and is otherwise `Vec<element>`. */
  lemma ArrayTranslation(anonMappings: map<string, string>, e: Type)
    ensures var a, x := TypeTranslation(anonMappings, Array(e)), TypeTranslation(anonMappings, e);
      && a.missing == x.missing
      && (x.result == Ok(None) ==> a.result == Ok(None))
      && (x.result.Err? ==> a.result == x.result)
      && (x.result.Ok? && x.result.value.Some? ==>
            a.result.Ok? && a.result.value.Some? &&
            a.result.value.value.AsStr() == "Vec" + "<" + x.result.value.value.AsStr() + ">")
  {
    var x := TypeTranslation(anonMappings, e);
    assert TypeTranslation(anonMappings, Array(e)) == ArrayTypeTranslation(anonMappings, e);
    if x.result.Ok? && x.result.value.Some? {
      var inner := x.result.value.value;
      assert TypeTranslation(anonMappings, Array(e)) == Outcome(Ok(Some(NewGenerics("Vec", [inner]))), x.missing);
      SingleGeneric("Vec", inner);
    } else {
      assert TypeTranslation(anonMappings, Array(e)) == x;
    }
  }

  /**
   * A map has no type as soon as its key or value has none: the key is
   * translated first, and the value only when the key has a type.
   */
  lemma MapWithoutType(anonMappings: map<string, string>, k: Type, v: Type)
    ensures var kr := TypeTranslation(anonMappings, k);
      !(kr.result.Ok? && kr.result.value.Some?) ==> TypeTranslation(anonMappings, Map(k, v)) == kr
    ensures var kr, vr := TypeTranslation(anonMappings, k), TypeTranslation(anonMappings, v);
      kr.result.Ok? && kr.result.value.Some? && !(vr.result.Ok? && vr.result.value.Some?) ==>
      TypeTranslation(anonMappings, Map(k, v)) == Outcome(vr.result, kr.missing + vr.missing)
  {
    assert TypeTranslation(anonMappings, Map(k, v)) == MapTypeTranslation(anonMappings, k, v);
    var kr, vr := TypeTranslation(anonMappings, k), TypeTranslation(anonMappings, v);
    if kr.result.Ok? && kr.result.value.Some? {
      assert MapTypeTranslation(anonMappings, k, v) ==
        if vr.result.Ok? && vr.result.value.Some? then
          Outcome(Ok(Some(NewGenerics("std::collections::HashMap", [kr.result.value.value, vr.result.value.value]))), kr.missing + vr.missing)
        else Outcome(vr.result, kr.missing + vr.missing);
    } else {
      assert MapTypeTranslation(anonMappings, k, v) == kr;
    }
  }

  /** A map whose key and value have types is `std::collections::HashMap<key,value>`. */
  lemma MapRendering(anonMappings: map<string, string>, k: Type, v: Type)
    requires IsReference(TypeTranslation(anonMappings, k).result)
    requires IsReference(TypeTranslation(anonMappings, v).result)
    ensures var m, kr, vr := TypeTranslation(anonMappings, Map(k, v)), TypeTranslation(anonMappings, k), TypeTranslation(anonMappings, v);
      && IsReference(m.result)
      && m.missing == kr.missing + vr.missing
      && m.result.value.value.AsStr() ==
           "std::collections::HashMap" + "<" + kr.result.value.value.AsStr() + "," + vr.result.value.value.AsStr() + ">"
  {
    var kr, vr := TypeTranslation(anonMappings, k), TypeTranslation(anonMappings, v);
    var kx, vx := kr.result.value.value, vr.result.value.value;
    assert TypeTranslation(anonMappings, Map(k, v)) == MapTypeTranslation(anonMappings, k, v);
    assert MapTypeTranslation(anonMappings, k, v) ==
      Outcome(Ok(Some(NewGenerics("std::collections::HashMap", [kx, vx]))), kr.missing + vr.missing);
    PairGeneric("std::collections::HashMap", kx, vx);
  }

  /**
   * Shapes without a translation: a string literal has no type (its
   * property is dropped), while tuples, structure literals and integer or
   * boolean literals are errors. A name passes through unchanged.
   */
  lemma LeafShapes(anonMappings: map<string, string>, t: Type)
    ensures t.StringLiteral? ==> TypeTranslation(anonMappings, t) == Outcome(Ok(None), {})
    ensures t.Tuple? ==> TypeTranslation(anonMappings, t).result == Err(Bail(TupleType))
    ensures t.Literal? ==> TypeTranslation(anonMappings, t).result == Err(Bail(LiteralType))
    ensures t.IntegerLiteral? ==> TypeTranslation(anonMappings, t).result == Err(Bail(IntegerLiteralType(t.number)))
    ensures t.BooleanLiteral? ==> TypeTranslation(anonMappings, t).result == Err(Bail(BooleanLiteralType(t.flag)))
    ensures t.Reference? ==> TypeTranslation(anonMappings, t) == Outcome(Ok(Some(New(t.name))), {})
  {
  }

  /** `A | B` with no configured name: the placeholder, and "A|B" recorded. */
  lemma UnnamedUnionScenario(anonMappings: map<string, string>)
    requires "A|B" !in anonMappings
    ensures TypeTranslation(anonMappings, Or([Reference("A"), Reference("B")])) ==
      Outcome(Ok(Some(New(Placeholder))), {"A|B"})
  {
    var items := [Reference("A"), Reference("B")];
    assert TypeTranslation(anonMappings, Or(items)) == UnionTranslation(anonMappings, items);
    assert RetainNonEmpty(items) == items;
    LookupAnonContract(anonMappings, items);
    KeyOfTwoReferences();
  }

  lemma KeyOfTwoReferences()
    ensures var items := [Reference("A"), Reference("B")];
      AllReduce(items) && AnonKey(ReferencesOf(items)) == "A|B"
  {
    var items := [Reference("A"), Reference("B")];
    assert AllReduce(items);
    assert Texts(ReferencesOf(items)) == ["A", "B"];
    assert ["A", "B"][1..] == ["B"];
  }

  // ---------------------------------------------------------------------
  // Properties and structures
  // ---------------------------------------------------------------------

  /** One property: its field, no field when its type has none, or the failure. */
  function PropertyField(anonMappings: map<string, string>, p: Property): (r: Outcome<Option<StructField>>)
  {
    var t := TypeTranslation(anonMappings, p.ty);
    match t.result
    case Err(f) => Outcome(Err(WhileTranslatingProperty(p.name, f)), t.missing)
    case Ok(None) => Outcome(Ok(None), t.missing)
    case Ok(Some(ty)) =>
      (match Parse(p.since)
       case Err(e) => Outcome(Err(Bail(e)), t.missing)
       case Ok(since) => Outcome(Ok(Some(StructField(p.name, ty, p.documentation, since, p.deprecated))), t.missing))
  }

  /** The fields of a property list, in order: the loop over a structure's properties. */
  function Fields(anonMappings: map<string, string>, props: seq<Property>): (r: Outcome<seq<StructField>>)
    decreases |props|
  {
    if props == [] then Outcome(Ok([]), {})
    else
      var prev := Fields(anonMappings, props[..|props| - 1]);
      if prev.result.Err? then prev
      else
        var step := PropertyField(anonMappings, props[|props| - 1]);
        var missing := prev.missing + step.missing;
        match step.result
        case Err(f) => Outcome(Err(f), missing)
        case Ok(None) => Outcome(Ok(prev.result.value), missing)
        case Ok(Some(field)) => Outcome(Ok(prev.result.value + [field]), missing)
  }

  /** The declared base types: `extends` then `mixins`, each reduced and unwrapped. */
  function BaseList(s: Structure): (r: Result<seq<string>, Failure>)
  {
    match Collect(Reductions(s.extendsTypes + s.mixins))
    case Err(f) => Err(f)
    case Ok(None) => Err(Panicked(UnwrapNone))
    case Ok(Some(refs)) => Ok(Texts(refs))
  }

  /** `Structure::translate`. */
  function StructureTranslation(anonMappings: map<string, string>, s: Structure): (r: Outcome<Struct>)
  {
    match BaseList(s)
    case Err(f) => Outcome(Err(f), {})
    case Ok(bases) =>
      var fields := Fields(anonMappings, s.properties);
      match fields.result
      case Err(f) => Outcome(Err(f), fields.missing)
      case Ok(fs) =>
        match Parse(s.since)
        case Err(e) => Outcome(Err(Bail(e)), fields.missing)
        case Ok(since) => Outcome(Ok(Struct(s.name, bases, fs, s.documentation, s.deprecated, since)), fields.missing)
  }

  /** The properties that become fields: those whose type translates to a type. */
  function KeptProperties(anonMappings: map<string, string>, props: seq<Property>): (kept: seq<Property>)
    decreases |props|
  {
    if props == [] then []
    else
      var last := props[|props| - 1];
      KeptProperties(anonMappings, props[..|props| - 1]) +
        (if IsReference(TypeTranslation(anonMappings, last.ty).result) then [last] else [])
  }

  /** A property translates when its type does and, if it has a type, its `since` parses. */
  predicate PropertyTranslates(anonMappings: map<string, string>, p: Property)
  {
    var t := TypeTranslation(anonMappings, p.ty).result;
    t.Ok? && (t.value.Some? ==> Parse(p.since).Ok?)
  }

  /**
   * The fields follow the properties: the list succeeds exactly when every
   * property translates, and then holds one field per kept property, in
   * order, with its name, type, documentation and deprecation.
   */
  lemma {:induction false} FieldsFollowProperties(anonMappings: map<string, string>, props: seq<Property>)
    ensures Fields(anonMappings, props).result.Ok? <==> forall i :: 0 <= i < |props| ==> PropertyTranslates(anonMappings, props[i])
    ensures Fields(anonMappings, props).result.Ok? ==>
      var fs, kept := Fields(anonMappings, props).result.value, KeptProperties(anonMappings, props);
      && |fs| == |kept| <= |props|
      && forall k :: 0 <= k < |fs| ==> FieldFor(anonMappings, fs[k], kept[k])
    decreases |props|
  {
    if props != [] {
      var init, last := props[..|props| - 1], props[|props| - 1];
      FieldsFollowProperties(anonMappings, init);
      assert forall i :: 0 <= i < |init| ==> init[i] == props[i];
      PropertyFieldContract(anonMappings, last);
      var prev := Fields(anonMappings, init);
      if prev.result.Ok? && PropertyField(anonMappings, last).result.Ok? {
        var kept0 := KeptProperties(anonMappings, init);
        match PropertyField(anonMappings, last).result.value
        case None =>
          assert KeptProperties(anonMappings, props) == kept0;
        case Some(f) =>
          assert KeptProperties(anonMappings, props) == kept0 + [last];
          FieldsForAppend(anonMappings, prev.result.value, kept0, f, last);
      }
    }
  }

  /** The field `f` is what the loop makes of property `p`. */
  predicate FieldFor(anonMappings: map<string, string>, f: StructField, p: Property)
  {
    && f.name == p.name
    && TypeTranslation(anonMappings, p.ty).result == Ok(Some(f.ty))
    && f.doc == p.documentation
    && f.deprecated == p.deprecated
    && Parse(p.since) == Ok(f.since)
  }

  /** One property: it fails exactly when it does not translate, and a field it yields is made from it. */
  lemma PropertyFieldContract(anonMappings: map<string, string>, p: Property)
    ensures PropertyField(anonMappings, p).result.Ok? <==> PropertyTranslates(anonMappings, p)
    ensures var r := PropertyField(anonMappings, p).result;
      r.Ok? ==> (r.value.Some? <==> IsReference(TypeTranslation(anonMappings, p.ty).result))
    ensures var r := PropertyField(anonMappings, p).result;
      r.Ok? && r.value.Some? ==> FieldFor(anonMappings, r.value.value, p)
  {
  }

  lemma FieldsForAppend(anonMappings: map<string, string>, fs: seq<StructField>, kept: seq<Property>, f: StructField, p: Property)
    requires |fs| == |kept| && forall k :: 0 <= k < |fs| ==> FieldFor(anonMappings, fs[k], kept[k])
    requires FieldFor(anonMappings, f, p)
    ensures forall k :: 0 <= k < |fs| + 1 ==> FieldFor(anonMappings, (fs + [f])[k], (kept + [p])[k])
  {
  }

  /** How many properties have a string-literal type. */
  function StringLiteralCount(props: seq<Property>): (n: nat)
    ensures n <= |props|
    decreases |props|
  {
    if props == [] then 0
    else StringLiteralCount(props[..|props| - 1]) + (if props[|props| - 1].ty.StringLiteral? then 1 else 0)
  }

  /**
   * When every property either has a string-literal type or translates to a
   * type, exactly the string-literal properties are dropped.
   */
  lemma {:induction false} StringLiteralsDropped(anonMappings: map<string, string>, props: seq<Property>)
    requires forall i :: 0 <= i < |props| ==>
      props[i].ty.StringLiteral? || IsReference(TypeTranslation(anonMappings, props[i].ty).result)
    ensures |KeptProperties(anonMappings, props)| == |props| - StringLiteralCount(props)
    decreases |props|
  {
    if props != [] {
      var init := props[..|props| - 1];
      assert forall i :: 0 <= i < |init| ==> init[i] == props[i];
      StringLiteralsDropped(anonMappings, init);
    }
  }

  /** The names of types that are all references. */
  function ReferenceNames(ts: seq<Type>): (names: seq<string>)
    requires forall i :: 0 <= i < |ts| ==> ts[i].Reference?
    ensures |names| == |ts|
  {
    seq(|ts|, i requires 0 <= i < |ts| && ts[i].Reference? => ts[i].name)
  }

  /**
   * The base list is `extends` followed by `mixins`, in order and without
   * removing repeats; it panics as soon as one of them does not reduce.
   */
  lemma BaseListInOrder(s: Structure)
    ensures BaseList(s).Ok? <==> AllReduce(s.extendsTypes + s.mixins)
    ensures BaseList(s).Ok? ==> BaseList(s).value == Texts(ReferencesOf(s.extendsTypes + s.mixins))
    ensures BaseList(s).Err? ==> BaseList(s).error.Panicked?
    ensures (forall i :: 0 <= i < |s.extendsTypes| ==> s.extendsTypes[i].Reference?) &&
            (forall i :: 0 <= i < |s.mixins| ==> s.mixins[i].Reference?) ==>
      BaseList(s) == Ok(ReferenceNames(s.extendsTypes) + ReferenceNames(s.mixins))
  {
    var all := s.extendsTypes + s.mixins;
    var rs := Reductions(all);
    var k := FirstMiss(rs);
    if k < |rs| {
      var e := IntoReference(all[k]);
      if e.Err? {
        IntoReferenceClassifies(all[k]);
        ReducePanicsOnly(all[k]);
      }
    }
    assert Collect(rs).Ok? && Collect(rs).value.Some? ==> Collect(rs).value.value == ReferencesOf(all);
    if (forall i :: 0 <= i < |s.extendsTypes| ==> s.extendsTypes[i].Reference?) &&
       (forall i :: 0 <= i < |s.mixins| ==> s.mixins[i].Reference?) {
      ReferenceNamesAppend(s.extendsTypes, s.mixins);
      NamedTexts(all);
    }
  }

  lemma ReferenceNamesAppend(a: seq<Type>, b: seq<Type>)
    requires forall i :: 0 <= i < |a| ==> a[i].Reference?
    requires forall i :: 0 <= i < |b| ==> b[i].Reference?
    ensures forall i :: 0 <= i < |a + b| ==> (a + b)[i].Reference?
    ensures ReferenceNames(a + b) == ReferenceNames(a) + ReferenceNames(b)
  {
    var all := a + b;
    forall i | 0 <= i < |all| ensures all[i].Reference? {
      if i < |a| {
        assert all[i] == a[i];
      } else {
        assert all[i] == b[i - |a|];
      }
    }
  }

  /** A list of named references all reduce, and their texts are their names. */
  lemma NamedTexts(ts: seq<Type>)
    requires forall i :: 0 <= i < |ts| ==> ts[i].Reference?
    ensures AllReduce(ts) && Texts(ReferencesOf(ts)) == ReferenceNames(ts)
  {
    assert AllReduce(ts);
    var texts, names := Texts(ReferencesOf(ts)), ReferenceNames(ts);
    forall i | 0 <= i < |ts| ensures texts[i] == names[i] {
      assert IntoReference(ts[i]) == Ok(Some(New(ts[i].name)));
    }
  }

  /** `into_reference` panics only with `UnwrapNone`. */
  lemma {:induction false} ReducePanicsOnly(t: Type)
    ensures IntoReference(t).Err? ==> IntoReference(t).error == Panicked(UnwrapNone)
  {
    match t
    case Array(element) =>
      ReducePanicsOnly(element);
    case Tuple(items) =>
      var rs := Reductions(items);
      var k := FirstMiss(rs);
      if k < |rs| {
        ReducePanicsOnly(items[k]);
      }
    case _ =>
  }

  /**
   * A translated structure keeps its name, documentation and deprecation,
   * takes its base list and the fields of its properties, and records the
   * keys its property types record.
   */
  lemma StructureShape(anonMappings: map<string, string>, s: Structure)
    ensures var r := StructureTranslation(anonMappings, s);
      r.result.Ok? ==>
        && r.result.value.name == s.name
        && Ok(r.result.value.extendsTypes) == BaseList(s)
        && Ok(r.result.value.fields) == Fields(anonMappings, s.properties).result
        && |r.result.value.fields| <= |s.properties|
        && r.result.value.doc == s.documentation
        && r.result.value.deprecated == s.deprecated
        && Ok(r.result.value.since) == Parse(s.since)
        && r.missing == Fields(anonMappings, s.properties).missing
  {
    if StructureTranslation(anonMappings, s).result.Ok? {
      FieldsFollowProperties(anonMappings, s.properties);
    }
  }

  /**
   * How property `p` can make the loop fail with `f`: an error of its type
   * comes back wrapped in the property's name, a panic of its type comes
   * back unchanged, and a version that does not parse comes back unwrapped.
   */
  predicate PropertyFailsWith(anonMappings: map<string, string>, p: Property, f: Failure)
  {
    var t := TypeTranslation(anonMappings, p.ty).result;
    || (t.Err? && t.error.Bail? && f == Bail(WhileProperty(p.name, t.error.error)))
    || (t.Err? && t.error.Panicked? && f == t.error)
    || (IsReference(t) && Parse(p.since).Err? && f == Bail(Parse(p.since).error))
  }

  /** A failing property fails in one of the ways `PropertyFailsWith` lists. */
  lemma PropertyFailure(anonMappings: map<string, string>, p: Property)
    ensures var r := PropertyField(anonMappings, p).result;
      r.Err? ==> PropertyFailsWith(anonMappings, p, r.error)
  {
    var r, t := PropertyField(anonMappings, p).result, TypeTranslation(anonMappings, p.ty).result;
    if t.Err? {
      assert r == Err(WhileTranslatingProperty(p.name, t.error));
    } else if t.value.Some? && Parse(p.since).Err? {
      assert r == Err(Bail(Parse(p.since).error));
    }
  }

  /** A failing property loop fails as its first failing property does. */
  lemma {:induction false} FieldsFailure(anonMappings: map<string, string>, props: seq<Property>)
    ensures var r := Fields(anonMappings, props).result;
      r.Err? ==> exists i :: 0 <= i < |props| && PropertyFailsWith(anonMappings, props[i], r.error)
    decreases |props|
  {
    var r := Fields(anonMappings, props).result;
    if props != [] && r.Err? {
      var init, last := props[..|props| - 1], props[|props| - 1];
      if Fields(anonMappings, init).result.Err? {
        FieldsFailure(anonMappings, init);
        var i :| 0 <= i < |init| && PropertyFailsWith(anonMappings, init[i], r.error);
        assert props[i] == init[i];
      } else {
        PropertyFailure(anonMappings, last);
        assert PropertyFailsWith(anonMappings, props[|props| - 1], r.error);
      }
    }
  }

  /**
   * A structure fails in one of three places: an `extends` or mixin type
   * that does not reduce (always a panic), a property as
   * `PropertyFailsWith` says, or its own version.
   */
  lemma StructureFailure(anonMappings: map<string, string>, s: Structure)
    ensures var r := StructureTranslation(anonMappings, s).result;
      r.Err? ==>
        || (BaseList(s).Err? && r.error == BaseList(s).error && r.error.Panicked?)
        || (exists i :: 0 <= i < |s.properties| && PropertyFailsWith(anonMappings, s.properties[i], r.error))
        || (Parse(s.since).Err? && r.error == Bail(Parse(s.since).error))
  {
    BaseListInOrder(s);
    FieldsFailure(anonMappings, s.properties);
  }

  // ---------------------------------------------------------------------
  // Enumerations
  // ---------------------------------------------------------------------

  function Variant(entry: EnumerationEntry): (r: Result<EnumVariant, Failure>)
  {
    match Parse(entry.since)
    case Err(e) => Err(Bail(e))
    case Ok(since) => Ok(EnumVariant(entry.name, entry.documentation, since))
  }

  /** The variants of an entry list, in order: the loop over an enumeration's values. */
  function Variants(entries: seq<EnumerationEntry>): (r: Result<seq<EnumVariant>, Failure>)
    decreases |entries|
  {
    if entries == [] then Ok([])
    else
      match Variants(entries[..|entries| - 1])
      case Err(f) => Err(f)
      case Ok(vs) =>
        match Variant(entries[|entries| - 1])
        case Err(f) => Err(f)
        case Ok(v) => Ok(vs + [v])
  }

  /** `Enumeration::translate`. */
  function EnumerationTranslation(e: Enumeration): (r: Result<Enum, Failure>)
  {
    match e.kind
    case IntegerKind => Err(Bail(IntEnum))
    case UintegerKind => Err(Bail(UintEnum))
    case StringKind =>
      match Variants(e.values)
      case Err(f) => Err(f)
      case Ok(vs) =>
        match Parse(e.since)
        case Err(err) => Err(Panicked(EnumSince(err.version)))
        case Ok(since) => Ok(Enum(e.name, vs, e.documentation, e.deprecated, since))
  }

  /**
   * Only string enumerations translate. One succeeds exactly when every
   * entry's `since` parses and its own does, and then has one variant per
   * entry, with the same names and documentation in the same order. An
   * entry's bad `since` is an error; the enumeration's own is a panic.
   */
  lemma {:induction false} VariantsFollowEntries(e: Enumeration)
    ensures e.kind == IntegerKind ==> EnumerationTranslation(e) == Err(Bail(IntEnum))
    ensures e.kind == UintegerKind ==> EnumerationTranslation(e) == Err(Bail(UintEnum))
    ensures EnumerationTranslation(e).Ok? <==>
      e.kind == StringKind && Parse(e.since).Ok? &&
      forall i :: 0 <= i < |e.values| ==> Parse(e.values[i].since).Ok?
    ensures e.kind == StringKind && (forall i :: 0 <= i < |e.values| ==> Parse(e.values[i].since).Ok?) &&
            Parse(e.since).Err? ==>
      EnumerationTranslation(e) == Err(Panicked(EnumSince(Parse(e.since).error.version)))
    ensures EnumerationTranslation(e).Ok? ==>
      var en := EnumerationTranslation(e).value;
      && en.name == e.name
      && |en.variants| == |e.values|
      && (forall k :: 0 <= k < |e.values| ==>
            en.variants[k].name == e.values[k].name && en.variants[k].doc == e.values[k].documentation)
  {
    VariantsInOrder(e.values);
  }

  /**
   * An enumeration returns an error only for an integer kind, an unsigned
   * kind or an entry version that does not parse; it panics only on its
   * own version.
   */
  lemma EnumerationFailure(e: Enumeration)
    ensures var r := EnumerationTranslation(e);
      r.Err? && r.error.Bail? ==>
        || (e.kind == IntegerKind && r.error.error == IntEnum)
        || (e.kind == UintegerKind && r.error.error == UintEnum)
        || (exists i :: 0 <= i < |e.values| && Parse(e.values[i].since) == Err(r.error.error))
    ensures var r := EnumerationTranslation(e);
      r.Err? && r.error.Panicked? ==> Parse(e.since).Err? && r.error.panic == EnumSince(Parse(e.since).error.version)
  {
    if e.kind == StringKind {
      VariantsFailure(e.values);
    }
  }

  lemma {:induction false} VariantsFailure(entries: seq<EnumerationEntry>)
    ensures var r := Variants(entries);
      r.Err? ==> r.error.Bail? && exists i :: 0 <= i < |entries| && Parse(entries[i].since) == Err(r.error.error)
    decreases |entries|
  {
    var r := Variants(entries);
    if entries != [] && r.Err? {
      var init := entries[..|entries| - 1];
      if Variants(init).Err? {
        VariantsFailure(init);
        var i :| 0 <= i < |init| && Parse(init[i].since) == Err(r.error.error);
        assert entries[i] == init[i];
      } else {
        assert Parse(entries[|entries| - 1].since) == Err(r.error.error);
      }
    }
  }

  lemma {:induction false} VariantsInOrder(entries: seq<EnumerationEntry>)
    ensures Variants(entries).Ok? <==> forall i :: 0 <= i < |entries| ==> Parse(entries[i].since).Ok?
    ensures Variants(entries).Ok? ==>
      var vs := Variants(entries).value;
      |vs| == |entries| && forall k :: 0 <= k < |entries| ==> VariantFor(vs[k], entries[k])
    decreases |entries|
  {
    if entries != [] {
      var init, last := entries[..|entries| - 1], entries[|entries| - 1];
      VariantsInOrder(init);
      assert forall i :: 0 <= i < |init| ==> init[i] == entries[i];
      VariantContract(last);
      if Variants(init).Ok? && Variant(last).Ok? {
        VariantsForAppend(Variants(init).value, init, Variant(last).value, last);
      }
    }
  }

  /** The variant `v` is what the loop makes of entry `entry`. */
  predicate VariantFor(v: EnumVariant, entry: EnumerationEntry)
  {
    v.name == entry.name && v.doc == entry.documentation && Ok(v.since) == Parse(entry.since)
  }

  /** One entry: it fails exactly when its version does not parse, and otherwise yields its variant. */
  lemma VariantContract(entry: EnumerationEntry)
    ensures Variant(entry).Ok? <==> Parse(entry.since).Ok?
    ensures Variant(entry).Ok? ==> VariantFor(Variant(entry).value, entry)
  {
  }

  lemma VariantsForAppend(vs: seq<EnumVariant>, entries: seq<EnumerationEntry>, v: EnumVariant, entry: EnumerationEntry)
    requires |vs| == |entries| && forall k :: 0 <= k < |vs| ==> VariantFor(vs[k], entries[k])
    requires VariantFor(v, entry)
    ensures forall k :: 0 <= k < |vs| + 1 ==> VariantFor((vs + [v])[k], (entries + [entry])[k])
  {
  }
}
