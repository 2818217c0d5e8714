/**
 * The meta-model as the translator receives it, already decoded, and the one
 * operation defined on it: reducing a type to a single reference without
 * running the full translation.
 */
module Schema {
  import opened Wrappers
  import opened Errors
  import opened Target

  datatype BaseType = Uri | DocumentUri | Integer | Uinteger | Decimal | RegExp | String | Boolean | Null

  /**
   * A meta-model type. It is a finite tree: arrays and maps box one or two
   * children, unions and tuples hold a sequence of them, and an inline
   * structure literal holds properties whose types are again trees.
   */
  datatype Type =
    | Base(base: BaseType)
    | Reference(name: string)
    | Array(element: Type)
    | Map(key: Type, value: Type)
    | Or(items: seq<Type>)
    | Tuple(items: seq<Type>)
    | Literal(literal: StructureLiteral)
    | StringLiteral(text: string)
    | IntegerLiteral(number: int)
    | BooleanLiteral(flag: bool)

  datatype Property = Property(
    name: string,
    ty: Type,
    documentation: Option<string>,
    optional: Option<bool>,
    since: Option<string>,
    sinceTags: Option<seq<string>>,
    proposed: Option<bool>,
    deprecated: Option<string>)

  datatype StructureLiteral = StructureLiteral(
    properties: seq<Property>,
    documentation: Option<string>,
    since: Option<string>,
    sinceTags: Option<seq<string>>,
    proposed: bool,
    deprecated: Option<string>)

  datatype Structure = Structure(
    name: string,
    properties: seq<Property>,
    extendsTypes: seq<Type>,
    mixins: seq<Type>,
    documentation: Option<string>,
    since: Option<string>,
    sinceTags: Option<seq<string>>,
    proposed: Option<bool>,
    deprecated: Option<string>)

  /** The underlying kind of an enumeration (the meta-model's `{ kind: "base", name }`). */
  datatype EnumerationTypeKind = StringKind | IntegerKind | UintegerKind

  /** An enumeration entry's JSON value: the meta-model uses strings and integers. */
  datatype EntryValue = StringValue(s: string) | IntegerValue(i: int)

  datatype EnumerationEntry = EnumerationEntry(
    name: string,
    value: EntryValue,
    documentation: Option<string>,
    since: Option<string>,
    proposed: bool)

  datatype Enumeration = Enumeration(
    name: string,
    kind: EnumerationTypeKind,
    values: seq<EnumerationEntry>,
    supportsCustomValues: bool,
    documentation: Option<string>,
    since: Option<string>,
    proposed: bool,
    deprecated: Option<string>)

  /** The parts of the meta-model the translator reads, in declaration order. */
  datatype MetaModel = MetaModel(structures: seq<Structure>, enumerations: seq<Enumeration>)

  // ---------------------------------------------------------------------
  // Collecting optional references
  // ---------------------------------------------------------------------

  /** The outcome of reducing one type: a panic, no reference, or a reference. */
  type Reduction = Result<Option<TypeRef>, Failure>

  predicate IsReference(r: Reduction)
  {
    r.Ok? && r.value.Some?
  }

  /** The position of the first reduction that is not a reference, or |rs| when there is none. */
  function FirstMiss(rs: seq<Reduction>): (k: nat)
    ensures k <= |rs|
    ensures forall j :: 0 <= j < k ==> IsReference(rs[j])
    ensures k < |rs| ==> !IsReference(rs[k])
  {
    if rs == [] then 0
    else if !IsReference(rs[0]) then 0
    else 1 + FirstMiss(rs[1..])
  }

  /**
   * Collecting reductions left to right into `Option<Vec<_>>`: the first
   * reduction that is not a reference decides (a panic propagates, a missing
   * reference stops the collection, and nothing after it is evaluated);
   * when there is none, every reference is kept in order.
   */
  function Collect(rs: seq<Reduction>): (r: Result<Option<seq<TypeRef>>, Failure>)
    ensures var k := FirstMiss(rs);
      && (k == |rs| ==> r.Ok? && r.value.Some? && |r.value.value| == |rs| &&
                        forall i :: 0 <= i < |rs| ==> rs[i] == Ok(Some(r.value.value[i])))
      && (k < |rs| ==> if rs[k].Err? then r == Err(rs[k].error) else r == Ok(None))
  {
    if rs == [] then Ok(Some([]))
    else
      match rs[0]
      case Err(f) => Err(f)
      case Ok(None) => Ok(None)
      case Ok(Some(x)) =>
        var rest := Collect(rs[1..]);
        assert forall i :: 1 <= i < |rs| ==> rs[i] == rs[1..][i - 1];
        match rest
        case Err(f) => Err(f)
        case Ok(None) => Ok(None)
        case Ok(Some(xs)) => Ok(Some([x] + xs))
  }

  // ---------------------------------------------------------------------
  // Type::into_reference
  // ---------------------------------------------------------------------

  /** The base types `into_reference` can name, with the names it gives them. */
  function BaseReference(b: BaseType): (r: Option<TypeRef>)
    ensures r.None? <==> b in {Decimal, RegExp, Null}
  {
    match b
    case Uri => Some(New("Uri"))
    case DocumentUri => Some(New("DocumentUri"))
    case Integer => Some(New("i64"))
    case Uinteger => Some(New("u32"))
    case String => Some(New("String"))
    case Boolean => Some(New("bool"))
    case _ => None
  }

  /**
   * `Type::into_reference`: a reference for names, nameable base types,
   * arrays of those and tuples of those. A tuple with an element that does
   * not reduce panics (the element's `unwrap`); every other shape has no
   * reference.
   */
  function IntoReference(t: Type): (r: Reduction)
    ensures t.Reference? ==> r == Ok(Some(New(t.name)))
    ensures !(t.Reference? || t.Base? || t.Array? || t.Tuple?) ==> r == Ok(None)
  {
    match t
    case Reference(name) => Ok(Some(New(name)))
    case Base(b) => Ok(BaseReference(b))
    case Array(element) =>
      (match IntoReference(element)
       case Ok(Some(inner)) => Ok(Some(NewGenerics("Vec", [inner])))
       case other => other)
    case Tuple(items) =>
      (match Collect(Reductions(items))
       case Err(f) => Err(f)
       case Ok(None) => Err(Panicked(UnwrapNone))
       case Ok(Some(refs)) => Ok(Some(NewTuple(refs))))
    case _ => Ok(None)
  }

  /** Each type reduced, in order (`iter().map(into_reference)`). */
  function Reductions(ts: seq<Type>): (rs: seq<Reduction>)
    ensures |rs| == |ts|
    ensures forall i :: 0 <= i < |ts| ==> rs[i] == IntoReference(ts[i])
  {
    seq(|ts|, i requires 0 <= i < |ts| => IntoReference(ts[i]))
  }

  /** The types `into_reference` names: an independent description. */
  predicate Reducible(t: Type)
  {
    match t
    case Reference(_) => true
    case Base(b) => b !in {Decimal, RegExp, Null}
    case Array(element) => Reducible(element)
    case Tuple(items) => forall i :: 0 <= i < |items| ==> Reducible(items[i])
    case _ => false
  }

  /** The types on which `into_reference` panics. */
  predicate ReducePanics(t: Type)
  {
    match t
    case Array(element) => ReducePanics(element)
    case Tuple(items) => exists i :: 0 <= i < |items| && !Reducible(items[i])
    case _ => false
  }

  /**
   * `into_reference` gives a reference exactly on the reducible types,
   * panics exactly on an array-nested tuple with an element that is not
   * reducible, and gives no reference otherwise.
   */
  lemma {:induction false} IntoReferenceClassifies(t: Type)
    ensures IsReference(IntoReference(t)) <==> Reducible(t)
    ensures IntoReference(t).Err? <==> ReducePanics(t)
    ensures IntoReference(t) == Ok(None) <==> !Reducible(t) && !ReducePanics(t)
  {
    match t
    case Array(element) =>
      IntoReferenceClassifies(element);
    case Tuple(items) =>
      forall i | 0 <= i < |items| ensures IsReference(IntoReference(items[i])) <==> Reducible(items[i]) {
        IntoReferenceClassifies(items[i]);
      }
      var rs := Reductions(items);
    case _ =>
  }

  /** An array reduces to `Vec<inner>` exactly when its element reduces to `inner`. */
  lemma ArrayReference(element: Type)
    ensures IsReference(IntoReference(Array(element))) <==> IsReference(IntoReference(element))
    ensures IsReference(IntoReference(element)) ==>
      IntoReference(Array(element)).value.value.AsStr() == "Vec" + "<" + IntoReference(element).value.value.AsStr() + ">"
  {
    var e := IntoReference(element);
    assert IntoReference(Array(element)) == if IsReference(e) then Ok(Some(NewGenerics("Vec", [e.value.value]))) else e;
    if IsReference(e) {
      SingleGeneric("Vec", e.value.value);
    }
  }

  /** Every type in `ts` reduces to a reference. */
  predicate AllReduce(ts: seq<Type>)
  {
    forall i :: 0 <= i < |ts| ==> IsReference(IntoReference(ts[i]))
  }

  /** The references of types that all reduce, in order. */
  function ReferencesOf(ts: seq<Type>): (refs: seq<TypeRef>)
    requires AllReduce(ts)
    ensures |refs| == |ts|
    ensures forall i :: 0 <= i < |ts| ==> Ok(Some(refs[i])) == IntoReference(ts[i])
  {
    seq(|ts|, i requires 0 <= i < |ts| && IsReference(IntoReference(ts[i])) => IntoReference(ts[i]).value.value)
  }

  /** A tuple of reducible elements reduces to `(a1,...,an)` of their references, in order. */
  lemma TupleReference(items: seq<Type>)
    requires forall i :: 0 <= i < |items| ==> Reducible(items[i])
    ensures IsReference(IntoReference(Tuple(items)))
    ensures AllReduce(items) && IntoReference(Tuple(items)) == Ok(Some(NewTuple(ReferencesOf(items))))
  {
    forall i | 0 <= i < |items| ensures IsReference(IntoReference(items[i])) {
      IntoReferenceClassifies(items[i]);
    }
    assert Collect(Reductions(items)).value.value == ReferencesOf(items);
  }

  // ---------------------------------------------------------------------
  // Which characters a reduced reference can contain
  // ---------------------------------------------------------------------

  /** No reference name inside `t` (through arrays and tuples) contains `c`. */
  predicate NamesAvoid(t: Type, c: char)
  {
    match t
    case Reference(name) => c !in name
    case Array(element) => NamesAvoid(element, c)
    case Tuple(items) => forall i :: 0 <= i < |items| ==> NamesAvoid(items[i], c)
    case _ => true
  }

  lemma {:induction false} JoinAvoids(parts: seq<string>, sep: string, c: char)
    requires c !in sep
    requires forall i :: 0 <= i < |parts| ==> c !in parts[i]
    ensures c !in Join(parts, sep)
    decreases |parts|
  {
    if |parts| > 1 {
      JoinAvoids(parts[1..], sep, c);
    }
  }

  /**
   * The rendering adds only letters, digits, '<', '>', '(', ')' and ',': a
   * '|' in a reduced reference can only come from a reference name.
   */
  lemma {:induction false} ReferenceAvoidsPipe(t: Type)
    requires NamesAvoid(t, '|')
    requires IsReference(IntoReference(t))
    ensures '|' !in IntoReference(t).value.value.AsStr()
  {
    match t
    case Reference(_) =>
    case Base(_) =>
    case Array(element) =>
      ReferenceAvoidsPipe(element);
      var inner := IntoReference(element).value.value;
      JoinAvoids(Texts([inner]), ",", '|');
    case Tuple(items) =>
      IntoReferenceClassifies(t);
      TupleReference(items);
      var refs := ReferencesOf(items);
      forall i | 0 <= i < |items| ensures '|' !in Texts(refs)[i] {
        IntoReferenceClassifies(items[i]);
        ReferenceAvoidsPipe(items[i]);
      }
      JoinAvoids(Texts(refs), ",", '|');
  }
}
