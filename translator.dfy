/**
 * The translator: one pass over a meta-model's structures and then its
 * enumerations, consulting and consuming the configuration entry of each,
 * collecting the generated items and the three sets of names that have no
 * configuration yet. `TranslatorState` and the pass functions describe the
 * pass on values; `Translator` is the object the pass updates in place, and
 * each of its methods is proved to do what the functions describe.
 */
module Translator {
  import opened Wrappers
  import opened Errors
  import opened Target
  import opened Schema
  import opened Configuration
  import opened Checksum
  import opened Translate

  /** A checksum warning: the entity, the configured checksum, the fingerprint found. */
  datatype Drift =
    | StructureDrift(name: string, expected: string, got: string)
    | EnumerationDrift(name: string, expected: string, got: string)

  /** Everything the translator holds. */
  datatype TranslatorState = TranslatorState(
    config: Config,
    structsMissing: set<string>,
    enumsMissing: set<string>,
    anonMissing: set<string>,
    drift: seq<Drift>)

  /** The result of (part of) a pass, and the state it leaves. */
  datatype Pass = Pass(result: Result<seq<Item>, Failure>, state: TranslatorState)

  /** A fresh translator over a copy of the configuration. */
  function Initial(config: Config): (st: TranslatorState)
    ensures st.config == config
    ensures st.structsMissing == st.enumsMissing == st.anonMissing == {} && st.drift == []
  {
    TranslatorState(config, {}, {}, {}, [])
  }

  /** The warning a checksum entry gives, if any. */
  function StructureCheck(s: Structure, expected: string, fingerprint: Structure -> u32): (w: seq<Drift>)
    ensures |w| <= 1
    ensures w == [] <==> !Drifted(fingerprint(s), expected)
  {
    var got := Fingerprint(fingerprint(s));
    if got != expected then [StructureDrift(s.name, expected, got)] else []
  }

  function EnumerationCheck(e: Enumeration, expected: string, fingerprint: Enumeration -> u32): (w: seq<Drift>)
    ensures |w| <= 1
    ensures w == [] <==> !Drifted(fingerprint(e), expected)
  {
    var got := Fingerprint(fingerprint(e));
    if got != expected then [EnumerationDrift(e.name, expected, got)] else []
  }

  /**
   * One structure of the pass: its entry is removed from the configuration,
   * then a `Generate` entry translates it, a `Checksum` entry checks its
   * fingerprint, and no entry records its name as missing.
   */
  function StructureStep(st: TranslatorState, s: Structure, fingerprint: Structure -> u32): (r: Pass)
  {
    var config := st.config.(structs := st.config.structs - {s.name});
    if s.name !in st.config.structs then
      Pass(Ok([]), st.(config := config, structsMissing := st.structsMissing + {s.name}))
    else
      match st.config.structs[s.name]
      case Generate(_) =>
        var o := StructureTranslation(config.anonMappings, s);
        var next := st.(config := config, anonMissing := st.anonMissing + o.missing);
        (match o.result
         case Err(f) => Pass(Err(TranslatingStructure(s.name, f)), next)
         case Ok(x) => Pass(Ok([StructItem(x)]), next))
      case Checksum(h) =>
        Pass(Ok([]), st.(config := config, drift := st.drift + StructureCheck(s, h, fingerprint)))
  }

  /** One enumeration of the pass, as `StructureStep` for structures. */
  function EnumerationStep(st: TranslatorState, e: Enumeration, fingerprint: Enumeration -> u32): (r: Pass)
  {
    var config := st.config.(enums := st.config.enums - {e.name});
    if e.name !in st.config.enums then
      Pass(Ok([]), st.(config := config, enumsMissing := st.enumsMissing + {e.name}))
    else
      match st.config.enums[e.name]
      case Generate(_) =>
        (match EnumerationTranslation(e)
         case Err(f) => Pass(Err(TranslatingEnumeration(e.name, f)), st.(config := config))
         case Ok(x) => Pass(Ok([EnumItem(x)]), st.(config := config)))
      case Checksum(h) =>
        Pass(Ok([]), st.(config := config, drift := st.drift + EnumerationCheck(e, h, fingerprint)))
  }

  /** Continues a pass that produced `items` with one step; the first failure stops it. */
  function Then(items: seq<Item>, step: Pass): (r: Pass)
  {
    match step.result
    case Err(f) => Pass(Err(f), step.state)
    case Ok(more) => Pass(Ok(items + more), step.state)
  }

  /** The structure loop over `ss`, from state `st` with `items` already built. */
  function StructuresPass(st: TranslatorState, items: seq<Item>, ss: seq<Structure>, fingerprint: Structure -> u32): (r: Pass)
    decreases |ss|
  {
    if ss == [] then Pass(Ok(items), st)
    else
      var prev := StructuresPass(st, items, ss[..|ss| - 1], fingerprint);
      if prev.result.Err? then prev
      else Then(prev.result.value, StructureStep(prev.state, ss[|ss| - 1], fingerprint))
  }

  /** The enumeration loop over `es`. */
  function EnumerationsPass(st: TranslatorState, items: seq<Item>, es: seq<Enumeration>, fingerprint: Enumeration -> u32): (r: Pass)
    decreases |es|
  {
    if es == [] then Pass(Ok(items), st)
    else
      var prev := EnumerationsPass(st, items, es[..|es| - 1], fingerprint);
      if prev.result.Err? then prev
      else Then(prev.result.value, EnumerationStep(prev.state, es[|es| - 1], fingerprint))
  }

  /** `MetaModel::translate`: structures first, then enumerations. */
  function MetaModelTranslation(st: TranslatorState, m: MetaModel,
                                structureFingerprint: Structure -> u32,
                                enumerationFingerprint: Enumeration -> u32): (r: Pass)
  {
    var structures := StructuresPass(st, [], m.structures, structureFingerprint);
    if structures.result.Err? then structures
    else EnumerationsPass(structures.state, structures.result.value, m.enumerations, enumerationFingerprint)
  }

  /** The translator object of `translate_schema`. */
  class Translator {
    var config: Config
    var structsMissing: set<string>
    var enumsMissing: set<string>
    var anonMissing: set<string>
    var drift: seq<Drift>

    function State(): TranslatorState
      reads this
    {
      TranslatorState(config, structsMissing, enumsMissing, anonMissing, drift)
    }

    constructor (config: Config)
      ensures State() == Initial(config)
    {
      this.config := config;
      structsMissing := {};
      enumsMissing := {};
      anonMissing := {};
      drift := [];
    }

    /** `Type::translate`: its only effect is recording unmapped union keys. */
    method TranslateType(ty: Type) returns (r: Result<Option<TypeRef>, Failure>)
      modifies this`anonMissing
      ensures var o := TypeTranslation(config.anonMappings, ty);
        r == o.result && anonMissing == old(anonMissing) + o.missing
      decreases ty
    {
      match ty
      case Base(b) =>
        var x := BaseTranslation(b);
        if x.Err? {
          r := Err(x.error);
        } else {
          r := Ok(Some(x.value));
        }
      case Array(element) =>
        r := TranslateType(element);
        if r.Ok? && r.value.Some? {
          r := Ok(Some(NewGenerics("Vec", [r.value.value])));
        }
      case Reference(name) =>
        r := Ok(Some(New(name)));
      case Map(key, value) =>
        var k := TranslateType(key);
        if !(k.Ok? && k.value.Some?) {
          return k;
        }
        var v := TranslateType(value);
        if !(v.Ok? && v.value.Some?) {
          return v;
        }
        r := Ok(Some(NewGenerics("std::collections::HashMap", [k.value.value, v.value.value])));
      case Or(items) =>
        assert TypeTranslation(config.anonMappings, ty) == UnionTranslation(config.anonMappings, items);
        var kept := RetainNonEmpty(items);
        if |kept| == 1 {
          r := TranslateType(kept[0]);
        } else if |kept| == 2 && kept[1] == Base(Null) {
          r := TranslateType(kept[0]);
          if r.Ok? && r.value.Some? {
            r := Ok(Some(NewGenerics("Option", [r.value.value])));
          }
        } else {
          var found := LookupAnon(config.anonMappings, kept);
          match found
          case Err(f) =>
            r := Err(f);
          case Ok(Ok(named)) =>
            r := Ok(Some(named));
          case Ok(Err(None)) =>
            r := Err(Bail(UndecidableUnion));
          case Ok(Err(Some(key))) =>
            anonMissing := anonMissing + {key};
            r := Ok(Some(New(Placeholder)));
        }
      case Tuple(_) =>
        r := Err(Bail(TupleType));
      case Literal(_) =>
        r := Err(Bail(LiteralType));
      case StringLiteral(_) =>
        r := Ok(None);
      case IntegerLiteral(n) =>
        r := Err(Bail(IntegerLiteralType(n)));
      case BooleanLiteral(b) =>
        r := Err(Bail(BooleanLiteralType(b)));
    }

    /** `Structure::translate`: the base list, then one field per kept property. */
    method TranslateStructure(s: Structure) returns (r: Result<Struct, Failure>)
      modifies this`anonMissing
      ensures var o := StructureTranslation(config.anonMappings, s);
        r == o.result && anonMissing == old(anonMissing) + o.missing
    {
      var bases := BaseList(s);
      if bases.Err? {
        return Err(bases.error);
      }
      var fields := TranslateProperties(s.properties);
      if fields.Err? {
        return Err(fields.error);
      }
      var since := Parse(s.since);
      if since.Err? {
        return Err(Bail(since.error));
      }
      r := Ok(Struct(s.name, bases.value, fields.value, s.documentation, s.deprecated, since.value));
    }

    /** The loop over a structure's properties: one field per property that has a type. */
    method TranslateProperties(props: seq<Property>) returns (r: Result<seq<StructField>, Failure>)
      modifies this`anonMissing
      ensures var o := Fields(config.anonMappings, props);
        r == o.result && anonMissing == old(anonMissing) + o.missing
    {
      var fields: seq<StructField> := [];
      ghost var recorded: set<string> := {};
      var i := 0;
      while i < |props|
        invariant 0 <= i <= |props|
        invariant anonMissing == old(anonMissing) + recorded
        invariant Fields(config.anonMappings, props[..i]) == Outcome(Ok(fields), recorded)
      {
        var p := props[i];
        assert props[..i + 1][..i] == props[..i];
        ghost var o := TypeTranslation(config.anonMappings, p.ty);
        var ty := TranslateType(p.ty);
        recorded := recorded + o.missing;
        if ty.Err? {
          FieldsStop(config.anonMappings, props, i + 1);
          return Err(WhileTranslatingProperty(p.name, ty.error));
        }
        if ty.value.Some? {
          var since := Parse(p.since);
          if since.Err? {
            FieldsStop(config.anonMappings, props, i + 1);
            return Err(Bail(since.error));
          }
          fields := fields + [StructField(p.name, ty.value.value, p.documentation, since.value, p.deprecated)];
        }
        i := i + 1;
      }
      assert props[..i] == props;
      r := Ok(fields);
    }

    /** `Enumeration::translate`: it changes nothing in the translator. */
    method TranslateEnumeration(e: Enumeration) returns (r: Result<Enum, Failure>)
      ensures r == EnumerationTranslation(e)
    {
      match e.kind
      case IntegerKind =>
        return Err(Bail(IntEnum));
      case UintegerKind =>
        return Err(Bail(UintEnum));
      case StringKind =>
      var variants: seq<EnumVariant> := [];
      for i := 0 to |e.values|
        invariant Variants(e.values[..i]) == Ok(variants)
      {
        var entry := e.values[i];
        assert e.values[..i + 1][..i] == e.values[..i];
        var since := Parse(entry.since);
        if since.Err? {
          VariantsStop(e.values, i + 1);
          return Err(Bail(since.error));
        }
        variants := variants + [EnumVariant(entry.name, entry.documentation, since.value)];
      }
      assert e.values[..|e.values|] == e.values;
      var since := Parse(e.since);
      if since.Err? {
        return Err(Panicked(EnumSince(since.error.version)));
      }
      r := Ok(Enum(e.name, variants, e.documentation, e.deprecated, since.value));
    }

    /**
     * The body of the structure loop: consume the structure's entry, then
     * translate, check or report it.
     */
    method ConsultStructure(s: Structure, fingerprint: Structure -> u32) returns (r: Result<seq<Item>, Failure>)
      modifies this
      ensures Pass(r, State()) == StructureStep(old(State()), s, fingerprint)
    {
      var entry := if s.name in config.structs then Some(config.structs[s.name]) else None;
      config := config.(structs := config.structs - {s.name});
      match entry {
        case None =>
          structsMissing := structsMissing + {s.name};
          r := Ok([]);
        case Some(Generate(_)) =>
          var x := TranslateStructure(s);
          if x.Err? {
            r := Err(TranslatingStructure(s.name, x.error));
          } else {
            r := Ok([StructItem(x.value)]);
          }
        case Some(Checksum(h)) =>
          drift := drift + StructureCheck(s, h, fingerprint);
          r := Ok([]);
      }
    }

    /** The body of the enumeration loop. */
    method ConsultEnumeration(e: Enumeration, fingerprint: Enumeration -> u32) returns (r: Result<seq<Item>, Failure>)
      modifies this
      ensures Pass(r, State()) == EnumerationStep(old(State()), e, fingerprint)
    {
      var entry := if e.name in config.enums then Some(config.enums[e.name]) else None;
      config := config.(enums := config.enums - {e.name});
      match entry {
        case None =>
          enumsMissing := enumsMissing + {e.name};
          r := Ok([]);
        case Some(Generate(_)) =>
          var x := TranslateEnumeration(e);
          if x.Err? {
            r := Err(TranslatingEnumeration(e.name, x.error));
          } else {
            r := Ok([EnumItem(x.value)]);
          }
        case Some(Checksum(h)) =>
          drift := drift + EnumerationCheck(e, h, fingerprint);
          r := Ok([]);
      }
    }

    /** The structure loop of `MetaModel::translate`, appending to `items`. */
    method ConsultStructures(items: seq<Item>, ss: seq<Structure>, fingerprint: Structure -> u32)
      returns (r: Result<seq<Item>, Failure>)
      modifies this
      ensures Pass(r, State()) == StructuresPass(old(State()), items, ss, fingerprint)
    {
      ghost var start := State();
      var built := items;
      for i := 0 to |ss|
        invariant StructuresPass(start, items, ss[..i], fingerprint) == Pass(Ok(built), State())
      {
        assert ss[..i + 1][..i] == ss[..i];
        var step := ConsultStructure(ss[i], fingerprint);
        if step.Err? {
          StructuresStop(start, items, ss, i + 1, fingerprint);
          return Err(step.error);
        }
        built := built + step.value;
      }
      assert ss[..|ss|] == ss;
      r := Ok(built);
    }

    /** The enumeration loop of `MetaModel::translate`, appending to `items`. */
    method ConsultEnumerations(items: seq<Item>, es: seq<Enumeration>, fingerprint: Enumeration -> u32)
      returns (r: Result<seq<Item>, Failure>)
      modifies this
      ensures Pass(r, State()) == EnumerationsPass(old(State()), items, es, fingerprint)
    {
      ghost var start := State();
      var built := items;
      for j := 0 to |es|
        invariant EnumerationsPass(start, items, es[..j], fingerprint) == Pass(Ok(built), State())
      {
        assert es[..j + 1][..j] == es[..j];
        var step := ConsultEnumeration(es[j], fingerprint);
        if step.Err? {
          EnumerationsStop(start, items, es, j + 1, fingerprint);
          return Err(step.error);
        }
        built := built + step.value;
      }
      assert es[..|es|] == es;
      r := Ok(built);
    }

    /**
     * `MetaModel::translate`: the structure loop, then the enumeration loop;
     * the first failure ends the pass.
     */
    method TranslateMetaModel(m: MetaModel, structureFingerprint: Structure -> u32,
                              enumerationFingerprint: Enumeration -> u32)
      returns (r: Result<seq<Item>, Failure>)
      modifies this
      ensures Pass(r, State()) == MetaModelTranslation(old(State()), m, structureFingerprint, enumerationFingerprint)
    {
      r := ConsultStructures([], m.structures, structureFingerprint);
      if r.Ok? {
        r := ConsultEnumerations(r.value, m.enumerations, enumerationFingerprint);
      }
    }
  }

  /**
   * `translate_schema`: a fresh translator over the configuration, run over
   * the meta-model. The result depends on nothing but the inputs.
   */
  method TranslateSchema(m: MetaModel, config: Config, structureFingerprint: Structure -> u32,
                         enumerationFingerprint: Enumeration -> u32)
    returns (r: Result<seq<Item>, Failure>)
    ensures r == MetaModelTranslation(Initial(config), m, structureFingerprint, enumerationFingerprint).result
  {
    var t := new Translator(config);
    r := t.TranslateMetaModel(m, structureFingerprint, enumerationFingerprint);
  }

  // ---------------------------------------------------------------------
  // A failure ends the loop: what the pass functions say about a prefix
  // that fails is what they say about the whole sequence.
  // ---------------------------------------------------------------------

  lemma {:induction false} FieldsStop(anonMappings: map<string, string>, props: seq<Property>, n: nat)
    requires n <= |props|
    requires Fields(anonMappings, props[..n]).result.Err?
    ensures Fields(anonMappings, props).result == Fields(anonMappings, props[..n]).result
    ensures Fields(anonMappings, props).missing == Fields(anonMappings, props[..n]).missing
    decreases |props| - n
  {
    if n < |props| {
      assert props[..n + 1][..n] == props[..n];
      FieldsStop(anonMappings, props, n + 1);
    } else {
      assert props[..n] == props;
    }
  }

  lemma {:induction false} VariantsStop(entries: seq<EnumerationEntry>, n: nat)
    requires n <= |entries|
    requires Variants(entries[..n]).Err?
    ensures Variants(entries) == Variants(entries[..n])
    decreases |entries| - n
  {
    if n < |entries| {
      assert entries[..n + 1][..n] == entries[..n];
      VariantsStop(entries, n + 1);
    } else {
      assert entries[..n] == entries;
    }
  }

  lemma {:induction false} StructuresStop(st: TranslatorState, items: seq<Item>, ss: seq<Structure>, n: nat, fingerprint: Structure -> u32)
    requires n <= |ss|
    requires StructuresPass(st, items, ss[..n], fingerprint).result.Err?
    ensures StructuresPass(st, items, ss, fingerprint) == StructuresPass(st, items, ss[..n], fingerprint)
    decreases |ss| - n
  {
    if n < |ss| {
      assert ss[..n + 1][..n] == ss[..n];
      StructuresStop(st, items, ss, n + 1, fingerprint);
    } else {
      assert ss[..n] == ss;
    }
  }

  lemma {:induction false} EnumerationsStop(st: TranslatorState, items: seq<Item>, es: seq<Enumeration>, n: nat,
                                            fingerprint: Enumeration -> u32)
    requires n <= |es|
    requires EnumerationsPass(st, items, es[..n], fingerprint).result.Err?
    ensures EnumerationsPass(st, items, es, fingerprint) == EnumerationsPass(st, items, es[..n], fingerprint)
    decreases |es| - n
  {
    if n < |es| {
      assert es[..n + 1][..n] == es[..n];
      EnumerationsStop(st, items, es, n + 1, fingerprint);
    } else {
      assert es[..n] == es;
    }
  }

  // ---------------------------------------------------------------------
  // The structure loop
  // ---------------------------------------------------------------------

  /** The names of a list of entities, `name` giving each one's name. */
  function Names<T>(xs: seq<T>, name: T -> string): (names: set<string>)
    ensures forall i :: 0 <= i < |xs| ==> name(xs[i]) in names
    decreases |xs|
  {
    if xs == [] then {} else Names(xs[..|xs| - 1], name) + {name(xs[|xs| - 1])}
  }

  /** Every name in the set belongs to one of the entities. */
  lemma {:induction false} NameHasWitness<T>(xs: seq<T>, name: T -> string, n: string)
    requires n in Names(xs, name)
    ensures exists i :: 0 <= i < |xs| && name(xs[i]) == n
    decreases |xs|
  {
    var init := xs[..|xs| - 1];
    if n != name(xs[|xs| - 1]) {
      NameHasWitness(init, name, n);
      var i :| 0 <= i < |init| && name(init[i]) == n;
      assert xs[i] == init[i];
    }
  }

  function StructureName(s: Structure): string
  {
    s.name
  }

  function EnumerationName(e: Enumeration): string
  {
    e.name
  }

  predicate DistinctStructures(ss: seq<Structure>)
  {
    forall i, j :: 0 <= i < j < |ss| ==> ss[i].name != ss[j].name
  }

  /** The structures configured as `Generate`, in their order. */
  function GeneratedStructures(structs: map<string, CodegenOption>, ss: seq<Structure>): (g: seq<Structure>)
    ensures |g| <= |ss|
    decreases |ss|
  {
    if ss == [] then []
    else
      var s := ss[|ss| - 1];
      GeneratedStructures(structs, ss[..|ss| - 1]) +
        (if s.name in structs && structs[s.name].Generate? then [s] else [])
  }

  /** The names of the structures that have no entry. */
  function UnconfiguredStructures(structs: map<string, CodegenOption>, ss: seq<Structure>): (names: set<string>)
    decreases |ss|
  {
    if ss == [] then {}
    else
      var s := ss[|ss| - 1];
      UnconfiguredStructures(structs, ss[..|ss| - 1]) + (if s.name !in structs then {s.name} else {})
  }

  /** The warnings of the structures configured as `Checksum`, in their order. */
  function StructureDrifts(structs: map<string, CodegenOption>, ss: seq<Structure>, fingerprint: Structure -> u32): (w: seq<Drift>)
    decreases |ss|
  {
    if ss == [] then []
    else
      var s := ss[|ss| - 1];
      StructureDrifts(structs, ss[..|ss| - 1], fingerprint) +
        (if s.name in structs && structs[s.name].Checksum? then StructureCheck(s, structs[s.name].checksum, fingerprint) else [])
  }

  /** Every structure the loop reaches has its entry removed, and no other entry is touched. */
  lemma {:induction false} StructuresPassConsumes(st: TranslatorState, items: seq<Item>, ss: seq<Structure>, fingerprint: Structure -> u32)
    ensures var p := StructuresPass(st, items, ss, fingerprint);
      && p.state.config.anonMappings == st.config.anonMappings
      && p.state.config.enums == st.config.enums
      && p.state.enumsMissing == st.enumsMissing
      && st.anonMissing <= p.state.anonMissing
      && st.structsMissing <= p.state.structsMissing
      && (p.result.Ok? ==> p.state.config == st.config.(structs := st.config.structs - Names(ss, StructureName)))
    decreases |ss|
  {
    if ss != [] {
      StructuresPassConsumes(st, items, ss[..|ss| - 1], fingerprint);
    }
  }

  /** With distinct names, the loop sees each structure's entry as it was configured. */
  lemma StructureEntrySeen(st: TranslatorState, items: seq<Item>, ss: seq<Structure>, fingerprint: Structure -> u32)
    requires ss != [] && DistinctStructures(ss)
    requires StructuresPass(st, items, ss[..|ss| - 1], fingerprint).result.Ok?
    ensures var prev := StructuresPass(st, items, ss[..|ss| - 1], fingerprint);
      var s := ss[|ss| - 1];
      && (s.name in prev.state.config.structs <==> s.name in st.config.structs)
      && (s.name in st.config.structs ==> prev.state.config.structs[s.name] == st.config.structs[s.name])
      && DistinctStructures(ss[..|ss| - 1])
  {
    var init := ss[..|ss| - 1];
    StructuresPassConsumes(st, items, init, fingerprint);
    assert ss[|ss| - 1].name !in Names(init, StructureName) by {
      NameNotEarlier(ss);
    }
  }

  lemma NameNotEarlier(ss: seq<Structure>)
    requires ss != [] && DistinctStructures(ss)
    ensures ss[|ss| - 1].name !in Names(ss[..|ss| - 1], StructureName)
  {
    var init := ss[..|ss| - 1];
    forall n | n in Names(init, StructureName) ensures exists i :: 0 <= i < |init| && StructureName(init[i]) == n {
      NameHasWitness(init, StructureName, n);
    }
  }

  /**
   * With distinct names, a structure with no entry ends up in
   * `structs_missing`, and only those do.
   */
  lemma {:induction false} StructuresPassMissing(st: TranslatorState, items: seq<Item>, ss: seq<Structure>, fingerprint: Structure -> u32)
    requires DistinctStructures(ss)
    ensures var p := StructuresPass(st, items, ss, fingerprint);
      p.result.Ok? ==> p.state.structsMissing == st.structsMissing + UnconfiguredStructures(st.config.structs, ss)
    decreases |ss|
  {
    if ss != [] && StructuresPass(st, items, ss, fingerprint).result.Ok? {
      StructureEntrySeen(st, items, ss, fingerprint);
      StructuresPassMissing(st, items, ss[..|ss| - 1], fingerprint);
    }
  }

  /** With distinct names, the warnings are those of the mismatching checksum entries, in order. */
  lemma {:induction false} StructuresPassDrift(st: TranslatorState, items: seq<Item>, ss: seq<Structure>, fingerprint: Structure -> u32)
    requires DistinctStructures(ss)
    ensures var p := StructuresPass(st, items, ss, fingerprint);
      p.result.Ok? ==> p.state.drift == st.drift + StructureDrifts(st.config.structs, ss, fingerprint)
    decreases |ss|
  {
    if ss != [] && StructuresPass(st, items, ss, fingerprint).result.Ok? {
      StructureEntrySeen(st, items, ss, fingerprint);
      StructuresPassDrift(st, items, ss[..|ss| - 1], fingerprint);
    }
  }

  /** The anonymous-union keys recorded by translating each structure of `g`, together. */
  function RecordedKeys(anonMappings: map<string, string>, g: seq<Structure>): (keys: set<string>)
    ensures forall i :: 0 <= i < |g| ==> StructureTranslation(anonMappings, g[i]).missing <= keys
    decreases |g|
  {
    if g == [] then {}
    else
      var init := g[..|g| - 1];
      assert forall i :: 0 <= i < |init| ==> init[i] == g[i];
      RecordedKeys(anonMappings, init) + StructureTranslation(anonMappings, g[|g| - 1]).missing
  }

  /**
   * With distinct names, a successful loop adds to `anon_missing` exactly the
   * keys recorded while translating the structures configured as `Generate`.
   */
  lemma {:induction false} StructuresPassKeys(st: TranslatorState, items: seq<Item>, ss: seq<Structure>, fingerprint: Structure -> u32)
    requires DistinctStructures(ss)
    ensures var p := StructuresPass(st, items, ss, fingerprint);
      p.result.Ok? ==>
        p.state.anonMissing == st.anonMissing + RecordedKeys(st.config.anonMappings, GeneratedStructures(st.config.structs, ss))
    decreases |ss|
  {
    if ss != [] && StructuresPass(st, items, ss, fingerprint).result.Ok? {
      var init, last := ss[..|ss| - 1], ss[|ss| - 1];
      var g0 := GeneratedStructures(st.config.structs, init);
      StructureEntrySeen(st, items, ss, fingerprint);
      StructuresPassConsumes(st, items, init, fingerprint);
      StructuresPassKeys(st, items, init, fingerprint);
      if last.name in st.config.structs && st.config.structs[last.name].Generate? {
        assert GeneratedStructures(st.config.structs, ss) == g0 + [last];
        assert (g0 + [last])[..|g0|] == g0;
      } else {
        assert GeneratedStructures(st.config.structs, ss) == g0;
      }
    }
  }

  /** What one step adds to the items: one item for a `Generate` entry, none otherwise. */
  lemma StructureStepItems(st: TranslatorState, s: Structure, fingerprint: Structure -> u32)
    ensures var step, generate := StructureStep(st, s, fingerprint),
                                  s.name in st.config.structs && st.config.structs[s.name].Generate?;
      var o := StructureTranslation(st.config.anonMappings, s).result;
      && (step.result.Ok? <==> !generate || o.Ok?)
      && (step.result.Ok? ==> step.result.value == if generate then [StructItem(o.value)] else [])
  {
  }

  /** Every structure of `ss` translates. */
  predicate AllStructuresTranslate(anonMappings: map<string, string>, ss: seq<Structure>)
  {
    forall k :: 0 <= k < |ss| ==> StructureTranslation(anonMappings, ss[k]).result.Ok?
  }

  /**
   * With distinct names, the loop succeeds exactly when every structure
   * configured as `Generate` translates.
   */
  lemma {:induction false} StructuresPassSucceeds(st: TranslatorState, items: seq<Item>, ss: seq<Structure>, fingerprint: Structure -> u32)
    requires DistinctStructures(ss)
    ensures StructuresPass(st, items, ss, fingerprint).result.Ok? <==>
      AllStructuresTranslate(st.config.anonMappings, GeneratedStructures(st.config.structs, ss))
    decreases |ss|
  {
    if ss != [] {
      var init := ss[..|ss| - 1];
      var last := ss[|ss| - 1];
      var g0 := GeneratedStructures(st.config.structs, init);
      var g := GeneratedStructures(st.config.structs, ss);
      StructuresPassSucceeds(st, items, init, fingerprint);
      if last.name in st.config.structs && st.config.structs[last.name].Generate? {
        assert g == g0 + [last];
        AllStructuresAppend(st.config.anonMappings, g0, last);
      } else {
        assert g == g0;
      }
      if StructuresPass(st, items, init, fingerprint).result.Ok? {
        LastStructureSucceeds(st, items, ss, fingerprint);
      }
    }
  }

  lemma AllStructuresAppend(anonMappings: map<string, string>, g: seq<Structure>, s: Structure)
    ensures AllStructuresTranslate(anonMappings, g + [s]) <==>
      AllStructuresTranslate(anonMappings, g) && StructureTranslation(anonMappings, s).result.Ok?
  {
    assert (g + [s])[|g|] == s;
    assert forall k :: 0 <= k < |g| ==> (g + [s])[k] == g[k];
  }

  /** When the loop gets past all but the last structure, it ends as the last one's step does. */
  lemma LastStructureSucceeds(st: TranslatorState, items: seq<Item>, ss: seq<Structure>, fingerprint: Structure -> u32)
    requires ss != [] && DistinctStructures(ss)
    requires StructuresPass(st, items, ss[..|ss| - 1], fingerprint).result.Ok?
    ensures var last := ss[|ss| - 1];
      var generate := last.name in st.config.structs && st.config.structs[last.name].Generate?;
      var o := StructureTranslation(st.config.anonMappings, last).result;
      var prev := StructuresPass(st, items, ss[..|ss| - 1], fingerprint).result.value;
      && (StructuresPass(st, items, ss, fingerprint).result.Ok? <==> !generate || o.Ok?)
      && (StructuresPass(st, items, ss, fingerprint).result.Ok? ==>
            StructuresPass(st, items, ss, fingerprint).result.value == prev + if generate then [StructItem(o.value)] else [])
  {
    var prev := StructuresPass(st, items, ss[..|ss| - 1], fingerprint);
    StructureEntrySeen(st, items, ss, fingerprint);
    StructuresPassConsumes(st, items, ss[..|ss| - 1], fingerprint);
    StructureStepItems(prev.state, ss[|ss| - 1], fingerprint);
  }

  /** The items of structures that all translate, in their order. */
  function StructItems(anonMappings: map<string, string>, g: seq<Structure>): (items: seq<Item>)
    requires AllStructuresTranslate(anonMappings, g)
    ensures |items| == |g|
    ensures forall k :: 0 <= k < |g| ==> items[k] == StructItem(StructureTranslation(anonMappings, g[k]).result.value)
  {
    seq(|g|, k requires 0 <= k < |g| => StructItem(StructureTranslation(anonMappings, g[k]).result.value))
  }

  /**
   * With distinct names, a successful loop appends one item per structure
   * configured as `Generate`, in declaration order.
   */
  lemma {:induction false} StructuresPassItems(st: TranslatorState, items: seq<Item>, ss: seq<Structure>, fingerprint: Structure -> u32)
    requires DistinctStructures(ss)
    ensures var p, g := StructuresPass(st, items, ss, fingerprint), GeneratedStructures(st.config.structs, ss);
      p.result.Ok? ==>
        AllStructuresTranslate(st.config.anonMappings, g) &&
        p.result.value == items + StructItems(st.config.anonMappings, g)
    decreases |ss|
  {
    StructuresPassSucceeds(st, items, ss, fingerprint);
    if ss == [] {
      assert items + [] == items;
    } else if StructuresPass(st, items, ss, fingerprint).result.Ok? {
      var init := ss[..|ss| - 1];
      var last := ss[|ss| - 1];
      var anon := st.config.anonMappings;
      var g0 := GeneratedStructures(st.config.structs, init);
      StructuresPassItems(st, items, init, fingerprint);
      StructuresPassSucceeds(st, items, init, fingerprint);
      LastStructureSucceeds(st, items, ss, fingerprint);
      if last.name in st.config.structs && st.config.structs[last.name].Generate? {
        assert GeneratedStructures(st.config.structs, ss) == g0 + [last];
        StructItemsAppend(anon, g0, last);
      } else {
        assert GeneratedStructures(st.config.structs, ss) == g0;
      }
    }
  }

  lemma StructItemsAppend(anonMappings: map<string, string>, g: seq<Structure>, s: Structure)
    requires AllStructuresTranslate(anonMappings, g + [s])
    ensures AllStructuresTranslate(anonMappings, g) && StructureTranslation(anonMappings, s).result.Ok?
    ensures StructItems(anonMappings, g + [s]) == StructItems(anonMappings, g) + [StructItem(StructureTranslation(anonMappings, s).result.value)]
  {
    AllStructuresAppend(anonMappings, g, s);
  }

  /**
   * A checksum taken from the fingerprint `h0` gives a warning exactly when
   * the structure's fingerprint is no longer `h0`; either way no item is made.
   */
  lemma ChecksumContract(st: TranslatorState, s: Structure, fingerprint: Structure -> u32, h0: u32)
    requires s.name in st.config.structs && st.config.structs[s.name] == Checksum(Fingerprint(h0))
    ensures StructureStep(st, s, fingerprint).result == Ok([])
    ensures StructureStep(st, s, fingerprint).state.drift == st.drift <==> fingerprint(s) == h0
  {
    if Fingerprint(fingerprint(s)) == Fingerprint(h0) {
      FingerprintInjective(fingerprint(s), h0);
    }
  }

  /**
   * Names are looked up once: a second structure with an already consumed
   * name is reported missing, even though the name was configured.
   */
  lemma DuplicateNameIsMissing(st: TranslatorState, s: Structure, fingerprint: Structure -> u32)
    requires s.name in st.config.structs && st.config.structs[s.name].Generate?
    requires StructureTranslation(st.config.anonMappings, s).result.Ok?
    ensures var p := StructuresPass(st, [], [s, s], fingerprint);
      && p.result == Ok([StructItem(StructureTranslation(st.config.anonMappings, s).result.value)])
      && p.state.structsMissing == st.structsMissing + {s.name}
  {
    assert [s, s][..1] == [s];
    assert [s][..0] == [];
    var x := StructureTranslation(st.config.anonMappings, s).result.value;
    var step := StructureStep(st, s, fingerprint);
    assert step.result == Ok([StructItem(x)]);
    assert StructuresPass(st, [], [], fingerprint) == Pass(Ok([]), st);
    var first := StructuresPass(st, [], [s], fingerprint);
    assert first == Then([], step);
    assert [] + [StructItem(x)] == [StructItem(x)];
    assert first.result == Ok([StructItem(x)]);
    assert s.name !in first.state.config.structs;
    var second := StructureStep(first.state, s, fingerprint);
    assert second.result == Ok([]);
    assert StructuresPass(st, [], [s, s], fingerprint) == Then(first.result.value, second);
    assert [StructItem(x)] + [] == [StructItem(x)];
  }

  // ---------------------------------------------------------------------
  // The enumeration loop
  // ---------------------------------------------------------------------

  predicate DistinctEnumerations(es: seq<Enumeration>)
  {
    forall i, j :: 0 <= i < j < |es| ==> es[i].name != es[j].name
  }

  /** The enumerations configured as `Generate`, in their order. */
  function GeneratedEnumerations(enums: map<string, CodegenOption>, es: seq<Enumeration>): (g: seq<Enumeration>)
    ensures |g| <= |es|
    decreases |es|
  {
    if es == [] then []
    else
      var e := es[|es| - 1];
      GeneratedEnumerations(enums, es[..|es| - 1]) +
        (if e.name in enums && enums[e.name].Generate? then [e] else [])
  }

  function UnconfiguredEnumerations(enums: map<string, CodegenOption>, es: seq<Enumeration>): (names: set<string>)
    decreases |es|
  {
    if es == [] then {}
    else
      var e := es[|es| - 1];
      UnconfiguredEnumerations(enums, es[..|es| - 1]) + (if e.name !in enums then {e.name} else {})
  }

  function EnumerationDrifts(enums: map<string, CodegenOption>, es: seq<Enumeration>, fingerprint: Enumeration -> u32): (w: seq<Drift>)
    decreases |es|
  {
    if es == [] then []
    else
      var e := es[|es| - 1];
      EnumerationDrifts(enums, es[..|es| - 1], fingerprint) +
        (if e.name in enums && enums[e.name].Checksum? then EnumerationCheck(e, enums[e.name].checksum, fingerprint) else [])
  }

  /**
   * The enumeration loop removes the entry of every enumeration it reaches
   * and touches nothing that belongs to structures or unions.
   */
  lemma {:induction false} EnumerationsPassConsumes(st: TranslatorState, items: seq<Item>, es: seq<Enumeration>, fingerprint: Enumeration -> u32)
    ensures var p := EnumerationsPass(st, items, es, fingerprint);
      && p.state.config.anonMappings == st.config.anonMappings
      && p.state.config.structs == st.config.structs
      && p.state.structsMissing == st.structsMissing
      && p.state.anonMissing == st.anonMissing
      && st.enumsMissing <= p.state.enumsMissing
      && (p.result.Ok? ==> p.state.config == st.config.(enums := st.config.enums - Names(es, EnumerationName)))
    decreases |es|
  {
    if es != [] {
      EnumerationsPassConsumes(st, items, es[..|es| - 1], fingerprint);
    }
  }

  /** With distinct names, the loop sees each enumeration's entry as it was configured. */
  lemma EnumerationEntrySeen(st: TranslatorState, items: seq<Item>, es: seq<Enumeration>, fingerprint: Enumeration -> u32)
    requires es != [] && DistinctEnumerations(es)
    requires EnumerationsPass(st, items, es[..|es| - 1], fingerprint).result.Ok?
    ensures var prev := EnumerationsPass(st, items, es[..|es| - 1], fingerprint);
      var e := es[|es| - 1];
      && (e.name in prev.state.config.enums <==> e.name in st.config.enums)
      && (e.name in st.config.enums ==> prev.state.config.enums[e.name] == st.config.enums[e.name])
      && DistinctEnumerations(es[..|es| - 1])
  {
    var init := es[..|es| - 1];
    EnumerationsPassConsumes(st, items, init, fingerprint);
    forall n | n in Names(init, EnumerationName) ensures exists i :: 0 <= i < |init| && EnumerationName(init[i]) == n {
      NameHasWitness(init, EnumerationName, n);
    }
  }

  /** With distinct names, an enumeration with no entry ends up in `enums_missing`, and only those do. */
  lemma {:induction false} EnumerationsPassMissing(st: TranslatorState, items: seq<Item>, es: seq<Enumeration>, fingerprint: Enumeration -> u32)
    requires DistinctEnumerations(es)
    ensures var p := EnumerationsPass(st, items, es, fingerprint);
      p.result.Ok? ==> p.state.enumsMissing == st.enumsMissing + UnconfiguredEnumerations(st.config.enums, es)
    decreases |es|
  {
    if es != [] && EnumerationsPass(st, items, es, fingerprint).result.Ok? {
      EnumerationEntrySeen(st, items, es, fingerprint);
      EnumerationsPassMissing(st, items, es[..|es| - 1], fingerprint);
    }
  }

  /** With distinct names, the warnings are those of the mismatching checksum entries, in order. */
  lemma {:induction false} EnumerationsPassDrift(st: TranslatorState, items: seq<Item>, es: seq<Enumeration>, fingerprint: Enumeration -> u32)
    requires DistinctEnumerations(es)
    ensures var p := EnumerationsPass(st, items, es, fingerprint);
      p.result.Ok? ==> p.state.drift == st.drift + EnumerationDrifts(st.config.enums, es, fingerprint)
    decreases |es|
  {
    if es != [] && EnumerationsPass(st, items, es, fingerprint).result.Ok? {
      EnumerationEntrySeen(st, items, es, fingerprint);
      EnumerationsPassDrift(st, items, es[..|es| - 1], fingerprint);
    }
  }

  /** When the loop gets past all but the last enumeration, it succeeds as the last one's step does. */
  lemma LastEnumerationSucceeds(st: TranslatorState, items: seq<Item>, es: seq<Enumeration>, fingerprint: Enumeration -> u32)
    requires es != [] && DistinctEnumerations(es)
    requires EnumerationsPass(st, items, es[..|es| - 1], fingerprint).result.Ok?
    ensures var last := es[|es| - 1];
      var generate := last.name in st.config.enums && st.config.enums[last.name].Generate?;
      var prev := EnumerationsPass(st, items, es[..|es| - 1], fingerprint).result.value;
      && (EnumerationsPass(st, items, es, fingerprint).result.Ok? <==> !generate || EnumerationTranslation(last).Ok?)
      && (EnumerationsPass(st, items, es, fingerprint).result.Ok? ==>
            EnumerationsPass(st, items, es, fingerprint).result.value ==
              prev + if generate then [EnumItem(EnumerationTranslation(last).value)] else [])
  {
    EnumerationEntrySeen(st, items, es, fingerprint);
  }

  /** Every enumeration of `es` translates. */
  predicate AllEnumerationsTranslate(es: seq<Enumeration>)
  {
    forall k :: 0 <= k < |es| ==> EnumerationTranslation(es[k]).Ok?
  }

  lemma AllEnumerationsAppend(g: seq<Enumeration>, e: Enumeration)
    ensures AllEnumerationsTranslate(g + [e]) <==> AllEnumerationsTranslate(g) && EnumerationTranslation(e).Ok?
  {
    assert (g + [e])[|g|] == e;
    assert forall k :: 0 <= k < |g| ==> (g + [e])[k] == g[k];
  }

  /** The items of enumerations that all translate, in their order. */
  function EnumItems(g: seq<Enumeration>): (items: seq<Item>)
    requires AllEnumerationsTranslate(g)
    ensures |items| == |g|
    ensures forall k :: 0 <= k < |g| ==> items[k] == EnumItem(EnumerationTranslation(g[k]).value)
  {
    seq(|g|, k requires 0 <= k < |g| => EnumItem(EnumerationTranslation(g[k]).value))
  }

  /**
   * With distinct names, the loop succeeds exactly when every enumeration
   * configured as `Generate` translates.
   */
  lemma {:induction false} EnumerationsPassSucceeds(st: TranslatorState, items: seq<Item>, es: seq<Enumeration>, fingerprint: Enumeration -> u32)
    requires DistinctEnumerations(es)
    ensures EnumerationsPass(st, items, es, fingerprint).result.Ok? <==>
      AllEnumerationsTranslate(GeneratedEnumerations(st.config.enums, es))
    decreases |es|
  {
    if es != [] {
      var init := es[..|es| - 1];
      var last := es[|es| - 1];
      var g0 := GeneratedEnumerations(st.config.enums, init);
      var g := GeneratedEnumerations(st.config.enums, es);
      EnumerationsPassSucceeds(st, items, init, fingerprint);
      if last.name in st.config.enums && st.config.enums[last.name].Generate? {
        assert g == g0 + [last];
        AllEnumerationsAppend(g0, last);
      } else {
        assert g == g0;
      }
      if EnumerationsPass(st, items, init, fingerprint).result.Ok? {
        LastEnumerationSucceeds(st, items, es, fingerprint);
      }
    }
  }

  /**
   * With distinct names, a successful loop appends one item per enumeration
   * configured as `Generate`, in declaration order.
   */
  lemma {:induction false} EnumerationsPassItems(st: TranslatorState, items: seq<Item>, es: seq<Enumeration>, fingerprint: Enumeration -> u32)
    requires DistinctEnumerations(es)
    ensures var p, g := EnumerationsPass(st, items, es, fingerprint), GeneratedEnumerations(st.config.enums, es);
      p.result.Ok? ==> AllEnumerationsTranslate(g) && p.result.value == items + EnumItems(g)
    decreases |es|
  {
    EnumerationsPassSucceeds(st, items, es, fingerprint);
    if es == [] {
      assert items + [] == items;
    } else if EnumerationsPass(st, items, es, fingerprint).result.Ok? {
      var init := es[..|es| - 1];
      var last := es[|es| - 1];
      var g0 := GeneratedEnumerations(st.config.enums, init);
      EnumerationsPassItems(st, items, init, fingerprint);
      EnumerationsPassSucceeds(st, items, init, fingerprint);
      LastEnumerationSucceeds(st, items, es, fingerprint);
      if last.name in st.config.enums && st.config.enums[last.name].Generate? {
        AllEnumerationsAppend(g0, last);
        assert EnumItems(g0 + [last]) == EnumItems(g0) + [EnumItem(EnumerationTranslation(last).value)];
      } else {
        assert items + EnumItems(g0) + [] == items + EnumItems(g0);
      }
    }
  }

  // ---------------------------------------------------------------------
  // The whole pass
  // ---------------------------------------------------------------------

  /**
   * With distinct names, a translation succeeds exactly when every structure
   * and every enumeration configured as `Generate` translates.
   */
  lemma SchemaTranslationSucceeds(m: MetaModel, config: Config,
                                  structureFingerprint: Structure -> u32, enumerationFingerprint: Enumeration -> u32)
    requires DistinctStructures(m.structures) && DistinctEnumerations(m.enumerations)
    ensures MetaModelTranslation(Initial(config), m, structureFingerprint, enumerationFingerprint).result.Ok? <==>
      AllStructuresTranslate(config.anonMappings, GeneratedStructures(config.structs, m.structures)) &&
      AllEnumerationsTranslate(GeneratedEnumerations(config.enums, m.enumerations))
  {
    var st := Initial(config);
    var sp := StructuresPass(st, [], m.structures, structureFingerprint);
    StructuresPassConsumes(st, [], m.structures, structureFingerprint);
    StructuresPassSucceeds(st, [], m.structures, structureFingerprint);
    if sp.result.Ok? {
      EnumerationsPassSucceeds(sp.state, sp.result.value, m.enumerations, enumerationFingerprint);
    }
  }

  /**
   * After a successful translation with distinct names, every consulted
   * entry is gone from the configuration and nothing else in it changed;
   * the missing structures and enumerations are exactly the unconfigured
   * names; the missing union keys are exactly those the generated structures
   * recorded; and the warnings
   * are those of the mismatching checksums, structures first.
   */
  lemma SchemaTranslationState(m: MetaModel, config: Config,
                               structureFingerprint: Structure -> u32, enumerationFingerprint: Enumeration -> u32)
    requires DistinctStructures(m.structures) && DistinctEnumerations(m.enumerations)
    ensures var p := MetaModelTranslation(Initial(config), m, structureFingerprint, enumerationFingerprint);
      p.result.Ok? ==>
        && p.state.config == config.(structs := config.structs - Names(m.structures, StructureName),
                                     enums := config.enums - Names(m.enumerations, EnumerationName))
        && p.state.structsMissing == UnconfiguredStructures(config.structs, m.structures)
        && p.state.enumsMissing == UnconfiguredEnumerations(config.enums, m.enumerations)
        && p.state.anonMissing == RecordedKeys(config.anonMappings, GeneratedStructures(config.structs, m.structures))
        && p.state.drift == StructureDrifts(config.structs, m.structures, structureFingerprint) +
                            EnumerationDrifts(config.enums, m.enumerations, enumerationFingerprint)
  {
    var st := Initial(config);
    var sp := StructuresPass(st, [], m.structures, structureFingerprint);
    StructuresPassConsumes(st, [], m.structures, structureFingerprint);
    if sp.result.Ok? {
      StructuresPassMissing(st, [], m.structures, structureFingerprint);
      StructuresPassDrift(st, [], m.structures, structureFingerprint);
      StructuresPassKeys(st, [], m.structures, structureFingerprint);
      var mid := sp.state;
      EnumerationsPassConsumes(mid, sp.result.value, m.enumerations, enumerationFingerprint);
      EnumerationsPassMissing(mid, sp.result.value, m.enumerations, enumerationFingerprint);
      EnumerationsPassDrift(mid, sp.result.value, m.enumerations, enumerationFingerprint);
      assert [] + StructureDrifts(config.structs, m.structures, structureFingerprint) ==
        StructureDrifts(config.structs, m.structures, structureFingerprint);
    }
  }

  /**
   * After a successful translation with distinct names, the items are the
   * generated structures followed by the generated enumerations, each in
   * declaration order.
   */
  lemma SchemaTranslationItems(m: MetaModel, config: Config,
                               structureFingerprint: Structure -> u32, enumerationFingerprint: Enumeration -> u32)
    requires DistinctStructures(m.structures) && DistinctEnumerations(m.enumerations)
    ensures var p := MetaModelTranslation(Initial(config), m, structureFingerprint, enumerationFingerprint);
      var gs, ge := GeneratedStructures(config.structs, m.structures), GeneratedEnumerations(config.enums, m.enumerations);
      p.result.Ok? ==>
        && AllStructuresTranslate(config.anonMappings, gs)
        && AllEnumerationsTranslate(ge)
        && p.result.value == StructItems(config.anonMappings, gs) + EnumItems(ge)
  {
    var st := Initial(config);
    var sp := StructuresPass(st, [], m.structures, structureFingerprint);
    StructuresPassConsumes(st, [], m.structures, structureFingerprint);
    StructuresPassItems(st, [], m.structures, structureFingerprint);
    if sp.result.Ok? {
      EnumerationsPassItems(sp.state, sp.result.value, m.enumerations, enumerationFingerprint);
      assert [] + StructItems(config.anonMappings, GeneratedStructures(config.structs, m.structures)) ==
        StructItems(config.anonMappings, GeneratedStructures(config.structs, m.structures));
    }
  }

  /**
   * Structure `s`, configured as `Generate` in `structs`, fails to translate,
   * and its failure reaches the caller as `g`: a returned error wrapped in the
   * structure's name, a panic unchanged.
   */
  predicate StructureFailsPass(structs: map<string, CodegenOption>, anonMappings: map<string, string>, s: Structure, g: Failure)
  {
    var f := StructureTranslation(anonMappings, s).result;
    && s.name in structs && structs[s.name].Generate?
    && f.Err?
    && (f.error.Bail? ==> g == Bail(InStructure(s.name, f.error.error)))
    && (f.error.Panicked? ==> g == f.error)
  }

  /** The same for an enumeration, wrapped in the enumeration's name. */
  predicate EnumerationFailsPass(enums: map<string, CodegenOption>, e: Enumeration, g: Failure)
  {
    var f := EnumerationTranslation(e);
    && e.name in enums && enums[e.name].Generate?
    && f.Err?
    && (f.error.Bail? ==> g == Bail(InEnumeration(e.name, f.error.error)))
    && (f.error.Panicked? ==> g == f.error)
  }

  /** A failing structure loop fails because one generated structure does, named in the error. */
  lemma {:induction false} StructuresPassFailure(st: TranslatorState, items: seq<Item>, ss: seq<Structure>, fingerprint: Structure -> u32)
    ensures var p := StructuresPass(st, items, ss, fingerprint);
      p.result.Err? ==>
        exists k :: 0 <= k < |ss| && StructureFailsPass(st.config.structs, st.config.anonMappings, ss[k], p.result.error)
    decreases |ss|
  {
    var p := StructuresPass(st, items, ss, fingerprint);
    if ss != [] && p.result.Err? {
      var init, last := ss[..|ss| - 1], ss[|ss| - 1];
      var prev := StructuresPass(st, items, init, fingerprint);
      if prev.result.Err? {
        StructuresPassFailure(st, items, init, fingerprint);
        var k :| 0 <= k < |init| && StructureFailsPass(st.config.structs, st.config.anonMappings, init[k], p.result.error);
        assert ss[k] == init[k];
      } else {
        StructuresPassConsumes(st, items, init, fingerprint);
        StructureStepFailure(st, prev.state, last, fingerprint);
        assert StructureFailsPass(st.config.structs, st.config.anonMappings, ss[|ss| - 1], p.result.error);
      }
    }
  }

  lemma StructureStepFailure(st: TranslatorState, now: TranslatorState, s: Structure, fingerprint: Structure -> u32)
    requires now.config.anonMappings == st.config.anonMappings
    requires exists removed :: now.config.structs == st.config.structs - removed
    ensures var step := StructureStep(now, s, fingerprint);
      step.result.Err? ==> StructureFailsPass(st.config.structs, st.config.anonMappings, s, step.result.error)
  {
    var step := StructureStep(now, s, fingerprint);
    if step.result.Err? {
      var removed :| now.config.structs == st.config.structs - removed;
      assert s.name in now.config.structs && now.config.structs[s.name].Generate?;
      var f := StructureTranslation(st.config.anonMappings, s).result;
      assert step.result == Err(TranslatingStructure(s.name, f.error));
    }
  }

  /** A failing enumeration loop fails because one generated enumeration does, named in the error. */
  lemma {:induction false} EnumerationsPassFailure(st: TranslatorState, items: seq<Item>, es: seq<Enumeration>, fingerprint: Enumeration -> u32)
    ensures var p := EnumerationsPass(st, items, es, fingerprint);
      p.result.Err? ==> exists k :: 0 <= k < |es| && EnumerationFailsPass(st.config.enums, es[k], p.result.error)
    decreases |es|
  {
    var p := EnumerationsPass(st, items, es, fingerprint);
    if es != [] && p.result.Err? {
      var init, last := es[..|es| - 1], es[|es| - 1];
      var prev := EnumerationsPass(st, items, init, fingerprint);
      if prev.result.Err? {
        EnumerationsPassFailure(st, items, init, fingerprint);
        var k :| 0 <= k < |init| && EnumerationFailsPass(st.config.enums, init[k], p.result.error);
        assert es[k] == init[k];
      } else {
        EnumerationsPassConsumes(st, items, init, fingerprint);
        EnumerationStepFailure(st, prev.state, last, fingerprint);
        assert EnumerationFailsPass(st.config.enums, es[|es| - 1], p.result.error);
      }
    }
  }

  lemma EnumerationStepFailure(st: TranslatorState, now: TranslatorState, e: Enumeration, fingerprint: Enumeration -> u32)
    requires exists removed :: now.config.enums == st.config.enums - removed
    ensures var step := EnumerationStep(now, e, fingerprint);
      step.result.Err? ==> EnumerationFailsPass(st.config.enums, e, step.result.error)
  {
    var step := EnumerationStep(now, e, fingerprint);
    if step.result.Err? {
      var removed :| now.config.enums == st.config.enums - removed;
      assert e.name in now.config.enums && now.config.enums[e.name].Generate?;
      assert step.result == Err(TranslatingEnumeration(e.name, EnumerationTranslation(e).error));
    }
  }

  /**
   * A failing run names where it failed: a generated structure or a
   * generated enumeration whose translation failed, its returned error
   * wrapped in the entity's name and its panic passed on unchanged.
   */
  lemma SchemaTranslationFailure(m: MetaModel, st: TranslatorState,
                                 structureFingerprint: Structure -> u32, enumerationFingerprint: Enumeration -> u32)
    ensures var p := MetaModelTranslation(st, m, structureFingerprint, enumerationFingerprint);
      p.result.Err? ==>
        || (exists k :: 0 <= k < |m.structures| &&
              StructureFailsPass(st.config.structs, st.config.anonMappings, m.structures[k], p.result.error))
        || (exists k :: 0 <= k < |m.enumerations| && EnumerationFailsPass(st.config.enums, m.enumerations[k], p.result.error))
  {
    var sp := StructuresPass(st, [], m.structures, structureFingerprint);
    StructuresPassFailure(st, [], m.structures, structureFingerprint);
    if sp.result.Ok? {
      StructuresPassConsumes(st, [], m.structures, structureFingerprint);
      EnumerationsPassFailure(sp.state, sp.result.value, m.enumerations, enumerationFingerprint);
    }
  }

  /**
   * A run that fails with a property's context points at the property: a
   * generated structure of that name has a property of that name whose type
   * returned exactly the wrapped error.
   */
  lemma SchemaPropertyFailure(m: MetaModel, st: TranslatorState,
                              structureFingerprint: Structure -> u32, enumerationFingerprint: Enumeration -> u32,
                              structure: string, property: string, e: Error)
    requires MetaModelTranslation(st, m, structureFingerprint, enumerationFingerprint).result ==
      Err(Bail(InStructure(structure, WhileProperty(property, e))))
    ensures exists k, i :: (0 <= k < |m.structures| && 0 <= i < |m.structures[k].properties| &&
                            PropertyOfStructure(st.config.structs, st.config.anonMappings, m.structures[k], i, structure, property, e))
  {
    var g := Bail(InStructure(structure, WhileProperty(property, e)));
    SchemaTranslationFailure(m, st, structureFingerprint, enumerationFingerprint);
    var k :| 0 <= k < |m.structures| && StructureFailsPass(st.config.structs, st.config.anonMappings, m.structures[k], g);
    var s := m.structures[k];
    StructureFailure(st.config.anonMappings, s);
    var i :| 0 <= i < |s.properties| && PropertyFailsWith(st.config.anonMappings, s.properties[i], Bail(WhileProperty(property, e)));
    assert PropertyOfStructure(st.config.structs, st.config.anonMappings, s, i, structure, property, e);
  }

  /** Structure `s`, generated and named `structure`, has as its `i`-th property one named `property` whose type returned `e`. */
  predicate PropertyOfStructure(structs: map<string, CodegenOption>, anonMappings: map<string, string>, s: Structure, i: int,
                                structure: string, property: string, e: Error)
    requires 0 <= i < |s.properties|
  {
    && s.name == structure && s.name in structs && structs[s.name].Generate?
    && s.properties[i].name == property
    && TypeTranslation(anonMappings, s.properties[i].ty).result == Err(Bail(e))
  }

  /** No run produces a trait implementation: every item is a struct or an enum. */
  lemma OnlyStructsAndEnums(m: MetaModel, st: TranslatorState,
                            structureFingerprint: Structure -> u32, enumerationFingerprint: Enumeration -> u32)
    ensures var p := MetaModelTranslation(st, m, structureFingerprint, enumerationFingerprint);
      p.result.Ok? ==> forall k :: 0 <= k < |p.result.value| ==> !p.result.value[k].TraitImplItem?
  {
    var sp := StructuresPass(st, [], m.structures, structureFingerprint);
    StructuresYieldStructs(st, [], m.structures, structureFingerprint);
    if sp.result.Ok? {
      EnumerationsYieldNoTraits(sp.state, sp.result.value, m.enumerations, enumerationFingerprint);
    }
  }

  lemma {:induction false} StructuresYieldStructs(st: TranslatorState, items: seq<Item>, ss: seq<Structure>, fingerprint: Structure -> u32)
    ensures var p := StructuresPass(st, items, ss, fingerprint);
      p.result.Ok? ==>
        |items| <= |p.result.value| && p.result.value[..|items|] == items &&
        forall k :: |items| <= k < |p.result.value| ==> p.result.value[k].StructItem?
    decreases |ss|
  {
    if ss != [] {
      StructuresYieldStructs(st, items, ss[..|ss| - 1], fingerprint);
    }
  }

  lemma {:induction false} EnumerationsYieldNoTraits(st: TranslatorState, items: seq<Item>, es: seq<Enumeration>, fingerprint: Enumeration -> u32)
    requires forall k :: 0 <= k < |items| ==> !items[k].TraitImplItem?
    ensures var p := EnumerationsPass(st, items, es, fingerprint);
      p.result.Ok? ==> forall k :: 0 <= k < |p.result.value| ==> !p.result.value[k].TraitImplItem?
    decreases |es|
  {
    if es != [] {
      EnumerationsYieldNoTraits(st, items, es[..|es| - 1], fingerprint);
    }
  }

  // ---------------------------------------------------------------------
  // Scenarios
  // ---------------------------------------------------------------------

  /** A structure with one undocumented property and nothing else. */
  function OneProperty(structure: string, property: string, ty: Type): (s: Structure)
    ensures s.name == structure && |s.properties| == 1 && s.properties[0].ty == ty
  {
    Structure(structure, [Property(property, ty, None, None, None, None, None, None)], [], [], None, None, None, None, None)
  }

  /** Translating a meta-model that holds one structure, configured as `Generate(true)`. */
  lemma OneGeneratedStructure(s: Structure, anonMappings: map<string, string>,
                              structureFingerprint: Structure -> u32, enumerationFingerprint: Enumeration -> u32)
    ensures var config := Config("", anonMappings, map[s.name := Generate(true)], map[]);
      var p := MetaModelTranslation(Initial(config), MetaModel([s], []), structureFingerprint, enumerationFingerprint);
      var o := StructureTranslation(anonMappings, s);
      && (o.result.Ok? ==> p.result == Ok([StructItem(o.result.value)]))
      && p.state.anonMissing == o.missing
      && p.state.structsMissing == {}
  {
    var config := Config("", anonMappings, map[s.name := Generate(true)], map[]);
    var st := Initial(config);
    assert [s][..0] == [];
    var step := StructureStep(st, s, structureFingerprint);
    assert StructuresPass(st, [], [s], structureFingerprint) == Then([], step);
    var o := StructureTranslation(anonMappings, s);
    if o.result.Ok? {
      assert [] + [StructItem(o.result.value)] == [StructItem(o.result.value)];
    }
  }

  /** The one field of a structure built by `OneProperty`. */
  lemma OnePropertyFields(anonMappings: map<string, string>, structure: string, property: string, ty: Type)
    ensures var s := OneProperty(structure, property, ty);
      var t := TypeTranslation(anonMappings, ty);
      t.result.Ok? && t.result.value.Some? ==>
        StructureTranslation(anonMappings, s) ==
          Outcome(Ok(Struct(structure, [], [StructField(property, t.result.value.value, None, Unknown, None)], None, None, Unknown)),
                  t.missing)
  {
    var s := OneProperty(structure, property, ty);
    var t := TypeTranslation(anonMappings, ty);
    if t.result.Ok? && t.result.value.Some? {
      var field := StructField(property, t.result.value.value, None, Unknown, None);
      assert Parse(None) == Ok(Unknown);
      assert PropertyField(anonMappings, s.properties[0]) == Outcome(Ok(Some(field)), t.missing);
      assert s.properties[..0] == [];
      assert Fields(anonMappings, s.properties[..0]) == Outcome(Ok([]), {});
      assert [] + [field] == [field];
      assert {} + t.missing == t.missing;
      assert Fields(anonMappings, s.properties) == Outcome(Ok([field]), t.missing);
      assert BaseList(s) == Ok([]);
    }
  }

  /**
   * Structure `Foo` with a property `x: Bar | null`, configured as
   * `Generate(true)`, becomes a struct `Foo` with a field `x: Option<Bar>`.
   */
  lemma OptionalFieldScenario(structureFingerprint: Structure -> u32, enumerationFingerprint: Enumeration -> u32)
    ensures var foo := OneProperty("Foo", "x", Or([Reference("Bar"), Base(Null)]));
      var config := Config("", map[], map["Foo" := Generate(true)], map[]);
      var p := MetaModelTranslation(Initial(config), MetaModel([foo], []), structureFingerprint, enumerationFingerprint);
      && p.result == Ok([StructItem(Struct("Foo", [], [StructField("x", New("Option<Bar>"), None, Unknown, None)], None, None, Unknown))])
      && p.state.anonMissing == {} && p.state.structsMissing == {}
  {
    var ty := Or([Reference("Bar"), Base(Null)]);
    OptionalUnion(map[], Reference("Bar"));
    assert TypeTranslation(map[], Reference("Bar")) == Outcome(Ok(Some(New("Bar"))), {});
    assert Texts([New("Bar")]) == ["Bar"];
    assert Join(["Bar"], ",") == "Bar";
    assert NewGenerics("Option", [New("Bar")]) == New("Option<Bar>");
    assert TypeTranslation(map[], ty) == Outcome(Ok(Some(New("Option<Bar>"))), {});
    OnePropertyFields(map[], "Foo", "x", ty);
    OneGeneratedStructure(OneProperty("Foo", "x", ty), map[], structureFingerprint, enumerationFingerprint);
  }

  /**
   * Structure `Foo` with a property `x: A | B` and no name configured for
   * `A|B` is still generated; the field gets the placeholder type and the
   * key `A|B` is recorded as a missing anonymous mapping.
   */
  lemma PlaceholderFieldScenario(structureFingerprint: Structure -> u32, enumerationFingerprint: Enumeration -> u32)
    ensures var foo := OneProperty("Foo", "x", Or([Reference("A"), Reference("B")]));
      var config := Config("", map[], map["Foo" := Generate(true)], map[]);
      var p := MetaModelTranslation(Initial(config), MetaModel([foo], []), structureFingerprint, enumerationFingerprint);
      && p.result == Ok([StructItem(Struct("Foo", [], [StructField("x", New(Placeholder), None, Unknown, None)], None, None, Unknown))])
      && p.state.anonMissing == {"A|B"}
  {
    var ty := Or([Reference("A"), Reference("B")]);
    UnnamedUnionScenario(map[]);
    OnePropertyFields(map[], "Foo", "x", ty);
    OneGeneratedStructure(OneProperty("Foo", "x", ty), map[], structureFingerprint, enumerationFingerprint);
  }
}
