/**
 * The user-authored generation policy: what to do with each structure and
 * enumeration, and the names chosen for anonymous unions.
 */
module Configuration {
  import opened Wrappers
  import opened Errors
  import opened Target
  import opened Schema

  /**
   * `Generate(_)`: translate the entity (both values currently do).
   * `Checksum(h)`: do not translate it, but warn when its fingerprint is no longer `h`.
   */
  datatype CodegenOption = Generate(generate: bool) | Checksum(checksum: string)

  datatype Config = Config(
    version: string,
    anonMappings: map<string, string>,
    structs: map<string, CodegenOption>,
    enums: map<string, CodegenOption>)

  /** The lookup key of an anonymous union: its arms' references joined with '|', in order. */
  function AnonKey(refs: seq<TypeRef>): (key: string)
  {
    Join(Texts(refs), "|")
  }

  /**
   * `Config::lookup_anon`, which reads only the `anon_mappings` table. The
   * outer `Err` is a panic while reducing an arm; the inner result is the
   * Rust return value: the configured type, `Err(None)` when an arm has no
   * reference, or `Err(Some(key))` with the key that was not found.
   */
  function LookupAnon(anonMappings: map<string, string>, items: seq<Type>): (r: Result<Result<TypeRef, Option<string>>, Failure>)
  {
    match Collect(Reductions(items))
    case Err(f) => Err(f)
    case Ok(None) => Ok(Err(None))
    case Ok(Some(refs)) =>
      var key := AnonKey(refs);
      if key in anonMappings then Ok(Ok(New(anonMappings[key]))) else Ok(Err(Some(key)))
  }

  /**
   * The lookup panics exactly when the first arm without a reference
   * panics, and reports `Err(None)` exactly when that arm simply has none.
   * Otherwise every arm reduces, and the result is the configured name of
   * the joined key, or that key when it is not configured.
   */
  lemma LookupAnonContract(anonMappings: map<string, string>, items: seq<Type>)
    ensures var r, k := LookupAnon(anonMappings, items), FirstMiss(Reductions(items));
      && (r.Err? <==> k < |items| && IntoReference(items[k]).Err?)
      && (r == Ok(Err(None)) <==> k < |items| && IntoReference(items[k]) == Ok(None))
    ensures var r := LookupAnon(anonMappings, items);
      r.Ok? && r.value.Ok? ==>
        AllReduce(items) && AnonKey(ReferencesOf(items)) in anonMappings &&
        r.value.value == New(anonMappings[AnonKey(ReferencesOf(items))])
    ensures var r := LookupAnon(anonMappings, items);
      r.Ok? && r.value.Err? && r.value.error.Some? ==>
        AllReduce(items) && r.value.error.value == AnonKey(ReferencesOf(items)) &&
        r.value.error.value !in anonMappings
  {
    var c := Collect(Reductions(items));
    if c.Ok? && c.value.Some? {
      assert c.value.value == ReferencesOf(items);
    }
  }

  /**
   * When no arm can panic, the lookup fails with `Err(None)` exactly when
   * some arm has no reference; otherwise it looks up the joined key.
   */
  lemma LookupAnonWithoutPanics(anonMappings: map<string, string>, items: seq<Type>)
    requires forall i :: 0 <= i < |items| ==> !ReducePanics(items[i])
    ensures LookupAnon(anonMappings, items).Ok?
    ensures LookupAnon(anonMappings, items) == Ok(Err(None)) <==> exists i :: 0 <= i < |items| && !Reducible(items[i])
    ensures (forall i :: 0 <= i < |items| ==> Reducible(items[i])) ==>
      AllReduce(items) &&
      var key := AnonKey(ReferencesOf(items));
      LookupAnon(anonMappings, items) ==
        if key in anonMappings then Ok(Ok(New(anonMappings[key]))) else Ok(Err(Some(key)))
  {
    LookupAnonContract(anonMappings, items);
    forall i | 0 <= i < |items|
      ensures IntoReference(items[i]).Ok?
      ensures IsReference(IntoReference(items[i])) <==> Reducible(items[i])
    {
      IntoReferenceClassifies(items[i]);
    }
  }

  /**
   * The key of a non-empty union whose reference names contain no '|' can be
   * split back into the arms' references, in order.
   */
  lemma AnonKeyDecodes(items: seq<Type>)
    requires |items| >= 1 && AllReduce(items)
    requires forall i :: 0 <= i < |items| ==> NamesAvoid(items[i], '|')
    ensures Split(AnonKey(ReferencesOf(items)), '|') == Texts(ReferencesOf(items))
  {
    var refs := ReferencesOf(items);
    forall i | 0 <= i < |items| ensures '|' !in Texts(refs)[i] {
      ReferenceAvoidsPipe(items[i]);
    }
    SplitJoin(Texts(refs), '|');
  }

  /** The key is order-sensitive: two different names give "A|B" and "B|A", which differ. */
  lemma AnonKeyOrderSensitive(a: string, b: string)
    requires a != b && '|' !in a && '|' !in b
    ensures AllReduce([Reference(a), Reference(b)]) && AllReduce([Reference(b), Reference(a)])
    ensures AnonKey(ReferencesOf([Reference(a), Reference(b)])) != AnonKey(ReferencesOf([Reference(b), Reference(a)]))
  {
    var ab, ba := [Reference(a), Reference(b)], [Reference(b), Reference(a)];
    assert AllReduce(ab) && AllReduce(ba);
    AnonKeyDecodes(ab);
    AnonKeyDecodes(ba);
    assert Texts(ReferencesOf(ab))[0] == a;
    assert Texts(ReferencesOf(ba))[0] == b;
  }

  /** A union with no arms is looked up under the empty key. */
  lemma EmptyUnionKey(anonMappings: map<string, string>)
    ensures LookupAnon(anonMappings, []) ==
      if "" in anonMappings then Ok(Ok(New(anonMappings[""]))) else Ok(Err(Some("")))
  {
    assert AllReduce([]);
    assert ReferencesOf([]) == [];
  }
}
