# Schema translator model

This project models the core of the `xtask` code generator of an LSP type
library. The generator reads the Language Server Protocol meta-model and
turns its structures and enumerations into the Rust items that code
generation then prints. The translation is steered by a user-written
configuration, which says for each structure and enumeration either
"generate it" or "only watch its checksum", and which gives Rust names to
anonymous unions.

What is modelled, module by module:

- `Target` (`target.dfy`) holds the output vocabulary:
  - type references (`TypeRef::new`, `as_str`, `new_generics`, `new_tuple`);
  - `Version::parse`, with its normalisation steps: drop a `version ` prefix,
    keep the first word, drop a trailing dot;
  - the item records (`Struct`, `StructFields`, `Enum`, `EnumVariants`, `Item`).
- `Schema` (`schema.dfy`) holds the meta-model entities and
  `Type::into_reference`. The reduction of a union arm to a plain reference
  is modelled together with its panics.
- `Configuration` (`config.dfy`) holds the `Config` record and
  `Config::lookup_anon`.
- `Checksum` (`checksum.dfy`) holds the `{:08x}` fingerprint of a 32-bit hash
  and the proof that it is injective.
- `Translate` (`translate.dfy`) holds the translation of a type, a structure
  and an enumeration. These are pure specification functions, and the lemmas
  state what the translation promises.
- `Translator` (`translator.dfy`) holds the mutable `Translator` object. Its
  methods keep the source's loops. Each method is proved equal to a
  specification function, and the whole-schema pass is stated by lemmas:
  - when it succeeds;
  - which items it yields, in order;
  - which configuration entries it consumes;
  - which names it reports as missing;
  - which checksum drifts it reports.
- `Errors` (`errors.dfy`) and `Wrappers` (`wrappers.dfy`) hold the outcome
  types.

How the model represents the source:

- A returned eyre error is `Failure.Bail`. A panic (`unwrap` on `None`,
  `panic!`, `todo!()`) is `Failure.Panicked`. `wrap_err_with` adds context
  to returned errors only; a panic passes through unchanged.
- The anonymous-union keys that a translation records in `anon_missing` are
  returned beside the result (`Outcome.missing`). The `Translator` methods
  add them to the object's `anonMissing` field.
- The xxHash32 digest of a structure or enumeration is a function parameter.
  The model renders it with `{:08x}` and compares it with the configured
  checksum.
- The "Hash mismatch" warnings become a `drift` log on the translator state.
  The messages listing missing names become the three `…Missing` sets.

Where the code departs from what it evidently intends, the model follows the code:

- `MetaModel::translate` ends in `todo!()` (`xtask/src/translate.rs:135`), so
  the real pass always panics once its loops finish. The model returns the
  `items` vector the loops build, which is the evidently intended result.
- `TypeRef::new_generics` and `TypeRef::new_tuple` join arguments with a
  bare `,`, so the rendering is not injective: `Target.GenericsCanCollide`
  shows `Vec<A,B>` arising from two arguments `A`, `B` and from one argument
  `A,B`. Injectivity is proved under the condition that no argument text
  contains a comma (`Target.GenericsDetermineArguments`,
  `Target.TupleDeterminesElements`). The texts `into_reference` builds keep
  their own commas inside `<…>` or `(…)`, so an actual collision needs a
  name with a comma in it: a referenced type's name or a configured
  anonymous-union name.
- `Generate(false)` behaves exactly like `Generate(true)`: the entity is
  translated. The source's comment says `false` should make it a mixin only.

## Model

| member | source | states |
|---|---|---|
| Target.New | xtask/src/target.rs:87-93 | `as_str` of a reference built by `TypeRef::new` is exactly the name it was built from |
| Target.TextsInjective | xtask/src/target.rs:84-93 | two lists of references with the same texts are the same list |
| Target.GenericsDetermineArguments | xtask/src/target.rs:95-107 | when argument texts contain no comma and the names no `<`, the text of `new_generics` determines both the generic name and the argument list |
| Target.TupleDeterminesElements | xtask/src/target.rs:109-119 | when element texts contain no comma, the text of `new_tuple` determines the element list |
| Target.SingleGeneric | xtask/src/target.rs:95-107 | a generic over one argument renders as `name<argument>` |
| Target.PairGeneric | xtask/src/target.rs:95-107 | a generic over two arguments renders as `name<first,second>` |
| Target.GenericsCanCollide | xtask/src/target.rs:95-107 | without that condition rendering is not injective: `Vec` over `[A, B]` and over `["A,B"]` both give `Vec<A,B>` |
| Target.SplitJoin | xtask/src/config.rs:34-38 | joining parts with a separator that none of them contains, then splitting, gives back the parts |
| Target.BeforeFirstSpace | xtask/src/target.rs:27-30 | the first word contains no space, is a prefix of the input, and is followed by a space or the end of the input |
| Target.Parse | xtask/src/target.rs:24-51 | every error `Version::parse` returns is an invalid-version error |
| Target.RecognizeKnown | xtask/src/target.rs:33-49 | exactly the thirteen listed spellings are recognised as versions |
| Target.ParseAccepts | xtask/src/target.rs:24-51 | an absent version parses to `Unknown`; a present one parses if and only if its normalised form is a known spelling, and otherwise fails with exactly that normalised text; `Unknown` comes only from an absent version |
| Target.NormalizeIsFirstWord | xtask/src/target.rs:25-32 | the normalised text contains no space and is a prefix of the input once any `version ` prefix is dropped |
| Target.ParseRender | xtask/src/target.rs:33-48 | every known version parses back from its canonical spelling |
| Target.NormalizeDecorated | xtask/src/target.rs:25-32 | a word with an optional `version ` prefix, an optional trailing dot and optional trailing details normalises to the bare word |
| Target.ParseDecorated | xtask/src/target.rs:24-51 | every known version still parses when written as `version 3.x.0. details` or any subset of those decorations |
| Target.RecognizeRender | xtask/src/target.rs:34-48 | the canonical spelling of each known version is recognised as that version |
| Target.NormalizeWord | xtask/src/target.rs:25-32 | a short word without spaces or a trailing dot is its own normal form |
| Target.ShortSpellings | xtask/src/target.rs:42-47 | `3.16` and `3.17` both parse to 3.17.0 (`3.16.0` parses to 3.16.0 by `Target.ParseRender`) |
| Schema.FirstMiss | xtask/src/config.rs:29-33 | the position of the first arm that does not reduce to a reference: every earlier arm reduces and the arm at that position does not |
| Schema.Collect | xtask/src/config.rs:29-33 | collecting reductions into `Option<Vec<_>>` stops at the first arm that does not reduce: it yields every reference in order when all reduce, otherwise the first panic or `None` |
| Schema.BaseReference | xtask/src/schema.rs:154-162 | a base type has no reference exactly when it is `decimal`, `RegExp` or `null` |
| Schema.IntoReference | xtask/src/schema.rs:151-175 | a named reference reduces to that name; every shape other than base, reference, array and tuple reduces to nothing |
| Schema.IntoReferenceClassifies | xtask/src/schema.rs:151-175 | `into_reference` yields a reference exactly for the reducible shapes and panics exactly for a tuple, possibly inside arrays, with an element that does not reduce (the `unwrap` at line 169) |
| Schema.ArrayReference | xtask/src/schema.rs:163-165 | an array reduces exactly when its element reduces, to `Vec<element>` |
| Schema.TupleReference | xtask/src/schema.rs:166-172 | a tuple whose elements all reduce reduces to `new_tuple` over their references in order |
| Schema.ReferenceAvoidsPipe | xtask/src/schema.rs:151-175 | when no reference name in a type contains the vertical bar, its reduced text contains none either |
| Translate.ReducePanicsOnly | xtask/src/schema.rs:166-172 | the only failure of `into_reference` is the `unwrap` on `None` inside a tuple |
| Configuration.LookupAnonContract | xtask/src/config.rs:25-44 | the lookup panics exactly when the first non-reducing arm panics, and returns `Err(None)` exactly when that arm reduces to nothing; a success is the configured name for the key made by joining all arms' texts with a vertical bar; `Err(Some(key))` carries that key and only when it is not configured |
| Configuration.LookupAnonWithoutPanics | xtask/src/config.rs:25-44 | without panicking arms the lookup returns `Err(None)` if and only if some arm is irreducible; otherwise the result depends only on whether the joined key is configured |
| Configuration.AnonKeyDecodes | xtask/src/config.rs:34-38 | the key of a non-empty union whose names contain no vertical bar splits back into the arms' reference texts, in order |
| Configuration.AnonKeyOrderSensitive | xtask/src/config.rs:34-38 | the key depends on the order of the arms: swapping two different arms gives a different key |
| Configuration.EmptyUnionKey | xtask/src/config.rs:34-43 | a union with no arms is looked up under the empty key |
| Checksum.HexWidth | xtask/src/translate.rs:69 | the rendering has exactly the requested width and only lower-case hexadecimal digits |
| Checksum.Fingerprint | xtask/src/translate.rs:66-70 | `{:08x}` of a 32-bit hash is eight lower-case hexadecimal digits |
| Checksum.HexRoundTrip | xtask/src/translate.rs:69 | reading the digits back gives the hash whenever it fits the width |
| Checksum.FingerprintInjective | xtask/src/translate.rs:66-71 | different hashes give different fingerprints, so comparing texts compares hashes |
| Checksum.DriftDetection | xtask/src/translate.rs:71-76 | a checksum stored as the fingerprint of `k` reports drift exactly when the current hash is not `k`; a stored text that is not eight hexadecimal digits always reports drift |
| Translate.RetainNonEmpty | xtask/src/translate.rs:287-297 | `retain` keeps only arms it was given that are not empty object literals, and no more arms than it was given |
| Translate.RetainKeepsNonEmpty | xtask/src/translate.rs:287-297 | every arm that is not an empty object literal survives `retain` |
| Translate.RetainAppend | xtask/src/translate.rs:287-297 | filtering a concatenation filters each part |
| Translate.RetainIdempotent | xtask/src/translate.rs:287-297 | filtering twice is filtering once |
| Translate.UnionIgnoresEmptyLiterals | xtask/src/translate.rs:286-324 | a union translates like the same union with its empty object literals removed |
| Translate.SameArmsSameUnion | xtask/src/translate.rs:286-300 | two unions with the same arms once empty object literals are removed translate alike |
| Translate.SoleArm | xtask/src/translate.rs:298-300 | a union whose only non-empty arm is `t` translates exactly as `t` |
| Translate.OptionalUnion | xtask/src/translate.rs:303-313 | a union of `t` and then `null` translates to `Option<t>`; it yields nothing or the same failure when `t` does, and records the same keys |
| Translate.NullFirstIsUndecidable | xtask/src/translate.rs:303-317 | a union of `null` and then `t` is not recognised as optional: it reaches the lookup, whose `null` arm does not reduce, so it fails as an undecidable union |
| Translate.AnonymousUnion | xtask/src/translate.rs:314-323 | when no arm's key lookup can panic (the panicking case is `Configuration.LookupAnonContract`), any other union uses the configured name for its key when there is one; otherwise it becomes the `todo!()` placeholder and records the key; when an arm cannot reduce, it fails as undecidable |
| Translate.RecordedKeysAreUnmapped | xtask/src/translate.rs:318-321 | every key recorded as missing is absent from the anonymous-union table |
| Translate.PlainTypesTranslateAsReduced | xtask/src/translate.rs:257-285 | references, the integer, string and boolean bases, and arrays of them translate to exactly their `into_reference` form, recording nothing |
| Translate.BaseTables | xtask/src/translate.rs:257-269 | the base-type table agrees with `into_reference` except that URIs gain a `crate::` prefix, `decimal` becomes `f32`, and `RegExp` and `null` panic |
| Translate.ArrayTranslation | xtask/src/translate.rs:270-275 | an array translates to `Vec<element>`; it yields nothing or fails when its element does; it records the element's keys |
| Translate.MapWithoutType | xtask/src/translate.rs:277-283 | a map whose key, or then whose value, translates to nothing or fails stops there, with the keys recorded so far |
| Translate.MapRendering | xtask/src/translate.rs:284 | a map of two translated types is `std::collections::HashMap<key,value>` and records both sides' keys |
| Translate.LeafShapes | xtask/src/translate.rs:276-337 | references translate to their name; string literals to nothing; tuples, object literals, integer and boolean literals fail with their own errors |
| Translate.UnnamedUnionScenario | xtask/src/translate.rs:314-321 | a union of references `A` and `B` with no configured name becomes the `todo!()` placeholder and records the key joining `A` and `B` |
| Translate.FieldsFollowProperties | xtask/src/translate.rs:160-187 | the property loop succeeds if and only if every property translates and parses its version; its fields are the kept properties in order, each with the translated type, documentation, deprecation and parsed version |
| Translate.PropertyFieldContract | xtask/src/translate.rs:173-186 | one property fails exactly when its type fails or, having a type, its version does not parse; it yields a field exactly when its type translates to one, and the field carries the property's name, type, documentation, deprecation and parsed version |
| Translate.PropertyFailure | xtask/src/translate.rs:173-186 | a failing property fails with its type's returned error wrapped in the property's name, with its type's panic unchanged, or with its version's parse error |
| Translate.FieldsFailure | xtask/src/translate.rs:160-187 | a failing property loop fails as one of the properties does |
| Translate.StringLiteralsDropped | xtask/src/translate.rs:160-178 | when every property is a string literal or translates, exactly the string-literal properties are dropped |
| Translate.ReferenceNames | xtask/src/translate.rs:154-158 | one name per named reference, in order |
| Translate.BaseListInOrder | xtask/src/translate.rs:154-158 | the `extends` list succeeds exactly when every extended type and mixin reduces, and is their texts in order (extends first); its only failure is a panic; for named references it is their names |
| Translate.StructureShape | xtask/src/translate.rs:139-197 | a translated structure keeps its name, documentation and deprecation, takes the `extends` list and the fields above and the parsed version, and records only the fields' keys |
| Translate.StructureFailure | xtask/src/translate.rs:139-197 | a failing structure fails because its `extends` list panicked, because one property failed, or with its version's parse error |
| Translate.StringLiteralCount | xtask/src/translate.rs:327-331 | counts the string-literal properties, at most all of them |
| Translate.VariantsInOrder | xtask/src/translate.rs:225-240 | the variant loop succeeds if and only if every entry's version parses; the variants then follow the entries one to one with their names, documentation and versions |
| Translate.VariantContract | xtask/src/translate.rs:235-239 | one entry fails exactly when its version does not parse, and otherwise yields a variant with its name, documentation and parsed version |
| Translate.VariantsFailure | xtask/src/translate.rs:225-240 | a failing variant loop fails with the parse error of one entry's version |
| Translate.VariantsFollowEntries | xtask/src/translate.rs:200-250 | integer and unsigned enumerations are refused; a string enumeration succeeds exactly when all versions parse; a bad enumeration version panics rather than returning an error; a result keeps the name and one variant per entry |
| Translate.EnumerationFailure | xtask/src/translate.rs:200-250 | a failing enumeration returns the integer or unsigned refusal or one entry's version error, or panics only on its own version |
| Translator.StructureCheck | xtask/src/translate.rs:65-76 | a structure checksum yields at most one warning, and yields one exactly when it drifted |
| Translator.EnumerationCheck | xtask/src/translate.rs:100-111 | an enumeration checksum yields at most one warning, and yields one exactly when it drifted |
| Translator.Translator.constructor | xtask/src/translate.rs:21-26 | the new object's state is the initial state for the configuration |
| Translator.Translator.TranslateType | xtask/src/translate.rs:253-341 | the recursive method returns what the type translation specifies and adds exactly the keys it records to `anon_missing` |
| Translator.Translator.TranslateStructure | xtask/src/translate.rs:139-197 | returns what the structure translation specifies and adds exactly its recorded keys |
| Translator.Translator.TranslateProperties | xtask/src/translate.rs:160-187 | the property loop returns what the field specification says for the properties and adds exactly their recorded keys |
| Translator.Translator.TranslateEnumeration | xtask/src/translate.rs:200-250 | the variant loop returns what the enumeration translation specifies |
| Translator.Translator.ConsultStructure | xtask/src/translate.rs:57-82 | one iteration removes the structure's entry and either translates it, checks its checksum, or records it as missing, as the single-step specification says |
| Translator.Translator.ConsultEnumeration | xtask/src/translate.rs:93-117 | the same for one enumeration |
| Translator.Translator.ConsultStructures | xtask/src/translate.rs:56-83 | the structure loop leaves the object in the state, and returns the items, of the structure pass, stopping at the first failure |
| Translator.Translator.ConsultEnumerations | xtask/src/translate.rs:92-118 | the same for the enumeration loop |
| Translator.Translator.TranslateMetaModel | xtask/src/translate.rs:43-136 | structures then enumerations, sharing one item list and one state |
| Translator.TranslateSchema | xtask/src/translate.rs:17-28 | the result of `translate_schema` is the specified pass from the initial state, a function of the meta-model and configuration alone |
| Translator.StructuresPassConsumes | xtask/src/translate.rs:56-83 | the structure loop never touches the anonymous table, the enumeration entries or the missing enumerations; it only adds to the missing sets; on success it has removed exactly the seen structure names from the configuration |
| Translator.StructuresPassMissing | xtask/src/translate.rs:78-81 | with distinct names, the structures reported missing are exactly those without a configuration entry |
| Translator.StructuresPassDrift | xtask/src/translate.rs:65-77 | with distinct names, the drift warnings are exactly those of the checksummed structures, in schema order |
| Translator.StructureStepItems | xtask/src/translate.rs:57-82 | one structure step succeeds unless the structure is generated and fails to translate, and yields its struct item exactly when generated |
| Translator.StructuresPassSucceeds | xtask/src/translate.rs:56-83 | with distinct names, the structure loop succeeds if and only if every generated structure translates |
| Translator.AllStructuresAppend | xtask/src/translate.rs:56-83 | all of `g + [s]` translate exactly when all of `g` and `s` do |
| Translator.LastStructureSucceeds | xtask/src/translate.rs:57-82 | after a successful prefix, the last structure decides success and appends its item only when generated |
| Translator.StructuresPassItems | xtask/src/translate.rs:55-83 | a successful structure loop appends the struct items of the generated structures, in schema order, after the earlier items |
| Translator.RecordedKeys | xtask/src/translate.rs:318-321 | the anonymous-union keys recorded by a list of structures contain each structure's keys |
| Translator.StructuresPassKeys | xtask/src/translate.rs:56-83 | with distinct names, a successful structure loop adds exactly the keys recorded by the generated structures |
| Translator.StructuresPassFailure | xtask/src/translate.rs:56-83 | a failing structure loop fails because a generated structure failed: its returned error wrapped in the structure's name, its panic unchanged |
| Translator.ChecksumContract | xtask/src/translate.rs:65-77 | a structure configured with the fingerprint of hash `h0` yields no item and adds no drift exactly when its current hash is `h0` |
| Translator.DuplicateNameIsMissing | xtask/src/translate.rs:57-81 | a structure listed twice is translated once, because the first visit removes its entry, and its second visit records it as missing |
| Translator.Names | xtask/src/translate.rs:56-57 | every visited entity's name is in the set of names, for structures and enumerations alike |
| Translator.NameHasWitness | xtask/src/translate.rs:56-57 | every name in the set belongs to some visited entity |
| Translator.GeneratedStructures | xtask/src/translate.rs:58-63 | the structures configured to be generated, in order, at most all of them |
| Translator.GeneratedEnumerations | xtask/src/translate.rs:94-98 | the enumerations configured to be generated, in order, at most all of them |
| Translator.EnumerationsPassConsumes | xtask/src/translate.rs:92-118 | the enumeration loop leaves the structure entries and the other missing sets alone; on success it has removed exactly the seen enumeration names |
| Translator.EnumerationsPassMissing | xtask/src/translate.rs:113-116 | with distinct names, the enumerations reported missing are exactly those without a configuration entry |
| Translator.EnumerationsPassDrift | xtask/src/translate.rs:100-112 | with distinct names, the drift warnings are exactly those of the checksummed enumerations, in schema order |
| Translator.LastEnumerationSucceeds | xtask/src/translate.rs:93-117 | after a successful prefix, the last enumeration decides success and appends its item only when generated |
| Translator.AllEnumerationsAppend | xtask/src/translate.rs:92-118 | all of `g + [e]` translate exactly when all of `g` and `e` do |
| Translator.EnumerationsPassSucceeds | xtask/src/translate.rs:92-118 | with distinct names, the enumeration loop succeeds if and only if every generated enumeration translates |
| Translator.EnumerationsPassItems | xtask/src/translate.rs:92-118 | a successful enumeration loop appends the enum items of the generated enumerations, in schema order |
| Translator.EnumerationsPassFailure | xtask/src/translate.rs:92-118 | a failing enumeration loop fails because a generated enumeration failed: its returned error wrapped in the enumeration's name, its panic unchanged |
| Translator.SchemaTranslationSucceeds | xtask/src/translate.rs:43-136 | with distinct names, the whole pass succeeds if and only if every generated structure and every generated enumeration translates |
| Translator.SchemaTranslationState | xtask/src/translate.rs:55-133 | after a successful pass the configuration has lost exactly the seen names, the missing sets are exactly the unconfigured names, the anonymous-union keys are exactly those recorded by the generated structures, and the drift log is the structures' warnings then the enumerations' |
| Translator.SchemaTranslationItems | xtask/src/translate.rs:55-118 | a successful pass yields the generated structures' items followed by the generated enumerations' items |
| Translator.SchemaTranslationFailure | xtask/src/translate.rs:43-118 | a failing pass names a generated structure or enumeration whose translation failed, wrapping returned errors in its name and passing panics on unchanged |
| Translator.SchemaPropertyFailure | xtask/src/translate.rs:56-187 | a pass failing with a structure and property context points at a generated structure of that name with a property of that name whose type returned exactly the inner error |
| Translator.OnlyStructsAndEnums | xtask/src/translate.rs:55-98 | the pass never yields a trait-impl item |
| Translator.StructuresYieldStructs | xtask/src/translate.rs:56-83 | the structure loop keeps the earlier items and appends only struct items |
| Translator.EnumerationsYieldNoTraits | xtask/src/translate.rs:92-118 | the enumeration loop adds no trait-impl item |
| Translator.OneProperty | xtask/src/schema.rs:106-132 | builds a structure with a single property of the given type |
| Translator.OneGeneratedStructure | xtask/src/translate.rs:55-83 | a schema with one generated structure yields exactly its struct item, records its keys, and reports nothing missing |
| Translator.OnePropertyFields | xtask/src/translate.rs:160-196 | a structure with one translatable property becomes a struct with that single field |
| Translator.OptionalFieldScenario | xtask/src/translate.rs:303-313 | a property whose type is the union of `Bar` and `null` becomes a field of type `Option<Bar>`, with nothing missing |
| Translator.PlaceholderFieldScenario | xtask/src/translate.rs:314-321 | a property whose type is the union of `A` and `B`, with no configured name, becomes a `todo!()` field and records the key joining `A` and `B` as missing |

## Left out

- Printing: the "Hash mismatch" warnings and the lists of missing names (`xtask/src/translate.rs:72-75`, `84-90`, `119-133`) are kept as state (the `drift` log and the missing sets), not as text on standard error.
- The xxHash32 digest of the derived `Hash` of an entity is a parameter. The hash function is a foreign library, and collisions are possible, so "changing an entity changes its fingerprint" cannot be proved. The model proves instead that drift is reported exactly when the digest differs from the configured one.
- The `todo!()` at `xtask/src/translate.rs:135`: the model returns the item list instead of panicking.
- `requests`, `notifications`, `type_aliases` and `meta_data` of the meta-model are destructured but not used by the translation, so they are not modelled.
- Error messages: errors are constructors carrying the data the message shows. The `Debug` text of the offending items is not reproduced.
- Fields the translation ignores (`optional`, `since_tags`, `proposed`, `supports_custom_values` and an entry's `value`) are carried in the records, where the fingerprint sees them, but play no part in the translation.
- `SmolStr`, `String` and `&str` are all `string`. Interning and the small-string representation are not modelled.
- `Config.version` is carried but never read by the translation.
- Translator.Translator.TranslateEnumeration: the enumeration translation does not touch the translator, so this method has no `modifies` clause.
- Translator.StructuresPassMissing: stated for schemas with distinct structure names. With duplicate names a later visit finds its entry already removed; `Translator.DuplicateNameIsMissing` states that case.
- Translator.StructuresPassDrift, Translator.StructuresPassSucceeds, Translator.StructuresPassItems, Translator.StructuresPassKeys and their enumeration counterparts: stated for distinct names, for the same reason.
- Translator.SchemaTranslationSucceeds, Translator.SchemaTranslationState and Translator.SchemaTranslationItems: stated for distinct names, for the same reason.
