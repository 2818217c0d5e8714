/**
 * The output side of the translator: textual type references, the version
 * tags attached to generated declarations, and the generated items.
 */
module Target {
  import opened Wrappers
  import opened Errors

  // ---------------------------------------------------------------------
  // Joining and splitting text
  // ---------------------------------------------------------------------

  /** `parts.join(sep)`: the parts with `sep` between neighbours; no parts give "". */
  function Join(parts: seq<string>, sep: string): (r: string)
    decreases |parts|
  {
    if |parts| == 0 then ""
    else if |parts| == 1 then parts[0]
    else parts[0] + sep + Join(parts[1..], sep)
  }

  /** Splits `s` at every `c`; the inverse of joining with `[c]` (see SplitJoin). */
  function Split(s: string, c: char): (r: seq<string>)
    ensures |r| >= 1
  {
    if s == [] then [""]
    else
      var rest := Split(s[1..], c);
      if s[0] == c then [""] + rest else [[s[0]] + rest[0]] + rest[1..]
  }

  lemma {:induction false} SplitFree(p: string, s: string, c: char)
    requires c !in p
    ensures Split(p + s, c) == [p + Split(s, c)[0]] + Split(s, c)[1..]
  {
    if p != [] {
      assert (p + s)[1..] == p[1..] + s;
      SplitFree(p[1..], s, c);
      assert [p[0]] + (p[1..] + Split(s, c)[0]) == p + Split(s, c)[0];
    } else {
      assert p + s == s;
      assert p + Split(s, c)[0] == Split(s, c)[0];
      assert [Split(s, c)[0]] + Split(s, c)[1..] == Split(s, c);
    }
  }

  /** Joining with a separator that occurs in no part can be undone by splitting. */
  lemma {:induction false} SplitJoin(parts: seq<string>, c: char)
    requires |parts| >= 1
    requires forall i :: 0 <= i < |parts| ==> c !in parts[i]
    ensures Split(Join(parts, [c]), c) == parts
  {
    if |parts| == 1 {
      SplitFree(parts[0], "", c);
      assert parts[0] + "" == parts[0];
    } else {
      var rest := Join(parts[1..], [c]);
      SplitJoin(parts[1..], c);
      assert parts[0] + [c] + rest == parts[0] + ([c] + rest);
      SplitFree(parts[0], [c] + rest, c);
      assert ([c] + rest)[1..] == rest;
      assert Split([c] + rest, c) == [""] + parts[1..];
      assert parts[0] + "" == parts[0];
      assert [parts[0]] + parts[1..] == parts;
    }
  }

  // ---------------------------------------------------------------------
  // Type references
  // ---------------------------------------------------------------------

  /** A target-language type, held as the text it renders to. */
  datatype TypeRef = TypeRef(text: string) {
    /** `as_str`: the text, unchanged. */
    function AsStr(): (s: string)
    {
      text
    }
  }

  /** `TypeRef::new`: the name, stored verbatim. */
  function New(name: string): (r: TypeRef)
    ensures r.AsStr() == name
  {
    TypeRef(name)
  }

  function Texts(refs: seq<TypeRef>): (r: seq<string>)
    ensures |r| == |refs|
    ensures forall i :: 0 <= i < |refs| ==> r[i] == refs[i].AsStr()
  {
    seq(|refs|, i requires 0 <= i < |refs| => refs[i].AsStr())
  }

  /** `TypeRef::new_generics`: `name<a1,...,an>`. */
  function NewGenerics(name: string, generics: seq<TypeRef>): (r: TypeRef)
  {
    TypeRef(name + "<" + Join(Texts(generics), ",") + ">")
  }

  /** One argument renders as `name<arg>`. */
  lemma SingleGeneric(name: string, a: TypeRef)
    ensures NewGenerics(name, [a]).AsStr() == name + "<" + a.AsStr() + ">"
  {
    assert Texts([a]) == [a.text];
  }

  /** Two arguments render as `name<first,second>`. */
  lemma PairGeneric(name: string, a: TypeRef, b: TypeRef)
    ensures NewGenerics(name, [a, b]).AsStr() == name + "<" + a.AsStr() + "," + b.AsStr() + ">"
  {
    assert Texts([a, b]) == [a.text, b.text];
    assert [a.text, b.text][1..] == [b.text];
    assert Join([a.text, b.text], ",") == a.text + "," + b.text;
  }

  /** `TypeRef::new_tuple`: `(a1,...,an)`. */
  function NewTuple(elements: seq<TypeRef>): (r: TypeRef)
  {
    TypeRef("(" + Join(Texts(elements), ",") + ")")
  }

  /** No argument text contains a comma. */
  predicate CommaFree(refs: seq<TypeRef>)
  {
    forall i :: 0 <= i < |refs| ==> ',' !in refs[i].text
  }

  lemma TextsInjective(a: seq<TypeRef>, b: seq<TypeRef>)
    requires Texts(a) == Texts(b)
    ensures a == b
  {
    assert |a| == |b|;
    forall i | 0 <= i < |a| ensures a[i] == b[i] {
      assert a[i].text == Texts(a)[i] == Texts(b)[i] == b[i].text;
    }
  }

  /**
   * A generic instantiation determines its name and arguments, provided the
   * argument lists are not empty and no argument text contains a comma.
   */
  lemma GenericsDetermineArguments(n: string, a: seq<TypeRef>, m: string, b: seq<TypeRef>)
    requires |a| >= 1 && |b| >= 1 && CommaFree(a) && CommaFree(b)
    requires '<' !in n && '<' !in m
    requires NewGenerics(n, a) == NewGenerics(m, b)
    ensures n == m && a == b
  {
    var s := NewGenerics(n, a).text;
    var ja, jb := Join(Texts(a), ","), Join(Texts(b), ",");
    assert s == n + ("<" + ja + ">");
    assert s == m + ("<" + jb + ">");
    PrefixBeforeMarker(n, "<" + ja + ">", m, "<" + jb + ">", '<');
    assert "<" + ja + ">" == "<" + jb + ">";
    assert ja == ("<" + ja + ">")[1..|ja| + 1];
    assert jb == ("<" + jb + ">")[1..|jb| + 1];
    SplitJoin(Texts(a), ',');
    SplitJoin(Texts(b), ',');
    TextsInjective(a, b);
  }

  /** A tuple determines its elements when they are not empty and comma-free. */
  lemma TupleDeterminesElements(a: seq<TypeRef>, b: seq<TypeRef>)
    requires |a| >= 1 && |b| >= 1 && CommaFree(a) && CommaFree(b)
    requires NewTuple(a) == NewTuple(b)
    ensures a == b
  {
    var ja, jb := Join(Texts(a), ","), Join(Texts(b), ",");
    assert ja == NewTuple(a).text[1..|ja| + 1];
    assert jb == NewTuple(b).text[1..|jb| + 1];
    SplitJoin(Texts(a), ',');
    SplitJoin(Texts(b), ',');
    TextsInjective(a, b);
  }

  /** Without the comma-free condition two different argument lists can render alike. */
  lemma GenericsCanCollide()
    ensures NewGenerics("Vec", [New("A"), New("B")]) == NewGenerics("Vec", [New("A,B")])
  {
    assert Texts([New("A"), New("B")]) == ["A", "B"];
    assert Texts([New("A,B")]) == ["A,B"];
  }

  lemma PrefixBeforeMarker(n: string, x: string, m: string, y: string, c: char)
    requires c !in n && c !in m && |x| >= 1 && |y| >= 1 && x[0] == c && y[0] == c
    requires n + x == m + y
    ensures n == m && x == y
  {
    assert n == (n + x)[..|n|];
    assert m == (m + y)[..|m|];
  }

  // ---------------------------------------------------------------------
  // Versions
  // ---------------------------------------------------------------------

  datatype Version =
    | Unknown
    | V3_2_0 | V3_6_0 | V3_8_0 | V3_10_0 | V3_12_0 | V3_13_0
    | V3_14_0 | V3_15_0 | V3_16_0 | V3_17_0 | V3_18_0

  /** `s` without the prefix `p` when it starts with it, `s` otherwise. */
  function StripPrefix(s: string, p: string): (r: string)
  {
    if p <= s then s[|p|..] else s
  }

  /** The text before the first space, or all of `s` when it holds no space. */
  function BeforeFirstSpace(s: string): (r: string)
    ensures ' ' !in r
    ensures r <= s
    ensures r == s || (|r| < |s| && s[|r|] == ' ')
  {
    if s == [] then []
    else if s[0] == ' ' then []
    else [s[0]] + BeforeFirstSpace(s[1..])
  }

  /** `s` without one trailing '.', if it has one. */
  function StripTrailingDot(s: string): (r: string)
  {
    if |s| > 0 && s[|s| - 1] == '.' then s[..|s| - 1] else s
  }

  /** The three normalising steps `Version::parse` applies before matching. */
  function Normalize(s: string): (r: string)
  {
    StripTrailingDot(BeforeFirstSpace(StripPrefix(s, "version ")))
  }

  /** The normalised string's version, when it is one of the recognised strings. */
  function Recognize(v: string): (r: Option<Version>)
  {
    if v == "3.2.0" then Some(V3_2_0)
    else if v == "3.6.0" then Some(V3_6_0)
    else if v == "3.8.0" then Some(V3_8_0)
    else if v == "3.10.0" then Some(V3_10_0)
    else if v == "3.12.0" then Some(V3_12_0)
    else if v == "3.13.0" then Some(V3_13_0)
    else if v == "3.14.0" then Some(V3_14_0)
    else if v == "3.15.0" then Some(V3_15_0)
    else if v == "3.16.0" then Some(V3_16_0)
    else if v == "3.16" then Some(V3_17_0)
    else if v == "3.17.0" then Some(V3_17_0)
    else if v == "3.17" then Some(V3_17_0)
    else if v == "3.18.0" then Some(V3_18_0)
    else None
  }

  /** `Version::parse`. */
  function Parse(s: Option<string>): (r: Result<Version, Error>)
    ensures r.Err? ==> r.error.InvalidVersion?
  {
    match s
    case None => Ok(Unknown)
    case Some(text) =>
      var v := Normalize(text);
      match Recognize(v)
      case Some(version) => Ok(version)
      case None => Err(InvalidVersion(v))
  }

  /** The strings `Version::parse` accepts after normalising. */
  const KnownVersions: set<string> := {
    "3.2.0", "3.6.0", "3.8.0", "3.10.0", "3.12.0", "3.13.0", "3.14.0",
    "3.15.0", "3.16.0", "3.16", "3.17.0", "3.17", "3.18.0"
  }

  /** The canonical spelling of a known version. */
  function Render(v: Version): (s: string)
    requires v != Unknown
  {
    match v
    case V3_2_0 => "3.2.0"
    case V3_6_0 => "3.6.0"
    case V3_8_0 => "3.8.0"
    case V3_10_0 => "3.10.0"
    case V3_12_0 => "3.12.0"
    case V3_13_0 => "3.13.0"
    case V3_14_0 => "3.14.0"
    case V3_15_0 => "3.15.0"
    case V3_16_0 => "3.16.0"
    case V3_17_0 => "3.17.0"
    case V3_18_0 => "3.18.0"
  }

  /** The recognised strings are exactly the known ones. */
  lemma RecognizeKnown(v: string)
    ensures Recognize(v).Some? <==> v in KnownVersions
  {
  }

  /** An absent version is `Unknown`; a present one parses exactly when its normal form is known. */
  lemma ParseAccepts(s: Option<string>)
    ensures s.None? ==> Parse(s) == Ok(Unknown)
    ensures s.Some? ==> (Parse(s).Ok? <==> Normalize(s.value) in KnownVersions)
    ensures s.Some? && Parse(s).Err? ==> Parse(s).error == InvalidVersion(Normalize(s.value))
    ensures Parse(s).Ok? ==> Parse(s).value != Unknown || s.None?
  {
    if s.Some? {
      RecognizeKnown(Normalize(s.value));
    }
  }

  /** The normal form holds no space and starts the input once a "version " prefix is stripped. */
  lemma NormalizeIsFirstWord(s: string)
    ensures ' ' !in Normalize(s)
    ensures Normalize(s) <= StripPrefix(s, "version ")
  {
    var w := BeforeFirstSpace(StripPrefix(s, "version "));
    assert StripTrailingDot(w) <= w;
  }

  /** Every known version parses back from its canonical spelling. */
  lemma ParseRender(v: Version)
    requires v != Unknown
    ensures Parse(Some(Render(v))) == Ok(v)
  {
    RenderShape(v);
    NormalizeWord(Render(v));
    RecognizeRender(v);
  }

  /** A canonical spelling is a short word that does not end in '.'. */
  lemma RenderShape(v: Version)
    requires v != Unknown
    ensures var s := Render(v); ' ' !in s && 1 <= |s| < 7 && s[|s| - 1] != '.'
  {
  }

  /** The canonical spelling of a known version is recognised as that version. */
  lemma RecognizeRender(v: Version)
    requires v != Unknown
    ensures Recognize(Render(v)) == Some(v)
  {
  }

  /**
   * A word without spaces and without a trailing '.' is left alone by the
   * normalisation, whatever "version " prefix, single trailing '.' or
   * space-separated details surround it.
   */
  lemma NormalizeDecorated(word: string, p: string, d: string, tail: string)
    requires ' ' !in word && word != "version"
    requires |word| == 0 || word[|word| - 1] != '.'
    requires p == "" || p == "version "
    requires d == "" || d == "."
    requires tail == "" || tail[0] == ' '
    ensures Normalize(p + word + d + tail) == word
  {
    var core := word + d;
    var rest := core + tail;
    assert p + word + d + tail == p + rest;
    assert ' ' !in core;
    if p == "" {
      assert core != "version" by {
        if d == "." { assert core[|core| - 1] == '.'; }
      }
      NoVersionPrefix(core, tail);
    }
    StripVersionPrefix(p, rest);
    FirstWordOf(core, tail);
    StripDot(word, d);
  }

  lemma StripVersionPrefix(p: string, rest: string)
    requires p == "" || p == "version "
    requires p == "" ==> !("version " <= rest)
    ensures StripPrefix(p + rest, "version ") == rest
  {
    if p == "" {
      assert p + rest == rest;
    } else {
      assert (p + rest)[|p|..] == rest;
    }
  }

  lemma StripDot(word: string, d: string)
    requires |word| == 0 || word[|word| - 1] != '.'
    requires d == "" || d == "."
    ensures StripTrailingDot(word + d) == word
  {
    if d == "." {
      assert (word + d)[..|word|] == word;
    } else {
      assert word + d == word;
    }
  }

  lemma NoVersionPrefix(core: string, tail: string)
    requires ' ' !in core && core != "version"
    requires tail == [] || tail[0] == ' '
    ensures !("version " <= core + tail)
  {
    var s := core + tail;
    if |core| >= 8 {
      assert s[7] == core[7] != ' ';
    } else if |core| == 7 {
      assert s[..7] == core;
    } else if tail != [] {
      assert s[|core|] == ' ';
    } else {
      assert |s| < 8;
    }
  }

  lemma {:induction false} FirstWordOf(w: string, tail: string)
    requires ' ' !in w
    requires tail == [] || tail[0] == ' '
    ensures BeforeFirstSpace(w + tail) == w
  {
    if w == [] {
      assert w + tail == tail;
    } else {
      assert (w + tail)[1..] == w[1..] + tail;
      FirstWordOf(w[1..], tail);
    }
  }

  /** Decorated spellings of a known version parse to the same version. */
  lemma ParseDecorated(v: Version, p: string, d: string, tail: string)
    requires v != Unknown
    requires p == "" || p == "version "
    requires d == "" || d == "."
    requires tail == "" || tail[0] == ' '
    ensures Parse(Some(p + Render(v) + d + tail)) == Ok(v)
  {
    var s := Render(v);
    RenderShape(v);
    NormalizeDecorated(s, p, d, tail);
    NormalizeWord(s);
    ParseByNormalForm(p + s + d + tail, s);
    ParseRender(v);
  }

  /** Two texts with the same normal form parse alike. */
  lemma ParseByNormalForm(a: string, b: string)
    requires Normalize(a) == Normalize(b)
    ensures Parse(Some(a)) == Parse(Some(b))
  {
  }

  /**
   * "3.16" and "3.17" both stand for 3.17.0 (while "3.16.0" is 3.16.0, by
   * `ParseRender`).
   */
  lemma ShortSpellings(s: string)
    requires s == "3.16" || s == "3.17"
    ensures Parse(Some(s)) == Ok(V3_17_0)
  {
    NormalizeWord(s);
    RecognizeShortSpellings();
  }

  lemma RecognizeShortSpellings()
    ensures Recognize("3.16") == Some(V3_17_0) && Recognize("3.17") == Some(V3_17_0)
  {
  }

  /** A bare word, without spaces and without a trailing '.', is its own normal form. */
  lemma NormalizeWord(word: string)
    requires ' ' !in word && |word| < 7
    requires |word| == 0 || word[|word| - 1] != '.'
    ensures Normalize(word) == word
  {
    NormalizeDecorated(word, "", "", "");
    assert "" + word + "" + "" == word;
  }

  // ---------------------------------------------------------------------
  // Generated items
  // ---------------------------------------------------------------------

  datatype StructField = StructField(
    name: string,
    ty: TypeRef,
    doc: Option<string>,
    since: Version,
    deprecated: Option<string>)

  datatype Struct = Struct(
    name: string,
    extendsTypes: seq<string>,
    fields: seq<StructField>,
    doc: Option<string>,
    deprecated: Option<string>,
    since: Version)

  datatype EnumVariant = EnumVariant(name: string, doc: Option<string>, since: Version)

  datatype Enum = Enum(
    name: string,
    variants: seq<EnumVariant>,
    doc: Option<string>,
    deprecated: Option<string>,
    since: Version)

  datatype TraitImpl = TraitImpl(
    interface: string,
    implementor: string,
    assocTypes: seq<(string, TypeRef)>,
    assocConst: seq<(string, string)>)

  datatype Item = StructItem(s: Struct) | EnumItem(e: Enum) | TraitImplItem(t: TraitImpl)
}
