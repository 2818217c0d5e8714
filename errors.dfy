/**
 * The ways a translation can stop. An `Error` is an eyre error that is
 * returned (with `bail!` or `?`) and may be wrapped in context on its way
 * out; a `Panic` unwinds past every context. Either one ends the whole pass
 * without output.
 */
module Errors {

  datatype Error =
    | InvalidVersion(version: string)              // `Version::parse` of an unknown string
    | IntEnum                                      // enumeration over integers
    | UintEnum                                     // enumeration over unsigned integers
    | UndecidableUnion                             // union arms that do not all reduce to references
    | TupleType                                    // tuple types are not translated
    | LiteralType                                  // inline structure literals are not translated
    | IntegerLiteralType(intValue: int)
    | BooleanLiteralType(boolValue: bool)
    | WhileProperty(property: string, inner: Error)
    | InStructure(structure: string, inner: Error)
    | InEnumeration(enumeration: string, inner: Error)

  datatype Panic =
    | UnwrapNone                                   // `Option::unwrap` on `None`
    | RegExpBase                                   // the `RegExp` base type
    | NullBase                                     // `todo!()` for the `Null` base type
    | EnumSince(version: string)                   // an enumeration's `since` that does not parse

  datatype Failure = Bail(error: Error) | Panicked(panic: Panic)

  /** `wrap_err_with`: context is added to returned errors only. */
  function WhileTranslatingProperty(name: string, f: Failure): (g: Failure)
    ensures g.Panicked? <==> f.Panicked?
    ensures f.Panicked? ==> g == f
    ensures f.Bail? ==> g.error.WhileProperty? && g.error.property == name && g.error.inner == f.error
  {
    match f
    case Bail(e) => Bail(WhileProperty(name, e))
    case Panicked(_) => f
  }

  function TranslatingStructure(name: string, f: Failure): (g: Failure)
    ensures g.Panicked? <==> f.Panicked?
    ensures f.Panicked? ==> g == f
    ensures f.Bail? ==> g.error.InStructure? && g.error.structure == name && g.error.inner == f.error
  {
    match f
    case Bail(e) => Bail(InStructure(name, e))
    case Panicked(_) => f
  }

  function TranslatingEnumeration(name: string, f: Failure): (g: Failure)
    ensures g.Panicked? <==> f.Panicked?
    ensures f.Panicked? ==> g == f
    ensures f.Bail? ==> g.error.InEnumeration? && g.error.enumeration == name && g.error.inner == f.error
  {
    match f
    case Bail(e) => Bail(InEnumeration(name, e))
    case Panicked(_) => f
  }
}
