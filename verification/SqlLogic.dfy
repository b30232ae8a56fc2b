/** SQL's three-valued logic, in which every CHECK, WHERE and trigger condition is evaluated. */
module SqlLogic {
  import opened Wrappers

  /** The value of an SQL condition. `Unknown` is what a comparison with NULL yields. */
  datatype Truth = Yes | No | Unknown

  function Of(b: bool): Truth {
    if b then Yes else No
  }

  function Not(t: Truth): Truth {
    match t
    case Yes => No
    case No => Yes
    case Unknown => Unknown
  }

  function And(a: Truth, b: Truth): Truth {
    if a == No || b == No then No
    else if a == Yes && b == Yes then Yes
    else Unknown
  }

  function Or(a: Truth, b: Truth): Truth {
    Not(And(Not(a), Not(b)))
  }

  /** `a = b`, where either side may be NULL. */
  function Eq<T(==)>(a: Option<T>, b: Option<T>): Truth {
    if a.None? || b.None? then Unknown else Of(a == b)
  }

  /** `a <> b`, where either side may be NULL. */
  function Neq<T(==)>(a: Option<T>, b: Option<T>): Truth {
    Not(Eq(a, b))
  }

  /** `a IN (...)` over a list of non-NULL literals. */
  function In<T(==)>(a: Option<T>, literals: set<T>): Truth {
    if a.None? then Unknown else Of(a.value in literals)
  }

  function IsNull<T(==)>(a: Option<T>): Truth {
    Of(a == None)
  }

  function IsNotNull<T(==)>(a: Option<T>): Truth {
    Of(a != None)
  }

  /** `a IS DISTINCT FROM b`: the comparison that treats NULL as an ordinary value. */
  function IsDistinctFrom<T(==)>(a: Option<T>, b: Option<T>): Truth {
    Of(a != b)
  }

  /** A CHECK is satisfied unless it is false: a NULL result passes. */
  predicate CheckPasses(t: Truth) {
    t != No
  }

  /** A WHERE clause or a PL/pgSQL IF acts only on a true condition: a NULL result does not. */
  predicate Fires(t: Truth) {
    t == Yes
  }
}
