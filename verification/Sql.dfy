/** The parts of SQL the tables rely on: nullable values (None is NULL), three-valued logic and
    the range of a numeric(14,2) column, counted in cents. */
module Sql {
  import opened Options

  datatype Truth = True | False | Unknown

  function And(a: Truth, b: Truth): Truth {
    if a == False || b == False then False
    else if a == Unknown || b == Unknown then Unknown
    else True
  }

  function Or(a: Truth, b: Truth): Truth {
    if a == True || b == True then True
    else if a == Unknown || b == Unknown then Unknown
    else False
  }

  function IsTrue(b: bool): Truth {
    if b then True else False
  }

  function IsNull<T>(x: Option<T>): Truth {
    IsTrue(x.None?)
  }

  function Eq(a: Option<int>, b: Option<int>): Truth {
    if a.None? || b.None? then Unknown else IsTrue(a.value == b.value)
  }

  function Gt(a: Option<int>, b: int): Truth {
    if a.None? then Unknown else IsTrue(a.value > b)
  }

  function Ge(a: Option<int>, b: int): Truth {
    if a.None? then Unknown else IsTrue(a.value >= b)
  }

  /** A CHECK constraint refuses a row only when it evaluates to FALSE. */
  predicate Passes(check: Truth) {
    check != False
  }

  function Coalesce<T>(a: Option<T>, b: Option<T>): Option<T> {
    if a.Some? then a else b
  }

  /** 999999999999.99, the largest numeric(14,2), in cents. */
  const MAX_CENTS := 99_999_999_999_999

  predicate FitsNumeric(x: int) {
    -MAX_CENTS <= x <= MAX_CENTS
  }

  predicate Fits(x: Option<int>) {
    x.Some? ==> FitsNumeric(x.value)
  }
}
