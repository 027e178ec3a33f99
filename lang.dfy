/** The few java.lang notions the shopping-cart core relies on: nullable
    references, the IllegalArgumentException every validation throws, and
    the primitive integer widths of its fields. */
module Lang {

  /** A Java reference that may be null: `None` stands for null. */
  datatype Option<+T> = None | Some(value: T)

  /** The only exception the core raises (java.lang.IllegalArgumentException). */
  datatype Error = IllegalArgument

  /** A call that either returns a value or throws. */
  datatype Result<+T> = Ok(value: T) | Err(error: Error)

  /** A `void` call that either returns normally or throws. */
  datatype Outcome = Pass | Fail(error: Error)

  /** Java `long` / `java.lang.Long`. */
  newtype Long = x: int | -0x8000_0000_0000_0000 <= x < 0x8000_0000_0000_0000

  /** Java `int`. */
  newtype Int32 = x: int | -0x8000_0000 <= x < 0x8000_0000

  /** A Java string argument that is neither null nor empty. */
  predicate IsFilled(s: Option<string>) {
    s.Some? && s.value != ""
  }
}
