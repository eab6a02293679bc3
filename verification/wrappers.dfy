/** Failure-carrying results used in place of Java's null returns and exceptions. */
module Wrappers {

  /** A value or nothing; `None` stands for a Java `null` result. */
  datatype Option<+T> = None | Some(value: T)

  /** The exceptions the kernel raises, as data. */
  datatype Fault =
    | IndexOutOfBounds         // Objects.checkIndex, or an index outside the backing array
    | UnexpectedBackingArray   // IllegalStateException("unexpected matrix backing array type")
    | UnknownShape             // IllegalStateException("unknown matrix shape")
    | ZeroVector               // ArithmeticException on a zero-magnitude vector

  /** A computed value or the fault that stopped the computation. */
  datatype Result<+T> = Ok(value: T) | Err(fault: Fault)
}
