/**
 * Small vocabulary shared by the FCollada document modules: optional
 * values, the character classes used by the name sanitisers, and an
 * uninterpreted stand-in for the floating-point data the core only copies.
 */
module Common {

  datatype Option<+T> = None | Some(value: T)

  /**
   * A floating-point value (a float, a 3- or 4-vector, a colour).
   * The core copies and links such values but never computes with them,
   * so their representation is left open.
   */
  type Value(0)

  /** The value 0.0, the value a new animated float parameter starts with. */
  const ZeroValue: Value

  /** The identity of a document; documents are compared, never inspected, by identity. */
  type DocumentId(==)

  predicate IsLower(c: char) { 'a' <= c <= 'z' }

  predicate IsUpper(c: char) { 'A' <= c <= 'Z' }

  predicate IsLetter(c: char) { IsLower(c) || IsUpper(c) }

  predicate IsDigit(c: char) { '0' <= c <= '9' }

  /** The C string terminator. */
  const NUL: char := 0 as char
}
