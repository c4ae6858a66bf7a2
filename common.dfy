/**
 * Names and errors shared by the registry, the lazy binding engine and the
 * image introspection: library and symbol names, addresses, and Rust's
 * `io::Error` reduced to its kind and message.
 */
module Common {

  /** A library name as handed to the loader. */
  type Name = string

  /** A symbol name. */
  type Sym = string

  /** An address; 0 is the null pointer. */
  type Addr = nat

  /** The `io::ErrorKind`s the core produces. */
  datatype ErrorKind = InvalidInput | InvalidData | Other

  /** `io::Error`: a kind and a message. */
  datatype IoError = IoError(kind: ErrorKind, message: string)
}
