/** Values shared by every part of the model: bytes, optional (nullable) values,
    results, and the Java exceptions the bulletin-board code raises or catches. */
module Base {

  /** An unsigned byte; Java's signed bytes are always masked with 0xFF or a
      smaller mask before use, so the unsigned view is the one the code relies on. */
  newtype byte = b: int | 0 <= b < 256

  type Bytes = seq<byte>

  /** A Java reference that may be null: `None` is null. */
  datatype Option<+T> = None | Some(value: T)

  /** The exceptions the modelled code throws, catches or lets escape. */
  datatype Fault =
    | InvalidObject      // java.io.InvalidObjectException, a subclass of IOException
    | ConnectionClosed   // any other IOException of the socket, e.g. no reply to read
    | ClassCast          // a cast `(String) x` or `(Boolean) x` on a value of another type
    | NullPointer        // unboxing or dereferencing null
    | IllegalArgument    // e.g. a Base64 decoder given text that is not Base64
    | IllegalState(why: string)   // the client's "Must be authenticated first"
    | Failed(why: string)         // a plain `throw new Exception(...)` in the client
  {
    /** The dispatcher only catches IOException; everything else escapes it. */
    predicate IsIOException() { InvalidObject? || ConnectionClosed? }
  }

  datatype Result<+T> = Ok(value: T) | Err(fault: Fault)
}
