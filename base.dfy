/** Option, Result and the error kinds the library raises (exceptions become values). */
module Base {

  datatype Option<T> = None | Some(value: T)

  /** The exception kinds the modelled code can raise. */
  datatype Error =
    | ArgumentNull          // ArgumentNullException (Throw.IfNull and friends)
    | ArgumentInvalid       // ArgumentException (search string or name rejected)
    | InvalidXmlElement     // Exceptions.InvalidXmlElement: unexpected element name
    | InvalidXmlNodeType    // Exceptions.InvalidXmlNodeType: top node is not an element
    | InvalidItem           // Exceptions.InvalidIOneNoteItem: unsupported item kind
    | XmlMalformed          // XmlException from the reader (wrong node for ReadStart/EndElement)
    | Format                // FormatException from bool parsing
    | InvalidCast           // InvalidCastException from a parent or attribute cast
    | NullReference         // NullReferenceException
    | KeyNotFound           // KeyNotFoundException from a dictionary lookup
    | NoComObject           // the store handle is missing in Manual mode
    | StoreFailure          // an error raised by the note store itself
    | NoApplication         // COMException from `new Application()`: no OneNote object could be made

  datatype Result<T> = Success(value: T) | Failure(error: Error) {
    predicate IsFailure() { Failure? }
    function PropagateFailure<U>(): Result<U>
      requires Failure?
    {
      Failure(error)
    }
    function Extract(): T
      requires Success?
    {
      value
    }
  }
}
