/** Optional values and results standing in for C#'s null and for thrown exceptions. */
module Wrappers {
  datatype Option<+T> = None | Some(value: T)
  {
    /** The value, or `fallback` where C# would have had null. */
    function GetOr(fallback: T): T
    {
      match this
      case Some(v) => v
      case None => fallback
    }
  }

  /** `Err` carries the message of the exception the C# code would throw. */
  datatype Result<+T> = Ok(value: T) | Err(message: string)

  /** The message of the NullReferenceException a null dereference throws. */
  const NullReference := "Object reference not set to an instance of an object"

  /** The message of the ArgumentOutOfRangeException a list indexer throws. */
  const ListIndexOutOfRange := "Index was out of range. Must be non-negative and less than the size of the collection."

  /** The message of the ArgumentException a dictionary throws for a key it already holds. */
  const DuplicateKey := "An item with the same key has already been added."

  /** The message of the IndexOutOfRangeException an array indexer throws. */
  const ArrayIndexOutOfRange := "Index was outside the bounds of the array."

  /** The message of the ArgumentException Enum.Parse throws for an unknown name. */
  const EnumValueNotFound := "Requested value was not found."

  /** The message of the InvalidOperationException SingleOrDefault throws for a second match. */
  const MoreThanOneMatch := "Sequence contains more than one matching element"
}
