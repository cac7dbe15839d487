/** Option and Result, used wherever the source returns null or throws. */
module Wrappers {

  /** `None` stands for the source's `null` (or JavaScript's `undefined`). */
  datatype Option<+T> = None | Some(value: T)

  /** `Err` stands for an exception the source throws. */
  datatype Result<+T, +E> = Ok(value: T) | Err(error: E)
}

/** The .NET and JavaScript exceptions the modelled code can raise. */
module Exceptions {

  datatype Exception =
    | ArgumentNullException(paramName: string)
    | ArgumentException(message: string)
    | InvalidOperationException(message: string)
    | NullReferenceException
    | XmlException(message: string)
    | FormatException(message: string)
    | HttpRequestException(statusCode: int)
    | PortableRestException(message: string)

  /** Errors raised by the JavaScript port. */
  datatype JsError =
    | TypeError(message: string)
    | ReferenceError(identifier: string)
    | Error(message: string)
    | DomException(name: string)
}
