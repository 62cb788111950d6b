/** Values shared by every part of the model: nullable values and the .NET
    exceptions that the services throw or catch. */
module Common {

  /** A reference that may be null (C# `null`). */
  datatype Option<+T> = None | Some(value: T) {
    function GetOr(default: T): T {
      match this
      case Some(v) => v
      case None => default
    }
  }

  /** The .NET exceptions the modelled code raises, each with what the code
      puts into it. */
  datatype Exception =
    | ArgumentError(message: string)            // ArgumentException(message)
    | ArgumentNullError(paramName: string)       // ArgumentNullException
    | DirectoryNotFoundError(message: string)    // DirectoryNotFoundException(message)
    | FileNotFoundError(message: string)         // FileNotFoundException(message)
    | UnauthorizedAccessError(message: string)   // UnauthorizedAccessException(message)
    | HttpRequestError                           // HttpClient.SendAsync failed
    | JsonError                                  // ReadFromJsonAsync could not parse the body

  /** How a .NET call ends: it returns a value or throws. */
  datatype Outcome<+T> = Returned(value: T) | Threw(error: Exception)
}
