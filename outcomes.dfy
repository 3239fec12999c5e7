/** Values and failures shared by every part of the model.

    Python's `None`, its exceptions and the failures reported by the network,
    file and model collaborators are all made explicit here: an operation that
    can raise returns a `Result`, and the exception it would raise is its
    `Error`. */
module Outcomes {

  datatype Option<+T> = None | Some(value: T)

  /** The exceptions the core can raise, by Python class. */
  datatype Error =
    | IndexError                 // a list indexed past its end
    | KeyError(key: string)      // a missing `os.environ` entry
    | ValueError(message: string)
    | TypeError                  // `"\n".join` over a list holding `None`
    | NameError(name: string)    // a name that was never imported
    | AttributeError(name: string)
    | OSError                    // PIL refusing to write an image as JPEG
    | CollaboratorError          // raised by HTTP, Atlassian, file or model code outside the core

  datatype Result<+T> = Ok(value: T) | Raised(error: Error)

  /** How an f-string shows an optional string: `None` prints as the word None. */
  function Show(v: Option<string>): (r: string)
    ensures v.Some? ==> r == v.value
  {
    match v
    case None => "None"
    case Some(s) => s
  }
}
