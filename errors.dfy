/// Error kinds raised by the simulator and the two result wrappers used to
/// model a Python call that either returns or raises.
module Errors {

  /** One constructor per distinct failure; the comment names the Python
      exception class the source raises for it. */
  datatype Error =
    | UnknownNode        // ValueError: a node passed as parameter does not exist
    | SelfChannel        // ValueError: a node cannot open a channel with itself
    | NegativeAmount     // ValueError: a channel or transfer amount is negative
    | ChannelExists      // Exception: the channel has already been opened
    | ChannelNotOpen     // Exception: no channel between the two nodes
    | InsufficientFunds  // ValueError in transfer; Exception in main.py's send
    | MissingKey         // KeyError raised by a dictionary lookup
    | NoRoute            // ValueError raised by main.py's send
    | EmptyRoute         // ValueError: min() of an empty sequence of hop balances
    | NotInGraph         // ValueError raised by the Node constructor
    | IndexOutOfRange    // IndexError raised by nth_combination
    | NegativeCount      // ValueError raised by math.comb for a negative r
    | RepeatedChars      // ValueError raised by the SubstringSet constructor

  /** The outcome of a call that returns None or raises. */
  datatype Outcome = Pass | Fail(error: Error)

  /** The outcome of a call that returns a value or raises. */
  datatype Result<T> = Ok(value: T) | Err(error: Error)
}
