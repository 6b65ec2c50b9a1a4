/** Result types for the exceptions and the null results of the server library. */
module Outcomes {
  datatype Option<+T> = None | Some(value: T)

  /** What a call that may throw or fail produced. */
  datatype Result<+T> = Ok(value: T) | Err(error: Error)

  datatype Error =
    | ParameterConflict // std::invalid_argument from RouteHandler::add_handler
    | MissingPart       // a request line with fewer than three parts is indexed past its end
    | OutOfRange        // std::out_of_range from std::string::substr or std::stoull
    | NotANumber        // std::invalid_argument from std::stoull
    | NotSupported      // std::errc::not_supported for a chunked body
    | EndOfStream       // the peer closed before the bytes that were waited for arrived
}
