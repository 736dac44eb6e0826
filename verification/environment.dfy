/**
 * What the logging core reads from the process around it: the clocks, the
 * superglobals behind the reserved placeholders, the JSON encoder and the SAPI.
 */
module Environment {
  import opened Php

  datatype Ambient = Ambient(
    date: string -> string,    // date($format): local time rendered with a format
    gmdate: string -> string,  // gmdate($format): UTC time rendered with a format
    time: int,                 // time(): the Unix timestamp
    context: string -> Value,  // the value behind a reserved key; VNull when unavailable
    encode: Value -> string,   // json_encode of a non-scalar value
    cli: bool                  // PHP_SAPI === 'cli'
  )

  /** The placeholder names resolved from the ambient context when the data lacks them. */
  const Reserved: set<string> := {"backtrace", "get_vars", "post_vars", "server_vars", "session_vars"}
}
