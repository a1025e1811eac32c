/** The error codes the firmware's functions return. */
module Esp {
  datatype Err =
    | OK
    | FAIL
    | NO_MEM
    | INVALID_ARG
    | INVALID_STATE
    | INVALID_SIZE
    | INVALID_RESPONSE
    | NOT_FOUND
    | NOT_SUPPORTED
    | TIMEOUT
}
