/** The states and errors of include/taps/taps_api.h that the modelled code uses. */
module TapsApi {
  datatype ConnectionState = ESTABLISHING | ESTABLISHED | CLOSING | CLOSED

  datatype ErrorEvent = ESTABLISHMENT_ERROR | SEND_ERROR | RECEIVE_ERROR | CONNECTION_ERROR

  // OTHER stands for the remaining reasons of an I/O error.
  datatype ErrorReason =
    | DEFRAMING_FAILED | PROTOCOL_FAILED | CONNECTION_ABORTED | TIMEOUT | LOCAL_ABORT
    | INVALID_STATE | RESOURCE_EXHAUSTED | IDLE_TIMEOUT | OTHER
}
