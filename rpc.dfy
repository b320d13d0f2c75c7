/**
 * The few gRPC values the plugin and the hook return: the status of a
 * refused call and the empty message.
 */
module Rpc {

  /** The gRPC status codes the program uses. */
  datatype Code = Unimplemented

  /** `status.Error(code, message)`. */
  datatype Status = Status(code: Code, message: string)

  /** A message without fields. */
  datatype Empty = Empty
}
