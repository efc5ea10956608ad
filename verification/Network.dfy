/** What the network does to one call to Redis. */
module Network {
  /** A call whose reply is lost has taken effect, although the caller sees an error. */
  datatype Fault = Delivered | RequestLost | ReplyLost
}
