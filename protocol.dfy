/** The two messages of the lookup protocol, as values. Their byte layout
    lives in a module (`cache_protocol`) that is not part of this model. */
module Protocol {

  /** A lookup request for one integer key. */
  datatype Request = Request(key: int)

  /** A reply: the echoed key, a flag (1 found, 0 not found, as the origin
      server sends it) and the value, which is 0 when nothing was found. */
  datatype Response = Response(key: int, valid: int, value: int)
}
