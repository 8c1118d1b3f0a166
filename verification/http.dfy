/** The HTTP methods the route table is keyed by. `Use` is the marker under
    which middleware registered for every method is also kept. */
module Http {
  datatype HttpMethod = Get | Post | Put | Delete | Head | Options | Connect | Patch | Trace | Use
}
