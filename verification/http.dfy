/** The HTTP requests the CMS and the agenda editor send, as values: the
    network itself is outside the model, so a handler returns the request it
    issues and receives the outcome as a parameter. */
module Http {
  import opened AgendaSchema

  datatype Method = GET | POST | PUT | DELETE

  datatype Body = NoBody | ItemsBody(items: seq<AgendaItem>) | PlayBody(play: bool)

  datatype Request = Request(verb: Method, url: string, body: Body)

  /** What the client sees of a JSON fetch: either the request failed (a
      network error or a non-2xx status where the caller checks `res.ok`) or
      the parsed body arrived. */
  datatype Response<+T> = Failed | Received(data: T)
}
