/** The HTTP responses the core produces, as an abstract datatype recording
    the intended status, reason, body and content type, and what a handler may
    hand back: a finished response or a plain Python value. */
module Http {
  import opened Wrappers
  import opened PyValue

  /** A response body, named by what it is built from. */
  datatype Body =
    | Empty
    | Raw(data: seq<byte>)                              // bytes as given
    | Utf8(text: string)                                // `text.encode('utf-8')`
    | Json(entries: map<string, Value>)                 // `json.dumps(.., ensure_ascii=False)` in UTF-8
    | Rendered(template: Value, context: map<string, Value>)  // the named template rendered with `context`
    | Stringified(value: Value)                         // `str(value).encode('utf-8')`

  datatype Response =
    | Found(location: string)                           // `web.HTTPFound`: a 302 redirect
    | BadRequest(message: string)                       // `web.HTTPBadRequest`: status 400
    | Plain(status: int, reason: Option<Value>, body: Body, contentType: Option<string>)
                                                        // `web.Response`; `reason` is `str()` of the value,
                                                        // `None` means the framework's default
    | Other(tag: string)                                // any other response object a handler builds

  /** What a request handler returns: a response object or any other value. */
  datatype Reply = Stream(response: Response) | Value(value: Value)
}
