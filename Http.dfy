/** The slice of the HTTP framework the handlers use: JSON responses built
    from a string-keyed map (gin's `gin.H`), and a response writer whose calls
    are recorded in order. Headers are not modelled. */
module Http {
  import opened Files

  const StatusOK: int := 200
  const StatusBadRequest: int := 400
  const StatusNotFound: int := 404
  const StatusInternalServerError: int := 500

  /** The values the handlers put into JSON payloads. `JNull` is a nil slice. */
  datatype JsonValue = JStr(s: string) | JInt(n: int) | JNull | JFiles(files: seq<FileInfo>)

  /** A JSON object: keys to values. */
  type Payload = map<string, JsonValue>

  /** A status code with its JSON body. */
  datatype Response = Response(status: int, body: Payload)

  /** `{"error": message}` */
  function ErrorBody(message: string): (p: Payload)
    ensures p.Keys == {"error"} && p["error"] == JStr(message)
  {
    map["error" := JStr(message)]
  }

  /** One recorded call on the response writer: a whole JSON response
      (`c.JSON`), a raw string appended to the body (`WriteString`), or a
      flush of what was written so far. */
  datatype WriterCall = Json(response: Response) | Wrote(chunk: string) | Flushed

  /** The response writer of one request. It records every call made on it;
      `calls` is the request's whole output, in order. */
  class Writer {
    var calls: seq<WriterCall>

    constructor ()
      ensures calls == []
    {
      calls := [];
    }

    method JSON(status: int, body: Payload)
      modifies this
      ensures calls == old(calls) + [Json(Response(status, body))]
    {
      calls := calls + [Json(Response(status, body))];
    }

    method WriteString(chunk: string)
      modifies this
      ensures calls == old(calls) + [Wrote(chunk)]
    {
      calls := calls + [Wrote(chunk)];
    }

    method Flush()
      modifies this
      ensures calls == old(calls) + [Flushed]
    {
      calls := calls + [Flushed];
    }
  }

  /** The strings appended to the body by `WriteString`, in order. */
  function Chunks(calls: seq<WriterCall>): seq<string>
  {
    if calls == [] then []
    else
      var last := calls[|calls| - 1];
      Chunks(calls[..|calls| - 1]) + (if last.Wrote? then [last.chunk] else [])
  }

  lemma {:induction false} ChunksAppend(a: seq<WriterCall>, b: seq<WriterCall>)
    ensures Chunks(a + b) == Chunks(a) + Chunks(b)
  {
    if b == [] {
      assert a + b == a;
    } else {
      var b' := b[..|b| - 1];
      var last := b[|b| - 1];
      var tail: seq<string> := if last.Wrote? then [last.chunk] else [];
      assert (a + b)[..|a + b| - 1] == a + b';
      assert (a + b)[|a + b| - 1] == last;
      ChunksAppend(a, b');
      calc {
        Chunks(a + b);
        Chunks(a + b') + tail;
        Chunks(a) + Chunks(b') + tail;
        Chunks(a) + (Chunks(b') + tail);
        Chunks(a) + Chunks(b);
      }
    }
  }

  lemma ChunksOfCall(c: WriterCall)
    ensures Chunks([c]) == if c.Wrote? then [c.chunk] else []
  {
    assert [c][..0] == [];
  }
}
