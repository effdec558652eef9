/**
 * `parseRequestBody`: the body arrives as decoded text chunks; each chunk is
 * appended and the running text checked against the limit; at the end an
 * empty body is `{}` and anything else goes through `JSON.parse`, which is a
 * parameter of the model (`None` when it throws).
 */
module RequestBody {
  import opened Wrappers
  import opened JsValues

  /** REQUEST_LIMIT_BYTES, compared with the text's length. */
  const RequestLimit: nat := 1024 * 50

  /** The chunks joined in arrival order. */
  function Concat(chunks: seq<string>): string
  {
    if chunks == [] then [] else Concat(chunks[..|chunks| - 1]) + chunks[|chunks| - 1]
  }

  /** A prefix of the chunks never joins to more text than all of them. */
  lemma {:induction false} ConcatPrefixNoLonger(chunks: seq<string>, i: nat)
    requires i <= |chunks|
    ensures |Concat(chunks[..i])| <= |Concat(chunks)|
  {
    if i < |chunks| {
      var init := chunks[..|chunks| - 1];
      ConcatPrefixNoLonger(init, i);
      assert init[..i] == chunks[..i];
    } else {
      assert chunks[..i] == chunks;
    }
  }

  /**
   * What the body resolves or rejects with, stated on the whole body: too
   * long overall is PAYLOAD_TOO_LARGE, empty is `{}`, otherwise the parse.
   */
  function BodyValue(chunks: seq<string>, parse: string -> Option<Json>): (r: Result<Json, Fault>)
    ensures r.Err? ==> r.error == PayloadTooLarge || r.error == InvalidJson
    ensures r == Err(PayloadTooLarge) <==> |Concat(chunks)| > RequestLimit
    ensures |Concat(chunks)| <= RequestLimit && Concat(chunks) == [] ==> r == Ok(JObj(map[]))
    ensures |Concat(chunks)| <= RequestLimit && Concat(chunks) != [] ==>
      r == if parse(Concat(chunks)).Some? then Ok(parse(Concat(chunks)).value) else Err(InvalidJson)
  {
    var data := Concat(chunks);
    if |data| > RequestLimit then Err(PayloadTooLarge)
    else if data == [] then Ok(JObj(map[]))
    else match parse(data)
      case None => Err(InvalidJson)
      case Some(v) => Ok(v)
  }

  /** `parseRequestBody(req)`, reading the chunks one at a time and stopping at the first overflow. */
  method ReceiveBody(chunks: seq<string>, parse: string -> Option<Json>) returns (r: Result<Json, Fault>)
    ensures r == BodyValue(chunks, parse)
  {
    var data := "";
    var i := 0;
    while i < |chunks|
      invariant 0 <= i <= |chunks|
      invariant data == Concat(chunks[..i])
      invariant |data| <= RequestLimit
    {
      assert chunks[..i + 1][..i] == chunks[..i];
      data := data + chunks[i];
      i := i + 1;
      if |data| > RequestLimit {
        // the connection is destroyed: no later chunk and no 'end' matter
        ConcatPrefixNoLonger(chunks, i);
        return Err(PayloadTooLarge);
      }
    }
    assert chunks[..i] == chunks;
    if data == [] {
      return Ok(JObj(map[]));
    }
    match parse(data)
    case None => r := Err(InvalidJson);
    case Some(v) => r := Ok(v);
  }
}
