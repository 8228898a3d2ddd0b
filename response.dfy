/** `RequestService.convertResponse` in ex_api.py: the checks a decoded API
    response goes through before its dictionary is handed back. */
module Responses {

  import opened Common

  /** A JSON value as far as the checks look at it: null, a string, or
      anything else. */
  datatype Value = Null | Text(s: string) | Other

  /** The exceptions the checks raise, with their messages. `TypeError`
      stands for the string concatenation failing on a non-string
      errorCode or errorMessage. */
  datatype Failure = ClientError(message: string) | ApiError(message: string) | TypeError

  /** The keys every response must have, in the order they are checked. */
  const REQUIRED: seq<string> := ["errorCode", "errorMessage", "data", "requestId", "version"]

  /** The message for a missing key. */
  function MissingMessage(key: string): string
  {
    key + " is missing from server response"
  }

  /** The first of `keys` that `result` lacks, if any. */
  function FirstMissing(result: map<string, Value>, keys: seq<string>): (k: Option<string>)
    ensures k.Some? ==> k.value in keys && k.value !in result
    ensures k.None? <==> forall i :: 0 <= i < |keys| ==> keys[i] in result
  {
    if |keys| == 0 then None
    else if keys[0] !in result then Some(keys[0])
    else FirstMissing(result, keys[1..])
  }

  /** `convertResponse` on the decoded body: `None` is a body that decodes to
      JSON null, which is a client error. An accepted response is the decoded
      dictionary, unchanged, with every required key. */
  function ConvertResponse(decoded: Option<map<string, Value>>): (r: Result<map<string, Value>, Failure>)
    ensures decoded.None? ==> r == Err(ClientError("Unable to parse JSON response from API"))
    ensures r.Ok? ==> decoded == Some(r.value) && forall i :: 0 <= i < |REQUIRED| ==> REQUIRED[i] in r.value
  {
    if decoded.None? then Err(ClientError("Unable to parse JSON response from API"))
    else
      var result := decoded.value;
      if "errorCode" !in result then Err(ApiError(MissingMessage("errorCode")))
      else if "errorMessage" !in result then Err(ApiError(MissingMessage("errorMessage")))
      else if "data" !in result then Err(ApiError(MissingMessage("data")))
      else if "requestId" !in result then Err(ApiError(MissingMessage("requestId")))
      else if "version" !in result then Err(ApiError(MissingMessage("version")))
      else if result["errorCode"] != Null then
        if result["errorCode"].Text? && result["errorMessage"].Text? then
          Err(ClientError(result["errorCode"].s + ": " + result["errorMessage"].s))
        else Err(TypeError)
      else Ok(result)
  }

  /** The first missing key among the required ones, spelled out. */
  lemma FirstMissingRequired(result: map<string, Value>)
    ensures FirstMissing(result, REQUIRED) ==
              if "errorCode" !in result then Some("errorCode")
              else if "errorMessage" !in result then Some("errorMessage")
              else if "data" !in result then Some("data")
              else if "requestId" !in result then Some("requestId")
              else if "version" !in result then Some("version")
              else None
  {
    var k := REQUIRED;
    assert k[0] == "errorCode" && k[1..] == ["errorMessage", "data", "requestId", "version"];
    var k1 := k[1..];
    assert k1[0] == "errorMessage" && k1[1..] == ["data", "requestId", "version"];
    var k2 := k1[1..];
    assert k2[0] == "data" && k2[1..] == ["requestId", "version"];
    var k3 := k2[1..];
    assert k3[0] == "requestId" && k3[1..] == ["version"];
    var k4 := k3[1..];
    assert k4[0] == "version" && k4[1..] == [];
    assert FirstMissing(result, k4) == if "version" !in result then Some("version") else None;
    assert FirstMissing(result, k3) == if "requestId" !in result then Some("requestId") else FirstMissing(result, k4);
    assert FirstMissing(result, k2) == if "data" !in result then Some("data") else FirstMissing(result, k3);
    assert FirstMissing(result, k1) == if "errorMessage" !in result then Some("errorMessage") else FirstMissing(result, k2);
  }

  /** A missing key is reported before anything else is looked at, and it is
      the first missing one in the checked order. */
  lemma MissingKeyFirst(result: map<string, Value>)
    ensures var k := FirstMissing(result, REQUIRED);
            k.Some? ==> ConvertResponse(Some(result)) == Err(ApiError(MissingMessage(k.value)))
  {
    FirstMissingRequired(result);
  }

  /** The response is accepted exactly when every key is present and the
      errorCode is null, and then it is returned unchanged. */
  lemma Accepted(result: map<string, Value>)
    ensures ConvertResponse(Some(result)).Ok? <==>
              FirstMissing(result, REQUIRED).None? && result["errorCode"] == Null
    ensures ConvertResponse(Some(result)).Ok? ==> ConvertResponse(Some(result)).value == result
  {
    FirstMissingRequired(result);
  }

  /** With every key present and a non-null errorCode, the client error
      carries "code: message". */
  lemma ServerError(result: map<string, Value>, code: string, message: string)
    requires FirstMissing(result, REQUIRED).None?
    requires "errorCode" in result && result["errorCode"] == Text(code)
    requires "errorMessage" in result && result["errorMessage"] == Text(message)
    ensures ConvertResponse(Some(result)) == Err(ClientError(code + ": " + message))
  {
    FirstMissingRequired(result);
  }

  /** With every key present and a non-null errorCode, a code or message
      that is not a string makes the concatenation raise a TypeError. */
  lemma ServerTypeError(result: map<string, Value>)
    requires FirstMissing(result, REQUIRED).None?
    requires "errorCode" in result && "errorMessage" in result && result["errorCode"] != Null
    requires !result["errorCode"].Text? || !result["errorMessage"].Text?
    ensures ConvertResponse(Some(result)) == Err(TypeError)
  {
    FirstMissingRequired(result);
  }
}
