/**
 * The application's error type and the last middleware, which turns any error
 * passed to `next(error)` into a JSON response.
 */
module ErrorHandler {
  import opened Wrappers
  import opened JsText
  import opened Json

  /** `` `${statusCode}`.startsWith("4") ? "fail" : "error" ``. */
  function StatusFor(statusCode: int): (s: string)
    ensures s == "fail" || s == "error"
  {
    if StartsWith(IntToString(statusCode), "4") then "fail" else "error"
  }

  /** An error is a "fail" exactly when its code is non-negative and its leading decimal digit is 4. */
  lemma StatusForLeadingDigit(statusCode: int)
    ensures StatusFor(statusCode) == "fail" <==> statusCode >= 0 && LeadingDigit(statusCode) == 4
  {
    if statusCode >= 0 {
      NatToDecimalFirst(statusCode);
      var s := IntToString(statusCode);
      assert StartsWith(s, "4") <==> s[0] == '4';
    }
  }

  /** Every 4xx code is a "fail". */
  lemma StatusForClientError(statusCode: int)
    requires 400 <= statusCode < 500
    ensures StatusFor(statusCode) == "fail"
  {
    StatusForLeadingDigit(statusCode);
    assert LeadingDigit(statusCode) == LeadingDigit(statusCode / 10) == LeadingDigit(statusCode / 100);
  }

  /** Every 5xx code is an "error". */
  lemma StatusForServerError(statusCode: int)
    requires 500 <= statusCode < 600
    ensures StatusFor(statusCode) == "error"
  {
    StatusForLeadingDigit(statusCode);
    assert LeadingDigit(statusCode) == LeadingDigit(statusCode / 10) == LeadingDigit(statusCode / 100);
  }

  /**
   * One entry of a validation error's `errors` object, `!field ? message : ""`:
   * the message when the field is missing or empty, the empty string otherwise.
   */
  function FieldError(field: Option<string>, message: string): (e: Json)
    ensures e == JStr("") <==> Truthy(field) || message == ""
    ensures !Truthy(field) ==> e == JStr(message)
  {
    JStr(if Truthy(field) then "" else message)
  }

  /** `err.statusCode || 500`: a missing or zero code becomes 500. */
  function ResponseCode(statusCode: Option<nat>): (code: nat)
    ensures code != 0
    ensures statusCode.Some? && statusCode.value != 0 ==> code == statusCode.value
    ensures statusCode.None? || statusCode.value == 0 ==> code == 500
  {
    if statusCode.Some? && statusCode.value != 0 then statusCode.value else 500
  }

  /** `err.status || "error"`: a missing or empty status becomes "error". */
  function ResponseStatus(status: Option<string>): (s: string)
    ensures s != ""
    ensures status.Some? && status.value != "" ==> s == status.value
    ensures status.None? || status.value == "" ==> s == "error"
  {
    if status.Some? && status.value != "" then status.value else "error"
  }

  /**
   * The JSON body `{status, message, errors, stack}`. A member whose value is
   * `undefined` is left out, as `JSON.stringify` does.
   */
  function ErrorBody(status: string, message: string, errors: Option<Json>, stack: Option<string>): (j: Json)
    ensures Keys(j) == ["status", "message"]
                     + (if errors.Some? then ["errors"] else [])
                     + (if stack.Some? then ["stack"] else [])
    ensures Member(j, "status") == JStr(status) && Member(j, "message") == JStr(message)
    ensures errors.Some? ==> Member(j, "errors") == errors.value
    ensures stack.Some? ==> Member(j, "stack") == JStr(stack.value)
  {
    ErrorMembersKeys(status, message, errors, stack);
    ErrorMembersLookup(status, message, errors, stack);
    JObj(ErrorMembers(status, message, errors, stack))
  }

  /** The members of the error body, in the order the handler writes them. */
  function ErrorMembers(status: string, message: string, errors: Option<Json>, stack: Option<string>): seq<(string, Json)>
  {
    var head := [("status", JStr(status)), ("message", JStr(message))];
    match (errors, stack)
    case (None, None) => head
    case (Some(e), None) => head + [("errors", e)]
    case (None, Some(st)) => head + [("stack", JStr(st))]
    case (Some(e), Some(st)) => head + [("errors", e), ("stack", JStr(st))]
  }

  /** The error body's member names, in order. */
  lemma ErrorMembersKeys(status: string, message: string, errors: Option<Json>, stack: Option<string>)
    ensures Keys(JObj(ErrorMembers(status, message, errors, stack)))
            == ["status", "message"] + (if errors.Some? then ["errors"] else []) + (if stack.Some? then ["stack"] else [])
  {
    var m := ErrorMembers(status, message, errors, stack);
    var expected := ["status", "message"] + (if errors.Some? then ["errors"] else []) + (if stack.Some? then ["stack"] else []);
    assert |m| == |expected|;
    forall i | 0 <= i < |m| ensures m[i].0 == expected[i] {
    }
  }

  /** Each member of the error body holds the value it was given. */
  lemma ErrorMembersLookup(status: string, message: string, errors: Option<Json>, stack: Option<string>)
    ensures Lookup(ErrorMembers(status, message, errors, stack), "status") == JStr(status)
    ensures Lookup(ErrorMembers(status, message, errors, stack), "message") == JStr(message)
    ensures errors.Some? ==> Lookup(ErrorMembers(status, message, errors, stack), "errors") == errors.value
    ensures stack.Some? ==> Lookup(ErrorMembers(status, message, errors, stack), "stack") == JStr(stack.value)
  {
    var m := ErrorMembers(status, message, errors, stack);
    // The member names differ, each at the index named here.
    assert "status"[0] != "message"[0] && "status"[0] != "errors"[0] && "message"[0] != "errors"[0];
    assert "status"[3] != "stack"[3] && "message"[0] != "stack"[0] && "errors"[0] != "stack"[0];
    LookupFirst(m, "status", 0);
    LookupFirst(m, "message", 1);
    if errors.Some? {
      LookupFirst(m, "errors", 2);
    }
    if stack.Some? {
      LookupFirst(m, "stack", if errors.Some? then 3 else 2);
    }
  }

  /** An `Error` object on its way to the handler. */
  class ErrorObject {
    const message: string
    const errors: Option<Json>
    const stack: string
    var statusCode: Option<nat>
    var status: Option<string>

    /**
     * `new APIError(message, statusCode, errors)`: `errors` defaults to `{}`
     * when left `undefined`, and `status` is derived from the code.
     */
    constructor Api(message: string, statusCode: nat, errors: Option<Json>, stack: string)
      ensures this.message == message && this.stack == stack
      ensures this.statusCode == Some(statusCode)
      ensures this.errors == Some(if errors.Some? then errors.value else JObj([]))
      ensures status == Some(StatusFor(statusCode))
    {
      this.message := message;
      this.statusCode := Some(statusCode);
      this.errors := Some(if errors.Some? then errors.value else JObj([]));
      this.status := Some(StatusFor(statusCode));
      this.stack := stack;
    }

    /** Any other error (a failed database call, say): it has no code, status or field errors. */
    constructor Internal(message: string, stack: string)
      ensures this.message == message && this.stack == stack
      ensures statusCode.None? && status.None? && errors.None?
    {
      this.message := message;
      this.statusCode := None;
      this.status := None;
      this.errors := None;
      this.stack := stack;
    }

    /**
     * `errorHandler(err, req, res, next)` with `NODE_ENV` = `nodeEnv`: fills in
     * the default code and status on the error itself, then answers with them.
     * Only a development deployment sends the stack trace.
     */
    method Handle(nodeEnv: Option<string>) returns (res: Response)
      modifies this
      ensures statusCode == Some(ResponseCode(old(statusCode)))
      ensures status == Some(ResponseStatus(old(status)))
      ensures res.status == ResponseCode(old(statusCode))
      ensures res.body == ErrorBody(ResponseStatus(old(status)), message, errors,
                                    if nodeEnv == Some("development") then Some(stack) else None)
    {
      statusCode := Some(ResponseCode(statusCode));
      status := Some(ResponseStatus(status));
      if nodeEnv == Some("development") {
        return Response(statusCode.value, ErrorBody(status.value, message, errors, Some(stack)));
      }
      res := Response(statusCode.value, ErrorBody(status.value, message, errors, None));
    }
  }

  /** `e` is the object `new APIError(message, statusCode, errors)` builds, with `errors` already defaulted. */
  predicate IsApiError(e: ErrorObject, message: string, statusCode: nat, errors: Json)
    reads e
  {
    && e.message == message && e.statusCode == Some(statusCode)
    && e.status == Some(StatusFor(statusCode)) && e.errors == Some(errors)
  }

  /** What a controller hands back: a response it sends itself, or an error it passes to `next`. */
  datatype Outcome = Reply(response: Response) | Next(err: ErrorObject)

  /** Express's last step: a reply goes out as it is; an error goes through `errorHandler`. */
  method Respond(out: Outcome, nodeEnv: Option<string>) returns (res: Response)
    modifies if out.Next? then {out.err} else {}
    ensures out.Reply? ==> res == out.response
    ensures out.Next? ==> res.status == ResponseCode(old(out.err.statusCode))
    ensures out.Next? ==>
      res.body == ErrorBody(ResponseStatus(old(out.err.status)), out.err.message, out.err.errors,
                            if nodeEnv == Some("development") then Some(out.err.stack) else None)
  {
    match out
    case Reply(r) => res := r;
    case Next(e) => res := e.Handle(nodeEnv);
  }
}
