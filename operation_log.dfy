/**
 * The audit-log call the routes make after their write
 * (backend/app/models/operation_log.py:83-93). `create_log` declares the
 * parameters `user_id`, `action`, `details` and `ip_address` and no
 * `**kwargs`, so Python refuses a call passing any other keyword with a
 * `TypeError` before a row is built. The row itself is not modelled; the
 * keyword check is, because it decides the reply of the route around it.
 */
module OperationLogs {
  import opened Wrappers
  import opened ResultEnvelope

  /** The parameters `create_log` declares. */
  const Parameters: set<string> := {"user_id", "action", "details", "ip_address"}

  /** The keywords of the log call in the routes that name one target row, in call order. */
  const TargetKeywords: seq<string> := ["user_id", "action_type", "action", "target_type", "target_id", "ip_address"]

  /** The keywords of the log call in the batch routes, in call order. */
  const BatchKeywords: seq<string> := ["user_id", "action_type", "action", "details", "ip_address"]

  /** The keywords of a call that uses only declared parameters, as the settings upsert does. */
  const DeclaredKeywords: seq<string> := ["user_id", "action", "details", "ip_address"]

  /** The first keyword of a call that `create_log` does not declare: the one Python's error names. */
  function FirstUnexpected(keywords: seq<string>): (r: Option<string>)
    ensures r.None? <==> forall i :: 0 <= i < |keywords| ==> keywords[i] in Parameters
    ensures r.Some? ==> r.value in keywords && r.value !in Parameters
  {
    if keywords == [] then None
    else if keywords[0] !in Parameters then Some(keywords[0])
    else FirstUnexpected(keywords[1..])
  }

  /** The keyword named is the earliest undeclared one: every keyword before it is declared. */
  lemma {:induction false} FirstUnexpectedIsFirst(keywords: seq<string>)
    requires FirstUnexpected(keywords).Some?
    ensures exists i :: 0 <= i < |keywords| && keywords[i] == FirstUnexpected(keywords).value
                        && forall j :: 0 <= j < i ==> keywords[j] in Parameters
  {
    if keywords[0] in Parameters {
      var tail := keywords[1..];
      FirstUnexpectedIsFirst(tail);
      var i :| 0 <= i < |tail| && tail[i] == FirstUnexpected(tail).value
               && forall j :: 0 <= j < i ==> tail[j] in Parameters;
      assert keywords[i + 1] == tail[i];
      forall j | 0 <= j < i + 1 ensures keywords[j] in Parameters {
        if j > 0 { assert keywords[j] == tail[j - 1]; }
      }
    } else {
      assert keywords[0] == FirstUnexpected(keywords).value;
    }
  }

  /** The text of the `TypeError` for an undeclared keyword, as CPython 3.10 and later word it. */
  function UnexpectedKeyword(k: string): string
  {
    "OperationLog.create_log() got an unexpected keyword argument '" + k + "'"
  }

  /** The error text every refused route call carries. */
  const Refusal: string := UnexpectedKeyword("action_type")

  /**
   * The reply of a route that has committed its write and then makes the
   * log call with `keywords`: its own success reply when the call is
   * accepted, otherwise the 500 of its `except` branch, whose message is
   * the route's prefix followed by the error text.
   */
  function AfterLog(success: Status, keywords: seq<string>, prefix: string): (st: Status)
    ensures (forall i :: 0 <= i < |keywords| ==> keywords[i] in Parameters) ==> st == success
    ensures (exists i :: 0 <= i < |keywords| && keywords[i] !in Parameters) ==>
              st.code == 500 && exists k :: k !in Parameters && k in keywords && st.message == prefix + UnexpectedKeyword(k)
  {
    match FirstUnexpected(keywords)
    case None => success
    case Some(k) => Status(500, prefix + UnexpectedKeyword(k))
  }

  /**
   * Both call shapes the routes use are refused, on `action_type`, so the
   * reply is the route's 500 whatever success it would have sent; a call
   * with declared keywords only keeps the success reply.
   */
  lemma {:induction false} RouteCallsRefused(success: Status, prefix: string)
    ensures FirstUnexpected(TargetKeywords) == Some("action_type")
    ensures FirstUnexpected(BatchKeywords) == Some("action_type")
    ensures AfterLog(success, TargetKeywords, prefix) == Status(500, prefix + Refusal)
    ensures AfterLog(success, BatchKeywords, prefix) == Status(500, prefix + Refusal)
    ensures AfterLog(success, DeclaredKeywords, prefix) == success
  {
    assert TargetKeywords[0] in Parameters && TargetKeywords[1] !in Parameters;
    assert TargetKeywords[1..][0] == "action_type";
    assert BatchKeywords[0] in Parameters && BatchKeywords[1] !in Parameters;
    assert BatchKeywords[1..][0] == "action_type";
    assert forall i :: 0 <= i < |DeclaredKeywords| ==> DeclaredKeywords[i] in Parameters;
  }
}
