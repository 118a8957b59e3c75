/** Ordered validation chains: a handler runs its checks in a fixed order
    and answers with the error of the first one that fails. */
module Validation {
  import opened Wrappers

  datatype Check = Check(fails: bool, error: HttpError)

  /** The error of the first failing check, None when every check passes. */
  function FirstFailure(checks: seq<Check>): (r: Option<HttpError>)
    ensures r.None? <==> forall k :: 0 <= k < |checks| ==> !checks[k].fails
  {
    if checks == [] then None
    else if checks[0].fails then Some(checks[0].error)
    else
      var r := FirstFailure(checks[1..]);
      assert forall k :: 1 <= k < |checks| ==> checks[k] == checks[1..][k - 1];
      r
  }

  /** The answer is the error of check `k` exactly when check `k` fails and
      every earlier one passes; later checks are never consulted. */
  lemma {:induction false} FirstFailureAt(checks: seq<Check>, k: nat)
    requires k < |checks| && checks[k].fails
    requires forall j :: 0 <= j < k ==> !checks[j].fails
    ensures FirstFailure(checks) == Some(checks[k].error)
  {
    if k > 0 {
      assert forall j :: 0 <= j < k - 1 ==> checks[1..][j] == checks[j + 1];
      FirstFailureAt(checks[1..], k - 1);
    }
  }

  /** A chain run in two parts: the second part is consulted only when
      every check of the first passes. */
  lemma {:induction false} FirstFailureAppend(first: seq<Check>, second: seq<Check>)
    ensures FirstFailure(first + second) ==
      if FirstFailure(first).Some? then FirstFailure(first) else FirstFailure(second)
  {
    if first == [] {
      assert first + second == second;
    } else {
      assert (first + second)[0] == first[0];
      assert (first + second)[1..] == first[1..] + second;
      FirstFailureAppend(first[1..], second);
    }
  }
}
