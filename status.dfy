/** Posting a commit status (pkg/status/status.go): the description shown
    next to the status is derived from its state, with two states given
    their own wording. */
module Status {

  import opened Results
  import opened Text

  /** The status sent to the platform: `State`, `Description`, `Context`. */
  datatype RepoStatus = RepoStatus(state: string, description: string, context: string)

  /** What PostCommitStatus sends and what it returns. */
  datatype Posted = Posted(status: RepoStatus, err: Option<Error>)

  /** The description of a state: "Failed" for `failure`, "In Progress" for
      `pending`, and otherwise the state with its first byte upper-cased
      (the source indexes `state[0]`, so an empty state is not accepted). */
  function Description(state: string): (d: string)
    requires |state| > 0
    ensures state == "failure" ==> d == "Failed"
    ensures state == "pending" ==> d == "In Progress"
    ensures state != "failure" && state != "pending" ==>
      |d| == |state| && d[0] == ToUpperByte(state[0]) && d[1..] == state[1..]
  {
    var commitState := UpperFirst(state);
    if state == "failure" then "Failed"
    else if state == "pending" then "In Progress"
    else commitState
  }

  /** The four states the platform accepts get four different descriptions. */
  lemma PlatformStatesDistinct()
    ensures Description("error") == "Error"
    ensures Description("failure") == "Failed"
    ensures Description("pending") == "In Progress"
    ensures Description("success") == "Success"
  {
    assert "error" != "failure" && "error" != "pending";
    assert "success" != "failure" && "success" != "pending";
    assert UpperFirst("error") == "Error";
    assert UpperFirst("success") == "Success";
  }

  /** A description never starts with a lower-case ASCII letter. */
  lemma DescriptionCapitalised(state: string)
    requires |state| > 0
    ensures !('a' <= Description(state)[0] <= 'z')
  {
    if state != "failure" && state != "pending" {
      assert Description(state)[0] == ToUpperByte(state[0]);
    }
  }

  /** The status-wording overrides are not one-to-one: a state spelled like
      the override of another gets the same description. */
  lemma OverridesCollide()
    ensures Description("failed") == Description("failure")
  {
    assert "failed" != "failure" && "failed" != "pending";
    assert UpperFirst("failed") == "Failed";
  }

  /** PostCommitStatus, with the platform's `CreateStatus` answer as a
      parameter: the status carries the state and context unchanged and the
      state's description; a failure is returned wrapped with
      "error creating commit status", success as no error. */
  function PostCommitStatus(state: string, context: string, createErr: Option<Error>): (r: Posted)
    requires |state| > 0
    ensures r.status.state == state && r.status.context == context
    ensures r.status.description == Description(state)
    ensures r.err.None? <==> createErr.None?
    ensures createErr.Some? ==> r.err == Some(Wrapped("error creating commit status", createErr.value))
  {
    var status := RepoStatus(state, Description(state), context);
    match createErr
    case Some(e) => Posted(status, Some(Wrapped("error creating commit status", e)))
    case None => Posted(status, None)
  }
}
