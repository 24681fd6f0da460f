/** The older commit-status poster (internal/commitStatus.go): its
    description is always the state with its first byte upper-cased, and
    the platform's error is passed back as it is. */
module CommitStatus {

  import opened Results
  import opened Text
  import Status

  /** The description of a state: the state with only its first byte
      upper-cased; no state is worded specially. */
  function Description(state: string): (d: string)
    requires |state| > 0
    ensures |d| == |state|
    ensures forall i :: 0 < i < |state| ==> d[i] == state[i]
    ensures d[0] == ToUpperByte(state[0])
  {
    UpperFirst(state)
  }

  /** PostCommitStatus, with the platform's `CreateStatus` answer as a
      parameter: the status carries the state and context unchanged, and
      the answer is returned exactly, failure or not, without wrapping. */
  function PostCommitStatus(state: string, context: string, createErr: Option<Error>): (r: Status.Posted)
    requires |state| > 0
    ensures r.status.state == state && r.status.context == context
    ensures r.status.description == Description(state)
    ensures r.err == createErr
  {
    Status.Posted(Status.RepoStatus(state, Description(state), context), createErr)
  }

  /** The two posters describe every state alike except `failure` and
      `pending`, which the newer one words as "Failed" and "In Progress"
      where this one says "Failure" and "Pending". */
  lemma DescriptionsCompared(state: string)
    requires |state| > 0
    ensures state != "failure" && state != "pending" ==> Description(state) == Status.Description(state)
    ensures Description("failure") == "Failure" && Status.Description("failure") == "Failed"
    ensures Description("pending") == "Pending" && Status.Description("pending") == "In Progress"
  {
    assert UpperFirst("failure") == "Failure";
    assert UpperFirst("pending") == "Pending";
  }

  /** The two posters send the same status except for the description, and
      fail alike; they differ in what error they return. */
  lemma PostersCompared(state: string, context: string, createErr: Option<Error>)
    requires |state| > 0
    ensures PostCommitStatus(state, context, createErr).status.state ==
            Status.PostCommitStatus(state, context, createErr).status.state
    ensures PostCommitStatus(state, context, createErr).err.None? <==>
            Status.PostCommitStatus(state, context, createErr).err.None?
    ensures createErr.Some? ==>
      Status.PostCommitStatus(state, context, createErr).err ==
      Some(Wrapped("error creating commit status", PostCommitStatus(state, context, createErr).err.value))
  {
  }
}
