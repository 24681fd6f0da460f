/** internal/comment.go: splitting a message into numbered 62000-byte chunks,
    giving it a `##` title line, selecting the comments an earlier run left,
    hiding them, and posting the new chunks, every remote call retried with
    exponential back-off. */
module InternalComment {

  import opened Results
  import opened Text
  import opened Platform

  const MaxCommentLength: nat := 62000
  const IdentifierPrefix: string := "<!-- Comment"
  const MaxRetries: nat := 3

  // ---------------------------------------------------------------------
  // splitMessage

  /** The header put in front of chunk number `k` (1-based):
      `"<!-- Comment <!-- <!-- Comment #k -->\n"`. */
  function Header(k: nat): string {
    IdentifierPrefix + " <!-- " + IdentifierPrefix + " #" + NatToString(k) + " -->\n"
  }

  function Min(a: int, b: int): int {
    if a <= b then a else b
  }

  /** The number of chunks of a message of `n` bytes: n / 62000 rounded up. */
  function NumChunks(n: nat): nat {
    (n + MaxCommentLength - 1) / MaxCommentLength
  }

  /** The offset at which window `k` (0-based) starts: k * 62000, counted
      up window by window. */
  function Start(k: nat): nat {
    if k == 0 then 0 else Start(k - 1) + MaxCommentLength
  }

  lemma {:induction false} StartIsProduct(k: nat)
    ensures Start(k) == k * MaxCommentLength
  {
    if k > 0 {
      StartIsProduct(k - 1);
    }
  }

  /** The `k`-th (0-based) 62000-byte window of `m`, cut short by its end. */
  function Chunk(m: string, k: nat): string {
    m[Min(Start(k), |m|)..Min(Start(k) + MaxCommentLength, |m|)]
  }

  /** The parts `splitMessage` returns: every chunk behind its numbered header. */
  function Framed(m: string): seq<string> {
    seq(NumChunks(|m|), k requires 0 <= k < NumChunks(|m|) => Header(k + 1) + Chunk(m, k))
  }

  /** Reading parts back from position `k` on: each part must start with the
      header carrying its own 1-based position; the remainders after the
      headers are concatenated.  `None` when some header is missing. */
  function UnframeFrom(parts: seq<string>, k: nat): Option<string>
    requires k <= |parts|
    decreases |parts| - k
  {
    if k == |parts| then Some("")
    else
      var h := Header(k + 1);
      if !HasPrefix(parts[k], h) then None
      else
        match UnframeFrom(parts, k + 1)
        case None => None
        case Some(rest) => Some(parts[k][|h|..] + rest)
  }

  /** Reading a whole sequence of parts back. */
  function Unframe(parts: seq<string>): Option<string> {
    UnframeFrom(parts, 0)
  }

  lemma CeilingDivision(n: nat, p: nat)
    requires n <= Start(p) < n + MaxCommentLength
    ensures p == NumChunks(n)
  {
    StartIsProduct(p);
    var q := (n + MaxCommentLength - 1) / MaxCommentLength;
    var r := (n + MaxCommentLength - 1) % MaxCommentLength;
    assert n + MaxCommentLength - 1 == q * MaxCommentLength + r;
  }

  /** Window `k` starts inside a message of `n` bytes exactly when `k` is
      below the number of chunks. */
  lemma ChunkStarts(n: nat, k: nat)
    ensures k < NumChunks(n) <==> Start(k) < n
  {
    StartIsProduct(k);
    var q := (n + MaxCommentLength - 1) / MaxCommentLength;
    var r := (n + MaxCommentLength - 1) % MaxCommentLength;
    assert n + MaxCommentLength - 1 == q * MaxCommentLength + r;
    if k < q {
      assert (q - 1 - k) * MaxCommentLength >= 0;
    } else {
      assert (k - q) * MaxCommentLength >= 0;
    }
  }

  /** Part `k` (0-based): header `k + 1`, then the window starting at
      offset `Start(k)`, which lies inside the message. */
  lemma FramedAt(m: string, k: nat)
    requires k < NumChunks(|m|)
    ensures Start(k) < |m|
    ensures Framed(m)[k] == Header(k + 1) + m[Start(k)..Min(Start(k) + MaxCommentLength, |m|)]
  {
    ChunkStarts(|m|, k);
  }

  /** Reading back the parts of `m` from part `k` on gives `m` from window
      `k` on. */
  lemma {:induction false} UnframeFramedFrom(m: string, k: nat)
    requires k <= NumChunks(|m|)
    ensures UnframeFrom(Framed(m), k) == Some(m[Min(Start(k), |m|)..])
    decreases NumChunks(|m|) - k
  {
    var parts := Framed(m);
    if k == |parts| {
      ChunkStarts(|m|, k);
      assert m[Min(Start(k), |m|)..] == [];
    } else {
      FramedAt(m, k);
      var h := Header(k + 1);
      var i, end := Start(k), Min(Start(k) + MaxCommentLength, |m|);
      assert parts[k][..|h|] == h && parts[k][|h|..] == m[i..end];
      UnframeFramedFrom(m, k + 1);
      assert Min(Start(k + 1), |m|) == end;
      assert m[i..end] + m[end..] == m[i..];
    }
  }

  /** The round trip of splitMessage: stripping the headers from its parts
      and joining what is left gives the message back. */
  lemma UnframeFramed(m: string)
    ensures Unframe(Framed(m)) == Some(m)
  {
    UnframeFramedFrom(m, 0);
    assert m[0..] == m;
  }

  /** The parts of a message: as many as 62000-byte windows are needed
      (none for an empty message), each starting with the header of its
      1-based number, every one but the last carrying a full window. */
  lemma FramedShape(m: string)
    ensures |Framed(m)| == NumChunks(|m|)
    ensures |m| == 0 <==> |Framed(m)| == 0
    ensures forall k :: 0 <= k < |Framed(m)| ==>
      HasPrefix(Framed(m)[k], Header(k + 1)) && |Framed(m)[k]| <= |Header(k + 1)| + MaxCommentLength
    ensures forall k :: 0 <= k < |Framed(m)| - 1 ==> |Framed(m)[k]| == |Header(k + 1)| + MaxCommentLength
  {
    var parts := Framed(m);
    ChunkStarts(|m|, 0);
    forall k | 0 <= k < |parts|
      ensures HasPrefix(parts[k], Header(k + 1))
    {
      assert parts[k][..|Header(k + 1)|] == Header(k + 1);
    }
    forall k | 0 <= k < |parts| - 1
      ensures |parts[k]| == |Header(k + 1)| + MaxCommentLength
    {
      ChunkStarts(|m|, k + 1);
    }
  }

  /** splitMessage: the message cut into consecutive windows of 62000 bytes,
      the last one shorter, each behind the header with its 1-based number.
      UnframeFramed states the round trip. */
  method SplitMessage(message: string) returns (parts: seq<string>)
    ensures parts == Framed(message)
  {
    parts := [];
    var i := 0;
    while i < |message|
      invariant i == Start(|parts|)
      invariant i < |message| + MaxCommentLength
      invariant forall k :: 0 <= k < |parts| ==> parts[k] == Header(k + 1) + Chunk(message, k)
    {
      var end := i + MaxCommentLength;
      if end > |message| {
        end := |message|;
      }
      var part := Header(|parts| + 1) + message[i..end];
      parts := parts + [part];
      i := i + MaxCommentLength;
    }
    CeilingDivision(|message|, |parts|);
  }

  // ---------------------------------------------------------------------
  // Title normalisation in UpsertComment

  /** The title used when the message has none of its own. */
  function DefaultTitle(prNumber: int): string {
    "Output of command for PR " + IntToString(prNumber)
  }

  /** The title step of UpsertComment: a message whose first line starts with
      `##` is kept; any other message gets the line
      `"## Output of command for PR <n>"` in front.  Either way the result
      starts with `##`. */
  function NormalizeMessage(message: string, prNumber: int): (r: string)
    ensures HasPrefix(r, "##")
    ensures HasPrefix(message, "##") ==> r == message
    ensures !HasPrefix(message, "##") ==> r == "## " + DefaultTitle(prNumber) + "\n" + message
  {
    var firstLine := FirstLine(message);
    assert HasPrefix(firstLine, "##") <==> HasPrefix(message, "##") by {
      if |firstLine| >= 2 {
        assert firstLine[..2] == message[..2];
      }
    }
    if HasPrefix(firstLine, "##") then message
    else "## " + DefaultTitle(prNumber) + "\n" + message
  }

  // ---------------------------------------------------------------------
  // filterCommentsByTitle

  /** The filter's test on one comment. */
  predicate Selected(c: IssueComment, title: string) {
    HasPrefix(c.body, title) && Contains(c.body, IdentifierPrefix)
  }

  /** The selected comments of `cs`, in their order. */
  function Filtered(cs: seq<IssueComment>, title: string): seq<IssueComment> {
    if |cs| == 0 then []
    else Filtered(cs[..|cs| - 1], title) + if Selected(cs[|cs| - 1], title) then [cs[|cs| - 1]] else []
  }

  /** The positions, in increasing order, of the selected comments of `cs`. */
  function SelectedPositions(cs: seq<IssueComment>, title: string): seq<nat> {
    if |cs| == 0 then []
    else SelectedPositions(cs[..|cs| - 1], title) + if Selected(cs[|cs| - 1], title) then [|cs| - 1] else []
  }

  /** The positions of the selected comments are positions of `cs`, in
      increasing order. */
  lemma {:induction false} SelectedPositionsIncrease(cs: seq<IssueComment>, title: string)
    ensures forall k :: 0 <= k < |SelectedPositions(cs, title)| ==> SelectedPositions(cs, title)[k] < |cs|
    ensures forall k, l :: 0 <= k < l < |SelectedPositions(cs, title)| ==>
      SelectedPositions(cs, title)[k] < SelectedPositions(cs, title)[l]
  {
    if |cs| > 0 {
      var init := cs[..|cs| - 1];
      SelectedPositionsIncrease(init, title);
      var idx0 := SelectedPositions(init, title);
      if Selected(cs[|cs| - 1], title) {
        var idx := idx0 + [|cs| - 1];
        assert SelectedPositions(cs, title) == idx;
        forall k, l | 0 <= k < l < |idx| ensures idx[k] < idx[l] {
          assert idx[k] == idx0[k] && idx0[k] < |init|;
          if l < |idx0| {
            assert idx[l] == idx0[l];
          }
        }
      } else {
        assert SelectedPositions(cs, title) == idx0;
      }
    }
  }

  /** The filter's result holds the comments at the selected positions. */
  lemma {:induction false} SelectedPositionsIndex(cs: seq<IssueComment>, title: string)
    ensures var idx := SelectedPositions(cs, title);
      && |Filtered(cs, title)| == |idx|
      && (forall k :: 0 <= k < |idx| ==> idx[k] < |cs| && Filtered(cs, title)[k] == cs[idx[k]])
  {
    if |cs| > 0 {
      var init, last := cs[..|cs| - 1], cs[|cs| - 1];
      SelectedPositionsIndex(init, title);
      var idx0, f0 := SelectedPositions(init, title), Filtered(init, title);
      assert forall k :: 0 <= k < |idx0| ==> init[idx0[k]] == cs[idx0[k]];
      if Selected(last, title) {
        assert SelectedPositions(cs, title) == idx0 + [|cs| - 1];
        assert Filtered(cs, title) == f0 + [last];
      } else {
        assert SelectedPositions(cs, title) == idx0;
        assert Filtered(cs, title) == f0;
      }
    }
  }

  /** A position of `cs` is among the selected positions exactly when its
      comment is selected. */
  lemma {:induction false} SelectedPositionsComplete(cs: seq<IssueComment>, title: string)
    ensures forall j :: 0 <= j < |cs| ==> (Selected(cs[j], title) <==> j in SelectedPositions(cs, title))
    ensures forall j :: j in SelectedPositions(cs, title) ==> 0 <= j < |cs|
  {
    if |cs| > 0 {
      var init, last := cs[..|cs| - 1], cs[|cs| - 1];
      SelectedPositionsComplete(init, title);
      var idx0 := SelectedPositions(init, title);
      assert forall j :: 0 <= j < |init| ==> init[j] == cs[j];
      if Selected(last, title) {
        assert SelectedPositions(cs, title) == idx0 + [|cs| - 1];
      } else {
        assert SelectedPositions(cs, title) == idx0;
      }
    }
  }

  /** filterCommentsByTitle keeps exactly the comments whose body starts with
      `title` and contains `"<!-- Comment"`, in input order: the result is the
      input at the strictly increasing positions of the selected comments. */
  lemma FilteredIsOrderedSelection(cs: seq<IssueComment>, title: string)
    ensures var idx := SelectedPositions(cs, title);
      && |Filtered(cs, title)| == |idx|
      && (forall k :: 0 <= k < |idx| ==> idx[k] < |cs| && Filtered(cs, title)[k] == cs[idx[k]])
      && (forall k, l :: 0 <= k < l < |idx| ==> idx[k] < idx[l])
      && (forall j :: 0 <= j < |cs| ==> (Selected(cs[j], title) <==> j in idx))
  {
    SelectedPositionsIncrease(cs, title);
    SelectedPositionsIndex(cs, title);
    SelectedPositionsComplete(cs, title);
  }

  /** Comments that are all selected, appended to a list, are all selected
      after what was selected before. */
  lemma {:induction false} FilteredAppend(cs: seq<IssueComment>, more: seq<IssueComment>, title: string)
    requires forall c :: c in more ==> Selected(c, title)
    ensures Filtered(cs + more, title) == Filtered(cs, title) + more
  {
    if |more| == 0 {
      assert cs + more == cs;
    } else {
      var init, last := more[..|more| - 1], more[|more| - 1];
      assert Selected(last, title);
      var all := cs + more;
      assert all[..|all| - 1] == cs + init && all[|all| - 1] == last;
      FilteredAppend(cs, init, title);
      assert Filtered(all, title) == Filtered(cs, title) + init + [last];
      assert init + [last] == more;
    }
  }

  /** The filter only ever returns comments it was given. */
  lemma {:induction false} FilteredWithin(cs: seq<IssueComment>, title: string)
    ensures forall c :: c in Filtered(cs, title) ==> c in cs
  {
    if |cs| > 0 {
      FilteredWithin(cs[..|cs| - 1], title);
      assert forall c :: c in cs[..|cs| - 1] ==> c in cs;
    }
  }

  /** filterCommentsByTitle. */
  method FilterCommentsByTitle(comments: seq<IssueComment>, title: string) returns (filtered: seq<IssueComment>)
    ensures filtered == Filtered(comments, title)
  {
    filtered := [];
    for i := 0 to |comments|
      invariant filtered == Filtered(comments[..i], title)
    {
      assert comments[..i + 1][..i] == comments[..i];
      if HasPrefix(comments[i].body, title) && Contains(comments[i].body, IdentifierPrefix) {
        filtered := filtered + [comments[i]];
      }
    }
    assert comments[..|comments|] == comments;
  }

  // ---------------------------------------------------------------------
  // The retry discipline of listCommentsWithRetry, createCommentWithRetry
  // and minimizeCommentWithRetry.  `errs` is the script of one kind of call
  // and `pos` the number of such calls made so far.

  function Pow2(i: nat): (r: nat)
    ensures r >= 1
  {
    if i == 0 then 1 else 2 * Pow2(i - 1)
  }

  /** What a retry loop leaves behind: the trace, the number of calls of its
      kind made by then, and what it returns. */
  datatype Attempted = Attempted(trace: seq<Event>, count: nat, err: Option<Error>)

  /** A retry loop from attempt `j` (0-based) on, with `trace` recorded so
      far: a successful call ends it with `nil`; a failed one is followed by
      a sleep of 2^j seconds and, unless it was the last of `MaxRetries`
      attempts, by the next attempt; after the last the loop returns that
      call's error wrapped with `context`. */
  function Retry(errs: seq<Option<Error>>, pos: nat, j: nat, call: Event, context: string,
                 trace: seq<Event>): (r: Attempted)
    requires j < MaxRetries
    ensures pos < r.count <= pos + MaxRetries - j
    decreases MaxRetries - j
  {
    if ErrAt(errs, pos).None? then Attempted(trace + [call], pos + 1, None)
    else if j + 1 == MaxRetries then
      Attempted(trace + [call, Slept(Pow2(j))], pos + 1, Some(Wrapped(context, ErrAt(errs, pos).value)))
    else Retry(errs, pos + 1, j + 1, call, context, trace + [call, Slept(Pow2(j))])
  }

  /** `n` failed attempts of `call`, each followed by its back-off of
      1, 2, 4, ... seconds. */
  function FailedAttempts(call: Event, n: nat): seq<Event> {
    if n == 0 then [] else FailedAttempts(call, n - 1) + [call, Slept(Pow2(n - 1))]
  }

  /** A call that keeps failing is attempted exactly three times, sleeping 1,
      2 and 4 seconds after the attempts, and the loop's error wraps the
      third call's error. */
  lemma RetryAlwaysFailing(errs: seq<Option<Error>>, pos: nat, call: Event, context: string, trace: seq<Event>)
    requires ErrAt(errs, pos).Some? && ErrAt(errs, pos + 1).Some? && ErrAt(errs, pos + 2).Some?
    ensures Retry(errs, pos, 0, call, context, trace) ==
      Attempted(trace + [call, Slept(1), call, Slept(2), call, Slept(4)], pos + 3,
                Some(Wrapped(context, ErrAt(errs, pos + 2).value)))
  {
    assert Pow2(1) == 2 && Pow2(2) == 4;
    assert trace + [call, Slept(1)] + [call, Slept(2)] + [call, Slept(4)]
        == trace + [call, Slept(1), call, Slept(2), call, Slept(4)];
  }

  /** The answer to the `m`-th call of a kind counted from position `pos`. */
  function AnswerAt(errs: seq<Option<Error>>, pos: nat, m: nat): Option<Error> {
    ErrAt(errs, pos + m)
  }

  /** A loop at attempt `j` whose attempts up to `k` fail and whose `k`-th
      (0-based) succeeds returns `nil` after `k - j + 1` more calls, having
      slept after each failure. */
  lemma {:induction false} RetryFirstSuccess(errs: seq<Option<Error>>, pos: nat, j: nat, k: nat, call: Event,
                                             context: string, trace: seq<Event>)
    requires j <= k < MaxRetries
    requires forall m: nat :: m < k - j ==> AnswerAt(errs, pos, m).Some?
    requires AnswerAt(errs, pos, k - j).None?
    ensures Retry(errs, pos, j, call, context, trace + FailedAttempts(call, j)) ==
      Attempted(trace + FailedAttempts(call, k) + [call], pos + (k - j) + 1, None)
    decreases k - j
  {
    if j < k {
      assert AnswerAt(errs, pos, 0).Some?;
      assert trace + FailedAttempts(call, j) + [call, Slept(Pow2(j))] == trace + FailedAttempts(call, j + 1);
      var next := pos + 1;
      forall m: nat | m < k - (j + 1) ensures AnswerAt(errs, next, m).Some? {
        assert AnswerAt(errs, next, m) == AnswerAt(errs, pos, m + 1);
      }
      assert AnswerAt(errs, next, k - (j + 1)) == AnswerAt(errs, pos, k - j);
      RetryFirstSuccess(errs, next, j + 1, k, call, context, trace);
    }
  }

  /** A retry loop keeps what was recorded before it and then records only
      its own call and sleeps. */
  lemma {:induction false} RetryRecords(errs: seq<Option<Error>>, pos: nat, j: nat, call: Event,
                                        context: string, trace: seq<Event>)
    requires j < MaxRetries
    ensures var r := Retry(errs, pos, j, call, context, trace);
      && |trace| < |r.trace| && r.trace[..|trace|] == trace
      && forall k :: |trace| <= k < |r.trace| ==> r.trace[k] == call || r.trace[k].Slept?
    decreases MaxRetries - j
  {
    if ErrAt(errs, pos).Some? && j + 1 < MaxRetries {
      var t := trace + [call, Slept(Pow2(j))];
      RetryRecords(errs, pos + 1, j + 1, call, context, t);
      var r := Retry(errs, pos + 1, j + 1, call, context, t);
      assert r.trace[..|trace|] == t[..|trace|];
      forall k | |trace| <= k < |r.trace| ensures r.trace[k] == call || r.trace[k].Slept? {
        if k < |t| {
          assert r.trace[k] == t[k];
        }
      }
    }
  }

  const ListContext: string := "error listing comments after " + NatToString(MaxRetries) + " retries"
  const CreateContext: string := "error creating comment after " + NatToString(MaxRetries) + " retries"
  const MinimizeContext: string := "error minimizing comment after " + NatToString(MaxRetries) + " retries"

  /** listCommentsWithRetry: the comments from the first successful listing,
      or, after three failed listings, the last error wrapped. */
  method ListCommentsWithRetry(remote: Remote) returns (res: Result<seq<IssueComment>>)
    requires remote.Valid()
    modifies remote
    ensures remote.Valid()
    ensures var out := Retry(remote.listReplies, old(remote.listCount), 0, ListRequested, ListContext, old(remote.trace));
      && remote.trace == out.trace
      && remote.listCount == out.count
      && res == if out.err.None? then Success(FirstPage(old(remote.comments))) else Failure(out.err.value)
    ensures remote.comments == old(remote.comments) && remote.minimized == old(remote.minimized)
    ensures remote.createCount == old(remote.createCount)
    ensures remote.minimizeCount == old(remote.minimizeCount)
  {
    ghost var out := Retry(remote.listReplies, remote.listCount, 0, ListRequested, ListContext, remote.trace);
    var err: Option<Error> := None;
    var i := 0;
    while i < MaxRetries
      invariant 0 <= i <= MaxRetries
      invariant i < MaxRetries ==>
        Retry(remote.listReplies, remote.listCount, i, ListRequested, ListContext, remote.trace) == out
      invariant i == MaxRetries ==>
        err.Some? && out == Attempted(remote.trace, remote.listCount, Some(Wrapped(ListContext, err.value)))
      invariant remote.Valid()
      invariant remote.comments == old(remote.comments) && remote.minimized == old(remote.minimized)
      invariant remote.createCount == old(remote.createCount)
      invariant remote.minimizeCount == old(remote.minimizeCount)
    {
      ghost var trace := remote.trace;
      var comments;
      comments, err := remote.ListComments();
      if err.None? {
        return Success(comments);
      }
      remote.Sleep(Pow2(i));
      assert remote.trace == trace + [ListRequested, Slept(Pow2(i))];
      i := i + 1;
    }
    return Failure(Wrapped(ListContext, err.value));
  }

  /** createCommentWithRetry: `nil` after the first successful creation,
      otherwise the last error wrapped; the platform gains the comment only
      on success. */
  method CreateCommentWithRetry(remote: Remote, body: string) returns (err: Option<Error>)
    requires remote.Valid()
    modifies remote
    ensures remote.Valid()
    ensures var out := Retry(remote.createReplies, old(remote.createCount), 0, CreateRequested(body),
                             CreateContext, old(remote.trace));
      && remote.trace == out.trace
      && remote.createCount == out.count
      && err == out.err
    ensures err.None? ==> remote.comments == old(remote.comments) + [IssueComment(|old(remote.comments)|, body)]
    ensures err.Some? ==> remote.comments == old(remote.comments)
    ensures remote.minimized == old(remote.minimized)
    ensures remote.listCount == old(remote.listCount)
    ensures remote.minimizeCount == old(remote.minimizeCount)
  {
    ghost var out := Retry(remote.createReplies, remote.createCount, 0, CreateRequested(body), CreateContext, remote.trace);
    err := None;
    var i := 0;
    while i < MaxRetries
      invariant 0 <= i <= MaxRetries
      invariant i < MaxRetries ==>
        Retry(remote.createReplies, remote.createCount, i, CreateRequested(body), CreateContext, remote.trace) == out
      invariant i == MaxRetries ==>
        err.Some? && out == Attempted(remote.trace, remote.createCount, Some(Wrapped(CreateContext, err.value)))
      invariant remote.Valid()
      invariant remote.comments == old(remote.comments) && remote.minimized == old(remote.minimized)
      invariant remote.listCount == old(remote.listCount)
      invariant remote.minimizeCount == old(remote.minimizeCount)
    {
      ghost var trace := remote.trace;
      err := remote.CreateComment(body);
      if err.None? {
        return None;
      }
      remote.Sleep(Pow2(i));
      assert remote.trace == trace + [CreateRequested(body), Slept(Pow2(i))];
      i := i + 1;
    }
    return Some(Wrapped(CreateContext, err.value));
  }

  /** The success test of minimizeComment: the mutation must go through and
      its response must say the comment is minimized; otherwise the comment
      stays visible and an error is returned. */
  function MinimizeVerdict(reply: GraphQLReply): (err: Option<Error>)
    ensures err.None? <==> reply.Response? && reply.isMinimized
    ensures reply.RunFailed? ==> err == Some(reply.err)
    ensures reply.Response? && !reply.isMinimized ==>
      err == Some(Message("failed to minimize comment: " + reply.minimizedReason))
  {
    match reply
    case RunFailed(e) => Some(e)
    case Response(isMinimized, reason) =>
      if isMinimized then None else Some(Message("failed to minimize comment: " + reason))
  }

  /** The errors a script of GraphQL answers amounts to. */
  function Verdicts(replies: seq<GraphQLReply>): (errs: seq<Option<Error>>)
    ensures forall i: nat :: ErrAt(errs, i) == MinimizeVerdict(ReplyAt(replies, i))
  {
    seq(|replies|, i requires 0 <= i < |replies| => MinimizeVerdict(replies[i]))
  }

  /** minimizeComment: one `minimizeComment` mutation and its success test. */
  method MinimizeComment(remote: Remote, id: NodeId) returns (err: Option<Error>)
    requires remote.Valid() && id < |remote.comments|
    modifies remote
    ensures remote.Valid()
    ensures err == ErrAt(Verdicts(remote.minimizeReplies), old(remote.minimizeCount))
    ensures err.None? ==> remote.minimized == old(remote.minimized) + {id}
    ensures err.Some? ==> remote.minimized == old(remote.minimized)
    ensures remote.minimizeCount == old(remote.minimizeCount) + 1
    ensures remote.trace == old(remote.trace) + [MinimizeRequested(id)]
    ensures remote.comments == old(remote.comments)
    ensures remote.listCount == old(remote.listCount)
    ensures remote.createCount == old(remote.createCount)
  {
    var reply := remote.RunMinimize(id);
    err := MinimizeVerdict(reply);
  }

  /** minimizeCommentWithRetry. */
  method MinimizeCommentWithRetry(remote: Remote, id: NodeId) returns (err: Option<Error>)
    requires remote.Valid() && id < |remote.comments|
    modifies remote
    ensures remote.Valid()
    ensures var out := Retry(Verdicts(remote.minimizeReplies), old(remote.minimizeCount), 0,
                             MinimizeRequested(id), MinimizeContext, old(remote.trace));
      && remote.trace == out.trace
      && remote.minimizeCount == out.count
      && err == out.err
    ensures err.None? ==> remote.minimized == old(remote.minimized) + {id}
    ensures err.Some? ==> remote.minimized == old(remote.minimized)
    ensures remote.comments == old(remote.comments)
    ensures remote.listCount == old(remote.listCount)
    ensures remote.createCount == old(remote.createCount)
  {
    ghost var errs := Verdicts(remote.minimizeReplies);
    ghost var out := Retry(errs, remote.minimizeCount, 0, MinimizeRequested(id), MinimizeContext, remote.trace);
    err := None;
    var i := 0;
    while i < MaxRetries
      invariant 0 <= i <= MaxRetries
      invariant i < MaxRetries ==>
        Retry(errs, remote.minimizeCount, i, MinimizeRequested(id), MinimizeContext, remote.trace) == out
      invariant i == MaxRetries ==>
        err.Some? && out == Attempted(remote.trace, remote.minimizeCount, Some(Wrapped(MinimizeContext, err.value)))
      invariant remote.Valid()
      invariant remote.minimized == old(remote.minimized)
      invariant remote.comments == old(remote.comments)
      invariant remote.listCount == old(remote.listCount)
      invariant remote.createCount == old(remote.createCount)
    {
      ghost var trace := remote.trace;
      err := MinimizeComment(remote, id);
      if err.None? {
        return None;
      }
      remote.Sleep(Pow2(i));
      assert remote.trace == trace + [MinimizeRequested(id), Slept(Pow2(i))];
      i := i + 1;
    }
    return Some(Wrapped(MinimizeContext, err.value));
  }

  // ---------------------------------------------------------------------
  // Loops over several items, each call retried, stopping at the first item
  // that still fails: minimizeComments and the creation loop of UpsertComment

  /** What such a loop leaves behind: its trace, the number of items that
      went through before it stopped, the error it stopped with (`None` when
      every item went through) and the number of calls of its kind made by
      the time it stopped. */
  datatype Sweep = Sweep(trace: seq<Event>, done: nat, err: Option<Error>, count: nat)

  /** Such a loop over `calls` (one request per item) from item `i` on. */
  function RunFrom(calls: seq<Event>, i: nat, errs: seq<Option<Error>>, pos: nat, context: string,
                   trace: seq<Event>): (r: Sweep)
    requires i <= |calls|
    ensures i <= r.done <= |calls|
    ensures r.err.None? <==> r.done == |calls|
    ensures pos <= r.count
    decreases |calls| - i
  {
    if i == |calls| then Sweep(trace, i, None, pos)
    else
      var o := Retry(errs, pos, 0, calls[i], context, trace);
      if o.err.Some? then Sweep(o.trace, i, o.err, o.count)
      else RunFrom(calls, i + 1, errs, o.count, context, o.trace)
  }

  /** The item at `i` goes through: the loop goes on with the next one. */
  lemma RunFromNext(calls: seq<Event>, i: nat, errs: seq<Option<Error>>, pos: nat, context: string,
                    trace: seq<Event>)
    requires i < |calls|
    requires Retry(errs, pos, 0, calls[i], context, trace).err.None?
    ensures var o := Retry(errs, pos, 0, calls[i], context, trace);
      RunFrom(calls, i, errs, pos, context, trace) == RunFrom(calls, i + 1, errs, o.count, context, o.trace)
  {
  }

  /** The item at `i` still fails after its retries: the loop stops there. */
  lemma RunFromStop(calls: seq<Event>, i: nat, errs: seq<Option<Error>>, pos: nat, context: string,
                    trace: seq<Event>)
    requires i < |calls|
    requires Retry(errs, pos, 0, calls[i], context, trace).err.Some?
    ensures var o := Retry(errs, pos, 0, calls[i], context, trace);
      RunFrom(calls, i, errs, pos, context, trace) == Sweep(o.trace, i, o.err, o.count)
  {
  }

  /** Such a loop keeps what was recorded before it, and then sends requests
      only for the items from `i` up to the one it stopped at (or the last):
      none for any item after the one that failed. */
  lemma {:induction false} RunFromRequests(calls: seq<Event>, i: nat, errs: seq<Option<Error>>, pos: nat,
                                           context: string, trace: seq<Event>)
    requires i <= |calls|
    ensures var r := RunFrom(calls, i, errs, pos, context, trace);
      && |trace| <= |r.trace| && r.trace[..|trace|] == trace
      && forall k :: |trace| <= k < |r.trace| && !r.trace[k].Slept? ==>
           exists m :: i <= m <= r.done && m < |calls| && r.trace[k] == calls[m]
    decreases |calls| - i
  {
    if i < |calls| {
      var o := Retry(errs, pos, 0, calls[i], context, trace);
      RetryRecords(errs, pos, 0, calls[i], context, trace);
      if o.err.None? {
        var r := RunFrom(calls, i + 1, errs, o.count, context, o.trace);
        RunFromRequests(calls, i + 1, errs, o.count, context, o.trace);
        assert r.trace[..|trace|] == o.trace[..|trace|];
        forall k | |trace| <= k < |r.trace| && !r.trace[k].Slept?
          ensures exists m :: i <= m <= r.done && m < |calls| && r.trace[k] == calls[m]
        {
          if k < |o.trace| {
            assert r.trace[k] == o.trace[k];
          }
        }
      }
    }
  }

  /** The requests of minimizeComments, one per matched comment. */
  function MinimizeCalls(cs: seq<IssueComment>): seq<Event> {
    seq(|cs|, j requires 0 <= j < |cs| => MinimizeRequested(cs[j].nodeId))
  }

  /** The node identifiers of `cs`. */
  function NodeIds(cs: seq<IssueComment>): (r: set<NodeId>)
    ensures forall c :: c in cs ==> c.nodeId in r
  {
    if |cs| == 0 then {} else NodeIds(cs[..|cs| - 1]) + {cs[|cs| - 1].nodeId}
  }

  lemma HiddenStep(base: set<NodeId>, cs: seq<IssueComment>, i: nat, before: set<NodeId>, after: set<NodeId>)
    requires i < |cs|
    requires before == base + NodeIds(cs[..i])
    requires after == before + {cs[i].nodeId}
    ensures after == base + NodeIds(cs[..i + 1])
  {
    assert cs[..i + 1][..i] == cs[..i];
  }

  /** minimizeComments: hides the comments in order, each with retries, and
      stops at the first that still fails; the error is only reported. */
  method MinimizeComments(remote: Remote, comments: seq<IssueComment>) returns (err: Option<Error>)
    requires remote.Valid()
    requires forall c :: c in comments ==> c in remote.comments
    modifies remote
    ensures remote.Valid()
    ensures var run := RunFrom(MinimizeCalls(comments), 0, Verdicts(remote.minimizeReplies),
                               old(remote.minimizeCount), MinimizeContext, old(remote.trace));
      && remote.trace == run.trace
      && remote.minimizeCount == run.count
      && remote.minimized == old(remote.minimized) + NodeIds(comments[..run.done])
      && err == run.err
    ensures remote.comments == old(remote.comments)
    ensures remote.listCount == old(remote.listCount)
    ensures remote.createCount == old(remote.createCount)
  {
    ghost var errs := Verdicts(remote.minimizeReplies);
    ghost var calls := MinimizeCalls(comments);
    ghost var run := RunFrom(calls, 0, errs, remote.minimizeCount, MinimizeContext, remote.trace);
    var i := 0;
    while i < |comments|
      invariant 0 <= i <= |comments|
      invariant remote.minimized == old(remote.minimized) + NodeIds(comments[..i])
      invariant RunFrom(calls, i, errs, remote.minimizeCount, MinimizeContext, remote.trace) == run
      invariant remote.comments == old(remote.comments)
      invariant remote.Valid()
      invariant remote.listCount == old(remote.listCount)
      invariant remote.createCount == old(remote.createCount)
    {
      assert calls[i] == MinimizeRequested(comments[i].nodeId);
      assert comments[i].nodeId < |remote.comments| by {
        assert comments[i] in remote.comments;
        var j :| 0 <= j < |remote.comments| && remote.comments[j] == comments[i];
      }
      ghost var pos, trace, before := remote.minimizeCount, remote.trace, remote.minimized;
      var e := MinimizeCommentWithRetry(remote, comments[i].nodeId);
      if e.Some? {
        RunFromStop(calls, i, errs, pos, MinimizeContext, trace);
        return e;
      }
      RunFromNext(calls, i, errs, pos, MinimizeContext, trace);
      HiddenStep(old(remote.minimized), comments, i, before, remote.minimized);
      i := i + 1;
    }
    assert comments[..i] == comments;
    return None;
  }

  // ---------------------------------------------------------------------
  // UpsertComment

  /** How UpsertComment ends (it returns nothing; this is what it prints):
      listing failed; or creating part `part` (0-based) failed; or all parts
      were created.  A minimize failure is reported but does not stop it. */
  datatype Upsert =
    | ListFailed(err: Error)
    | CreateFailed(minimizeErr: Option<Error>, part: nat, err: Error)
    | Upserted(minimizeErr: Option<Error>)

  /** The body created for part `i` (0-based): the part, then
      `"\n<!-- Unique ID: <i+1> <timestamp> -->"`. */
  function UniqueBody(part: string, i: nat, timestamp: string): string {
    part + Trailer(i, timestamp)
  }

  /** The trailer of part `i` (0-based): `"\n<!-- Unique ID: <i+1> <timestamp> -->"`. */
  function Trailer(i: nat, timestamp: string): string {
    "\n<!-- Unique ID: " + NatToString(i + 1) + " " + timestamp + " -->"
  }

  function UniqueBodies(parts: seq<string>, timestamp: string): seq<string> {
    seq(|parts|, i requires 0 <= i < |parts| => UniqueBody(parts[i], i, timestamp))
  }

  function CreateCalls(bodies: seq<string>): seq<Event> {
    seq(|bodies|, i requires 0 <= i < |bodies| => CreateRequested(bodies[i]))
  }

  /** The comments the platform holds once the first `n` of `bodies` were
      created on top of `base`: each new comment gets the next node
      identifier. */
  function Created(base: seq<IssueComment>, bodies: seq<string>, n: nat): (r: seq<IssueComment>)
    requires n <= |bodies|
    ensures |r| == |base| + n
  {
    if n == 0 then base else Created(base, bodies, n - 1) + [IssueComment(|base| + n - 1, bodies[n - 1])]
  }

  lemma CreatedStep(base: seq<IssueComment>, bodies: seq<string>, i: nat, before: seq<IssueComment>,
                    body: string, after: seq<IssueComment>)
    requires i < |bodies| && body == bodies[i]
    requires before == Created(base, bodies, i)
    requires after == before + [IssueComment(|before|, body)]
    ensures after == Created(base, bodies, i + 1)
  {
  }

  /** What the platform holds after creating: the earlier comments untouched,
      then one comment per created body, in order, with consecutive
      identifiers. */
  lemma {:induction false} CreatedKeepsBase(base: seq<IssueComment>, bodies: seq<string>, n: nat)
    requires n <= |bodies|
    ensures Created(base, bodies, n)[..|base|] == base
    ensures forall j :: 0 <= j < n ==> Created(base, bodies, n)[|base| + j] == IssueComment(|base| + j, bodies[j])
  {
    if n > 0 {
      CreatedKeepsBase(base, bodies, n - 1);
      var prev := Created(base, bodies, n - 1);
      assert Created(base, bodies, n) == prev + [IssueComment(|base| + n - 1, bodies[n - 1])];
      assert Created(base, bodies, n)[..|base|] == prev[..|base|];
    }
  }

  /** Every body created for a message starts with the identifier prefix
      (its part's header does), so the filter of a later run, which selects
      by that prefix, picks it up. */
  lemma CreatedBodySelected(message: string, timestamp: string, i: nat, id: NodeId)
    requires i < |Framed(message)|
    ensures HasPrefix(UniqueBodies(Framed(message), timestamp)[i], IdentifierPrefix)
    ensures Selected(IssueComment(id, UniqueBodies(Framed(message), timestamp)[i]), IdentifierPrefix)
  {
    FramedShape(message);
    var part := Framed(message)[i];
    var body := UniqueBodies(Framed(message), timestamp)[i];
    assert HasPrefix(part, Header(i + 1));
    assert Header(i + 1)[..|IdentifierPrefix|] == IdentifierPrefix;
    assert body[..|IdentifierPrefix|] == part[..|IdentifierPrefix|];
  }

  /** Filtering all the comments this run leaves finds the comments selected
      before, followed by every comment this run created, in the order they
      were created.  A later run filters only what it lists, the first page
      (`LaterRunFindsListed`). */
  lemma LaterRunSelects(base: seq<IssueComment>, message: string, timestamp: string, n: nat)
    requires n <= |Framed(message)|
    ensures Filtered(Created(base, UniqueBodies(Framed(message), timestamp), n), IdentifierPrefix)
         == Filtered(base, IdentifierPrefix) + Created(base, UniqueBodies(Framed(message), timestamp), n)[|base|..]
  {
    var bodies := UniqueBodies(Framed(message), timestamp);
    var all := Created(base, bodies, n);
    CreatedKeepsBase(base, bodies, n);
    var more := all[|base|..];
    assert all == base + more;
    forall c | c in more
      ensures Selected(c, IdentifierPrefix)
    {
      var j :| 0 <= j < |more| && more[j] == c;
      assert c == IssueComment(|base| + j, bodies[j]);
      CreatedBodySelected(message, timestamp, j, |base| + j);
    }
    FilteredAppend(base, more, IdentifierPrefix);
  }

  /** What a later run's listing sees of the comments this one leaves: all
      of them while they fit on the first page, and none of the new ones
      once the earlier comments alone fill it. */
  lemma LaterRunListing(base: seq<IssueComment>, bodies: seq<string>, n: nat)
    requires n <= |bodies|
    ensures |base| + n <= PageSize ==> FirstPage(Created(base, bodies, n)) == Created(base, bodies, n)
    ensures |base| >= PageSize ==> FirstPage(Created(base, bodies, n)) == FirstPage(base)
  {
    if |base| >= PageSize {
      CreatedKeepsBase(base, bodies, n);
      var all := Created(base, bodies, n);
      assert all[..PageSize] == all[..|base|][..PageSize];
    }
  }

  /** What a later run's filter finds when every comment fits on the first
      page: the comments selected before, then every comment this run
      created, in creation order. */
  lemma LaterRunFindsListed(base: seq<IssueComment>, message: string, timestamp: string, n: nat)
    requires n <= |Framed(message)| && |base| + n <= PageSize
    ensures var all := Created(base, UniqueBodies(Framed(message), timestamp), n);
      Filtered(FirstPage(all), IdentifierPrefix) == Filtered(base, IdentifierPrefix) + all[|base|..]
  {
    LaterRunListing(base, UniqueBodies(Framed(message), timestamp), n);
    LaterRunSelects(base, message, timestamp, n);
  }

  /** Two digit strings followed by a space differ when the digit strings
      do: at a digit they disagree on, or where the shorter one is followed
      by its space. */
  lemma DigitsThenSpace(d1: string, d2: string, r1: string, r2: string)
    requires forall i :: 0 <= i < |d1| ==> '0' <= d1[i] <= '9'
    requires forall i :: 0 <= i < |d2| ==> '0' <= d2[i] <= '9'
    requires d1 != d2 && |r1| > 0 && |r2| > 0 && r1[0] == ' ' && r2[0] == ' '
    ensures d1 + r1 != d2 + r2
  {
    var s1, s2 := d1 + r1, d2 + r2;
    if |d1| == |d2| {
      assert s1[..|d1|] == d1 && s2[..|d2|] == d2;
    } else if |d1| < |d2| {
      assert s1[|d1|] == ' ' && s2[|d1|] == d2[|d1|];
    } else {
      assert s2[|d2|] == ' ' && s1[|d2|] == d1[|d2|];
    }
  }

  /** Parts with different numbers differ, whatever follows their headers. */
  lemma HeadersDistinct(a: nat, b: nat, x: string, y: string)
    requires a != b
    ensures Header(a) + x != Header(b) + y
  {
    var q := IdentifierPrefix + " <!-- " + IdentifierPrefix + " #";
    var da, db := NatToString(a), NatToString(b);
    var ra, rb := " -->\n" + x, " -->\n" + y;
    assert Header(a) + x == q + (da + ra);
    assert Header(b) + y == q + (db + rb);
    if da == db {
      NatToStringInjective(a, b);
    }
    DigitsThenSpace(da, db, ra, rb);
    assert (q + (da + ra))[|q|..] == da + ra;
    assert (q + (db + rb))[|q|..] == db + rb;
  }

  /** The body created for part `i` of a message: the part's header, then
      its chunk and its trailer. */
  lemma BodyAt(message: string, timestamp: string, i: nat)
    requires i < |Framed(message)|
    ensures UniqueBodies(Framed(message), timestamp)[i]
         == Header(i + 1) + (Chunk(message, i) + Trailer(i, timestamp))
  {
    var f := Framed(message);
    assert f[i] == Header(i + 1) + Chunk(message, i);
    assert UniqueBodies(f, timestamp)[i] == UniqueBody(f[i], i, timestamp);
  }

  /** The bodies one run creates are pairwise different: each begins with
      the header carrying its own part number. */
  lemma UniqueBodiesDistinct(message: string, timestamp: string, i: nat, j: nat)
    requires i < |Framed(message)| && j < |Framed(message)| && i != j
    ensures UniqueBodies(Framed(message), timestamp)[i] != UniqueBodies(Framed(message), timestamp)[j]
  {
    BodyAt(message, timestamp, i);
    BodyAt(message, timestamp, j);
    HeadersDistinct(i + 1, j + 1, Chunk(message, i) + Trailer(i, timestamp), Chunk(message, j) + Trailer(j, timestamp));
  }

  /** The same part posted by runs with different timestamps gets different
      bodies, so the platform does not collapse a repeated post. */
  lemma TimestampsDistinguish(part: string, i: nat, t1: string, t2: string)
    requires t1 != t2
    ensures UniqueBody(part, i, t1) != UniqueBody(part, i, t2)
  {
    var p := part + "\n<!-- Unique ID: " + NatToString(i + 1) + " ";
    var b1, b2 := UniqueBody(part, i, t1), UniqueBody(part, i, t2);
    assert b1 == part + Trailer(i, t1) && b2 == part + Trailer(i, t2);
    assert b1 == p + t1 + " -->" && b2 == p + t2 + " -->";
    assert b1[|p|..|b1| - 4] == t1;
    assert b2[|p|..|b2| - 4] == t2;
  }

  /** The creation loop of UpsertComment: one comment per part, each with
      retries and a unique trailer, stopping at the first part that still
      fails; `done` parts were created before it stopped. */
  method CreateParts(remote: Remote, parts: seq<string>, timestamp: string)
    returns (done: nat, err: Option<Error>)
    requires remote.Valid()
    modifies remote
    ensures remote.Valid()
    ensures var bodies := UniqueBodies(parts, timestamp);
      var post := RunFrom(CreateCalls(bodies), 0, remote.createReplies, old(remote.createCount),
                          CreateContext, old(remote.trace));
      && remote.trace == post.trace
      && remote.createCount == post.count
      && remote.comments == Created(old(remote.comments), bodies, post.done)
      && done == post.done && err == post.err
    ensures remote.minimized == old(remote.minimized)
    ensures remote.listCount == old(remote.listCount)
    ensures remote.minimizeCount == old(remote.minimizeCount)
  {
    ghost var bodies := UniqueBodies(parts, timestamp);
    ghost var calls := CreateCalls(bodies);
    ghost var post := RunFrom(calls, 0, remote.createReplies, remote.createCount, CreateContext, remote.trace);
    ghost var comments0 := remote.comments;
    var i := 0;
    while i < |parts|
      invariant 0 <= i <= |parts|
      invariant remote.comments == Created(comments0, bodies, i)
      invariant RunFrom(calls, i, remote.createReplies, remote.createCount, CreateContext, remote.trace) == post
      invariant remote.Valid()
      invariant remote.minimized == old(remote.minimized)
      invariant remote.listCount == old(remote.listCount)
      invariant remote.minimizeCount == old(remote.minimizeCount)
    {
      var uniquePart := UniqueBody(parts[i], i, timestamp);
      assert uniquePart == bodies[i];
      assert calls[i] == CreateRequested(uniquePart);
      ghost var pos, trace, before := remote.createCount, remote.trace, remote.comments;
      var e := CreateCommentWithRetry(remote, uniquePart);
      if e.Some? {
        RunFromStop(calls, i, remote.createReplies, pos, CreateContext, trace);
        return i, e;
      }
      RunFromNext(calls, i, remote.createReplies, pos, CreateContext, trace);
      CreatedStep(comments0, bodies, i, before, uniquePart, remote.comments);
      i := i + 1;
    }
    return i, None;
  }

  /** UpsertComment: list (with retries), give the message a title, split
      it, select the comments of earlier runs, hide them, then create one
      comment per part, all with one timestamp.  A listing failure ends it
      before anything is hidden or created; a part that cannot be created
      ends it before any later part. */
  method UpsertComment(remote: Remote, prNumber: int, message: string, timestamp: string)
    returns (report: Upsert)
    requires remote.Valid()
    modifies remote
    ensures remote.Valid()
    ensures forall j :: |old(remote.comments)| <= j < |remote.comments| ==> remote.comments[j].nodeId !in remote.minimized
    ensures var list := Retry(remote.listReplies, old(remote.listCount), 0, ListRequested, ListContext, old(remote.trace));
      remote.listCount == list.count
    ensures var list := Retry(remote.listReplies, old(remote.listCount), 0, ListRequested, ListContext, old(remote.trace));
      list.err.Some? ==>
        && report == ListFailed(list.err.value)
        && remote.trace == list.trace
        && remote.comments == old(remote.comments) && remote.minimized == old(remote.minimized)
        && remote.createCount == old(remote.createCount)
        && remote.minimizeCount == old(remote.minimizeCount)
    ensures var list := Retry(remote.listReplies, old(remote.listCount), 0, ListRequested, ListContext, old(remote.trace));
      list.err.None? ==>
        var stale := Filtered(FirstPage(old(remote.comments)), IdentifierPrefix);
        var hiding := RunFrom(MinimizeCalls(stale), 0, Verdicts(remote.minimizeReplies),
                              old(remote.minimizeCount), MinimizeContext, list.trace);
        var bodies := UniqueBodies(Framed(NormalizeMessage(message, prNumber)), timestamp);
        var post := RunFrom(CreateCalls(bodies), 0, remote.createReplies, old(remote.createCount),
                            CreateContext, hiding.trace);
        && remote.trace == post.trace
        && remote.minimizeCount == hiding.count
        && remote.createCount == post.count
        && remote.minimized == old(remote.minimized) + NodeIds(stale[..hiding.done])
        && remote.comments == Created(old(remote.comments), bodies, post.done)
        && report == if post.err.None? then Upserted(hiding.err)
                     else CreateFailed(hiding.err, post.done, post.err.value)
  {
    var listed := ListCommentsWithRetry(remote);
    if listed.Failure? {
      return ListFailed(listed.error);
    }
    var msg := NormalizeMessage(message, prNumber);
    var parts := SplitMessage(msg);
    var existing := FilterCommentsByTitle(listed.value, IdentifierPrefix);
    FilteredWithin(listed.value, IdentifierPrefix);
    assert forall c :: c in listed.value ==> c in remote.comments by {
      assert listed.value == remote.comments[..|listed.value|];
    }
    var minimizeErr := MinimizeComments(remote, existing);
    ghost var hidden := remote.minimized;
    assert forall id :: id in hidden ==> id < |old(remote.comments)|;
    var done, err := CreateParts(remote, parts, timestamp);
    if err.Some? {
      return CreateFailed(minimizeErr, done, err.value);
    }
    return Upserted(minimizeErr);
  }
}
