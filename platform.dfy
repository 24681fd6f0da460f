/** The hosting platform as the commenter sees it through its REST and
    GraphQL clients, reduced to what the comment protocol depends on: the
    comments of one pull request, the set of comments hidden as outdated,
    and, for each kind of remote call, a fixed script of the answers the
    platform gives, the n-th call of that kind getting the n-th answer.
    Every call, and every back-off sleep between calls, is appended to one
    trace, so that the order of the protocol's steps can be stated. */
module Platform {

  import opened Results

  /** The opaque node identifier of a comment (`GetNodeID()`). */
  type NodeId = nat

  /** An issue comment on the pull request: its node identifier and body. */
  datatype IssueComment = IssueComment(nodeId: NodeId, body: string)

  /** What the GraphQL `minimizeComment` mutation answers: either the request
      itself fails (`graphqlClient.Run` returns an error), or the response
      reports `isMinimized` and `minimizedReason`. */
  datatype GraphQLReply = RunFailed(err: Error) | Response(isMinimized: bool, minimizedReason: string)

  /** One observable step: a remote request, or a back-off sleep of some
      whole number of seconds (`time.Sleep`). */
  datatype Event =
    | ListRequested
    | CreateRequested(body: string)
    | MinimizeRequested(nodeId: NodeId)
    | Slept(seconds: nat)

  /** What a REST call answers at its `i`-th position in a script: the error it
      returns, `None` for `nil`.  A script that has run out answers `nil`. */
  function ErrAt(script: seq<Option<Error>>, i: nat): Option<Error> {
    if i < |script| then script[i] else None
  }

  /** What the GraphQL call answers at position `i`; once the script has run
      out the comment is reported minimized. */
  function ReplyAt(script: seq<GraphQLReply>, i: nat): GraphQLReply {
    if i < |script| then script[i] else Response(true, "")
  }

  /** The number of comments one page holds when a listing passes no
      options: the REST API's default page size. */
  const PageSize: nat := 30

  /** The comments a listing without options returns: the first page, the
      oldest `PageSize` comments. */
  function FirstPage(cs: seq<IssueComment>): (page: seq<IssueComment>)
    ensures |page| <= PageSize && page <= cs
    ensures |cs| <= PageSize ==> page == cs
    ensures |cs| > PageSize ==> |page| == PageSize
  {
    if |cs| <= PageSize then cs else cs[..PageSize]
  }

  class Remote {
    /** The comments of the pull request, oldest first. */
    var comments: seq<IssueComment>
    /** Node identifiers of the comments hidden as outdated. */
    var minimized: set<NodeId>
    /** Scripted answers of `Issues.ListComments`, one per call. */
    const listReplies: seq<Option<Error>>
    /** Scripted answers of `Issues.CreateComment`, one per call. */
    const createReplies: seq<Option<Error>>
    /** Scripted answers of the `minimizeComment` mutation, one per call. */
    const minimizeReplies: seq<GraphQLReply>
    /** The number of calls of each kind made so far. */
    var listCount: nat
    var createCount: nat
    var minimizeCount: nat
    /** Every request and sleep so far, in order. */
    var trace: seq<Event>

    /** The comments hold node identifiers that are their positions, so that
        every comment has its own identifier and the next one created gets
        an unused one; only existing comments are hidden. */
    ghost predicate Valid()
      reads this
    {
      && (forall j :: 0 <= j < |comments| ==> comments[j].nodeId == j)
      && (forall id :: id in minimized ==> id < |comments|)
    }

    /** A pull request carrying comments with the given bodies, oldest
        first, none of them hidden, before any call. */
    constructor (bodies: seq<string>, listReplies: seq<Option<Error>>,
                 createReplies: seq<Option<Error>>, minimizeReplies: seq<GraphQLReply>)
      ensures Valid()
      ensures |comments| == |bodies| && forall j :: 0 <= j < |bodies| ==> comments[j].body == bodies[j]
      ensures minimized == {}
      ensures this.listReplies == listReplies && this.createReplies == createReplies
      ensures this.minimizeReplies == minimizeReplies
      ensures listCount == 0 && createCount == 0 && minimizeCount == 0 && trace == []
    {
      this.comments := seq(|bodies|, j requires 0 <= j < |bodies| => IssueComment(j, bodies[j]));
      this.minimized := {};
      this.listReplies := listReplies;
      this.createReplies := createReplies;
      this.minimizeReplies := minimizeReplies;
      listCount, createCount, minimizeCount := 0, 0, 0;
      trace := [];
    }

    /** `client.Issues.ListComments(ctx, owner, repo, prNumber, nil)`: with
        no list options only the first page of comments, or the scripted
        error (and no comments). */
    method ListComments() returns (cs: seq<IssueComment>, err: Option<Error>)
      requires Valid()
      modifies this
      ensures Valid()
      ensures err == ErrAt(listReplies, old(listCount))
      ensures cs == if err.None? then FirstPage(comments) else []
      ensures listCount == old(listCount) + 1
      ensures trace == old(trace) + [ListRequested]
      ensures comments == old(comments) && minimized == old(minimized)
      ensures createCount == old(createCount) && minimizeCount == old(minimizeCount)
    {
      err := ErrAt(listReplies, listCount);
      cs := if err.None? then FirstPage(comments) else [];
      listCount := listCount + 1;
      trace := trace + [ListRequested];
    }

    /** `client.Issues.CreateComment(ctx, owner, repo, prNumber, comment)`: on
        success the platform appends a comment whose node identifier no
        earlier comment has and which is not hidden.  A failed answer stores
        nothing. */
    method CreateComment(body: string) returns (err: Option<Error>)
      requires Valid()
      modifies this
      ensures Valid()
      ensures |old(comments)| !in minimized
      ensures err == ErrAt(createReplies, old(createCount))
      ensures comments == old(comments) + if err.None? then [IssueComment(|old(comments)|, body)] else []
      ensures createCount == old(createCount) + 1
      ensures trace == old(trace) + [CreateRequested(body)]
      ensures minimized == old(minimized)
      ensures listCount == old(listCount) && minimizeCount == old(minimizeCount)
    {
      err := ErrAt(createReplies, createCount);
      if err.None? {
        comments := comments + [IssueComment(|comments|, body)];
      }
      createCount := createCount + 1;
      trace := trace + [CreateRequested(body)];
    }

    /** `graphqlClient.Run` of the `minimizeComment` mutation (classifier
        OUTDATED) for one node: the comment is hidden exactly when the
        response says it is minimized.  The node is one of the comments the
        platform holds: the commenter only hides comments it listed. */
    method RunMinimize(id: NodeId) returns (reply: GraphQLReply)
      requires Valid() && id < |comments|
      modifies this
      ensures Valid()
      ensures reply == ReplyAt(minimizeReplies, old(minimizeCount))
      ensures minimized == old(minimized) + if reply.Response? && reply.isMinimized then {id} else {}
      ensures minimizeCount == old(minimizeCount) + 1
      ensures trace == old(trace) + [MinimizeRequested(id)]
      ensures comments == old(comments)
      ensures listCount == old(listCount) && createCount == old(createCount)
    {
      reply := ReplyAt(minimizeReplies, minimizeCount);
      if reply.Response? && reply.isMinimized {
        minimized := minimized + {id};
      }
      minimizeCount := minimizeCount + 1;
      trace := trace + [MinimizeRequested(id)];
    }

    /** `time.Sleep(time.Second * seconds)`, recorded in the trace. */
    method Sleep(seconds: nat)
      requires Valid()
      modifies this
      ensures Valid()
      ensures trace == old(trace) + [Slept(seconds)]
      ensures comments == old(comments) && minimized == old(minimized)
      ensures listCount == old(listCount) && createCount == old(createCount)
      ensures minimizeCount == old(minimizeCount)
    {
      trace := trace + [Slept(seconds)];
    }
  }
}
