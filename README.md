# gh-pr-commenter, modelled in Dafny

gh-pr-commenter posts the output of a CI command (a linter, a scanner, a
Terraform plan) as comments on a pull request and reports the run as a
commit status. This project models the logic behind that, and proves
properties of the model.

Module by module:

- **`InternalComment`** (`internal_comment.dfy`, internal/comment.go) models the comment upsert protocol.
  - It lists the pull request's comments, trying up to three times with back-off sleeps of 1, 2 and 4 seconds.
  - It gives the message a `## …` title when it has none.
  - It cuts the message into 62000-byte chunks, each with a numbered `<!-- Comment … #k -->` header.
  - It selects the comments of earlier runs and hides (minimizes) them one by one, stopping at the first that still fails.
  - It creates one comment per chunk with a unique trailer, stopping at the first chunk that cannot be created.
- **`Platform`** (`platform.dfy`) is the hosting platform as that protocol sees it.
  - A `Remote` object holds the comments and the set of hidden comments.
  - It holds a fixed script of answers per kind of remote call.
  - It keeps one trace of every request and every back-off sleep.
  - Its invariant `Valid` gives every comment its own node identifier, and lets only existing comments be hidden.
- **`Comments`** (`comments.dfy`, pkg/comments/comments.go) models the command-output commenter.
  - Output is cut into parts of at most `L` bytes, preferring to cut just after a newline.
  - A default template is chosen by command.
  - Each part is rendered as `## <cmd> output\n<template with the part> <!-- Part #n -->`.
- **`Config`** (`config.dfy`, config/config.go) covers three things:
  - the settings read from the environment, with their defaults;
  - the derived project identifier and status context;
  - the ordered check of the five required settings.
- **`Status`** (`status.dfy`, pkg/status/status.go) and **`CommitStatus`** (`commit_status.dfy`, internal/commitStatus.go) are the two commit-status posters.
  - Each derives the status description from its state.
  - They differ in wording and in how they report errors.
- **`Text`** and **`Results`** hold what is shared.
  - `Text` models the parts of Go's `strings` and `fmt` that are used.
  - `Results` defines errors, `Option` and `Result`.

Go strings are byte sequences. Here each `char` stands for one byte. Case mapping is ASCII only. White space is only the six ASCII white-space bytes: `strings.Fields` also splits at multi-byte Unicode spaces such as U+00A0 and U+2003, but `Text.FirstField` does not.

How the remote side is modelled: the n-th call of one kind gets the n-th scripted answer. Once a script runs out, every further answer is a success. Clocks, sleeps and the timestamp become values:
- a sleep is an event in the trace;
- the RFC 3339 timestamp of a run is a parameter.

The retry loops and the two item-by-item loops (hiding comments, creating comments) are imperative methods over a `Remote`. Each is proved against a pure function of the script and the state before the call:
- `Retry` specifies the retry loops;
- `RunFrom` specifies the item-by-item loops.

The lemmas about those functions state what the protocol promises.

## Model

| member | source | states |
|---|---|---|
| InternalComment.StartIsProduct | internal/comment.go:31 | chunk k starts at byte k·62000 of the message |
| InternalComment.CeilingDivision | internal/comment.go:31 | the loop stops after exactly ceil(n/62000) chunks |
| InternalComment.UnframeFramedFrom | internal/comment.go:29-40 | stripping the headers from the chunks from k on gives back the message from chunk k's offset |
| InternalComment.UnframeFramed | internal/comment.go:29-40 | round trip: stripping the header `#1`, `#2`, … in order from each chunk and concatenating the rest gives back the message |
| InternalComment.FramedShape | internal/comment.go:15-40 | the number of chunks is ceil(len/62000), and an empty message gives none; every chunk carries the header with its own number and at most 62000 message bytes; all but the last carry exactly 62000 |
| InternalComment.Framed | internal/comment.go:29-40 | definition: chunk k is header `#k+1` followed by the message's k-th 62000-byte slice, for ceil(len/62000) chunks |
| InternalComment.SplitMessage | internal/comment.go:29-40 | the loop returns exactly the framed chunks, so the round trip and the bounds above hold for its result |
| InternalComment.NormalizeMessage | internal/comment.go:50-58 | the result always starts with `##`; a message whose first line starts with `##` is kept as it is; any other message gets `## Output of command for PR <n>` as a new first line |
| InternalComment.Filtered | internal/comment.go:111-119 | definition: the comments that pass the filter test, in input order |
| InternalComment.FilterCommentsByTitle | internal/comment.go:111-119 | the loop returns the selected comments in input order |
| InternalComment.FilteredIsOrderedSelection | internal/comment.go:111-119 | the filter's result is the input at strictly increasing positions; a comment is among them if and only if its body starts with the title and contains `<!-- Comment` |
| InternalComment.FilteredAppend | internal/comment.go:111-119 | appending comments that are all selected appends them, in order, to the filter's result |
| InternalComment.Retry | internal/comment.go:85-93 | a retry loop makes at least one call and at most three |
| InternalComment.RetryAlwaysFailing | internal/comment.go:85-93 | a call that keeps failing is attempted exactly three times with 1, 2 and 4 second sleeps, and the error wraps the third failure |
| InternalComment.RetryFirstSuccess | internal/comment.go:85-93 | the loop returns at the first successful attempt, with no error, having slept 2^j seconds after each failed attempt j |
| InternalComment.RetryRecords | internal/comment.go:85-93 | a retry loop keeps the earlier trace and then records only its own call and sleeps |
| InternalComment.ListCommentsWithRetry | internal/comment.go:82-94 | the trace, call count and result are those the retry discipline gives for the listing script; on success the result is the first page of the current comments |
| InternalComment.CreateCommentWithRetry | internal/comment.go:97-108 | the trace, call count and error are those of the retry discipline; the platform gains exactly one comment on success, none on failure |
| InternalComment.MinimizeVerdict | internal/comment.go:171-179 | a hide counts as done if and only if the mutation succeeds and reports `isMinimized`; otherwise the mutation's error, or `failed to minimize comment: <reason>` |
| InternalComment.Verdicts | internal/comment.go:171-179 | the error script of the hide requests is the verdict of each GraphQL answer |
| InternalComment.MinimizeComment | internal/comment.go:148-180 | one mutation; the comment is hidden exactly when the verdict is success |
| InternalComment.MinimizeCommentWithRetry | internal/comment.go:134-145 | the retry discipline over the hide verdicts; the comment is hidden on success, nothing is hidden on failure |
| InternalComment.RunFrom | internal/comment.go:122-131 | a loop over items either completes every item with no error or stops with an error at an item it could not complete |
| InternalComment.RunFromRequests | internal/comment.go:68-76 | after a failed item, no request is sent for any later item; the earlier trace is kept |
| InternalComment.NodeIds | internal/comment.go:124 | every listed comment's node identifier is among the identifiers hidden |
| InternalComment.MinimizeComments | internal/comment.go:122-131 | matched comments are hidden in order, each with retries; the loop stops at the first that still fails, and exactly the comments before it are hidden |
| InternalComment.Created | internal/comment.go:68-76 | creating n parts adds n comments |
| InternalComment.CreatedKeepsBase | internal/comment.go:68-76 | earlier comments stay untouched; the j-th new comment has the next node identifier and body j |
| InternalComment.CreatedBodySelected | internal/comment.go:67-69 | every created body starts with `<!-- Comment`, so the filter of a later run selects it when that run lists it |
| InternalComment.LaterRunSelects | internal/comment.go:60-69 | filtering all the comments this run leaves finds the earlier selected comments, followed by every comment this run created, in creation order |
| InternalComment.LaterRunFindsListed | internal/comment.go:60-86 | when all comments fit on the first page, a later run's filter of its listing finds the earlier selected comments, followed by every comment this run created, in creation order |
| InternalComment.CreateParts | internal/comment.go:67-76 | the bodies are the parts with `<!-- Unique ID: <i+1> <ts> -->` appended under one timestamp; the loop stops at the first part that still fails; exactly the parts before it are created |
| InternalComment.UpsertComment | internal/comment.go:43-79 | list, then hide, then create. A listing failure returns before any hide or create and changes nothing. Otherwise the comments on the first page that the identifier prefix selects are hidden. The normalised, framed parts are then created, even when hiding failed. No comment it creates is hidden. The report names what stopped the run |
| InternalComment.FilteredWithin | internal/comment.go:111-119 | the filter returns only comments it was given |
| InternalComment.LaterRunListing | internal/comment.go:86 | a later run lists every comment this one leaves while they all fit on the first page; once the earlier comments fill the page, it lists none of the new ones |
| InternalComment.Header | internal/comment.go:36 | definition: `<!-- Comment <!-- <!-- Comment #k -->` and a newline in front of chunk k |
| InternalComment.Trailer | internal/comment.go:69 | definition: `\n<!-- Unique ID: <i+1> <timestamp> -->` |
| InternalComment.UniqueBody | internal/comment.go:69 | definition: the part followed by its trailer |
| InternalComment.BodyAt | internal/comment.go:36-69 | the body created for part i is its header, its chunk and its trailer |
| InternalComment.DigitsThenSpace | internal/comment.go:36 | different part numbers followed by their ` -->` differ |
| InternalComment.HeadersDistinct | internal/comment.go:36 | parts with different numbers differ, whatever follows their headers |
| InternalComment.UniqueBodies | internal/comment.go:66-69 | definition: part i followed by its trailer, for every part |
| InternalComment.CreateCalls | internal/comment.go:68-76 | definition: the creation request of each item of the creation loop, one per body, in order |
| InternalComment.MinimizeCalls | internal/comment.go:122-131 | definition: the hide request of each item of the hiding loop, one per comment's node identifier, in order |
| InternalComment.UniqueBodiesDistinct | internal/comment.go:66-69 | the bodies one run creates are pairwise different |
| InternalComment.TimestampsDistinguish | internal/comment.go:66-69 | the same part posted by runs with different timestamps gets different bodies |
| InternalComment.Selected | internal/comment.go:114 | definition of the filter test: the body starts with the title and contains `<!-- Comment` |
| InternalComment.DefaultTitle | internal/comment.go:56 | definition: `Output of command for PR <n>` |
| Platform.Remote.constructor | internal/comment.go:43 | a pull request whose comments carry the given bodies oldest first, with distinct identifiers, nothing hidden, the given scripts and nothing recorded |
| Platform.Remote.ListComments | internal/comment.go:86 | one listing request without options: the scripted error, or the first page of comments |
| Platform.Remote.CreateComment | internal/comment.go:100 | one creation request: on success the comment is appended with a node identifier no earlier comment has and that is not hidden; on failure nothing is stored |
| Platform.Remote.RunMinimize | internal/comment.go:171 | one mutation request on an existing comment: the comment becomes hidden exactly when the answer says it is minimized |
| Platform.Remote.Sleep | internal/comment.go:91 | a back-off sleep, recorded in the trace and changing nothing else |
| Platform.FirstPage | internal/comment.go:86 | a listing without options returns a prefix of the comments: all of them when at most 30, otherwise exactly the oldest 30 |
| Text.FirstLine | internal/comment.go:51 | the first line is a prefix of the text with no newline, ending at the text's end or at a newline |
| Text.Index | internal/comment.go:51 | the offset of the first occurrence, or -1 when there is none |
| Text.ContainsIndex | internal/comment.go:114 | `strings.Contains` holds exactly when the needle occurs at some offset |
| Text.LastIndexByte | pkg/comments/comments.go:73 | the offset of the last occurrence of the byte, or -1 when there is none |
| Text.ReplaceFirst | pkg/comments/comments.go:53 | a text without the pattern is left unchanged |
| Text.ReplaceFirstOccurrence | pkg/comments/comments.go:53 | only the first occurrence is replaced; everything after it, later occurrences included, is kept |
| Text.FirstField | pkg/comments/comments.go:19-24 | no field exactly when the command is all white space; otherwise a non-empty run of non-space bytes preceded only by white space |
| Text.NatToString | internal/comment.go:36 | `%d` of a natural number is a non-empty string of decimal digits |
| Text.NatToStringInjective | internal/comment.go:36 | different numbers print as different decimal strings |
| Text.IntToString | internal/comment.go:56 | `%d` of an integer: it starts with `-` exactly when the integer is negative, and every other byte is a decimal digit |
| Text.IntToStringInjective | internal/comment.go:56 | different integers print differently, so different pull-request numbers give different default titles |
| Text.IsSpace | pkg/comments/comments.go:19 | definition: the six ASCII white-space bytes at which `strings.Fields` splits |
| Text.ToUpperByte | pkg/status/status.go:13 | definition: `strings.ToUpper` of one byte, moving `a`–`z` to `A`–`Z` and keeping every other byte |
| Text.HasPrefix | internal/comment.go:114 | definition of `strings.HasPrefix` |
| Text.Contains | internal/comment.go:114 | definition of `strings.Contains`, characterised by `ContainsIndex` |
| Text.UpperFirst | pkg/status/status.go:13 | same length; the first byte upper-cased and the rest unchanged |
| Comments.PartEnd | pkg/comments/comments.go:69-77 | a part ends strictly after its start, at most `L` bytes on, and at the end of the message once the window reaches it |
| Comments.SplitMessage | pkg/comments/comments.go:65-83 | the loop returns exactly the parts the cut rule gives, and ends because `start` strictly increases |
| Comments.StartOf | pkg/comments/comments.go:80 | each part starts where the one before it ended, within the message |
| Comments.PartAt | pkg/comments/comments.go:68-80 | part k is the message from its start to its cut; another part follows exactly when its window stops short of the end |
| Comments.PartsConcat | pkg/comments/comments.go:65-83 | the parts from any offset on, concatenated, are the message from that offset |
| Comments.SplitRoundTrip | pkg/comments/comments.go:65-83 | concatenating all parts gives back the message exactly |
| Comments.SplitBounds | pkg/comments/comments.go:68-80 | every part is non-empty and at most `L` bytes; only the empty message gives no parts |
| Comments.CutWithinWindow | pkg/comments/comments.go:72-77 | in a window short of the end, the cut falls just after the window's last newline; with no newline in the window, at the window's end |
| Comments.NewlinePreference | pkg/comments/comments.go:72-77 | a non-final part is a prefix of its full `L`-byte window. If the window holds a newline, the part ends with one and the rest of the window holds none; otherwise the part is the whole window |
| Comments.FinalPart | pkg/comments/comments.go:69-71 | the last part is the whole remaining suffix, and its window reaches the end |
| Comments.SplitWithoutNewlines | pkg/comments/comments.go:69-77 | 130000 bytes without a newline, with `L` = 55000, give parts of 55000, 55000 and 20000 bytes |
| Comments.DefaultTemplate | pkg/comments/comments.go:85-97 | definition: the bare placeholder for commands containing `trivy` or `tflint`; the collapsible diff frame around it otherwise |
| Comments.FrameDashFree | pkg/comments/comments.go:86-93 | the frame around the placeholder holds no `-` |
| Comments.OnlyOccurrence | pkg/comments/comments.go:86-93 | the placeholder occurs in a dash-free frame only at its own place |
| Comments.DefaultTemplatePlaceholderOnce | pkg/comments/comments.go:85-97 | either default template holds `---OUTPUT---` exactly once |
| Comments.RenderedBodyNamesPart | pkg/comments/comments.go:54-61 | the title `## <cmd> output` starts the rendered body, and the identifier `Part #<i+1>` occurs in it |
| Comments.RenderReplacesFirstOnly | pkg/comments/comments.go:53-54 | only the first placeholder is replaced by the part; later placeholders stay |
| Comments.RenderWithoutPlaceholder | pkg/comments/comments.go:53-54 | a template without the placeholder is posted unchanged, and the part is dropped |
| Comments.RenderDefault | pkg/comments/comments.go:41-54 | rendered into the default template, the part appears whole: bare for `trivy`/`tflint` commands, inside the frame otherwise |
| Comments.PostsNameTheirParts | pkg/comments/comments.go:54-61 | for every part, the title and the identifier passed on are both in that part's body |
| Comments.PostsForStep | pkg/comments/comments.go:52-62 | each iteration appends the post of the next part |
| Comments.Title | pkg/comments/comments.go:54 | definition: `## <cmd> output` |
| Comments.PartIdentifier | pkg/comments/comments.go:61 | definition: `Part #<i+1>` |
| Comments.RenderPart | pkg/comments/comments.go:53-54 | definition: the title line, the template with its first placeholder replaced by the part, then ` <!-- Part #n -->` |
| Comments.PartsFrom | pkg/comments/comments.go:65-83 | definition: the parts the cut rule gives from offset `start` to the end of the message |
| Comments.Parts | pkg/comments/comments.go:65-83 | definition: the parts of the whole message, from offset 0 |
| Comments.PostsFor | pkg/comments/comments.go:52-62 | definition: one post per part, in order, with the title, `Part #<i+1>` and the rendered body |
| Comments.Comment | pkg/comments/comments.go:18-63 | for an empty or all-space command, nothing at all; for a configuration that fails the check, the check's error; otherwise one post per part of the output, in order, in the template the command selects |
| Config.GetEnv | config/config.go:70-76 | definition: the value of a set variable, even an empty one; the default only when the variable is unset |
| Config.FromEnv | config/config.go:27-38 | definition: each setting read with its default, before anything is derived |
| Config.RunDetails | config/config.go:41 | definition: the `<h3>` line naming project and workspace |
| Config.Init | config/config.go:26-49 | every setting is its variable or its default. The project details and `name-workspace` identifier are set exactly when name and workspace are both non-empty. The status context is `<ctx>/<cmd>: <name>` when context and name are non-empty, and `ghpc/<cmd>` otherwise |
| Config.InitDefaults | config/config.go:27-48 | with nothing set: `atlantis`, `default`, `template.md`, `/tmp/ghpc`, identifier `atlantis-default`, context `ghpc/<cmd>` |
| Config.InitEmptyProject | config/config.go:29-48 | a project name set to the empty string stays empty, so nothing is derived and the context falls back |
| Config.InitQualifiedContext | config/config.go:40-45 | context `test-context` with project `test-project` gives `test-context/test-cmd: test-project` |
| Config.RequiredValues | config/config.go:52-66 | the five settings that must not be empty, in checking order |
| Config.MissingVariable | config/config.go:52-66 | definition: the error `required environment variable <NAME> not set` |
| Config.GetConfig | config/config.go:51-68 | success if and only if all five required settings are non-empty, returning the configuration unchanged; otherwise the error names the first empty one in the fixed order |
| Config.OptionalSettingsNotEnough | config/config.go:52-54 | with `HEAD_COMMIT` unset, validation fails on it whatever else is set |
| Status.Description | pkg/status/status.go:13-19 | `failure` gives `Failed` and `pending` gives `In Progress`; any other state is upper-cased at its first byte only |
| Status.PlatformStatesDistinct | pkg/status/status.go:13-19 | `error`, `failure`, `pending` and `success` give `Error`, `Failed`, `In Progress` and `Success` |
| Status.DescriptionCapitalised | pkg/status/status.go:13-19 | no description starts with a lower-case letter |
| Status.OverridesCollide | pkg/status/status.go:13-16 | the state `failed` is described like `failure` |
| Status.PostCommitStatus | pkg/status/status.go:20-30 | the status carries the state and the context unchanged; no error on success; on failure, the error wrapped as `error creating commit status` |
| CommitStatus.Description | internal/commitStatus.go:13 | same length as the state; the first byte upper-cased and the rest unchanged |
| CommitStatus.PostCommitStatus | internal/commitStatus.go:14-26 | the status carries the state and the context unchanged; the platform's error is returned exactly, unwrapped |
| CommitStatus.DescriptionsCompared | internal/commitStatus.go:13 | the two posters describe every state alike except `failure` (`Failure` against `Failed`) and `pending` (`Pending` against `In Progress`) |
| CommitStatus.PostersCompared | internal/commitStatus.go:14-26 | both posters send the same state and fail on the same calls; the newer one wraps the error the older one returns |

## Left out

- **Transport.** The REST and GraphQL transport and the OAuth client are reduced to scripted answers on `Platform.Remote`. This covers internal/client.go and the `Authorization` header built from `GITHUB_TOKEN` at internal/comment.go:160.
- **Listing options.** `Platform.FirstPage` has a fixed page size of 30 and returns the oldest comments first. These are the REST API's defaults when no options are passed, as at internal/comment.go:86. Other sort orders and page sizes are not modelled.
- **Node identifiers.** `Platform.Remote` numbers comments 0, 1, 2, … by position; GitHub's node identifiers are opaque strings. `Platform.Remote.RunMinimize` requires an existing comment, because the commenter only hides comments it listed. A mutation naming an unknown node is not modelled.
- Platform.Remote.CreateComment: a failed answer is modelled as having stored nothing. A request can fail after the server stored the comment, and a retry would then post a duplicate; that case is not modelled.
- Platform.Remote.RunMinimize: an answer that reports failure or carries errors is modelled as having hidden nothing. The server may apply the mutation while the client sees a failure, such as a time-out or a 5xx after the commit; that case is not modelled. `MinimizeCommentWithRetry`'s "nothing is hidden on failure" rests on this.
- **Clocks and sleeping.** `time.Now` and `time.Sleep` are not modelled. The timestamp is a parameter, and a sleep is a trace event carrying its length in seconds.
- **File and process I/O.** These are not modelled:
  - `ReadCommentFromFile` (internal/comment.go:20-26);
  - `os.ReadFile` and `os.WriteFile`;
  - the scratch-file names (`.output-<cmd>.md` and `.comment-<repo>-<pr>-<cmd>-part-<n>.md`);
  - the template file itself.
  - `Comments.Comment` takes the command's output as a parameter, and uses as template the content `createDefaultTemplate` writes.
  - A failure to read the template back (pkg/comments/comments.go:46-50) is therefore not modelled.
- **Logging and exits.** Log output and `log.Fatalf` exits are not kept. `Comments.Comment` ends with `ConfigFailed` where the source exits.
- **UpsertComment's arguments in Comments.Comment.** `Comments.Comment` records what it hands over for each part: the title, the identifier, and the rendered body that the part's file holds. The source passes `newFilename`, the path of that file; the model records the file's content instead. It does not call `InternalComment.UpsertComment`. The call at pkg/comments/comments.go:61 passes nine arguments, while internal/comment.go:43 takes seven.
- **The split limit.** `Comments` takes `L` as a parameter, because `maxCommentLength` is not defined in package `comments`.
  - The model requires `L > 0`, which makes the loop terminate.
  - In the Go loop (pkg/comments/comments.go:68-80), `L = 0` gives `end == start` on every turn, so empty parts are appended forever.
  - A negative `L` makes `message[start:end]` panic.
  - Neither case is modelled.
- **InternalComment.UpsertComment: the `title` variable.** The trimmed title computed at internal/comment.go:54 is never used, so the model leaves it out.
- **InternalComment.UpsertComment: printed errors.** The source prints its outcome and returns nothing. The model returns an `Upsert` report with the same information, including the hiding error that `minimizeComments` only prints.
- Status.Description and CommitStatus.Description: a first byte of 0x80 or more is not modelled as Go handles it. `string(state[0])` converts the byte to the rune with that code point. Go therefore writes the rune as two UTF-8 bytes (0xE9 becomes `É`, bytes C3 89), and the description is one byte longer than the state. The model treats every byte as one character and upper-cases only ASCII letters. So the same-length clause of both descriptions holds only for states whose first byte is ASCII.
- Status.Description and CommitStatus.Description require a non-empty state. Indexing `state[0]` of an empty state panics in Go (pkg/status/status.go:13, internal/commitStatus.go:13), and a panic is not modelled.
- **Concurrency.** Two runs touching the same pull request concurrently are not modelled.
- **cmd/comment.go, cmd/exec.go, cmd/handler.go and main.go.** These are command-line wrappers and are not part of this model. cmd/comment.go repeats the rendering of `Comments.Comment`.
- **InternalComment.NodeIds** also has a weaker contract. It states only that every comment's identifier is in the set. The exact set is its recursive definition.

## Behaviour worth noting

- **Pagination.** Listing reads only the first page, at most 30 comments, oldest first. Earlier comments beyond it are neither selected nor hidden. Once a pull request has 30 comments, a later run lists none of the comments this run creates (`InternalComment.LaterRunListing`).
- **Filter.** The filter keeps a comment when its body starts with the given title and contains `<!-- Comment`. `UpsertComment` passes `<!-- Comment` itself as the title.
- **Hiding.** No record of hidden comments is kept, so every selected comment is hidden again on every run, already hidden or not.
- **Hiding failure.** A comment that cannot be hidden does not abort the run: new parts are still created.
- **Error propagation.** `UpsertComment` has no result; it prints its errors.
- **Commit statuses.** Neither commit-status poster retries. internal/commitStatus.go words `failure` and `pending` like any other state.
- **Comment bodies.** The internal poster writes a `<!-- Comment <!-- <!-- Comment #k -->` header and a `<!-- Unique ID: <i+1> <ts> -->` trailer. The pkg poster writes `## <cmd> output`, then the template with the part, then ` <!-- Part #n -->`.
