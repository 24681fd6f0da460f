/** The command-output commenter (pkg/comments/comments.go): the output of a
    command is cut into parts of at most `L` bytes, preferring to cut just
    after a newline, and each part is rendered into the comment template
    with a title line and a part identifier.  The split limit `L` is a
    parameter, since the package does not define one. */
module Comments {

  import opened Results
  import opened Text
  import Config

  // ---------------------------------------------------------------------
  // splitMessage

  /** Where the part starting at `start` ends: the end of the message when
      the window of `L` bytes reaches it; otherwise just after the last
      newline of the window, or the end of the window when it has none. */
  function PartEnd(message: string, start: nat, L: nat): (e: nat)
    requires 0 < L && start < |message|
    ensures start < e <= |message| && e <= start + L
    ensures start + L >= |message| ==> e == |message|
  {
    if start + L >= |message| then |message|
    else
      var lastNewline := LastIndexByte(message[start..start + L], '\n');
      if lastNewline != -1 then start + lastNewline + 1 else start + L
  }

  /** The parts of `message` from offset `start` on. */
  function PartsFrom(message: string, start: nat, L: nat): seq<string>
    requires 0 < L && start <= |message|
    decreases |message| - start
  {
    if start == |message| then []
    else
      var e := PartEnd(message, start, L);
      [message[start..e]] + PartsFrom(message, e, L)
  }

  /** The parts splitMessage returns for `message`. */
  function Parts(message: string, L: nat): seq<string>
    requires 0 < L
  {
    PartsFrom(message, 0, L)
  }

  /** The offset at which part `k` of the parts from `start` begins: each
      part begins where the one before it ended. */
  function StartOf(message: string, start: nat, L: nat, k: nat): (r: nat)
    requires 0 < L && start <= |message|
    ensures start <= r <= |message|
    decreases k
  {
    if k == 0 || start == |message| then start
    else StartOf(message, PartEnd(message, start, L), L, k - 1)
  }

  /** splitMessage. */
  method SplitMessage(message: string, L: nat) returns (parts: seq<string>)
    requires 0 < L
    ensures parts == Parts(message, L)
  {
    parts := [];
    var start := 0;
    while start < |message|
      invariant start <= |message|
      invariant parts + PartsFrom(message, start, L) == Parts(message, L)
      decreases |message| - start
    {
      var end := start + L;
      if end >= |message| {
        end := |message|;
      } else {
        var lastNewline := LastIndexByte(message[start..end], '\n');
        if lastNewline != -1 {
          end := start + lastNewline + 1;
        }
      }
      assert end == PartEnd(message, start, L);
      var part := message[start..end];
      assert PartsFrom(message, start, L) == [part] + PartsFrom(message, end, L);
      parts := parts + [part];
      start := end;
    }
  }

  /** Part `k` is the message between its start and the end `PartEnd`
      chooses for that start, and it is followed by another part exactly
      when its window stops short of the end of the message. */
  lemma {:induction false} PartAt(message: string, start: nat, L: nat, k: nat)
    requires 0 < L && start <= |message| && k < |PartsFrom(message, start, L)|
    ensures StartOf(message, start, L, k) < |message|
    ensures PartsFrom(message, start, L)[k] ==
      message[StartOf(message, start, L, k)..PartEnd(message, StartOf(message, start, L, k), L)]
    ensures k + 1 < |PartsFrom(message, start, L)| <==> StartOf(message, start, L, k) + L < |message|
    ensures k + 1 < |PartsFrom(message, start, L)| ==>
      StartOf(message, start, L, k + 1) == PartEnd(message, StartOf(message, start, L, k), L)
    decreases k
  {
    var e := PartEnd(message, start, L);
    assert PartsFrom(message, start, L) == [message[start..e]] + PartsFrom(message, e, L);
    if k > 0 {
      PartAt(message, e, L, k - 1);
    } else if e < |message| {
      assert |PartsFrom(message, e, L)| > 0;
    }
  }

  /** Round trip: the parts, concatenated in order, are the message. */
  lemma {:induction false} PartsConcat(message: string, start: nat, L: nat)
    requires 0 < L && start <= |message|
    ensures Concat(PartsFrom(message, start, L)) == message[start..]
    decreases |message| - start
  {
    if start < |message| {
      var e := PartEnd(message, start, L);
      PartsConcat(message, e, L);
      var ps := PartsFrom(message, start, L);
      assert ps[0] == message[start..e] && ps[1..] == PartsFrom(message, e, L);
      assert message[start..e] + message[e..] == message[start..];
    }
  }

  lemma SplitRoundTrip(message: string, L: nat)
    requires 0 < L
    ensures Concat(Parts(message, L)) == message
  {
    PartsConcat(message, 0, L);
    assert message[0..] == message;
  }

  /** Every part is non-empty and at most `L` bytes long; only the empty
      message gives no parts. */
  lemma SplitBounds(message: string, L: nat)
    requires 0 < L
    ensures forall k :: 0 <= k < |Parts(message, L)| ==> 0 < |Parts(message, L)[k]| <= L
    ensures |Parts(message, L)| == 0 <==> |message| == 0
  {
    forall k | 0 <= k < |Parts(message, L)|
      ensures 0 < |Parts(message, L)[k]| <= L
    {
      PartAt(message, 0, L, k);
    }
  }

  /** The part of the message that the window of part `k` covers. */
  function Window(message: string, L: nat, k: nat): string
    requires 0 < L
  {
    var s := StartOf(message, 0, L, k);
    if s + L <= |message| then message[s..s + L] else message[s..]
  }

  /** A part that is not the last one is cut from a full window of `L` bytes
      starting where the part starts: just after the window's last newline,
      so that it ends with a newline and the rest of the window holds none;
      or, when the window has no newline, it is the whole window. */
  lemma NewlinePreference(message: string, L: nat, k: nat)
    requires 0 < L && k + 1 < |Parts(message, L)|
    ensures |Window(message, L, k)| == L
    ensures 0 < |Parts(message, L)[k]| <= L
    ensures HasPrefix(Window(message, L, k), Parts(message, L)[k])
    ensures '\n' in Window(message, L, k) ==>
      Parts(message, L)[k][|Parts(message, L)[k]| - 1] == '\n'
      && '\n' !in Window(message, L, k)[|Parts(message, L)[k]|..]
    ensures '\n' !in Window(message, L, k) ==> Parts(message, L)[k] == Window(message, L, k)
  {
    var s := StartOf(message, 0, L, k);
    assert s + L < |message| && Parts(message, L)[k] == message[s..PartEnd(message, s, L)] by {
      PartAt(message, 0, L, k);
    }
    assert Window(message, L, k) == message[s..s + L];
    CutWithinWindow(message, s, L, Parts(message, L)[k], Window(message, L, k));
  }

  /** How `PartEnd` cuts a window `w` that stops short of the end of the
      message: the part `p` it cuts off ends just after the last newline of
      the window, or is the whole window when the window holds none. */
  lemma CutWithinWindow(message: string, s: nat, L: nat, p: string, w: string)
    requires 0 < L && s + L < |message|
    requires p == message[s..PartEnd(message, s, L)] && w == message[s..s + L]
    ensures |w| == L && 0 < |p| <= L
    ensures HasPrefix(w, p)
    ensures '\n' in w ==> p[|p| - 1] == '\n' && '\n' !in w[|p|..]
    ensures '\n' !in w ==> p == w
  {
    var lastNewline := LastIndexByte(w, '\n');
    var e := PartEnd(message, s, L);
    assert w[..e - s] == p;
    if lastNewline != -1 {
      assert e == s + lastNewline + 1;
      assert p[|p| - 1] == w[lastNewline];
      var rest := w[|p|..];
      forall i | 0 <= i < |rest|
        ensures rest[i] != '\n'
      {
        assert rest[i] == w[lastNewline + 1 + i];
      }
    } else {
      assert '\n' !in w;
    }
  }

  /** The last part is everything from its start to the end of the message,
      and its window reaches the end of the message. */
  lemma FinalPart(message: string, L: nat)
    requires 0 < L && |message| > 0
    ensures StartOf(message, 0, L, |Parts(message, L)| - 1) + L >= |message|
    ensures Parts(message, L)[|Parts(message, L)| - 1] == message[StartOf(message, 0, L, |Parts(message, L)| - 1)..]
  {
    SplitBounds(message, L);
    PartAt(message, 0, L, |Parts(message, L)| - 1);
  }

  /** 130000 bytes without a newline, cut with `L` = 55000, give parts of
      55000, 55000 and 20000 bytes. */
  lemma SplitWithoutNewlines(message: string)
    requires |message| == 130000
    requires forall i :: 0 <= i < |message| ==> message[i] != '\n'
    ensures |Parts(message, 55000)| == 3
    ensures |Parts(message, 55000)[0]| == 55000
    ensures |Parts(message, 55000)[1]| == 55000
    ensures |Parts(message, 55000)[2]| == 20000
  {
    var L := 55000;
    assert '\n' !in message[0..55000];
    assert PartEnd(message, 0, L) == 55000;
    assert '\n' !in message[55000..110000];
    assert PartEnd(message, 55000, L) == 110000;
    assert PartEnd(message, 110000, L) == 130000;
    assert PartsFrom(message, 130000, L) == [];
    assert PartsFrom(message, 110000, L) == [message[110000..130000]];
    assert PartsFrom(message, 55000, L) == [message[55000..110000]] + PartsFrom(message, 110000, L);
    assert Parts(message, L) == [message[0..55000]] + PartsFrom(message, 55000, L);
  }

  // ---------------------------------------------------------------------
  // createDefaultTemplate

  /** The placeholder the command output replaces. */
  const Placeholder: string := "---OUTPUT---"

  /** The collapsible, diff-highlighted frame around the placeholder:
      `"\n<details><summary>Show Output</summary>\n\n```diff\n"` before it
      and `"\n```\n</details>\n"` after it. */
  const DetailsHead: string := "\n<details>" + "<summary>" + "Show Output" + "</summary>\n\n" + "```diff\n"
  const DetailsTail: string := "\n```\n" + "</details>\n"

  /** The frame holds no dash, the first and last byte of the placeholder. */
  lemma FrameDashFree()
    ensures '-' !in DetailsHead && '-' !in DetailsTail
  {
    assert '-' !in "\n<details>";
    assert '-' !in "<summary>";
    assert '-' !in "Show Output";
    assert '-' !in "</summary>\n\n";
    assert '-' !in "```diff\n";
    assert '-' !in "\n```\n";
    assert '-' !in "</details>\n";
  }

  /** The content createDefaultTemplate writes: the bare placeholder for
      `trivy` and `tflint` commands, the collapsible frame otherwise. */
  function DefaultTemplate(command: string): (r: string)
    ensures Contains(command, "trivy") || Contains(command, "tflint") ==> r == Placeholder
    ensures !(Contains(command, "trivy") || Contains(command, "tflint")) ==>
      r == DetailsHead + Placeholder + DetailsTail
  {
    if Contains(command, "trivy") || Contains(command, "tflint") then Placeholder
    else DetailsHead + Placeholder + DetailsTail
  }

  /** The placeholder occurs in `a + Placeholder + b` only right after `a`
      when neither `a` nor `b` holds a dash, the placeholder's first and
      last byte. */
  lemma OnlyOccurrence(a: string, b: string)
    requires '-' !in a && '-' !in b
    ensures forall k :: OccursAt(a + Placeholder + b, Placeholder, k) <==> k == |a|
  {
    var s := a + Placeholder + b;
    var n := |Placeholder|;
    assert s[|a|..|a| + n] == Placeholder;
    forall k | OccursAt(s, Placeholder, k)
      ensures k == |a|
    {
      assert s[k] == s[k..k + n][0] == '-';
      assert s[k + n - 1] == s[k..k + n][n - 1] == '-';
    }
  }

  /** The default template, whichever is chosen, holds the placeholder
      exactly once. */
  lemma DefaultTemplatePlaceholderOnce(command: string)
    ensures exists k :: OccursAt(DefaultTemplate(command), Placeholder, k)
    ensures forall k, j ::
      OccursAt(DefaultTemplate(command), Placeholder, k) && OccursAt(DefaultTemplate(command), Placeholder, j) ==> k == j
  {
    var t := DefaultTemplate(command);
    if Contains(command, "trivy") || Contains(command, "tflint") {
      assert Placeholder == [] + Placeholder + [];
      OnlyOccurrence([], []);
      assert OccursAt(t, Placeholder, 0);
    } else {
      FrameDashFree();
      OnlyOccurrence(DetailsHead, DetailsTail);
      assert OccursAt(t, Placeholder, |DetailsHead|);
    }
  }

  // ---------------------------------------------------------------------
  // Rendering the parts in Comment

  /** The title line every part's comment begins with. */
  function Title(cmdName: string): string {
    "## " + cmdName + " output"
  }

  /** The identifier of part `i` (0-based). */
  function PartIdentifier(i: nat): string {
    "Part #" + NatToString(i + 1)
  }

  /** The body of part `i`: the title line, the template with its first
      placeholder replaced by the part, and the part identifier in an HTML
      comment. */
  function RenderPart(cmdName: string, template: string, part: string, i: nat): string {
    Title(cmdName) + "\n" + ReplaceFirst(template, Placeholder, part) + " <!-- " + PartIdentifier(i) + " -->"
  }

  lemma OccursContains(s: string, t: string, k: nat)
    requires OccursAt(s, t, k)
    ensures Contains(s, t)
  {
    ContainsIndex(s, t);
  }

  /** The title and the identifier passed along with a part are both in its
      rendered body, the title at its very start. */
  lemma RenderedBodyNamesPart(cmdName: string, template: string, part: string, i: nat)
    ensures HasPrefix(RenderPart(cmdName, template, part, i), Title(cmdName))
    ensures Contains(RenderPart(cmdName, template, part, i), Title(cmdName))
    ensures Contains(RenderPart(cmdName, template, part, i), PartIdentifier(i))
  {
    var body := RenderPart(cmdName, template, part, i);
    var pre := Title(cmdName) + "\n" + ReplaceFirst(template, Placeholder, part) + " <!-- ";
    assert body == pre + PartIdentifier(i) + " -->";
    assert body[..|Title(cmdName)|] == Title(cmdName);
    OccursContains(body, Title(cmdName), 0);
    assert body[|pre|..|pre| + |PartIdentifier(i)|] == PartIdentifier(i);
    OccursContains(body, PartIdentifier(i), |pre|);
  }

  /** Only the first placeholder of a template is replaced: whatever follows
      it, other placeholders included, is kept as it is. */
  lemma RenderReplacesFirstOnly(cmdName: string, a: string, b: string, part: string, i: nat)
    requires forall k :: 0 <= k < |a| ==> !OccursAt(a + Placeholder + b, Placeholder, k)
    ensures RenderPart(cmdName, a + Placeholder + b, part, i) ==
      Title(cmdName) + "\n" + a + part + b + " <!-- " + PartIdentifier(i) + " -->"
  {
    ReplaceFirstOccurrence(a, Placeholder, b, part);
  }

  /** A template without the placeholder is posted as it is: the part is
      dropped. */
  lemma RenderWithoutPlaceholder(cmdName: string, template: string, part: string, i: nat)
    requires forall k :: !OccursAt(template, Placeholder, k)
    ensures RenderPart(cmdName, template, part, i) ==
      Title(cmdName) + "\n" + template + " <!-- " + PartIdentifier(i) + " -->"
  {
  }

  /** Rendered into the default template, the part appears whole: bare for
      `trivy` and `tflint` commands, inside the collapsible frame otherwise. */
  lemma RenderDefault(command: string, cmdName: string, part: string, i: nat)
    ensures Contains(command, "trivy") || Contains(command, "tflint") ==>
      RenderPart(cmdName, DefaultTemplate(command), part, i) ==
        Title(cmdName) + "\n" + part + " <!-- " + PartIdentifier(i) + " -->"
    ensures !(Contains(command, "trivy") || Contains(command, "tflint")) ==>
      RenderPart(cmdName, DefaultTemplate(command), part, i) ==
        Title(cmdName) + "\n" + DetailsHead + part + DetailsTail + " <!-- " + PartIdentifier(i) + " -->"
  {
    var t := DefaultTemplate(command);
    if Contains(command, "trivy") || Contains(command, "tflint") {
      assert ReplaceFirst(t, Placeholder, part) == part by {
        assert t == [] + Placeholder + [];
        ReplaceFirstOccurrence([], Placeholder, [], part);
        assert [] + part + [] == part;
      }
    } else {
      assert ReplaceFirst(t, Placeholder, part) == DetailsHead + part + DetailsTail by {
        FrameDashFree();
        OnlyOccurrence(DetailsHead, DetailsTail);
        ReplaceFirstOccurrence(DetailsHead, Placeholder, DetailsTail, part);
      }
    }
  }

  // ---------------------------------------------------------------------
  // Comment

  /** What one iteration of the loop in Comment hands to UpsertComment: the
      title, the part identifier and the rendered body. */
  datatype Post = Post(title: string, identifier: string, body: string)

  /** How a run of Comment ends: at once for an empty command, with the
      fatal configuration error, or after posting one body per part. */
  datatype CommentRun = EmptyCommand | ConfigFailed(err: Error) | Posted(posts: seq<Post>)

  /** The posts for the parts of an output, in order. */
  function PostsFor(cmdName: string, template: string, parts: seq<string>): seq<Post> {
    seq(|parts|, i requires 0 <= i < |parts| =>
      Post(Title(cmdName), PartIdentifier(i), RenderPart(cmdName, template, parts[i], i)))
  }

  /** Every post's title and identifier can be found in its body. */
  lemma PostsNameTheirParts(cmdName: string, template: string, parts: seq<string>)
    ensures forall i :: 0 <= i < |PostsFor(cmdName, template, parts)| ==>
      Contains(PostsFor(cmdName, template, parts)[i].body, PostsFor(cmdName, template, parts)[i].title)
      && Contains(PostsFor(cmdName, template, parts)[i].body, PostsFor(cmdName, template, parts)[i].identifier)
  {
    forall i | 0 <= i < |PostsFor(cmdName, template, parts)|
      ensures Contains(PostsFor(cmdName, template, parts)[i].body, PostsFor(cmdName, template, parts)[i].title)
      ensures Contains(PostsFor(cmdName, template, parts)[i].body, PostsFor(cmdName, template, parts)[i].identifier)
    {
      RenderedBodyNamesPart(cmdName, template, parts[i], i);
    }
  }

  lemma PostsForStep(cmdName: string, template: string, parts: seq<string>, i: nat, before: seq<Post>)
    requires i < |parts| && before == PostsFor(cmdName, template, parts[..i])
    ensures before + [Post(Title(cmdName), PartIdentifier(i), RenderPart(cmdName, template, parts[i], i))]
         == PostsFor(cmdName, template, parts[..i + 1])
  {
    assert parts[..i + 1][..i] == parts[..i];
  }

  /** Comment, given the environment, the command and the output the command
      wrote: the command's first field names it; an empty command stops
      before anything else happens; a configuration that fails validation
      stops the run; otherwise the output is split and each part is
      rendered into the default template the command selects. */
  method Comment(env: Config.Env, command: string, output: string, L: nat) returns (run: CommentRun)
    requires 0 < L
    ensures FirstField(command).None? <==> run.EmptyCommand?
    ensures FirstField(command).Some? && Config.GetConfig(Config.Init(env, FirstField(command).value)).Failure? ==>
      run == ConfigFailed(Config.GetConfig(Config.Init(env, FirstField(command).value)).error)
    ensures FirstField(command).Some? && Config.GetConfig(Config.Init(env, FirstField(command).value)).Success? ==>
      run == Posted(PostsFor(FirstField(command).value, DefaultTemplate(command), Parts(output, L)))
  {
    var cmdArgs := FirstField(command);
    if cmdArgs.None? {
      return EmptyCommand;
    }
    var cmdName := cmdArgs.value;
    var cnf := Config.GetConfig(Config.Init(env, cmdName));
    if cnf.Failure? {
      return ConfigFailed(cnf.error);
    }
    var parts := SplitMessage(output, L);
    var templateContent := DefaultTemplate(command);
    var posts: seq<Post> := [];
    for i := 0 to |parts|
      invariant posts == PostsFor(cmdName, templateContent, parts[..i])
    {
      var partWithID := RenderPart(cmdName, templateContent, parts[i], i);
      PostsForStep(cmdName, templateContent, parts, i, posts);
      posts := posts + [Post(Title(cmdName), PartIdentifier(i), partWithID)];
    }
    assert parts[..|parts|] == parts;
    return Posted(posts);
  }
}
