/** The summarizers the structured commands call (main.py): `ask_openai`'s
    handling of the model's answer, the `owner/repo` split, the issue-thread
    text, and `summarize_any_repo` / `summarize_latest_issue` /
    `summarize_specific_issue` / `summarize_issue_thread` around them. The
    GitHub reads and the model call are oracle parameters. */
module Summaries {
  import opened Optional
  import opened PyStr
  import opened Digits

  // ---------------------------------------------------------------- the model

  /** What the completion call produced: an exception, a response with no
      choices, or the first choice's content (`None` when it has none). */
  datatype Completion = Raised | NoChoices | Answer(content: Option<string>)

  const Instruction: string := "\n\nLimit the summary to no more than 1,000 characters. Return plain text only. No formatting."
  const MaxSummary: nat := 1000
  const NoSummary: string := "Sorry, no summary was generated."
  const TooLong: string := "The summary was too long to send. Try summarizing a smaller repo or issue."
  const Failed: string := "AI summarization failed. Please try again later."

  /** The fixed replies `ask_openai` substitutes for a summary. */
  predicate IsFixedReply(s: string)
  {
    s == NoSummary || s == TooLong || s == Failed
  }

  /** `ask_openai` after the call: strip the answer, then reject it whole if
      it is longer than 1000 characters. The result always fits the SMS
      budget and is never a truncated answer: it is the full stripped answer
      or one of the fixed replies. */
  function CapSummary(c: Completion): (r: string)
    ensures |r| <= MaxSummary
    ensures IsFixedReply(r) || (c.Answer? && c.content.Some? && r == Strip(c.content.value))
    ensures c.Answer? && c.content.Some? && |Strip(c.content.value)| <= MaxSummary ==>
              r == Strip(c.content.value)
    ensures c.Answer? && c.content.Some? && |Strip(c.content.value)| > MaxSummary ==> r == TooLong
    ensures c == NoChoices ==> r == NoSummary
    ensures c == Raised || c == Answer(None) ==> r == Failed
  {
    match c
    case Raised => Failed
    case NoChoices => NoSummary
    case Answer(None) => Failed
    case Answer(Some(text)) =>
      var result := Strip(text);
      if |result| > MaxSummary then TooLong else result
  }

  /** The length cap sits exactly at 1000 characters. */
  lemma CapBoundary(at: string, over: string)
    requires Trimmed(at) && |at| == 1000
    requires Trimmed(over) && |over| == 1001
    ensures CapSummary(Answer(Some(at))) == at
    ensures CapSummary(Answer(Some(over))) == TooLong
  {
  }

  /** `ask_openai(prompt)`: the instruction is appended to the prompt and
      the answer capped. */
  function AskOpenAI(prompt: string, complete: string -> Completion): (r: string)
    ensures |r| <= MaxSummary
    ensures IsFixedReply(r) || exists text :: complete(prompt + Instruction) == Answer(Some(text)) && r == Strip(text)
    ensures var a := complete(prompt + Instruction);
            && (a.Answer? && a.content.Some? && |Strip(a.content.value)| <= MaxSummary ==> r == Strip(a.content.value))
            && (a.Answer? && a.content.Some? && |Strip(a.content.value)| > MaxSummary ==> r == TooLong)
            && (a == NoChoices ==> r == NoSummary)
            && (a == Raised || a == Answer(None) ==> r == Failed)
  {
    CapSummary(complete(prompt + Instruction))
  }

  // ---------------------------------------------------------------- owner/repo

  const InvalidFormat: string := "Invalid format. Use <owner>/<repo>"

  /** `owner, repo = owner_repo.split("/")`: succeeds exactly when there is
      one slash, and then splits around it. */
  function SplitOwnerRepo(s: string): (r: Option<(string, string)>)
    ensures r.Some? <==> multiset(s)['/'] == 1
    ensures r.Some? ==> s == r.value.0 + "/" + r.value.1
    ensures r.Some? ==> '/' !in r.value.0 && '/' !in r.value.1
  {
    var parts := SplitChar(s, '/');
    SplitCharCount(s, '/');
    JoinSplitChar(s, '/');
    if |parts| == 2 then
      assert parts[1..] == [parts[1]];
      Some((parts[0], parts[1]))
    else None
  }

  /** Any slash-free owner and repo joined by a slash split back apart. */
  lemma SplitOwnerRepoJoin(owner: string, repo: string)
    requires '/' !in owner && '/' !in repo
    ensures SplitOwnerRepo(owner + "/" + repo) == Some((owner, repo))
  {
    var ws := [owner, repo];
    assert ws[1..] == [repo];
    assert JoinWith(ws, '/') == owner + "/" + repo;
    SplitCharJoin(ws, '/');
  }

  // ---------------------------------------------------------------- issue thread

  /** A JSON string field: missing, `null`, or a string. */
  datatype JsonText = Absent | Null | Text(s: string)

  /** The issue and its comments as the two GitHub reads return them; a
      comment body is `None` when the key is missing. */
  datatype IssueThread = IssueThread(title: JsonText, body: JsonText, comments: seq<Option<string>>)

  /** `f"{issue.get('title')}"`: a missing or null title prints as `None`. */
  function TitleText(t: JsonText): string
  {
    match t
    case Text(s) => s
    case _ => "None"
  }

  /** `f"{issue.get('body', '')}"`: missing is empty, null prints `None`. */
  function BodyText(b: JsonText): string
  {
    match b
    case Text(s) => s
    case Absent => ""
    case Null => "None"
  }

  /** `comment.get("body", "")`. */
  function CommentText(c: Option<string>): string
  {
    match c
    case Some(s) => s
    case None => ""
  }

  function CommentTexts(cs: seq<Option<string>>): (ts: seq<string>)
    ensures |ts| == |cs|
    ensures forall i :: 0 <= i < |cs| ==> ts[i] == CommentText(cs[i])
  {
    seq(|cs|, i requires 0 <= i < |cs| => CommentText(cs[i]))
  }

  function ThreadHeader(n: nat, t: IssueThread): string
  {
    "Issue #" + NatToString(n) + ": " + TitleText(t.title)
  }

  /** The lines the thread is meant to consist of: header, body, then each
      comment in the order the collaborator returned them. */
  function ThreadLines(n: nat, t: IssueThread): seq<string>
  {
    [ThreadHeader(n, t), BodyText(t.body)] + CommentTexts(t.comments)
  }

  /** The loop `for comment in ...: thread += "\n" + comment.get("body", "")`. */
  function AppendComments(thread: string, cs: seq<Option<string>>): string
    decreases |cs|
  {
    if |cs| == 0 then thread else AppendComments(thread + "\n" + CommentText(cs[0]), cs[1..])
  }

  /** The thread text `summarize_issue_thread` builds. */
  function ThreadText(n: nat, t: IssueThread): string
  {
    AppendComments(ThreadHeader(n, t) + "\n" + BodyText(t.body), t.comments)
  }

  /** The loop appends each comment as one more newline-separated line. */
  lemma {:induction false} AppendCommentsJoin(ws: seq<string>, cs: seq<Option<string>>)
    requires |ws| >= 1
    ensures AppendComments(JoinWith(ws, '\n'), cs) == JoinWith(ws + CommentTexts(cs), '\n')
    decreases |cs|
  {
    if |cs| == 0 {
      assert ws + CommentTexts(cs) == ws;
    } else {
      JoinWithSnoc(ws, CommentText(cs[0]), '\n');
      AppendCommentsJoin(ws + [CommentText(cs[0])], cs[1..]);
      assert (ws + [CommentText(cs[0])]) + CommentTexts(cs[1..]) == ws + CommentTexts(cs);
    }
  }

  /** The thread is its lines joined by newlines. */
  lemma ThreadTextIsJoin(n: nat, t: IssueThread)
    ensures ThreadText(n, t) == JoinWith(ThreadLines(n, t), '\n')
  {
    var ws := [ThreadHeader(n, t), BodyText(t.body)];
    assert ws[1..] == [BodyText(t.body)];
    assert JoinWith(ws, '\n') == ThreadHeader(n, t) + "\n" + BodyText(t.body);
    AppendCommentsJoin(ws, t.comments);
  }

  /** No field of the issue contains a line break of its own. */
  predicate SingleLineFields(t: IssueThread)
  {
    && '\n' !in TitleText(t.title)
    && '\n' !in BodyText(t.body)
    && forall i :: 0 <= i < |t.comments| ==> '\n' !in CommentText(t.comments[i])
  }

  /** When no field spans lines, splitting the thread at newlines recovers
      the header, the body and every comment, in order. */
  lemma ThreadRoundTrip(n: nat, t: IssueThread)
    requires SingleLineFields(t)
    ensures SplitChar(ThreadText(n, t), '\n') == ThreadLines(n, t)
  {
    ThreadTextIsJoin(n, t);
    var digits := NatToString(n);
    assert '\n' !in digits by {
      assert forall i :: 0 <= i < |digits| ==> IsAsciiDigit(digits[i]);
    }
    assert '\n' !in ThreadHeader(n, t);
    SplitCharJoin(ThreadLines(n, t), '\n');
  }

  // ---------------------------------------------------------------- summarizers

  /** The GitHub reads, as oracles. `repoPrompt` is `None` when the README or
      the repository read is not ok, and otherwise the prompt assembled from
      them; `latestOpenIssue` is `None` when the issue list read fails or is
      empty; `issueThread` is `None` when the issue or comments read fails. */
  datatype GitHub = GitHub(
    repoPrompt: (string, string) -> Option<string>,
    latestOpenIssue: (string, string) -> Option<nat>,
    issueThread: (string, string, nat) -> Option<IssueThread>)

  const ThreadPreamble: string := "Summarize this GitHub issue thread:\n"

  /** `summarize_issue_thread(owner, repo, n)`. */
  function SummarizeIssueThread(owner: string, repo: string, n: nat, gh: GitHub,
                                complete: string -> Completion): (r: Option<string>)
    ensures r.None? <==> gh.issueThread(owner, repo, n).None?
    ensures r.Some? ==> |r.value| <= MaxSummary
    ensures gh.issueThread(owner, repo, n).Some? ==>
              var lines := ThreadLines(n, gh.issueThread(owner, repo, n).value);
              r == Some(AskOpenAI(ThreadPreamble + JoinWith(lines, '\n'), complete))
  {
    match gh.issueThread(owner, repo, n)
    case None => None
    case Some(t) =>
      ThreadTextIsJoin(n, t);
      Some(AskOpenAI(ThreadPreamble + ThreadText(n, t), complete))
  }

  /** `summarize_any_repo(owner_repo)`: a malformed name gets the format
      hint, a failed read gets `None`, anything else a capped summary. */
  function SummarizeAnyRepo(ownerRepo: string, gh: GitHub, complete: string -> Completion): (r: Option<string>)
    ensures multiset(ownerRepo)['/'] != 1 ==> r == Some(InvalidFormat)
    ensures multiset(ownerRepo)['/'] == 1 ==>
              var (owner, repo) := SplitOwnerRepo(ownerRepo).value;
              && (r.None? <==> gh.repoPrompt(owner, repo).None?)
              && (r.Some? ==> |r.value| <= MaxSummary)
              && (gh.repoPrompt(owner, repo).Some? ==>
                    r == Some(AskOpenAI(gh.repoPrompt(owner, repo).value, complete)))
  {
    match SplitOwnerRepo(ownerRepo)
    case None => Some(InvalidFormat)
    case Some((owner, repo)) =>
      match gh.repoPrompt(owner, repo)
      case None => None
      case Some(prompt) => Some(AskOpenAI(prompt, complete))
  }

  /** `summarize_latest_issue(owner_repo)`: the first open issue's thread. */
  function SummarizeLatestIssue(ownerRepo: string, gh: GitHub, complete: string -> Completion): (r: Option<string>)
    ensures multiset(ownerRepo)['/'] != 1 ==> r == Some(InvalidFormat)
    ensures multiset(ownerRepo)['/'] == 1 ==>
              var (owner, repo) := SplitOwnerRepo(ownerRepo).value;
              && (gh.latestOpenIssue(owner, repo).None? ==> r.None?)
              && (gh.latestOpenIssue(owner, repo).Some? ==>
                    r == SummarizeIssueThread(owner, repo, gh.latestOpenIssue(owner, repo).value, gh, complete))
  {
    match SplitOwnerRepo(ownerRepo)
    case None => Some(InvalidFormat)
    case Some((owner, repo)) =>
      match gh.latestOpenIssue(owner, repo)
      case None => None
      case Some(n) => SummarizeIssueThread(owner, repo, n, gh, complete)
  }

  /** `summarize_specific_issue(owner_repo, n)`. */
  function SummarizeSpecificIssue(ownerRepo: string, n: nat, gh: GitHub, complete: string -> Completion): (r: Option<string>)
    ensures multiset(ownerRepo)['/'] != 1 ==> r == Some(InvalidFormat)
    ensures multiset(ownerRepo)['/'] == 1 ==>
              var (owner, repo) := SplitOwnerRepo(ownerRepo).value;
              r == SummarizeIssueThread(owner, repo, n, gh, complete)
  {
    match SplitOwnerRepo(ownerRepo)
    case None => Some(InvalidFormat)
    case Some((owner, repo)) => SummarizeIssueThread(owner, repo, n, gh, complete)
  }
}
