/** The SMS webhook (`sms_webhook`, main.py): the message is stripped,
    classified by the structured grammar, answered by the matching handler
    or by the natural-language fallback, and the non-empty reply is wrapped
    in the XML envelope. */
module Webhook {
  import opened Optional
  import opened PyStr
  import opened Grammar
  import opened Digits
  import Reply
  import Summaries
  import Router
  import Creation

  /** The collaborators of one request. */
  datatype Services = Services(
    github: Summaries.GitHub,
    complete: string -> Summaries.Completion,
    nl: Router.Collaborators)

  const Usage: string := "Usage: create issue <repo> <title> -- <body>"
  const HelpText: string :=
    "Available commands:" + "\n" + "- summarize owner/repo" + "\n" + "- summarize owner/repo issue [#]"
  const NoIssueSummary: string := "Could not summarize issue."
  const NoLatestSummary: string := "Could not summarize the latest issue."
  const NoRepoSummary: string := "Could not summarize that repo."
  const Unrecognized: string := "Unrecognized command. Text 'help' for available options."

  /** The command for a raw message: the grammar on its stripped text. */
  function Classify(message: string): Command
  {
    ClassifyText(Strip(message))
  }

  /** The reply text for a command, `None` for a command whose handler
      raises before replying. A reply is never empty, so the envelope's
      "No content." never replaces it. */
  function Respond(c: Command, s: Services): (r: Option<string>)
    ensures r.None? <==> c.Crash?
    ensures r.Some? ==> |r.value| > 0
  {
    match c
    case Crash => None
    case _ => Some(Answer(c, s))
  }

  /** The reply text for a command that does not raise. */
  function Answer(c: Command, s: Services): (r: string)
    requires !c.Crash?
    ensures |r| > 0
  {
    match c
    case NewRepo(name) =>
      if Creation.CreateRepo(name) then "Created repo '" + name + "'"
      else "Failed to create repo '" + name + "'."
    case NewIssue(repo, title, body) =>
      if Creation.CreateIssue(repo, title, body) then "Issue created in '" + repo + "'"
      else "Failed to create issue in '" + repo + "'."
    case IssueUsage => Usage
    case ShowHelp => HelpText
    case IssueSummary(ownerRepo, n) =>
      Or(Summaries.SummarizeSpecificIssue(ownerRepo, n, s.github, s.complete), NoIssueSummary)
    case LatestIssueSummary(ownerRepo) =>
      Or(Summaries.SummarizeLatestIssue(ownerRepo, s.github, s.complete), NoLatestSummary)
    case RepoSummary(ownerRepo) =>
      Or(Summaries.SummarizeAnyRepo(ownerRepo, s.github, s.complete), NoRepoSummary)
    case Fallback(text) =>
      Or(Router.RouteNaturalCommand(text, s.nl), Unrecognized)
  }

  /** The command for a raw message under the corrected issue-number
      reading. */
  function ClassifyCorrected(message: string): Command
  {
    ClassifyFixed(Strip(message))
  }

  /** `sms_webhook(From, Body)`: no envelope when the handler raises (a
      `summarize ... issue <token>` whose token passes `isdigit()` but not
      `int()`), and otherwise a well-formed envelope carrying exactly the
      reply text chosen for the message. */
  function SmsWebhook(message: string, s: Services): (xml: Option<string>)
    ensures xml.None? <==> IsSummarize(Strip(message)) && TokenRaises(Words(Strip(message)), IssueTokenAsWritten)
    ensures xml.Some? ==> Reply.IsEnvelope(xml.value)
    ensures xml.Some? ==> Reply.ParseReply(xml.value) == Respond(Classify(message), s)
  {
    match Respond(Classify(message), s)
    case None => None
    case Some(text) =>
      Reply.ReplyRoundTrip(Some(text));
      Some(Reply.TwilioReply(Some(text)))
  }

  /** The webhook with the corrected issue-number reading: every message gets
      an envelope, and it carries the same reply as the written handler
      wherever that one does not raise. */
  function SmsWebhookCorrected(message: string, s: Services): (xml: string)
    ensures Respond(ClassifyCorrected(message), s).Some?
    ensures Reply.IsEnvelope(xml)
    ensures Reply.ParseReply(xml) == Respond(ClassifyCorrected(message), s)
    ensures SmsWebhook(message, s).Some? ==> Some(xml) == SmsWebhook(message, s)
  {
    var reply := Respond(ClassifyCorrected(message), s);
    Reply.ReplyRoundTrip(reply);
    Reply.TwilioReply(reply)
  }

  /** Creation is disabled: both creation commands are answered with a
      failure naming the repository. */
  lemma CreationFails(c: Command, s: Services)
    ensures c.NewRepo? ==> Respond(c, s) == Some("Failed to create repo '" + c.name + "'.")
    ensures c.NewIssue? ==> Respond(c, s) == Some("Failed to create issue in '" + c.repo + "'.")
  {
  }

  /** The help text lists exactly the two summarize forms, one per line. */
  lemma HelpLines()
    ensures SplitChar(HelpText, '\n')
            == ["Available commands:", "- summarize owner/repo", "- summarize owner/repo issue [#]"]
  {
    var lines := ["Available commands:", "- summarize owner/repo", "- summarize owner/repo issue [#]"];
    assert lines[1..] == ["- summarize owner/repo", "- summarize owner/repo issue [#]"];
    assert lines[1..][1..] == ["- summarize owner/repo issue [#]"];
    assert JoinWith(lines[1..][1..], '\n') == lines[2];
    assert JoinWith(lines[1..], '\n') == lines[1] + "\n" + lines[2];
    assert JoinWith(lines, '\n') == lines[0] + "\n" + (lines[1] + "\n" + lines[2]);
    assert JoinWith(lines, '\n') == HelpText;
    assert forall k :: 0 <= k < |lines| ==> '\n' !in lines[k];
    SplitCharJoin(lines, '\n');
  }

  /** Each summary request answers with the summary, or with its own fixed
      reply when the summary is missing or empty. */
  lemma SummaryReplies(c: Command, s: Services)
    ensures c.IssueSummary? ==>
              var r := Summaries.SummarizeSpecificIssue(c.ownerRepo, c.number, s.github, s.complete);
              Respond(c, s) == Some(if Truthy(r) then r.value else NoIssueSummary)
    ensures c.LatestIssueSummary? ==>
              var r := Summaries.SummarizeLatestIssue(c.ownerRepo, s.github, s.complete);
              Respond(c, s) == Some(if Truthy(r) then r.value else NoLatestSummary)
    ensures c.RepoSummary? ==>
              var r := Summaries.SummarizeAnyRepo(c.ownerRepo, s.github, s.complete);
              Respond(c, s) == Some(if Truthy(r) then r.value else NoRepoSummary)
  {
  }

  /** A repository the GitHub read cannot find gets the fixed "could not
      summarize" reply, never an error. */
  lemma RepoNotFound(owner: string, repo: string, s: Services)
    requires '/' !in owner && '/' !in repo
    requires s.github.repoPrompt(owner, repo).None?
    ensures Respond(RepoSummary(owner + "/" + repo), s) == Some(NoRepoSummary)
  {
    Summaries.SplitOwnerRepoJoin(owner, repo);
  }

  /** The same, from the text message `summarize <owner>/<repo>`. */
  lemma RepoNotFoundMessage(owner: string, repo: string, s: Services)
    requires IsWord(owner + "/" + repo) && '/' !in owner && '/' !in repo
    requires s.github.repoPrompt(owner, repo).None?
    ensures Respond(Classify("summarize " + owner + "/" + repo), s) == Some(NoRepoSummary)
  {
    var name := owner + "/" + repo;
    assert "summarize " + owner + "/" + repo == "summarize " + name;
    assert Classify("summarize " + name) == RepoSummary(name) by {
      assert name[|owner|] == '/';
      SummarizeName(name);
    }
    RepoNotFound(owner, repo, s);
  }

  /** `create repo <name> ...` reports failure whatever the name, because
      creation is disabled. */
  lemma CreateRepoAlwaysFails(message: string, s: Services)
    requires IsCreateRepo(Strip(message))
    ensures Respond(Classify(message), s) == Some("Failed to create repo '" + Words(Strip(message))[2] + "'.")
  {
    CreateRepoName(Strip(message));
    CreationFails(Classify(message), s);
  }

  /** A malformed `create issue` gets the usage hint. */
  lemma CreateIssueUsageReply(message: string, s: Services)
    requires IsCreateIssue(Strip(message))
    requires var text := Strip(message);
             IndexOf(text, Separator).None? || |Words(text[..IndexOf(text, Separator).value])| < 3
    ensures Respond(Classify(message), s) == Some(Usage)
  {
    CreateIssueUsage(Strip(message));
    UsageReply(Classify(message), s);
  }

  /** The usage command is answered with the usage hint. */
  lemma UsageReply(c: Command, s: Services)
    requires c == IssueUsage
    ensures Respond(c, s) == Some(Usage)
  {
  }

  /** A message that is `help` in any case gets the help text, and no other
      message does. */
  lemma HelpReply(message: string, s: Services)
    ensures IsHelp(Strip(message)) <==> Classify(message) == ShowHelp
    ensures IsHelp(Strip(message)) ==> Respond(Classify(message), s) == Some(HelpText)
  {
  }

  /** A `summarize` message answers with the summary its tokens ask for, or
      with that case's own fixed reply when the summary is missing or
      empty; an issue token that passes `isdigit()` but not `int()` gets no
      reply at all. */
  lemma SummarizeReply(message: string, s: Services)
    requires IsSummarize(Strip(message))
    ensures var parts := Words(Strip(message));
            var issue := |parts| >= 3 && Lower(parts[2]) == "issue";
            var specific := issue && |parts| >= 4 && IsIssueNumber(parts[3]);
            var raises := issue && |parts| >= 4 && IssueTokenAsWritten(parts[3]).Raises?;
            && (specific ==>
                  var r := Summaries.SummarizeSpecificIssue(parts[1], ParseNat(parts[3]), s.github, s.complete);
                  Respond(Classify(message), s) == Some(if Truthy(r) then r.value else NoIssueSummary))
            && (raises ==> Respond(Classify(message), s).None?)
            && (issue && !specific && !raises ==>
                  var r := Summaries.SummarizeLatestIssue(parts[1], s.github, s.complete);
                  Respond(Classify(message), s) == Some(if Truthy(r) then r.value else NoLatestSummary))
            && (!issue ==>
                  var r := Summaries.SummarizeAnyRepo(parts[1], s.github, s.complete);
                  Respond(Classify(message), s) == Some(if Truthy(r) then r.value else NoRepoSummary))
  {
    SummarizeDispatch(Strip(message));
    SummaryReplies(Classify(message), s);
  }

  /** With no grammar matched, a non-empty fallback answer is the reply and
      anything else is the "Unrecognized command" reply. */
  lemma UnmatchedReply(message: string, s: Services)
    requires var text := Strip(message);
             !IsCreateRepo(text) && !IsCreateIssue(text) && !IsHelp(text) && !IsSummarize(text)
    ensures var routed := Router.RouteNaturalCommand(Strip(message), s.nl);
            Respond(Classify(message), s) == Some(if Truthy(routed) then routed.value else Unrecognized)
  {
    assert Classify(message) == Fallback(Strip(message));
  }

  /** When the model's answer cannot be used, an unmatched message gets the
      "Unrecognized command" reply. */
  lemma UndecodedIsUnrecognized(message: string, s: Services)
    requires var text := Strip(message);
             !IsCreateRepo(text) && !IsCreateIssue(text) && !IsHelp(text) && !IsSummarize(text)
    ensures !Router.Decodes(Strip(message), s.nl) ==> Respond(Classify(message), s) == Some(Unrecognized)
  {
    if !Router.Decodes(Strip(message), s.nl) {
      Router.UndecodedRoutesNowhere(Strip(message), s.nl);
      UnmatchedReply(message, s);
    }
  }
}
