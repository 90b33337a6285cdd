/** The natural-language fallback (natural_language_router.py): the model's
    answer is unwrapped from a Markdown fence and decoded into an intent, a
    missing repository is guessed by search for the actions that need one,
    and the intent is dispatched through a small table. The model call, the
    JSON decoding, the search read and the two summarizers are oracles. */
module Router {
  import opened Optional
  import opened PyStr
  import opened Search
  import Creation

  /** The `action` values the dispatch table knows, plus `Other` for any
      other value, a missing key or a non-string. */
  datatype Action =
    | SummarizeRepo | SummarizeLatestIssue | SummarizeSpecificIssue
    | CreateRepo | CreateIssue | Help | Unknown | Other

  /** The decoded JSON object; each field is `None` when missing or null. */
  datatype Intent = Intent(
    action: Action,
    repo: Option<string>,
    repoName: Option<string>,
    title: Option<string>,
    body: Option<string>,
    issueNumber: Option<int>)

  /** The intent substituted when the model call or the decoding fails. */
  const DefaultIntent: Intent := Intent(Unknown, None, None, None, None, None)

  // ---------------------------------------------------------------- fences

  predicate IsBacktick(c: char)
  {
    c == '`'
  }

  /** Unwraps a Markdown code fence: backticks stripped from both ends, then
      whitespace, then one leading `json` tag and the whitespace after it.
      Text that does not open with three backticks is left alone. */
  function StripFence(raw: string): (r: string)
    ensures !StartsWith(raw, "```") ==> r == raw
    ensures StartsWith(raw, "```") ==> Trimmed(r)
  {
    if StartsWith(raw, "```") then
      var inner := Strip(StripBy(raw, IsBacktick));
      if StartsWith(inner, "json") then Strip(inner[4..]) else inner
    else raw
  }

  /** Stripping the backticks of a three-backtick fence leaves what is
      between them, when that neither starts nor ends with a backtick. */
  lemma UnfenceBody(body: string)
    requires |body| > 0 && !IsBacktick(body[0]) && !IsBacktick(body[|body| - 1])
    ensures StartsWith("```" + body + "```", "```")
    ensures StripBy("```" + body + "```", IsBacktick) == body
  {
    assert ("```" + body + "```")[..3] == "```";
    StripByAround("```", body, "```", IsBacktick);
  }

  /** The whitespace-stripped inside of a `json`-tagged fence. */
  lemma StripTagged(payload: string)
    requires Trimmed(payload)
    ensures Strip("json\n" + payload + "\n") == if |payload| == 0 then "json" else "json\n" + payload
  {
    if |payload| == 0 {
      assert "json\n" + payload + "\n" == "" + "json" + "\n\n";
      StripByAround("", "json", "\n\n", IsSpace);
    } else {
      var tagged := "json\n" + payload;
      assert "json\n" + payload + "\n" == "" + tagged + "\n";
      StripByAround("", tagged, "\n", IsSpace);
    }
  }

  /** Dropping the `json` tag from the stripped inside leaves the payload. */
  lemma UntagPayload(payload: string)
    requires Trimmed(payload)
    ensures var inner := if |payload| == 0 then "json" else "json\n" + payload;
            StartsWith(inner, "json") && Strip(inner[4..]) == payload
  {
    var inner := if |payload| == 0 then "json" else "json\n" + payload;
    assert inner[..4] == "json";
    if |payload| > 0 {
      assert inner[4..] == "\n" + payload + "";
      StripByAround("\n", payload, "", IsSpace);
    }
  }

  /** A fence tagged `json` around a trimmed payload unwraps to the payload. */
  lemma FencedJsonRoundTrip(payload: string)
    requires Trimmed(payload)
    ensures StripFence("```json\n" + payload + "\n```") == payload
  {
    var body := "json\n" + payload + "\n";
    var raw := "```" + body + "```";
    assert "```json\n" + payload + "\n```" == raw;
    UnfenceBody(body);
    StripTagged(payload);
    UntagPayload(payload);
  }

  /** An untagged fence around a trimmed payload that does not itself start
      with `json` unwraps to the payload. */
  lemma FencedPlainRoundTrip(payload: string)
    requires Trimmed(payload) && !StartsWith(payload, "json")
    ensures StripFence("```\n" + payload + "\n```") == payload
  {
    var body := "\n" + payload + "\n";
    assert "```\n" + payload + "\n```" == "```" + body + "```";
    UnfenceBody(body);
    StripByAround("\n", payload, "\n", IsSpace);
  }

  // ---------------------------------------------------------------- repair

  /** The actions for which a missing repository is guessed by search. */
  predicate NeedsRepo(a: Action)
  {
    a == SummarizeRepo || a == SummarizeLatestIssue || a == CreateIssue
  }

  /** The repository guess of `parse_command_naturally`: only for the actions
      that need a repository, only when it is missing or empty, and only
      written when the search found a non-empty name. Nothing else changes. */
  function GuessRepo(parsed: Intent, userInput: string, search: string -> Option<seq<Candidate>>): (r: Intent)
    ensures r.(repo := parsed.repo) == parsed
    ensures r.repo != parsed.repo ==> NeedsRepo(parsed.action) && !Truthy(parsed.repo) && Truthy(r.repo)
    ensures NeedsRepo(parsed.action) && !Truthy(parsed.repo) && Truthy(GithubSearchRepo(userInput, search)) ==>
              r.repo == GithubSearchRepo(userInput, search)
    ensures !NeedsRepo(parsed.action) || Truthy(parsed.repo) || !Truthy(GithubSearchRepo(userInput, search)) ==>
              r == parsed
  {
    if NeedsRepo(parsed.action) && !Truthy(parsed.repo) then
      var guess := GithubSearchRepo(userInput, search);
      if Truthy(guess) then parsed.(repo := guess) else parsed
    else parsed
  }

  /** The collaborators of the fallback, as oracles: `extract` is the model's
      answer for the user's text (`None` when the call raises or has no
      usable content), `decode` is `json.loads` plus reading the fields
      (`None` when it raises), `search` the search read, and the last two the
      summarizers of the separate summarizers module. */
  datatype Collaborators = Collaborators(
    extract: string -> Option<string>,
    decode: string -> Option<Intent>,
    search: string -> Option<seq<Candidate>>,
    summarizeAnyRepo: string -> Option<string>,
    summarizeLatestIssue: string -> Option<string>)

  /** Whether the model answered and its unwrapped answer decoded. */
  predicate Decodes(userInput: string, nl: Collaborators)
  {
    nl.extract(userInput).Some? && nl.decode(StripFence(Strip(nl.extract(userInput).value))).Some?
  }

  /** `parse_command_naturally(user_input)`: any failure yields the default
      intent; otherwise the decoded intent with at most its repository
      filled in by the guess. */
  function ParseCommandNaturally(userInput: string, nl: Collaborators): (r: Intent)
    ensures !Decodes(userInput, nl) ==> r == DefaultIntent
    ensures Decodes(userInput, nl) ==>
              var parsed := nl.decode(StripFence(Strip(nl.extract(userInput).value))).value;
              r.(repo := parsed.repo) == parsed &&
              (r.repo != parsed.repo ==> NeedsRepo(parsed.action) && !Truthy(parsed.repo) && Truthy(r.repo))
    ensures Decodes(userInput, nl) ==>
              var parsed := nl.decode(StripFence(Strip(nl.extract(userInput).value))).value;
              var guess := GithubSearchRepo(userInput, nl.search);
              && (NeedsRepo(parsed.action) && !Truthy(parsed.repo) && Truthy(guess) ==> r == parsed.(repo := guess))
              && (!NeedsRepo(parsed.action) || Truthy(parsed.repo) || !Truthy(guess) ==> r == parsed)
  {
    match nl.extract(userInput)
    case None => DefaultIntent
    case Some(content) =>
      match nl.decode(StripFence(Strip(content)))
      case None => DefaultIntent
      case Some(parsed) => GuessRepo(parsed, userInput, nl.search)
  }

  // ---------------------------------------------------------------- dispatch

  /** `repo.split("/")[-1]`: the text after the last slash. */
  function LastSegment(s: string): (r: string)
    ensures '/' !in r
    ensures EndsWith(s, r)
    ensures |r| < |s| ==> s[|s| - |r| - 1] == '/'
  {
    var parts := SplitChar(s, '/');
    JoinSplitChar(s, '/');
    var last := parts[|parts| - 1];
    assert EndsWith(s, last) && (|last| < |s| ==> s[|s| - |last| - 1] == '/') by {
      if |parts| > 1 {
        var init := parts[..|parts| - 1];
        JoinWithSnoc(init, last, '/');
        assert init + [last] == parts;
        var head := JoinWith(init, '/');
        assert s == head + ['/'] + last;
        assert s[|s| - |last|..] == last;
        assert s[|s| - |last| - 1] == '/';
      } else {
        assert s == last;
      }
    }
    last
  }

  /** The name part of an `owner/name` full name. */
  lemma LastSegmentOfFullName(owner: string, name: string)
    requires '/' !in name
    ensures LastSegment(owner + "/" + name) == name
  {
    var s := owner + "/" + name;
    var r := LastSegment(s);
    assert s[|owner|] == '/';
    assert r == s[|s| - |name|..] == name;
  }

  /** Where `route_natural_command` sends an intent. */
  datatype Route =
    | ToSummarizeRepo(repo: string)
    | ToLatestIssue(repo: string)
    | ToCreateRepo(name: string)
    | ToCreateIssue(repo: string, title: string, body: string)
    | NoRoute

  /** The dispatch table: each action needs its field to be non-empty, and
      every other combination, `summarize_specific_issue` included, is left
      unrouted. */
  function Dispatch(i: Intent): (r: Route)
    ensures r.ToSummarizeRepo? <==> i.action == SummarizeRepo && Truthy(i.repo)
    ensures r.ToLatestIssue? <==> i.action == SummarizeLatestIssue && Truthy(i.repo)
    ensures r.ToCreateRepo? <==> i.action == CreateRepo && Truthy(i.repoName)
    ensures r.ToCreateIssue? <==> i.action == CreateIssue && Truthy(i.repo)
    ensures r.ToSummarizeRepo? || r.ToLatestIssue? ==> r.repo == i.repo.value
    ensures r.ToCreateRepo? ==> r.name == i.repoName.value
    ensures r.ToCreateIssue? ==>
              && r.repo == LastSegment(i.repo.value)
              && (Truthy(i.title) ==> r.title == i.title.value)
              && (!Truthy(i.title) ==> r.title == "Issue")
              && (Truthy(i.body) ==> r.body == i.body.value)
              && (!Truthy(i.body) ==> r.body == "")
  {
    if i.action == SummarizeRepo && Truthy(i.repo) then ToSummarizeRepo(i.repo.value)
    else if i.action == SummarizeLatestIssue && Truthy(i.repo) then ToLatestIssue(i.repo.value)
    else if i.action == CreateRepo && Truthy(i.repoName) then ToCreateRepo(i.repoName.value)
    else if i.action == CreateIssue && Truthy(i.repo) then
      ToCreateIssue(LastSegment(i.repo.value), Or(i.title, "Issue"), Or(i.body, ""))
    else NoRoute
  }

  const CreatedRepo: string := "Created repo."
  const FailedRepo: string := "Failed to create repo."
  const CreatedIssue: string := "Issue created."
  const FailedIssue: string := "Failed to create issue."

  /** `route_natural_command(user_text)`: the summarizers' answer, a creation
      reply, or `None` when nothing was routed. Creation always fails. */
  function RouteNaturalCommand(userText: string, nl: Collaborators): (r: Option<string>)
    ensures var route := Dispatch(ParseCommandNaturally(userText, nl));
            && (route.NoRoute? ==> r.None?)
            && (route.ToCreateRepo? ==> r == Some(FailedRepo))
            && (route.ToCreateIssue? ==> r == Some(FailedIssue))
            && (route.ToSummarizeRepo? ==> r == nl.summarizeAnyRepo(route.repo))
            && (route.ToLatestIssue? ==> r == nl.summarizeLatestIssue(route.repo))
  {
    match Dispatch(ParseCommandNaturally(userText, nl))
    case ToSummarizeRepo(repo) => nl.summarizeAnyRepo(repo)
    case ToLatestIssue(repo) => nl.summarizeLatestIssue(repo)
    case ToCreateRepo(name) => Some(if Creation.CreateRepo(name) then CreatedRepo else FailedRepo)
    case ToCreateIssue(repo, title, body) =>
      Some(if Creation.CreateIssue(repo, title, body) then CreatedIssue else FailedIssue)
    case NoRoute => None
  }

  /** When the model fails or its answer does not decode, the fallback routes
      nowhere. */
  lemma UndecodedRoutesNowhere(userText: string, nl: Collaborators)
    requires !Decodes(userText, nl)
    ensures RouteNaturalCommand(userText, nl) == None
  {
  }
}
