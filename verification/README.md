# git-sms: a Dafny model of the SMS webhook and its natural-language fallback

git-sms answers text messages about GitHub repositories. An SMS arrives at
`POST /webhook`. The body is stripped and matched against a small command
grammar, tried in this order:

- `create repo <name>`;
- `create issue <repo> <title> -- <body>`;
- `help`;
- `summarize <owner/repo> [issue [N]]`.

Each command is answered by its handler. Creation is disabled, so both
creation commands report failure. Summaries are produced by a chat model and
capped at 1000 characters. A message that matches no command goes to the
natural-language router. The router asks the model for a JSON intent, unwraps
any Markdown fence around it, guesses a missing repository by GitHub search,
and dispatches the intent. The reply is always wrapped, HTML-escaped, in a
fixed TwiML envelope.

The model is pure Dafny: functions over strings and datatypes, and lemmas
about them. The GitHub reads, the chat model, JSON decoding and the separate
summarizers module are oracles. Each one is a function-typed field of a
datatype, so every property holds for every behaviour those collaborators
could have.

Modules, one file each:

| module | file | models |
|---|---|---|
| `Optional` | optional.dfy | `None`, Python truthiness of an optional string, `x or fallback` |
| `PyStr` | pystr.dfy | `strip`, `split()`, `split(c)`, `lower`, `find`/`in`, `join`, with round-trip lemmas |
| `Digits` | digits.dfy | `isdigit`, `int`, `str` on naturals, and the issue-number token |
| `Reply` | reply.dfy | `html.escape` and the `twilio_reply` envelope |
| `Creation` | creation.dfy | the disabled `create_repo` / `create_issue` |
| `Summaries` | summaries.dfy | `ask_openai`, the `owner/repo` split, the issue thread, `summarize_*` |
| `Search` | search.dfy | `github_search_repo` and its three-tier ranking |
| `Router` | router.dfy | `parse_command_naturally` (fence, repair) and `route_natural_command` |
| `Grammar` | grammar.dfy | the command grammar of `sms_webhook` on the stripped text |
| `Webhook` | webhook.dfy | `sms_webhook` end to end: grammar, handlers, fallback, envelope |

Python's `str.lower()` is modelled on ASCII letters only. All keywords the
grammar compares against are lower-case ASCII without the letter `k`. The
only non-ASCII characters whose Python lower case contains ASCII letters are
U+212A (Kelvin sign, giving `k`) and U+0130 (giving `i` followed by a
combining dot). So the keyword tests of the grammar are exact. Whitespace is
exactly Python's `str.isspace` set.

Five behaviours of the code that are easy to miss, and that the model keeps:

- `0` is accepted as an issue number, because `"0".isdigit()` holds.
- An `owner/repo` with an empty side, such as `/x`, passes the split, which
  only requires exactly one `/`.
- The router's dispatch table has no entry for `summarize_specific_issue`, so
  that intent is answered with "Unrecognized command".
- An issue token such as `²` passes `isdigit()`, but `int()` raises on it
  outside any `try`. So `summarize a/b issue ²` gets no reply at all. The
  model keeps this crash as the `Crash` command; `Grammar.ClassifyFixed`
  gives the corrected reading beside it (see Findings).
- `int()` also raises on a decimal token of more than 4300 digits, Python's
  default limit on converting a string to an integer (Python 3.11 and later
  releases with that limit). Such a token is a `Crash` too. An SMS body is at
  most 1600 characters, so only a request posted to the webhook directly can
  carry one.

## Model

| member | source | states |
|---|---|---|
| PyStr.Strip | main.py:57 | the result has no leading or trailing whitespace and is a piece of the input with only whitespace before and after it; text already without outer whitespace is unchanged |
| PyStr.StripPadded | main.py:57 | a trimmed text surrounded by whitespace strips to exactly that text |
| PyStr.WordsBlank | main.py:59 | `split()` gives no tokens exactly when the text is all whitespace |
| PyStr.WordsOfWord | main.py:59 | a single whitespace-free token splits to itself |
| PyStr.WordsSpaceConcat | main.py:59 | splitting two texts joined by a whitespace character gives the tokens of the first followed by those of the second; with the two lemmas above this fixes `split()` on every input |
| PyStr.WordsJoinSpaces | main.py:69-70 | splitting the single-space join of whitespace-free tokens gives back those tokens |
| PyStr.SplitCharJoin | main.py:122 | splitting the `c`-join of `c`-free parts at `c` gives back the parts |
| PyStr.JoinSplitChar | main.py:122 | joining the pieces of `split(c)` with `c` rebuilds the string |
| PyStr.SplitCharCount | main.py:122 | `split(c)` has one more piece than the string has `c` characters |
| PyStr.Lower | main.py:61-89 | `str.lower()` on ASCII letters: same length, each character lowered on its own |
| PyStr.IndexOf | main.py:68 | `find`: the first position where the pattern occurs, with no earlier occurrence; `None` exactly when it never occurs |
| Digits.ParseNatToString | main.py:195 | writing a natural in decimal and parsing it back gives the same number |
| Digits.SuperscriptRaises | main.py:85-86 | the superscript `²` passes the `isdigit()` guard, yet `int()` raises on it |
| Digits.IssueTokenAsWritten | main.py:85-86 | the token test as written: a token is an issue number exactly when it is decimal with at most 4300 digits, with its decimal value; it raises exactly when it passes `isdigit()` but is not such a number; otherwise it is no number |
| Digits.LongDecimalRaises | main.py:85-86 | a decimal token of more than 4300 digits passes `isdigit()` and then makes `int()` raise; the corrected test reads it as no number |
| Digits.IssueTokenOf | main.py:85-86 | corrected token test: a token is an issue number exactly when `int()` converts it (decimal, at most 4300 digits), its value is the decimal value, and it never raises |
| Digits.IssueTokenAgrees | main.py:85-86 | on every token the written test does not crash on, the corrected test gives the same answer |
| Digits.IssueTokenRoundTrip | main.py:85-87 | every issue number of at most 4300 decimal digits is read back as itself, by both token tests |
| Reply.Escape | main.py:204 | the escaped text holds no raw `<`, `>`, `"` or `'`, every `&` in it opens one of the five entity references, and it is never shorter than the input |
| Reply.UnescapeEscape | main.py:204 | escaping loses nothing: unescaping the escaped text gives the original |
| Reply.RawAmpersandRejected | main.py:204-207 | an envelope whose message holds a raw `&` (`AT&T`) is not a well-formed envelope |
| Reply.TwilioReply | main.py:202-209 | the envelope starts with the XML header and `<Message>`, ends with `</Message>`, a line break and `</Response>`, and between them holds no raw `<`, `>`, `"` or `'` and no `&` outside an entity reference |
| Reply.ReplyRoundTrip | main.py:204-208 | reading the message back out of the envelope gives the reply text, or "No content." when the reply is missing or empty |
| Creation.CreateRepo | main.py:110-113 | repository creation never succeeds |
| Creation.CreateIssue | main.py:115-118 | issue creation never succeeds |
| Summaries.CapSummary | main.py:38-53 | the summary is at most 1000 characters; it is either the whole stripped answer or a fixed reply, and never a truncated answer; an over-long answer becomes the "too long" reply; no answer, no choices or an exception become fixed replies |
| Summaries.CapBoundary | main.py:45-49 | a stripped answer of exactly 1000 characters is kept, and one of 1001 characters is replaced by the "too long" reply |
| Summaries.AskOpenAI | main.py:23-53 | the model is asked the prompt plus the length instruction; a stripped answer of at most 1000 characters is returned as is, a longer one becomes the "too long" reply, no choices the "no summary" reply, and an exception or missing (null) content the failure reply; empty content strips to the empty string and is returned as is |
| Summaries.SplitOwnerRepo | main.py:121-124 | the split succeeds exactly when the name has one `/`; the two parts are slash-free and joined by `/` rebuild the name |
| Summaries.SplitOwnerRepoJoin | main.py:122 | every slash-free owner and repository joined by `/` splits back into the same pair |
| Summaries.ThreadTextIsJoin | main.py:195-197 | the thread text is the header, the body and each comment, joined by newlines, with the comments in the order the read returned them |
| Summaries.ThreadRoundTrip | main.py:195-197 | when no field spans lines, splitting the thread at newlines recovers the header, the body and every comment |
| Summaries.SummarizeIssueThread | main.py:184-200 | no summary exactly when the issue or comments read fails; otherwise the answer to the thread preamble followed by the header, body and comments joined by newlines |
| Summaries.SummarizeAnyRepo | main.py:120-159 | a name without exactly one `/` gets the format hint; otherwise no summary exactly when the repository reads fail, else the answer to the prompt built from those reads |
| Summaries.SummarizeLatestIssue | main.py:161-174 | the format hint for a bad name; no summary when there is no open issue; otherwise the thread summary of the first open issue |
| Summaries.SummarizeSpecificIssue | main.py:176-182 | the format hint for a bad name; otherwise the thread summary of the given issue of the split owner and repository |
| Search.PickRepo | natural_language_router.py:36-56 | no pick exactly when there are no candidates; the pick is always a returned full name; the first strong match wins; only with no strong match, the first soft match wins; with neither, the most-starred first item wins |
| Search.StrongBeatsEarlierSoft | natural_language_router.py:38-48 | on the list `[baz (description "a foo-cli tool"), foo-cli]` for the query `foo-cli`, the strong match in second place is picked over the soft match in first place |
| Search.SearchTerms | natural_language_router.py:29 | the search terms hold no whitespace, and when no word holds a `+`, splitting them at `+` recovers the query's words |
| Search.GithubSearchRepo | natural_language_router.py:23-56 | no repository exactly when the read fails or returns no candidates; otherwise the ranking's pick among the candidates returned for the query's terms |
| Router.StripFence | natural_language_router.py:93-96 | an answer that does not open with three backticks is left unchanged; an unwrapped fence is whitespace-trimmed |
| Router.FencedJsonRoundTrip | natural_language_router.py:93-96 | a `json`-tagged fence around a trimmed payload unwraps to exactly that payload |
| Router.FencedPlainRoundTrip | natural_language_router.py:93-96 | an untagged fence around a trimmed payload that does not start with `json` unwraps to exactly that payload |
| Router.GuessRepo | natural_language_router.py:101-105 | only the repository can change, and only for the three actions that need one, when it was missing or empty and the search found a name; in that case it becomes the found name |
| Router.ParseCommandNaturally | natural_language_router.py:80-110 | a model failure or an answer that does not decode gives the default `unknown` intent; otherwise the decoded intent, whose missing repository, for the three actions that need one, is replaced by the search's guess when that is non-empty, and which is otherwise unchanged |
| Router.LastSegment | natural_language_router.py:127 | `repo.split("/")[-1]`: a slash-free suffix of the name that starts right after a `/` or at the start |
| Router.LastSegmentOfFullName | natural_language_router.py:127 | the last segment of `owner/name` is `name` |
| Router.Dispatch | natural_language_router.py:115-129 | each action is routed exactly when its required field is non-empty, with the fields it passes on; the issue title defaults to "Issue" and the body to empty; every other intent is unrouted |
| Router.RouteNaturalCommand | natural_language_router.py:112-129 | an unrouted intent gives nothing; creation intents give the fixed failure replies; summary intents give the summarizers' answers for the routed repository |
| Router.UndecodedRoutesNowhere | natural_language_router.py:108-110 | when the model fails or its answer does not decode, the fallback gives nothing |
| Grammar.Cascade | main.py:57-102 | each command is chosen exactly when its grammar matches and no earlier grammar does; unmatched text goes to the fallback unchanged; a summary command names the second token; the handler raises exactly for a `summarize ... issue <token>` whose token reader raises |
| Grammar.ClassifyFixed | main.py:85-86 | with the corrected token reader the handler never raises, agrees with the written one wherever that does not raise, and otherwise asks for the latest issue |
| Grammar.SummarizeRaisingToken | main.py:83-87 | `summarize <name> issue <token>`, for a token that passes `isdigit()` but not `int()`, raises under the written grammar and asks for the latest issue under the corrected one |
| Grammar.SummarizeLongNumberCrashes | main.py:85-86 | `summarize <name> issue <digits>` with more than 4300 digits raises under the written grammar and asks for the latest issue under the corrected one |
| Grammar.SummarizeSuperscriptCrashes | main.py:85-86 | `summarize <name> issue ²` raises under the written grammar and asks for the latest issue under the corrected one |
| Grammar.GrammarsExclusive | main.py:61-83 | no text matches both creation grammars, and `help` matches no other grammar |
| Grammar.SummarizeIsNotCreate | main.py:61-83 | a `summarize` text matches neither creation grammar |
| Grammar.CreateRepoName | main.py:61-63 | `create repo` takes the third token as the repository name |
| Grammar.CreateIssueSplitsAtFirstSeparator | main.py:66-71 | a well-formed `create issue` splits at the first ` -- `: the repository is the third token before it, the title the remaining tokens, and the body all the rest, later separators included |
| Grammar.CreateIssueUsage | main.py:66-74 | a `create issue` with no ` -- `, or with fewer than three tokens before it, gets the usage hint and never reaches the fallback |
| Grammar.CreateRepoRoundTrip | main.py:61-63 | `create repo` followed by whitespace-free tokens is already stripped and is read back as a repository named by the first of them |
| Grammar.CreateIssueRoundTrip | main.py:66-71 | a command built from a repository, title words and a body is already stripped and is read back into exactly that repository, title and body |
| Grammar.HelpAnyCase | main.py:57-76 | `help` in any letter case and with any surrounding whitespace is the help command |
| Grammar.SummarizeDispatch | main.py:83-94 | `issue` (any case) then a decimal token of at most 4300 digits asks for that issue; `issue` then any other token that passes `isdigit()` raises; `issue` otherwise asks for the latest issue; anything else asks for the repository |
| Grammar.SummarizeName | main.py:83-94 | `summarize <name>` with one slash-holding token is the repository summary of that name |
| Webhook.Answer | main.py:61-102 | every command that does not raise gets a non-empty reply text |
| Webhook.Respond | main.py:61-102 | there is no reply exactly when the handler raises; a reply is never empty, so the envelope's "No content." never replaces it |
| Webhook.SmsWebhook | main.py:56-102 | no envelope exactly when the message is a `summarize ... issue <token>` whose token raises; otherwise a well-formed envelope (no raw `<`, `>`, `"` or `'` between the fixed head and tail, and every `&` there opening an entity reference) that carries exactly the reply chosen for the stripped message |
| Webhook.SmsWebhookCorrected | main.py:56-102 | with the corrected token reader every message gets a well-formed envelope (in the same sense) carrying its reply, and it is the written handler's envelope wherever that one exists |
| Webhook.CreationFails | main.py:61-74 | both creation commands are answered with a failure naming the repository |
| Webhook.CreateRepoAlwaysFails | main.py:61-64 | every `create repo` message is answered with the failure reply naming its third token |
| Webhook.CreateIssueUsageReply | main.py:66-74 | a malformed `create issue` message is answered with the usage hint |
| Webhook.HelpLines | main.py:77-81 | the help text is exactly three lines: the heading and the two summarize forms |
| Webhook.HelpReply | main.py:76-81 | a message is the help command exactly when its stripped text is `help` in any case, and it is then answered with the help text |
| Webhook.SummaryReplies | main.py:85-94 | each summary command is answered with the summary, or with its own fixed reply when the summary is missing or empty |
| Webhook.SummarizeReply | main.py:83-94 | a `summarize` message is answered with the summary its tokens ask for, or with that case's fixed reply; one whose issue token raises gets no reply |
| Webhook.RepoNotFound | main.py:133-134 | a repository the GitHub reads cannot find gets the "could not summarize" reply |
| Webhook.RepoNotFoundMessage | main.py:83-94 | the same, starting from the text `summarize <owner>/<repo>` |
| Webhook.UnmatchedReply | main.py:96-102 | with no grammar matched, a non-empty fallback answer is the reply, and otherwise the "Unrecognized command" reply is |
| Webhook.UndecodedIsUnrecognized | main.py:96-102 | an unmatched message whose model answer fails to decode gets the "Unrecognized command" reply |

## Left out

- HTTP and the GitHub REST API are not modelled. The repository, README, issue, comment and search reads are oracles (`Summaries.GitHub`, `Router.Collaborators.search`). The search oracle is `None` for a failed or raising read, as `github_search_repo` catches every exception.
- Summaries.GitHub: the reads of main.py:130-131, 168 and 187-188 are outside any `try`, so a read that raises (a network error) makes the whole request fail with no reply. The oracles only report a failed read as `None`, so the model answers such a request with the fixed "could not summarize" reply instead of modelling the crash.
- The Azure chat-completions client is an oracle, and so is `json.loads` together with reading the intent's fields. The prompt wording of `parse_command_naturally` is left out; the model sees only the answer for the user's text.
- The prompt `summarize_any_repo` assembles is produced inside the `repoPrompt` oracle. That covers the README download, its truncation to 4000 characters and the `get(...) or 'Unknown'` defaults.
- summarizers.py is not part of this model. The router's two summarizers are the oracle fields `summarizeAnyRepo` and `summarizeLatestIssue`.
- commands.py does not define `create_repo` or `create_issue`, so the router's import of them would fail when the module loads. The model has the router use the same disabled creation stubs as the webhook.
- FastAPI routing, form parsing, the response media type, `load_dotenv`, the environment variables, the `From` number and every `print` are left out.
- Summaries.IssueThread: a comment whose body is JSON `null` makes the code raise a `TypeError`; the model treats such a body like a missing one. Titles and bodies that are JSON numbers or objects are not modelled.
- Router.Intent: intent fields holding JSON values other than strings or null are not modelled. For example, a list as `repo` would make `repo.split` raise.
- Search.PickRepo: case-insensitive matching lowers ASCII letters only, so rankings that depend on Python's lower-casing of other letters are not modelled.
- Digits.IsPyDigit: only the ASCII, superscript and subscript digits are modelled. Other characters with the Unicode digit property are treated as non-digits.
- Digits.IssueTokenRoundTrip: stated only for numbers of at most 4300 digits, because `int()` on a longer decimal string raises (and so does `str()` on a larger number).
- Digits.IssueTokenOf: decimal digits of other scripts, which both `isdigit()` and `int()` accept in Python, are treated as non-numbers.
- Router.RouteNaturalCommand: the summarizer oracles may themselves return `None`, so "routed nowhere" implies no answer but not the converse.

## Findings

| source | as written | input that shows it | evidently intended | confidence | as-written member | corrected member |
|---|---|---|---|---|---|---|
| main.py:85-86 | the issue token is guarded by `parts[3].isdigit()` and then converted by `int(parts[3])` outside any `try` | `summarize a/b issue ²`: `"²".isdigit()` holds, `int("²")` raises `ValueError`, and the request fails without an SMS reply | accept as an issue number only what `int()` converts (`isdecimal()` within the digit limit), so the message summarizes the latest issue | high, not executed | Grammar.SummarizeSuperscriptCrashes | Grammar.ClassifyFixed |
| main.py:85-86 | the same guard lets through a decimal token of any length | `summarize a/b issue ` followed by 4301 digits, posted to the webhook directly: `isdigit()` holds, `int()` exceeds the 4300-digit limit and raises `ValueError`, and the request fails | accept only decimal tokens within the digit limit, so the message summarizes the latest issue | medium (needs a Python with the digit limit; an SMS cannot carry the token), not executed | Grammar.SummarizeLongNumberCrashes | Grammar.ClassifyFixed |
