/** The structured grammar of the SMS webhook (`sms_webhook`, main.py),
    on the message after `strip()`: the fixed commands are tried in priority
    order (`create repo`, `create issue`, `help`, `summarize`) and anything
    else is left to the natural-language fallback. */
module Grammar {
  import opened Optional
  import opened PyStr
  import opened Digits

  /** What the structured matcher made of the message. */
  datatype Command =
    | NewRepo(name: string)
    | NewIssue(repo: string, title: string, body: string)
    | IssueUsage
    | ShowHelp
    | IssueSummary(ownerRepo: string, number: nat)
    | LatestIssueSummary(ownerRepo: string)
    | RepoSummary(ownerRepo: string)
    | Fallback(text: string)
    | Crash  // the handler raises before any reply is sent

  /** What separates an issue's title from its body. */
  const Separator: string := " -- "

  // ---------------------------------------------------------------- grammars

  predicate IsCreateRepo(text: string)
  {
    StartsWith(Lower(text), "create repo") && |Words(text)| >= 3
  }

  predicate IsCreateIssue(text: string)
  {
    StartsWith(Lower(text), "create issue") && |Words(text)| >= 4
  }

  predicate IsHelp(text: string)
  {
    Lower(text) == "help"
  }

  predicate IsSummarize(text: string)
  {
    StartsWith(Lower(text), "summarize") && |Words(text)| >= 2 && '/' in Words(text)[1]
  }

  /** The `try` block of the `create issue` branch: split at the first
      separator, then take the third token before it as the repository and
      the remaining tokens as the title; either step failing is the usage
      hint. */
  function ParseCreateIssue(text: string): Command
  {
    match IndexOf(text, Separator)
    case None => IssueUsage
    case Some(i) =>
      var pre := Words(text[..i]);
      if |pre| < 3 then IssueUsage
      else NewIssue(pre[2], JoinSpaces(pre[3..]), text[i + |Separator|..])
  }

  /** The `summarize` branch, given its tokens and how the fourth token is
      read as an issue number. */
  function ParseSummarize(parts: seq<string>, token: string -> IssueToken): Command
    requires |parts| >= 2
  {
    var issue := |parts| >= 3 && Lower(parts[2]) == "issue";
    match if issue && |parts| >= 4 then token(parts[3]) else NotANumber
    case IssueNumber(n) => IssueSummary(parts[1], n)
    case Raises => Crash
    case NotANumber => if issue then LatestIssueSummary(parts[1]) else RepoSummary(parts[1])
  }

  /** The tokens ask for a particular issue, and `token` raises on it. */
  predicate TokenRaises(parts: seq<string>, token: string -> IssueToken)
  {
    |parts| >= 4 && Lower(parts[2]) == "issue" && token(parts[3]).Raises?
  }

  /** The grammar cascade of `sms_webhook` on the stripped message, with
      `token` reading the issue number: each command is chosen exactly when
      its grammar matches and no earlier one does, the fallback gets the
      stripped text unchanged, and the handler raises exactly on a
      `summarize` whose issue token raises. */
  function Cascade(text: string, token: string -> IssueToken): (c: Command)
    ensures c.NewRepo? <==> IsCreateRepo(text)
    ensures c.NewIssue? || c.IssueUsage? <==> IsCreateIssue(text)
    ensures c.ShowHelp? <==> IsHelp(text)
    ensures c.Fallback? <==> !IsCreateRepo(text) && !IsCreateIssue(text) && !IsHelp(text) && !IsSummarize(text)
    ensures c.Fallback? ==> c.text == text
    ensures c.IssueSummary? || c.LatestIssueSummary? || c.RepoSummary? ==>
              IsSummarize(text) && c.ownerRepo == Words(text)[1]
    ensures c.Crash? <==> IsSummarize(text) && TokenRaises(Words(text), token)
  {
    GrammarsExclusive(text);
    SummarizeIsNotCreate(text);
    if IsCreateRepo(text) then NewRepo(Words(text)[2])
    else if IsCreateIssue(text) then ParseCreateIssue(text)
    else if IsHelp(text) then ShowHelp
    else if IsSummarize(text) then ParseSummarize(Words(text), token)
    else Fallback(text)
  }

  /** `sms_webhook`'s grammar as written: the issue token is read by
      `isdigit()` and then `int()`. */
  function ClassifyText(text: string): Command
  {
    Cascade(text, IssueTokenAsWritten)
  }

  /** The grammar with the issue token read by the corrected test. It never
      raises, agrees with the written grammar wherever that does not raise,
      and answers a token that made it raise with the latest issue. */
  function ClassifyFixed(text: string): (c: Command)
    ensures !c.Crash?
    ensures !ClassifyText(text).Crash? ==> c == ClassifyText(text)
    ensures ClassifyText(text).Crash? ==> c == LatestIssueSummary(Words(text)[1])
  {
    IssueTokenAgrees();
    Cascade(text, IssueTokenOf)
  }

  /** At most one of the keyword grammars matches: the creation verbs differ
      in their eighth letter, and `help` is too short for either and does
      not start with `summarize`. */
  lemma GrammarsExclusive(text: string)
    ensures !(IsCreateRepo(text) && IsCreateIssue(text))
    ensures IsHelp(text) ==> !IsCreateRepo(text) && !IsCreateIssue(text) && !IsSummarize(text)
  {
    if StartsWith(Lower(text), "create repo") {
      assert Lower(text)[7] == 'r';
    }
    if IsHelp(text) {
      assert Lower(text)[0] == 'h';
    }
  }

  /** A `summarize` message starts with neither creation verb. */
  lemma SummarizeIsNotCreate(text: string)
    ensures IsSummarize(text) ==> !IsCreateRepo(text) && !IsCreateIssue(text)
  {
    if StartsWith(Lower(text), "summarize") {
      assert Lower(text)[0] == 's';
    }
  }

  // ---------------------------------------------------------------- create repo

  /** `create repo` takes the third token as the name. */
  lemma CreateRepoName(text: string)
    requires IsCreateRepo(text)
    ensures ClassifyText(text) == NewRepo(Words(text)[2])
  {
  }

  // ---------------------------------------------------------------- create issue

  /** A well-formed `create issue` splits at the FIRST separator: the
      repository is the third token before it, the title the remaining
      tokens joined by single spaces, and the body everything after it,
      later separators included. */
  lemma CreateIssueSplitsAtFirstSeparator(text: string, i: nat)
    requires IsCreateIssue(text)
    requires IndexOf(text, Separator) == Some(i)
    requires |Words(text[..i])| >= 3
    ensures var pre := Words(text[..i]);
            ClassifyText(text) == NewIssue(pre[2], JoinSpaces(pre[3..]), text[i + 4..])
  {
    GrammarsExclusive(text);
    assert ClassifyText(text) == ParseCreateIssue(text);
  }

  /** A `create issue` with enough tokens but no separator, or fewer than
      three tokens before it, gets the usage hint and never reaches the
      natural-language fallback. */
  lemma CreateIssueUsage(text: string)
    requires IsCreateIssue(text)
    requires IndexOf(text, Separator).None? || |Words(text[..IndexOf(text, Separator).value])| < 3
    ensures ClassifyText(text) == IssueUsage
  {
    GrammarsExclusive(text);
    assert ClassifyText(text) == ParseCreateIssue(text);
  }

  /** Lowering leaves text without ASCII capitals alone. */
  lemma LowerIdentity(s: string)
    requires forall i :: 0 <= i < |s| ==> !('A' <= s[i] <= 'Z')
    ensures Lower(s) == s
  {
  }

  /** A message whose first characters are a lower-case keyword starts with
      that keyword in any case. */
  lemma KeywordPrefix(text: string, keyword: string)
    requires StartsWith(text, keyword)
    requires forall i :: 0 <= i < |keyword| ==> !('A' <= keyword[i] <= 'Z')
    ensures StartsWith(Lower(text), keyword)
  {
    LowerPrefix(text, |keyword|);
    LowerIdentity(keyword);
  }

  /** The head of a space-joined list is its first token and a space. */
  lemma JoinHead(ws: seq<string>, rest: string)
    requires |ws| >= 1
    ensures var t := JoinSpaces(ws) + " " + rest;
            |t| > |ws[0]| && t[..|ws[0]|] == ws[0] && t[|ws[0]|] == ' '
  {
    if |ws| > 1 {
      assert JoinSpaces(ws) + " " + rest == ws[0] + " " + (JoinSpaces(ws[1..]) + " " + rest);
    }
  }

  /** No separator starts inside a space-joined list of tokens none of which
      is `--`. */
  lemma {:induction false} NoSeparatorInJoin(ws: seq<string>, rest: string)
    requires |ws| >= 1
    requires forall k :: 0 <= k < |ws| ==> IsWord(ws[k]) && ws[k] != "--"
    ensures var s := JoinSpaces(ws) + Separator + rest;
            forall j :: 0 <= j < |JoinSpaces(ws)| ==> !OccursAt(s, Separator, j)
    decreases |ws|
  {
    var w := ws[0];
    var s := JoinSpaces(ws) + Separator + rest;
    assert IsWord(w);
    if |ws| == 1 {
      forall j | 0 <= j < |JoinSpaces(ws)|
        ensures !OccursAt(s, Separator, j)
      {
        assert s[j] == w[j];
        NotOccursAt(s, Separator, j, 0);
      }
    } else {
      var tail := JoinSpaces(ws[1..]);
      var t := tail + Separator + rest;
      assert s == (w + " ") + t;
      NoSeparatorInJoin(ws[1..], rest);
      assert t == tail + " " + ("-- " + rest);
      JoinHead(ws[1..], "-- " + rest);
      var w1 := ws[1];
      assert IsWord(w1) && w1 != "--";
      forall j | 0 <= j < |JoinSpaces(ws)|
        ensures !OccursAt(s, Separator, j)
      {
        if j < |w| {
          assert s[j] == w[j];
          NotOccursAt(s, Separator, j, 0);
        } else if j == |w| {
          if |w1| == 1 {
            assert s[j + 2] == t[1] == ' ';
            NotOccursAt(s, Separator, j, 2);
          } else if |w1| == 2 {
            assert t[..2] == w1;
            if w1[0] != '-' {
              assert s[j + 1] == w1[0];
              NotOccursAt(s, Separator, j, 1);
            } else {
              assert w1[1] != '-';
              assert s[j + 2] == w1[1];
              NotOccursAt(s, Separator, j, 2);
            }
          } else {
            assert s[j + 3] == t[2] == w1[2];
            NotOccursAt(s, Separator, j, 3);
          }
        } else {
          var k := j - |w| - 1;
          assert !OccursAt(t, Separator, k);
          OccursAtShift(w + " ", t, Separator, k);
        }
      }
    }
  }

  /** Tokens, a separator and a body, written out, are already stripped. */
  lemma SeparatedStripped(ws: seq<string>, body: string)
    requires |ws| >= 1 && IsWord(ws[0])
    requires |body| > 0 && !IsSpace(body[|body| - 1])
    ensures Strip(JoinSpaces(ws) + Separator + body) == JoinSpaces(ws) + Separator + body
  {
    var text := JoinSpaces(ws) + Separator + body;
    JoinHead(ws, "-- " + body);
    assert text == JoinSpaces(ws) + " " + ("-- " + body);
    assert text[0] == ws[0][0];
    assert text[|text| - 1] == body[|body| - 1];
    assert Trimmed(text);
  }

  /** They split into the tokens, `--` and the body's tokens. */
  lemma SeparatedWords(ws: seq<string>, body: string)
    requires forall k :: 0 <= k < |ws| ==> IsWord(ws[k])
    ensures Words(JoinSpaces(ws) + Separator + body) == ws + ["--"] + Words(body)
  {
    var a := JoinSpaces(ws);
    assert a + Separator + body == a + " " + ("--" + " " + body);
    WordsJoinSpaces(ws);
    WordsSpaceConcat(a, ' ', "--" + " " + body);
    WordsSpaceConcat("--", ' ', body);
    WordsOfWord("--");
  }

  /** Their first separator is the one after the tokens. */
  lemma SeparatedIndex(ws: seq<string>, body: string)
    requires |ws| >= 1
    requires forall k :: 0 <= k < |ws| ==> IsWord(ws[k]) && ws[k] != "--"
    ensures IndexOf(JoinSpaces(ws) + Separator + body, Separator) == Some(|JoinSpaces(ws)|)
  {
    var a := JoinSpaces(ws);
    var text := a + Separator + body;
    NoSeparatorInJoin(ws, body);
    assert text[|a|..|a| + 4] == Separator;
    assert OccursAt(text, Separator, |a|);
  }

  /** The command words in front of a repository and title. */
  lemma CreateIssueWords(repo: string, title: seq<string>)
    ensures var ws := ["create", "issue", repo] + title;
            JoinSpaces(ws) == "create issue " + JoinSpaces([repo] + title)
  {
    var ws := ["create", "issue", repo] + title;
    assert ws[1..] == ["issue", repo] + title;
    assert ws[1..][1..] == [repo] + title;
    var inner := JoinSpaces([repo] + title);
    assert JoinSpaces(ws[1..]) == "issue" + " " + inner;
    assert JoinSpaces(ws) == "create" + " " + ("issue" + " " + inner);
  }

  /** Tokens starting with a `create issue` verb, a separator and a body
      are classified as that issue. */
  lemma ClassifySeparated(ws: seq<string>, body: string)
    requires |ws| >= 3
    requires forall k :: 0 <= k < |ws| ==> IsWord(ws[k]) && ws[k] != "--"
    requires |body| > 0 && !IsSpace(body[|body| - 1])
    requires StartsWith(Lower(JoinSpaces(ws) + Separator + body), "create issue")
    ensures ClassifyText(JoinSpaces(ws) + Separator + body) == NewIssue(ws[2], JoinSpaces(ws[3..]), body)
  {
    var a := JoinSpaces(ws);
    var text := a + Separator + body;
    SeparatedWords(ws, body);
    SeparatedIndex(ws, body);
    assert text[..|a|] == a && text[|a| + 4..] == body;
    WordsJoinSpaces(ws);
    CreateIssueSplitsAtFirstSeparator(text, |a|);
  }

  /** The tokens of a `create issue` command are words and none is `--`
      when the repository and title tokens are such. */
  lemma CreateIssueTokens(repo: string, title: seq<string>)
    requires IsWord(repo) && repo != "--"
    requires forall k :: 0 <= k < |title| ==> IsWord(title[k]) && title[k] != "--"
    ensures var ws := ["create", "issue", repo] + title;
            forall k :: 0 <= k < |ws| ==> IsWord(ws[k]) && ws[k] != "--"
  {
    var ws := ["create", "issue", repo] + title;
    assert IsWord("create") && IsWord("issue");
    forall k | 0 <= k < |ws|
      ensures IsWord(ws[k]) && ws[k] != "--"
    {
      if k >= 3 {
        assert ws[k] == title[k - 3];
      }
    }
  }

  /** A well-formed command built from its parts is read back into exactly
      those parts: repository, title (its words joined by single spaces) and
      body (which may itself contain separators). The text is already
      stripped. */
  lemma CreateIssueRoundTrip(repo: string, title: seq<string>, body: string)
    requires IsWord(repo) && repo != "--"
    requires forall k :: 0 <= k < |title| ==> IsWord(title[k]) && title[k] != "--"
    requires |body| > 0 && !IsSpace(body[|body| - 1])
    ensures var text := "create issue " + JoinSpaces([repo] + title) + Separator + body;
            Strip(text) == text && ClassifyText(text) == NewIssue(repo, JoinSpaces(title), body)
  {
    var ws := ["create", "issue", repo] + title;
    CreateIssueTokens(repo, title);
    var msg := "create issue " + JoinSpaces([repo] + title) + Separator + body;
    var text := JoinSpaces(ws) + Separator + body;
    assert msg == text by {
      CreateIssueWords(repo, title);
    }
    assert Strip(text) == text by {
      SeparatedStripped(ws, body);
    }
    assert StartsWith(Lower(msg), "create issue") by {
      assert msg[..12] == "create issue";
      KeywordPrefix(msg, "create issue");
    }
    assert ws[3..] == title;
    ClassifySeparated(ws, body);
  }

  // ---------------------------------------------------------------- help

  /** `help` matches in any case and with any surrounding whitespace. */
  lemma HelpAnyCase(pre: string, w: string, post: string)
    requires forall i :: 0 <= i < |pre| ==> IsSpace(pre[i])
    requires forall i :: 0 <= i < |post| ==> IsSpace(post[i])
    requires |w| == 4 && forall i :: 0 <= i < 4 ==> LowerChar(w[i]) == "help"[i]
    ensures ClassifyText(Strip(pre + w + post)) == ShowHelp
  {
    assert !IsSpace(w[0]) && !IsSpace(w[3]);
    StripByAround(pre, w, post, IsSpace);
    assert Lower(w) == "help";
  }

  // ---------------------------------------------------------------- summarize

  /** The `summarize` branch: an `issue` keyword (any case) followed by a
      decimal token within the digit limit asks for that issue, one followed
      by any other token that passes
      `isdigit()` but not `int()` makes the handler raise, an `issue` keyword
      otherwise asks for the latest issue, and anything else for the whole
      repository. */
  lemma SummarizeDispatch(text: string)
    requires IsSummarize(text)
    ensures var parts := Words(text);
            var issue := |parts| >= 3 && Lower(parts[2]) == "issue";
            var specific := issue && |parts| >= 4 && IsIssueNumber(parts[3]);
            var raises := issue && |parts| >= 4 && IssueTokenAsWritten(parts[3]).Raises?;
            && (specific ==> ClassifyText(text) == IssueSummary(parts[1], ParseNat(parts[3])))
            && (raises ==> ClassifyText(text) == Crash)
            && (issue && !specific && !raises ==> ClassifyText(text) == LatestIssueSummary(parts[1]))
            && (!issue ==> ClassifyText(text) == RepoSummary(parts[1]))
  {
    SummarizeIsNotCreate(text);
    GrammarsExclusive(text);
    assert ClassifyText(text) == ParseSummarize(Words(text), IssueTokenAsWritten);
  }

  /** `summarize <name> issue ²`: the written grammar raises, the corrected
      one summarizes the latest issue. */
  lemma SummarizeSuperscriptCrashes(name: string)
    requires IsWord(name) && '/' in name
    ensures var text := "summarize " + name + " issue " + "\U{b2}";
            && Strip(text) == text
            && ClassifyText(text) == Crash
            && ClassifyFixed(text) == LatestIssueSummary(name)
  {
    assert IsWord("\U{b2}");
    SuperscriptRaises();
    SummarizeRaisingToken(name, "\U{b2}");
  }

  /** `summarize <name> issue <digits>` with more decimal digits than `int()`
      converts: the written grammar raises, the corrected one summarizes the
      latest issue. */
  lemma SummarizeLongNumberCrashes(name: string, tok: string)
    requires IsWord(name) && '/' in name
    requires IsDecimal(tok) && |tok| > MaxIntDigits
    ensures var text := "summarize " + name + " issue " + tok;
            && Strip(text) == text
            && ClassifyText(text) == Crash
            && ClassifyFixed(text) == LatestIssueSummary(name)
  {
    assert IsWord(tok) by {
      forall i | 0 <= i < |tok|
        ensures !IsSpace(tok[i])
      {
        assert IsAsciiDigit(tok[i]);
      }
    }
    LongDecimalRaises(tok);
    SummarizeRaisingToken(name, tok);
  }

  /** An issue token that passes `isdigit()` but not `int()` makes the
      written grammar raise, while the corrected one reads it as no number
      and summarizes the latest issue. */
  lemma SummarizeRaisingToken(name: string, tok: string)
    requires IsWord(name) && '/' in name && IsWord(tok)
    requires IssueTokenAsWritten(tok).Raises?
    ensures var text := "summarize " + name + " issue " + tok;
            && Strip(text) == text
            && ClassifyText(text) == Crash
            && ClassifyFixed(text) == LatestIssueSummary(name)
  {
    SummarizeIssueText(name, tok);
    LowerIdentity("issue");
    SummarizeDispatch("summarize " + name + " issue " + tok);
  }

  /** `summarize <name> issue <token>` is already stripped, splits into its
      four tokens and is a `summarize` command. */
  lemma SummarizeIssueText(name: string, tok: string)
    requires IsWord(name) && '/' in name && IsWord(tok)
    ensures var text := "summarize " + name + " issue " + tok;
            && Strip(text) == text
            && Words(text) == ["summarize", name, "issue", tok]
            && IsSummarize(text)
  {
    SummarizeIssueStripped(name, tok);
    SummarizeIssueWords(name, tok);
    SummarizeIssuePrefix(name, tok);
  }

  lemma SummarizeIssueStripped(name: string, tok: string)
    requires IsWord(tok)
    ensures var text := "summarize " + name + " issue " + tok;
            Strip(text) == text
  {
    var text := "summarize " + name + " issue " + tok;
    assert Trimmed(text) by {
      assert text[0] == 's' && text[|text| - 1] == tok[|tok| - 1];
    }
  }

  lemma SummarizeIssueWords(name: string, tok: string)
    requires IsWord(name) && IsWord(tok)
    ensures Words("summarize " + name + " issue " + tok) == ["summarize", name, "issue", tok]
  {
    var ws := ["summarize", name, "issue", tok];
    SummarizeIssueJoin(name, tok);
    assert IsWord("summarize") && IsWord("issue");
    WordsJoinSpaces(ws);
  }

  lemma SummarizeIssuePrefix(name: string, tok: string)
    ensures StartsWith(Lower("summarize " + name + " issue " + tok), "summarize")
  {
    var text := "summarize " + name + " issue " + tok;
    assert text[..9] == "summarize";
    KeywordPrefix(text, "summarize");
  }

  lemma SummarizeIssueJoin(name: string, tok: string)
    ensures JoinSpaces(["summarize", name, "issue", tok]) == "summarize " + name + " issue " + tok
  {
    var ws := ["summarize", name, "issue", tok];
    assert ws[1..][1..][1..] == [tok];
    assert JoinWith(ws[1..][1..][1..], ' ') == tok;
    assert JoinWith(ws[1..][1..], ' ') == "issue" + " " + tok;
    assert JoinWith(ws[1..], ' ') == name + " " + ("issue" + " " + tok);
    assert JoinWith(ws, ' ') == "summarize" + " " + (name + " " + ("issue" + " " + tok));
  }

  /** `create repo <name> ...` built from its tokens is read back as the
      first of them, and the text is already stripped. */
  lemma CreateRepoRoundTrip(ws: seq<string>)
    requires |ws| >= 1
    requires forall k :: 0 <= k < |ws| ==> IsWord(ws[k])
    ensures var text := "create repo " + JoinSpaces(ws);
            Strip(text) == text && ClassifyText(text) == NewRepo(ws[0])
  {
    CreateRepoStripped(ws);
    CreateRepoWords(ws);
    CreateRepoPrefix(ws);
    CreateRepoName("create repo " + JoinSpaces(ws));
  }

  lemma CreateRepoStripped(tail: seq<string>)
    requires |tail| >= 1
    requires forall k :: 0 <= k < |tail| ==> IsWord(tail[k])
    ensures var text := "create repo " + JoinSpaces(tail);
            Strip(text) == text
  {
    var text := "create repo " + JoinSpaces(tail);
    JoinSpacesTrimmed(tail);
    assert Trimmed(text) by {
      assert text[0] == 'c' && text[|text| - 1] == JoinSpaces(tail)[|JoinSpaces(tail)| - 1];
    }
  }

  lemma CreateRepoPrefix(tail: seq<string>)
    ensures StartsWith(Lower("create repo " + JoinSpaces(tail)), "create repo")
  {
    var text := "create repo " + JoinSpaces(tail);
    assert text[..11] == "create repo";
    KeywordPrefix(text, "create repo");
  }

  lemma CreateRepoWords(tail: seq<string>)
    requires |tail| >= 1
    requires forall k :: 0 <= k < |tail| ==> IsWord(tail[k])
    ensures Words("create repo " + JoinSpaces(tail)) == ["create", "repo"] + tail
  {
    var ws := ["create", "repo"] + tail;
    CreateRepoJoin(tail);
    assert forall k :: 0 <= k < |ws| ==> IsWord(ws[k]) by {
      assert IsWord("create") && IsWord("repo");
      forall k | 0 <= k < |ws|
        ensures IsWord(ws[k])
      {
        if k >= 2 {
          assert ws[k] == tail[k - 2];
        }
      }
    }
    WordsJoinSpaces(ws);
  }

  lemma CreateRepoJoin(tail: seq<string>)
    requires |tail| >= 1
    ensures JoinSpaces(["create", "repo"] + tail) == "create repo " + JoinSpaces(tail)
  {
    var ws := ["create", "repo"] + tail;
    assert ws[1..] == ["repo"] + tail;
    assert ws[1..][1..] == tail;
    assert JoinSpaces(ws[1..]) == "repo" + " " + JoinSpaces(tail);
    assert JoinSpaces(ws) == "create" + " " + ("repo" + " " + JoinSpaces(tail));
  }

  /** A space-joined list of tokens neither starts nor ends with whitespace. */
  lemma {:induction false} JoinSpacesTrimmed(ws: seq<string>)
    requires |ws| >= 1
    requires forall k :: 0 <= k < |ws| ==> IsWord(ws[k])
    ensures |JoinSpaces(ws)| > 0 && Trimmed(JoinSpaces(ws))
    decreases |ws|
  {
    assert IsWord(ws[0]);
    if |ws| > 1 {
      JoinSpacesTrimmed(ws[1..]);
      var tail := JoinSpaces(ws[1..]);
      assert JoinSpaces(ws) == ws[0] + [' '] + tail;
      assert JoinSpaces(ws)[|JoinSpaces(ws)| - 1] == tail[|tail| - 1];
    }
  }

  /** `summarize <name>` for a single slash-holding token is the repository
      summary of that name. */
  lemma SummarizeName(name: string)
    requires IsWord(name) && '/' in name
    ensures var text := "summarize " + name;
            Strip(text) == text && ClassifyText(text) == RepoSummary(name)
  {
    var text := "summarize " + name;
    var ws := ["summarize", name];
    assert text == JoinSpaces(ws) by {
      assert ws[1..] == [name];
      assert JoinWith(ws[1..], ' ') == name;
      assert JoinWith(ws, ' ') == ws[0] + [' '] + JoinWith(ws[1..], ' ');
    }
    assert Trimmed(text) by {
      assert text[|text| - 1] == name[|name| - 1];
    }
    WordsJoinSpaces(ws);
    assert text[..9] == "summarize";
    KeywordPrefix(text, "summarize");
    SummarizeDispatch(text);
  }
}
