/** Repository search (`github_search_repo`, natural_language_router.py):
    the query becomes search terms, the search read returns up to ten
    candidates ordered by stars, and one of them is picked by a three-tier
    cascade: strong match, soft match, first item. */
module Search {
  import opened Optional
  import opened PyStr

  /** One search result: `name`, `full_name` and the nullable `description`. */
  datatype Candidate = Candidate(name: string, fullName: string, description: Option<string>)

  /** `(item.get("description") or "")`. */
  function DescriptionText(c: Candidate): string
  {
    Or(c.description, "")
  }

  /** Tier 1: the bare name equals the query, or the full name contains it,
      ignoring case. */
  predicate StrongMatch(query: string, c: Candidate)
  {
    Lower(c.name) == Lower(query) || Contains(Lower(c.fullName), Lower(query))
  }

  /** Tier 2: the description or the bare name contains the query, ignoring
      case. */
  predicate SoftMatch(query: string, c: Candidate)
  {
    Contains(Lower(DescriptionText(c)), Lower(query)) || Contains(Lower(c.name), Lower(query))
  }

  /** The index of the first item satisfying `p`, or `|items|`. */
  function FirstWhere(items: seq<Candidate>, p: Candidate -> bool): (k: nat)
    ensures k <= |items|
    ensures k < |items| ==> p(items[k])
    ensures forall j :: 0 <= j < k ==> !p(items[j])
    decreases |items|
  {
    if |items| == 0 || p(items[0]) then 0 else 1 + FirstWhere(items[1..], p)
  }

  /** The ranking cascade of `github_search_repo` over the returned items. */
  function PickRepo(query: string, items: seq<Candidate>): (r: Option<string>)
    // a result exactly when there is a candidate, and always one of theirs
    ensures r.None? <==> |items| == 0
    ensures r.Some? ==> exists i :: 0 <= i < |items| && items[i].fullName == r.value
    // tier 1: the first strong match, wherever it sits in the list
    ensures forall i :: (0 <= i < |items| && StrongMatch(query, items[i]) &&
                         (forall j :: 0 <= j < i ==> !StrongMatch(query, items[j]))) ==>
              r == Some(items[i].fullName)
    // tier 2: only when nothing matches strongly, the first soft match
    ensures forall i :: (0 <= i < |items| && SoftMatch(query, items[i]) &&
                         (forall j :: 0 <= j < |items| ==> !StrongMatch(query, items[j])) &&
                         (forall j :: 0 <= j < i ==> !SoftMatch(query, items[j]))) ==>
              r == Some(items[i].fullName)
    // tier 3: otherwise the first (most starred) item
    ensures (0 < |items| &&
             forall j :: 0 <= j < |items| ==> !StrongMatch(query, items[j]) && !SoftMatch(query, items[j])) ==>
              r == Some(items[0].fullName)
  {
    var strong := FirstWhere(items, c => StrongMatch(query, c));
    if strong < |items| then Some(items[strong].fullName)
    else
      var soft := FirstWhere(items, c => SoftMatch(query, c));
      if soft < |items| then Some(items[soft].fullName)
      else if |items| > 0 then Some(items[0].fullName)
      else None
  }

  /** A strong match further down the list beats a soft match at the top. */
  lemma StrongBeatsEarlierSoft()
    ensures PickRepo("foo-cli", [Candidate("baz", "qux/baz", Some("a foo-cli tool")),
                                  Candidate("foo-cli", "bar/foo-cli", None)])
            == Some("bar/foo-cli")
  {
    var items := [Candidate("baz", "qux/baz", Some("a foo-cli tool")),
                  Candidate("foo-cli", "bar/foo-cli", None)];
    assert StrongMatch("foo-cli", items[1]) by {
      assert Lower("foo-cli") == "foo-cli";
    }
    assert !StrongMatch("foo-cli", items[0]) by {
      assert Lower("baz") == "baz";
      assert Lower("qux/baz") == "qux/baz";
      assert Lower("foo-cli") == "foo-cli";
      assert "qux/baz"[0..7] != "foo-cli" by {
        assert "qux/baz"[0..7][0] == 'q';
      }
      assert IndexFrom("qux/baz", "foo-cli", 1) == None;
    }
  }

  /** `"+".join(query.strip().split())`: the query's words joined by `+`;
      the terms carry no whitespace, and when no word holds a `+` the words
      can be read back by splitting at `+`. */
  function SearchTerms(query: string): (terms: string)
    ensures forall i :: 0 <= i < |terms| ==> terms[i] == '+' || !IsSpace(terms[i])
    ensures var ws := Words(Strip(query));
            |ws| > 0 && (forall i :: 0 <= i < |ws| ==> '+' !in ws[i]) ==> SplitChar(terms, '+') == ws
  {
    var ws := Words(Strip(query));
    JoinNoSpace(ws, '+');
    var terms := JoinWith(ws, '+');
    assert |ws| > 0 && (forall i :: 0 <= i < |ws| ==> '+' !in ws[i]) ==> SplitChar(terms, '+') == ws by {
      if |ws| > 0 && (forall i :: 0 <= i < |ws| ==> '+' !in ws[i]) {
        SplitCharJoin(ws, '+');
      }
    }
    terms
  }

  /** Joining tokens with a non-space separator leaves no whitespace. */
  lemma {:induction false} JoinNoSpace(ws: seq<string>, sep: char)
    requires forall i :: 0 <= i < |ws| ==> IsWord(ws[i])
    ensures forall i :: 0 <= i < |JoinWith(ws, sep)| ==> JoinWith(ws, sep)[i] == sep || !IsSpace(JoinWith(ws, sep)[i])
    decreases |ws|
  {
    if |ws| > 1 {
      JoinNoSpace(ws[1..], sep);
      var rest := JoinWith(ws[1..], sep);
      var s := ws[0] + [sep] + rest;
      forall i | 0 <= i < |s|
        ensures s[i] == sep || !IsSpace(s[i])
      {
        if i < |ws[0]| {
          assert IsWord(ws[0]);
          assert s[i] == ws[0][i];
        } else if i > |ws[0]| {
          var k := i - |ws[0]| - 1;
          assert s[i] == rest[k];
          assert rest[k] == sep || !IsSpace(rest[k]);
        } else {
          assert s[i] == sep;
        }
      }
    }
  }

  /** `github_search_repo(query)`: `search` is the search read, `None` when it
      is not ok or raises. Any result is the full name of a candidate that
      the read returned for these terms. */
  function GithubSearchRepo(query: string, search: string -> Option<seq<Candidate>>): (r: Option<string>)
    ensures r.Some? ==> search(SearchTerms(query)).Some?
    ensures r.Some? ==> var items := search(SearchTerms(query)).value;
              exists i :: 0 <= i < |items| && items[i].fullName == r.value
    ensures r.None? <==> search(SearchTerms(query)).None? || |search(SearchTerms(query)).value| == 0
    ensures search(SearchTerms(query)).Some? ==> r == PickRepo(query, search(SearchTerms(query)).value)
  {
    match search(SearchTerms(query))
    case None => None
    case Some(items) => PickRepo(query, items)
  }
}
