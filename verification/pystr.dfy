/** The Python string operations the bot relies on: `strip()`, `lower()`,
    `startswith`, `in`, `find`, whitespace `split()`, `split(c)` and
    `sep.join(...)`, over strings of Unicode scalar values. */
module PyStr {
  import opened Optional

  /** Python's `str.isspace()`: the characters `split()` and `strip()` treat
      as whitespace. */
  predicate IsSpace(c: char)
  {
    || c == ' '
    || '\t' <= c <= '\r'
    || '\U{1c}' <= c <= '\U{1f}'
    || c == '\U{85}'
    || c == '\U{a0}'
    || c == '\U{1680}'
    || '\U{2000}' <= c <= '\U{200a}'
    || c == '\U{2028}'
    || c == '\U{2029}'
    || c == '\U{202f}'
    || c == '\U{205f}'
    || c == '\U{3000}'
  }

  /** A token produced by `split()`: non-empty and free of whitespace. */
  predicate IsWord(w: string)
  {
    |w| > 0 && forall i :: 0 <= i < |w| ==> !IsSpace(w[i])
  }

  /** `s` is whitespace only (or empty). */
  predicate Blank(s: string)
  {
    forall i :: 0 <= i < |s| ==> IsSpace(s[i])
  }

  /** Neither end of `s` is whitespace: what `strip()` leaves. */
  predicate Trimmed(s: string)
  {
    |s| == 0 || (!IsSpace(s[0]) && !IsSpace(s[|s| - 1]))
  }

  predicate StartsWith(s: string, prefix: string)
  {
    |prefix| <= |s| && s[..|prefix|] == prefix
  }

  predicate EndsWith(s: string, suffix: string)
  {
    |suffix| <= |s| && s[|s| - |suffix|..] == suffix
  }

  /** `t` occurs in `s` starting at index `i`. */
  predicate OccursAt(s: string, t: string, i: int)
  {
    0 <= i && i + |t| <= |s| && s[i..i + |t|] == t
  }

  // ---------------------------------------------------------------- strip

  /** Drops the longest prefix whose characters all satisfy `p`. */
  function DropWhile(s: string, p: char -> bool): (r: string)
    ensures |r| <= |s| && r == s[|s| - |r|..]
    ensures forall i :: 0 <= i < |s| - |r| ==> p(s[i])
    ensures |r| == 0 || !p(r[0])
    decreases |s|
  {
    if |s| == 0 || !p(s[0]) then s else DropWhile(s[1..], p)
  }

  /** Drops the longest suffix whose characters all satisfy `p`. */
  function DropLastWhile(s: string, p: char -> bool): (r: string)
    ensures |r| <= |s| && r == s[..|r|]
    ensures forall i :: |r| <= i < |s| ==> p(s[i])
    ensures |r| == 0 || !p(r[|r| - 1])
    decreases |s|
  {
    if |s| == 0 || !p(s[|s| - 1]) then s else DropLastWhile(s[..|s| - 1], p)
  }

  /** Python's `s.strip(chars)` for a predicate on characters. */
  function StripBy(s: string, p: char -> bool): string
  {
    DropWhile(DropLastWhile(s, p), p)
  }

  /** `s` is `r` with whitespace around it, `r` starting at index `i`. */
  predicate Padded(s: string, i: nat, r: string)
  {
    && i + |r| <= |s| && s[i..i + |r|] == r
    && (forall k :: 0 <= k < i ==> IsSpace(s[k]))
    && (forall k :: i + |r| <= k < |s| ==> IsSpace(s[k]))
  }

  /** Python's `s.strip()`: the result is a trimmed piece of `s` with only
      whitespace around it, which makes it unique (see `StripPadded`). */
  function Strip(s: string): (r: string)
    ensures Trimmed(r)
    ensures exists i: nat :: Padded(s, i, r)
    ensures Trimmed(s) ==> r == s
    ensures |r| <= |s|
  {
    var t := DropLastWhile(s, IsSpace);
    var r := DropWhile(t, IsSpace);
    assert Padded(s, |t| - |r|, r) by {
      assert t[|t| - |r|..] == r;
      assert s[..|t|] == t;
    }
    r
  }

  /** Dropping a prefix of dropped characters changes nothing. */
  lemma {:induction false} DropWhileSkips(a: string, b: string, p: char -> bool)
    requires forall i :: 0 <= i < |a| ==> p(a[i])
    ensures DropWhile(a + b, p) == DropWhile(b, p)
    decreases |a|
  {
    if |a| > 0 {
      assert (a + b)[1..] == a[1..] + b;
      DropWhileSkips(a[1..], b, p);
    } else {
      assert a + b == b;
    }
  }

  /** Dropping a suffix of dropped characters changes nothing. */
  lemma {:induction false} DropLastWhileSkips(a: string, b: string, p: char -> bool)
    requires forall i :: 0 <= i < |b| ==> p(b[i])
    ensures DropLastWhile(a + b, p) == DropLastWhile(a, p)
    decreases |b|
  {
    if |b| > 0 {
      assert (a + b)[..|a + b| - 1] == a + b[..|b| - 1];
      DropLastWhileSkips(a, b[..|b| - 1], p);
    } else {
      assert a + b == a;
    }
  }

  /** Stripping `pre + b + post` by `p`, where `pre` and `post` consist of
      stripped characters and `b` starts and ends with kept ones, gives `b`. */
  lemma StripByAround(pre: string, b: string, post: string, p: char -> bool)
    requires forall i :: 0 <= i < |pre| ==> p(pre[i])
    requires forall i :: 0 <= i < |post| ==> p(post[i])
    requires |b| == 0 || (!p(b[0]) && !p(b[|b| - 1]))
    ensures StripBy(pre + b + post, p) == b
  {
    DropLastWhileSkips(pre + b, post, p);
    if |b| == 0 {
      assert pre + b == "" + pre;
      DropLastWhileSkips("", pre, p);
    } else {
      assert DropLastWhile(pre + b, p) == pre + b;
      DropWhileSkips(pre, b, p);
    }
  }

  /** Whitespace around a trimmed text is exactly what `strip()` removes. */
  lemma StripPadded(pre: string, b: string, post: string)
    requires forall i :: 0 <= i < |pre| ==> IsSpace(pre[i])
    requires forall i :: 0 <= i < |post| ==> IsSpace(post[i])
    requires Trimmed(b)
    ensures Strip(pre + b + post) == b
  {
    StripByAround(pre, b, post, IsSpace);
  }

  // ---------------------------------------------------------------- lower

  /** Python's `str.lower()` on one character, for the ASCII letters. */
  function LowerChar(c: char): char
  {
    if 'A' <= c <= 'Z' then (c as int + 32) as char else c
  }

  function Lower(s: string): (r: string)
    ensures |r| == |s|
    ensures forall i :: 0 <= i < |s| ==> r[i] == LowerChar(s[i])
  {
    seq(|s|, i requires 0 <= i < |s| => LowerChar(s[i]))
  }

  /** Lowering works character by character, so it commutes with slicing. */
  lemma LowerPrefix(s: string, n: nat)
    requires n <= |s|
    ensures Lower(s)[..n] == Lower(s[..n])
  {
  }

  // ---------------------------------------------------------------- find

  /** The first index at or after `k` where `t` occurs in `s`. */
  function IndexFrom(s: string, t: string, k: nat): (r: Option<nat>)
    ensures r.Some? ==> k <= r.value && OccursAt(s, t, r.value)
    ensures r.Some? ==> forall j :: k <= j < r.value ==> !OccursAt(s, t, j)
    ensures r.None? ==> forall j :: k <= j ==> !OccursAt(s, t, j)
    decreases |s| - k
  {
    if k + |t| > |s| then None
    else if s[k..k + |t|] == t then Some(k)
    else IndexFrom(s, t, k + 1)
  }

  /** Python's `s.find(t)`, with `None` for -1. */
  function IndexOf(s: string, t: string): (r: Option<nat>)
    ensures r.Some? ==> OccursAt(s, t, r.value)
    ensures r.Some? ==> forall j :: 0 <= j < r.value ==> !OccursAt(s, t, j)
    ensures r.None? ==> forall j :: 0 <= j ==> !OccursAt(s, t, j)
  {
    IndexFrom(s, t, 0)
  }

  /** Python's `t in s` for strings. */
  predicate Contains(s: string, t: string)
  {
    IndexOf(s, t).Some?
  }

  /** A one-character `in` is plain membership. */
  lemma ContainsChar(s: string, c: char)
    ensures Contains(s, [c]) <==> c in s
  {
    if c in s {
      var i :| 0 <= i < |s| && s[i] == c;
      assert OccursAt(s, [c], i);
    }
    if Contains(s, [c]) {
      var i := IndexOf(s, [c]).value;
      assert s[i] == s[i..i + 1][0];
    }
  }

  /** An occurrence needs every character of the pattern in place. */
  lemma NotOccursAt(s: string, t: string, i: nat, k: nat)
    requires k < |t| && (i + k >= |s| || s[i + k] != t[k])
    ensures !OccursAt(s, t, i)
  {
    if i + |t| <= |s| {
      assert s[i..i + |t|][k] == s[i + k];
    }
  }

  /** Occurrences after a prefix are the occurrences in the rest. */
  lemma OccursAtShift(p: string, s: string, t: string, k: nat)
    ensures OccursAt(p + s, t, |p| + k) <==> OccursAt(s, t, k)
  {
    if |p| + k + |t| <= |p + s| {
      assert (p + s)[|p| + k..|p| + k + |t|] == s[k..k + |t|];
    }
  }

  // ---------------------------------------------------------------- split()

  /** The index of the first whitespace character of `s`, or `|s|`. */
  function WordEnd(s: string): (k: nat)
    ensures k <= |s|
    ensures k < |s| ==> IsSpace(s[k])
    ensures forall i :: 0 <= i < k ==> !IsSpace(s[i])
    decreases |s|
  {
    if |s| == 0 || IsSpace(s[0]) then 0 else 1 + WordEnd(s[1..])
  }

  /** Python's `s.split()`: the maximal runs of non-whitespace, in order.
      `WordsBlank`, `WordsOfWord` and `WordsSpaceConcat` together determine
      the result for every string. */
  function Words(s: string): (ws: seq<string>)
    ensures forall i :: 0 <= i < |ws| ==> IsWord(ws[i])
    decreases |s|
  {
    if |s| == 0 then []
    else if IsSpace(s[0]) then Words(s[1..])
    else
      var k := WordEnd(s);
      [s[..k]] + Words(s[k..])
  }

  /** There are no tokens exactly when the text is blank. */
  lemma {:induction false} WordsBlank(s: string)
    ensures |Words(s)| == 0 <==> Blank(s)
    decreases |s|
  {
    if |s| > 0 && IsSpace(s[0]) {
      WordsBlank(s[1..]);
      assert Blank(s) <==> Blank(s[1..]) by {
        if Blank(s[1..]) {
          forall i | 0 <= i < |s|
            ensures IsSpace(s[i])
          {
            if i > 0 {
              assert s[i] == s[1..][i - 1];
            }
          }
        }
      }
    }
  }

  /** Python's `sep.join(ws)` for a one-character separator. */
  function JoinWith(ws: seq<string>, sep: char): string
  {
    if |ws| == 0 then ""
    else if |ws| == 1 then ws[0]
    else ws[0] + [sep] + JoinWith(ws[1..], sep)
  }

  /** Python's `" ".join(ws)`. */
  function JoinSpaces(ws: seq<string>): string
  {
    JoinWith(ws, ' ')
  }

  /** Appending one more part to a join adds one separator and the part. */
  lemma {:induction false} JoinWithSnoc(ws: seq<string>, w: string, sep: char)
    requires |ws| > 0
    ensures JoinWith(ws + [w], sep) == JoinWith(ws, sep) + [sep] + w
    decreases |ws|
  {
    if |ws| == 1 {
      assert ws + [w] == [ws[0], w];
      assert [ws[0], w][1..] == [w];
    } else {
      assert (ws + [w])[1..] == ws[1..] + [w];
      JoinWithSnoc(ws[1..], w, sep);
    }
  }

  /** A single token splits to itself. */
  lemma {:induction false} WordsOfWord(w: string)
    requires IsWord(w)
    ensures Words(w) == [w]
  {
    assert WordEnd(w) == |w|;
    assert w[..|w|] == w;
    assert w[|w|..] == [];
  }

  /** Where the first token of `a + b` ends, in terms of `a` and `b`. */
  lemma {:induction false} WordEndAppend(a: string, b: string)
    ensures WordEnd(a + b) == if WordEnd(a) < |a| then WordEnd(a) else |a| + WordEnd(b)
    decreases |a|
  {
    if |a| == 0 {
      assert a + b == b;
    } else if !IsSpace(a[0]) {
      assert (a + b)[1..] == a[1..] + b;
      WordEndAppend(a[1..], b);
    }
  }

  /** A leading whitespace character is skipped. */
  lemma WordsSkipSpace(c: char, b: string)
    requires IsSpace(c)
    ensures Words([c] + b) == Words(b)
  {
    assert ([c] + b)[1..] == b;
  }

  /** A leading token is the run up to the first whitespace. */
  lemma WordsFirst(s: string)
    requires |s| > 0 && !IsSpace(s[0])
    ensures Words(s) == [s[..WordEnd(s)]] + Words(s[WordEnd(s)..])
  {
  }

  /** Any whitespace character separates: splitting `a + [c] + b` splits
      both halves. */
  lemma {:induction false} WordsSpaceConcat(a: string, c: char, b: string)
    requires IsSpace(c)
    ensures Words(a + [c] + b) == Words(a) + Words(b)
    decreases |a|, 1
  {
    var s := a + [c] + b;
    if |a| == 0 {
      assert s == [c] + b;
      WordsSkipSpace(c, b);
    } else if IsSpace(a[0]) {
      assert s == [a[0]] + (a[1..] + [c] + b);
      assert a == [a[0]] + a[1..];
      WordsSkipSpace(a[0], a[1..] + [c] + b);
      WordsSkipSpace(a[0], a[1..]);
      WordsSpaceConcat(a[1..], c, b);
      assert Words(s) == Words(a[1..] + [c] + b) == Words(a[1..]) + Words(b);
    } else {
      WordsSpaceConcatAtWord(a, c, b);
    }
  }

  /** The first token of `a + [c] + b` is the first token of `a`. */
  lemma WordsFirstAppend(a: string, c: char, b: string)
    requires IsSpace(c) && |a| > 0 && !IsSpace(a[0])
    ensures var k := WordEnd(a);
            && 0 < k <= |a|
            && Words(a + [c] + b) == [a[..k]] + Words((a + [c] + b)[k..])
            && Words(a) == [a[..k]] + Words(a[k..])
  {
    var s := a + [c] + b;
    var k := WordEnd(a);
    assert k == WordEnd(s) by {
      WordEndAppend(a, [c] + b);
      assert s == a + ([c] + b);
    }
    assert s[..k] == a[..k];
    WordsFirst(s);
    WordsFirst(a);
  }

  /** The case of `WordsSpaceConcat` where `a` starts with a token. */
  lemma {:induction false} WordsSpaceConcatAtWord(a: string, c: char, b: string)
    requires IsSpace(c) && |a| > 0 && !IsSpace(a[0])
    ensures Words(a + [c] + b) == Words(a) + Words(b)
    decreases |a|, 0
  {
    WordsFirstAppend(a, c, b);
    var s := a + [c] + b;
    var k := WordEnd(a);
    var w := a[..k];
    if k < |a| {
      assert Words(s[k..]) == Words(a[k..]) + Words(b) by {
        assert s[k..] == a[k..] + [c] + b;
        WordsSpaceConcat(a[k..], c, b);
      }
      assert [w] + (Words(a[k..]) + Words(b)) == ([w] + Words(a[k..])) + Words(b);
    } else {
      assert Words(s[k..]) == Words(b) by {
        assert s[k..] == [c] + b;
        WordsSkipSpace(c, b);
      }
      assert Words(a[k..]) == [] by {
        assert a[k..] == [];
      }
      assert [w] + Words(b) == ([w] + []) + Words(b);
    }
  }

  /** Splitting a space-joined list of tokens gives the tokens back. */
  lemma {:induction false} WordsJoinSpaces(ws: seq<string>)
    requires forall i :: 0 <= i < |ws| ==> IsWord(ws[i])
    ensures Words(JoinSpaces(ws)) == ws
    decreases |ws|
  {
    if |ws| == 0 {
    } else if |ws| == 1 {
      WordsOfWord(ws[0]);
    } else {
      WordsSpaceConcat(ws[0], ' ', JoinSpaces(ws[1..]));
      WordsOfWord(ws[0]);
      WordsJoinSpaces(ws[1..]);
      assert [ws[0]] + ws[1..] == ws;
    }
  }

  // ---------------------------------------------------------------- split(c)

  /** Python's `s.split(c)` for a one-character separator: the pieces
      between the occurrences of `c`, empty pieces included. */
  function SplitChar(s: string, c: char): (parts: seq<string>)
    ensures |parts| >= 1
    ensures forall i :: 0 <= i < |parts| ==> c !in parts[i]
    decreases |s|
  {
    match IndexOf(s, [c])
    case None =>
      assert c !in s by { ContainsChar(s, c); }
      [s]
    case Some(i) =>
      assert c !in s[..i] by {
        if c in s[..i] {
          var j :| 0 <= j < i && s[..i][j] == c;
          assert OccursAt(s, [c], j);
        }
      }
      [s[..i]] + SplitChar(s[i + 1..], c)
  }

  /** Joining the pieces of a split with the same character restores `s`. */
  lemma {:induction false} JoinSplitChar(s: string, c: char)
    ensures JoinWith(SplitChar(s, c), c) == s
    decreases |s|
  {
    match IndexOf(s, [c])
    case None =>
    case Some(i) =>
      var rest := SplitChar(s[i + 1..], c);
      JoinSplitChar(s[i + 1..], c);
      assert SplitChar(s, c) == [s[..i]] + rest;
      assert ([s[..i]] + rest)[1..] == rest;
      assert s == s[..i] + [c] + s[i + 1..];
  }

  /** Splitting a join of separator-free pieces gives the pieces back. */
  lemma {:induction false} SplitCharJoin(ws: seq<string>, c: char)
    requires |ws| >= 1
    requires forall i :: 0 <= i < |ws| ==> c !in ws[i]
    ensures SplitChar(JoinWith(ws, c), c) == ws
    decreases |ws|
  {
    if |ws| == 1 {
      ContainsChar(ws[0], c);
    } else {
      var w := ws[0];
      var rest := JoinWith(ws[1..], c);
      var s := w + [c] + rest;
      assert OccursAt(s, [c], |w|);
      assert forall j :: 0 <= j < |w| ==> !OccursAt(s, [c], j) by {
        forall j | 0 <= j < |w|
          ensures !OccursAt(s, [c], j)
        {
          assert s[j] == w[j];
        }
      }
      assert IndexOf(s, [c]) == Some(|w|);
      assert s[..|w|] == w;
      assert s[|w| + 1..] == rest;
      SplitCharJoin(ws[1..], c);
      assert [w] + ws[1..] == ws;
    }
  }

  /** A split yields one more piece than there are separators. */
  lemma {:induction false} SplitCharCount(s: string, c: char)
    ensures |SplitChar(s, c)| == multiset(s)[c] + 1
    decreases |s|
  {
    match IndexOf(s, [c])
    case None =>
      ContainsChar(s, c);
    case Some(i) =>
      SplitCharCount(s[i + 1..], c);
      assert s == s[..i] + [c] + s[i + 1..];
      assert multiset(s) == multiset(s[..i]) + multiset([c]) + multiset(s[i + 1..]);
      assert c !in s[..i] by {
        if c in s[..i] {
          var j :| 0 <= j < i && s[..i][j] == c;
          assert OccursAt(s, [c], j);
        }
      }
  }
}
