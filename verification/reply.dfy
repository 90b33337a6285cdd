/** The outbound SMS reply (`twilio_reply`, main.py): the message, or
    "No content." when it is empty, escaped the way Python's `html.escape`
    escapes and wrapped in a fixed XML envelope. */
module Reply {
  import opened Optional
  import opened PyStr

  /** The characters that could end the `Message` element or an attribute. */
  predicate IsMarkup(c: char)
  {
    c == '<' || c == '>' || c == '"' || c == '\''
  }

  /** `html.escape` on one character (with `quote=True`). */
  function EscapeChar(c: char): string
  {
    if c == '&' then "&amp;"
    else if c == '<' then "&lt;"
    else if c == '>' then "&gt;"
    else if c == '"' then "&quot;"
    else if c == '\'' then "&#x27;"
    else [c]
  }

  /** The text from position `i` on opens one of the five entity
      references `html.escape` writes. */
  predicate EntityAt(s: string, i: nat)
    requires i <= |s|
  {
    var t := s[i..];
    || StartsWith(t, "&amp;") || StartsWith(t, "&lt;") || StartsWith(t, "&gt;")
    || StartsWith(t, "&quot;") || StartsWith(t, "&#x27;")
  }

  /** Every `&` of the text opens an entity reference. */
  predicate AmpersandsEscaped(s: string)
  {
    forall i :: 0 <= i < |s| && s[i] == '&' ==> EntityAt(s, i)
  }

  /** `html.escape(s)`: no markup character survives, and every `&` left
      opens an entity reference. */
  function Escape(s: string): (r: string)
    ensures forall i :: 0 <= i < |r| ==> !IsMarkup(r[i])
    ensures AmpersandsEscaped(r)
    ensures |r| >= |s|
    decreases |s|
  {
    if |s| == 0 then ""
    else
      var rest := Escape(s[1..]);
      EscapeCharEntities(s[0], rest);
      EscapeChar(s[0]) + rest
  }

  /** Putting one escaped character in front keeps every `&` an entity. */
  lemma EscapeCharEntities(c: char, rest: string)
    requires AmpersandsEscaped(rest)
    ensures AmpersandsEscaped(EscapeChar(c) + rest)
  {
    var e := EscapeChar(c);
    var r := e + rest;
    forall i | 0 <= i < |r| && r[i] == '&'
      ensures EntityAt(r, i)
    {
      if i < |e| {
        assert e[i] == '&';
        assert i == 0;
        assert r[i..] == r;
        assert r[..|e|] == e;
      } else {
        assert r[i..] == rest[i - |e|..];
        assert rest[i - |e|] == '&';
        assert EntityAt(rest, i - |e|);
      }
    }
  }

  /** The inverse of `Escape`: decodes the five entity references it writes
      and copies every other character. */
  function Unescape(s: string): string
    decreases |s|
  {
    if |s| == 0 then ""
    else if StartsWith(s, "&amp;") then "&" + Unescape(s[5..])
    else if StartsWith(s, "&lt;") then "<" + Unescape(s[4..])
    else if StartsWith(s, "&gt;") then ">" + Unescape(s[4..])
    else if StartsWith(s, "&quot;") then "\"" + Unescape(s[6..])
    else if StartsWith(s, "&#x27;") then "'" + Unescape(s[6..])
    else [s[0]] + Unescape(s[1..])
  }

  lemma UnescapeAmp(rest: string)
    ensures Unescape("&amp;" + rest) == "&" + Unescape(rest)
  {
    var s := "&amp;" + rest;
    assert s[..5] == "&amp;" && s[5..] == rest;
  }

  lemma UnescapeLt(rest: string)
    ensures Unescape("&lt;" + rest) == "<" + Unescape(rest)
  {
    var s := "&lt;" + rest;
    assert s[1] == 'l';
    assert s[..4] == "&lt;" && s[4..] == rest;
  }

  lemma UnescapeGt(rest: string)
    ensures Unescape("&gt;" + rest) == ">" + Unescape(rest)
  {
    var s := "&gt;" + rest;
    assert s[1] == 'g';
    assert s[..4] == "&gt;" && s[4..] == rest;
  }

  lemma UnescapeQuot(rest: string)
    ensures Unescape("&quot;" + rest) == "\"" + Unescape(rest)
  {
    var s := "&quot;" + rest;
    assert s[1] == 'q';
    assert s[..6] == "&quot;" && s[6..] == rest;
  }

  lemma UnescapeApos(rest: string)
    ensures Unescape("&#x27;" + rest) == "'" + Unescape(rest)
  {
    var s := "&#x27;" + rest;
    assert s[1] == '#';
    assert s[..6] == "&#x27;" && s[6..] == rest;
  }

  lemma UnescapePlain(c: char, rest: string)
    requires c != '&'
    ensures Unescape([c] + rest) == [c] + Unescape(rest)
  {
    var s := [c] + rest;
    assert s[0] == c;
    assert s[1..] == rest;
    assert !StartsWith(s, "&amp;") && !StartsWith(s, "&lt;") && !StartsWith(s, "&gt;") by {
      assert "&amp;"[0] == '&' && "&lt;"[0] == '&' && "&gt;"[0] == '&';
    }
    assert !StartsWith(s, "&quot;") && !StartsWith(s, "&#x27;") by {
      assert "&quot;"[0] == '&' && "&#x27;"[0] == '&';
    }
  }

  /** Unescaping consumes exactly one escaped character at a time. */
  lemma UnescapeStep(c: char, rest: string)
    ensures Unescape(EscapeChar(c) + rest) == [c] + Unescape(rest)
  {
    if c == '&' {
      UnescapeAmp(rest);
    } else if c == '<' {
      UnescapeLt(rest);
    } else if c == '>' {
      UnescapeGt(rest);
    } else if c == '"' {
      UnescapeQuot(rest);
    } else if c == '\'' {
      UnescapeApos(rest);
    } else {
      UnescapePlain(c, rest);
    }
  }

  /** Unescaping the escaped text gives back the original message. */
  lemma {:induction false} UnescapeEscape(s: string)
    ensures Unescape(Escape(s)) == s
    decreases |s|
  {
    if |s| > 0 {
      UnescapeStep(s[0], Escape(s[1..]));
      UnescapeEscape(s[1..]);
      assert [s[0]] + s[1..] == s;
    }
  }

  const Head: string := "<?xml version=\"1.0\" encoding=\"UTF-8\"?>\n<Response>\n    <Message>"
  const Tail: string := "</Message>\n</Response>"
  const NoContent: string := "No content."

  /** A well-formed reply envelope: the fixed head and tail around text
      with no markup character, so the message cannot close the element
      early, and whose every `&` opens an entity reference. */
  predicate IsEnvelope(xml: string)
  {
    && StartsWith(xml, Head) && EndsWith(xml, Tail)
    && |xml| >= |Head| + |Tail|
    && (forall i :: |Head| <= i < |xml| - |Tail| ==> !IsMarkup(xml[i]))
    && AmpersandsEscaped(xml[|Head|..|xml| - |Tail|])
  }

  /** `twilio_reply(message)`: the envelope around the escaped message. */
  function TwilioReply(message: Option<string>): (xml: string)
    ensures IsEnvelope(xml)
  {
    var escaped := Escape(Or(message, NoContent));
    Envelope(Head, escaped, Tail);
    Head + escaped + Tail
  }

  /** An envelope with a raw `&` in the message is not well-formed. */
  lemma RawAmpersandRejected()
    ensures !IsEnvelope(Head + "AT&T" + Tail)
  {
    var xml := Head + "AT&T" + Tail;
    assert xml[|Head|..|xml| - |Tail|] == "AT&T" by {
      Envelope(Head, "AT&T", Tail);
    }
    assert !AmpersandsEscaped("AT&T") by {
      assert "AT&T"[2] == '&';
      assert "AT&T"[2..] == "&T";
    }
  }

  /** Where the three parts of `a + b + c` sit. */
  lemma Envelope(a: string, b: string, c: string)
    ensures var s := a + b + c;
            && s[..|a|] == a
            && s[|s| - |c|..] == c
            && s[|a|..|s| - |c|] == b
            && forall i :: |a| <= i < |s| - |c| ==> s[i] == b[i - |a|]
  {
  }

  /** Reads the message back out of a reply envelope. */
  function ParseReply(xml: string): Option<string>
  {
    if StartsWith(xml, Head) && EndsWith(xml, Tail) && |Head| + |Tail| <= |xml| then
      Some(Unescape(xml[|Head|..|xml| - |Tail|]))
    else None
  }

  /** The envelope carries exactly the message, with `None` and `""` both
      replaced by "No content.". */
  lemma ReplyRoundTrip(message: Option<string>)
    ensures ParseReply(TwilioReply(message)) == Some(Or(message, NoContent))
    ensures !Truthy(message) ==> ParseReply(TwilioReply(message)) == Some(NoContent)
  {
    var escaped := Escape(Or(message, NoContent));
    Envelope(Head, escaped, Tail);
    UnescapeEscape(Or(message, NoContent));
  }
}
