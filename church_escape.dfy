/**
 * `escapeHTML` of `assets/js/church.js`: five global replacements, `&` first, that make
 * a text safe to place inside HTML. The model proves the chain equal to a per-character
 * encoding, that the output holds none of `<`, `>`, `"`, `'`, that every `&` opens one
 * of the five entities, and that decoding the entities gives the input back.
 */
module ChurchEscape {
  import opened Common
  import opened JsStrings

  /** The five replacements in the order the source applies them. */
  function EscapeChain(s: string): (r: string)
    ensures '<' !in r && '>' !in r && '"' !in r && '\'' !in r
  {
    var s2 := ReplaceAll(ReplaceAll(s, '&', "&amp;"), '<', "&lt;");
    var s3 := ReplaceAll(s2, '>', "&gt;");
    var s4 := ReplaceAll(s3, '"', "&quot;");
    ReplaceAllKeepsAbsent(s2, '>', "&gt;", '<');
    ReplaceAllKeepsAbsent(s3, '"', "&quot;", '<');
    ReplaceAllKeepsAbsent(s3, '"', "&quot;", '>');
    ReplaceAllKeepsAbsent(s4, '\'', "&#039;", '<');
    ReplaceAllKeepsAbsent(s4, '\'', "&#039;", '>');
    ReplaceAllKeepsAbsent(s4, '\'', "&#039;", '"');
    ReplaceAll(s4, '\'', "&#039;")
  }

  /** `escapeHTML(str)`: a missing or empty input gives ''. */
  function EscapeHTML(str: Option<string>): (r: string)
    ensures str == None || str == Some("") ==> r == ""
    ensures '<' !in r && '>' !in r && '"' !in r && '\'' !in r
  {
    EscapeChain(if str.Some? then str.value else "")
  }

  /** The entity a single character becomes (itself when it needs none). */
  function EscapeChar(c: char): string {
    if c == '&' then "&amp;"
    else if c == '<' then "&lt;"
    else if c == '>' then "&gt;"
    else if c == '"' then "&quot;"
    else if c == '\'' then "&#039;"
    else [c]
  }

  /** The per-character encoding: each character replaced by `EscapeChar`. */
  function EscapeEach(s: string): string {
    if s == [] then [] else EscapeChar(s[0]) + EscapeEach(s[1..])
  }

  /** The chain of replacements handles each character on its own. */
  lemma EscapeChainConcat(a: string, b: string)
    ensures EscapeChain(a + b) == EscapeChain(a) + EscapeChain(b)
  {
    var s1a, s1b := ReplaceAll(a, '&', "&amp;"), ReplaceAll(b, '&', "&amp;");
    ReplaceAllConcat(a, b, '&', "&amp;");
    var s2a, s2b := ReplaceAll(s1a, '<', "&lt;"), ReplaceAll(s1b, '<', "&lt;");
    ReplaceAllConcat(s1a, s1b, '<', "&lt;");
    var s3a, s3b := ReplaceAll(s2a, '>', "&gt;"), ReplaceAll(s2b, '>', "&gt;");
    ReplaceAllConcat(s2a, s2b, '>', "&gt;");
    var s4a, s4b := ReplaceAll(s3a, '"', "&quot;"), ReplaceAll(s3b, '"', "&quot;");
    ReplaceAllConcat(s3a, s3b, '"', "&quot;");
    ReplaceAllConcat(s4a, s4b, '\'', "&#039;");
  }

  /** On one character the chain yields that character's entity. */
  lemma EscapeChainChar(c: char)
    ensures EscapeChain([c]) == EscapeChar(c)
  {
    if c == '&' {
      ReplaceAllSingle(c, '&', "&amp;");
      AfterEntity("&amp;", 1);
    } else if c == '<' {
      ReplaceAllSingle(c, '&', "&amp;");
      ReplaceAllSingle(c, '<', "&lt;");
      AfterEntity("&lt;", 2);
    } else if c == '>' {
      ReplaceAllSingle(c, '&', "&amp;");
      ReplaceAllSingle(c, '<', "&lt;");
      ReplaceAllSingle(c, '>', "&gt;");
      AfterEntity("&gt;", 3);
    } else if c == '"' {
      ReplaceAllSingle(c, '&', "&amp;");
      ReplaceAllSingle(c, '<', "&lt;");
      ReplaceAllSingle(c, '>', "&gt;");
      ReplaceAllSingle(c, '"', "&quot;");
      AfterEntity("&quot;", 4);
    } else {
      ReplaceAllSingle(c, '&', "&amp;");
      ReplaceAllSingle(c, '<', "&lt;");
      ReplaceAllSingle(c, '>', "&gt;");
      ReplaceAllSingle(c, '"', "&quot;");
      ReplaceAllSingle(c, '\'', "&#039;");
    }
  }

  /** The replacements after stage `stage` leave an entity untouched. */
  lemma AfterEntity(e: string, stage: nat)
    requires 1 <= stage <= 4
    requires '<' !in e && '>' !in e && '"' !in e && '\'' !in e
    ensures stage == 1 ==> ReplaceAll(ReplaceAll(ReplaceAll(ReplaceAll(e,
      '<', "&lt;"), '>', "&gt;"), '"', "&quot;"), '\'', "&#039;") == e
    ensures stage == 2 ==> ReplaceAll(ReplaceAll(ReplaceAll(e,
      '>', "&gt;"), '"', "&quot;"), '\'', "&#039;") == e
    ensures stage == 3 ==> ReplaceAll(ReplaceAll(e, '"', "&quot;"), '\'', "&#039;") == e
    ensures stage == 4 ==> ReplaceAll(e, '\'', "&#039;") == e
  {
    ReplaceAllAbsent(e, '<', "&lt;");
    ReplaceAllAbsent(e, '>', "&gt;");
    ReplaceAllAbsent(e, '"', "&quot;");
    ReplaceAllAbsent(e, '\'', "&#039;");
  }

  /** Replacing `&` first makes the five sequential replacements a per-character encoding. */
  lemma {:induction false} EscapeChainIsPerCharacter(s: string)
    ensures EscapeChain(s) == EscapeEach(s)
  {
    if s == [] {
    } else {
      assert s == [s[0]] + s[1..];
      EscapeChainConcat([s[0]], s[1..]);
      EscapeChainChar(s[0]);
      EscapeChainIsPerCharacter(s[1..]);
    }
  }

  /** One of the five entities starts at position `i` of `r`. */
  predicate EntityAt(r: string, i: nat)
    requires i <= |r|
  {
    "&amp;" <= r[i..] || "&lt;" <= r[i..] || "&gt;" <= r[i..]
    || "&quot;" <= r[i..] || "&#039;" <= r[i..]
  }

  /** Every `&` of the encoding is the start of an entity. */
  lemma {:induction false} EscapeEachAmpersands(s: string)
    ensures forall i :: 0 <= i < |EscapeEach(s)| && EscapeEach(s)[i] == '&' ==> EntityAt(EscapeEach(s), i)
  {
    if s != [] {
      var head, tail := EscapeChar(s[0]), EscapeEach(s[1..]);
      EscapeEachAmpersands(s[1..]);
      var r := head + tail;
      forall i | 0 <= i < |r| && r[i] == '&' ensures EntityAt(r, i) {
        if i < |head| {
          assert i == 0;
          assert head <= r[i..];
        } else {
          assert r[i..] == tail[i - |head|..];
        }
      }
    }
  }

  /** `escapeHTML` leaves every `&` it outputs at the start of one of the five entities. */
  lemma EscapeHTMLAmpersands(str: Option<string>)
    ensures var r := EscapeHTML(str);
      forall i :: 0 <= i < |r| && r[i] == '&' ==> EntityAt(r, i)
  {
    var s := if str.Some? then str.value else "";
    EscapeChainIsPerCharacter(s);
    EscapeEachAmpersands(s);
  }

  /** Decodes the five entities (the browser's reading of the escaped text). */
  function Unescape(r: string): string
    decreases |r|
  {
    if r == [] then []
    else if "&amp;" <= r then "&" + Unescape(r[5..])
    else if "&lt;" <= r then "<" + Unescape(r[4..])
    else if "&gt;" <= r then ">" + Unescape(r[4..])
    else if "&quot;" <= r then "\"" + Unescape(r[6..])
    else if "&#039;" <= r then "'" + Unescape(r[6..])
    else [r[0]] + Unescape(r[1..])
  }

  /** Decoding reads one encoded character back and carries on after it. */
  lemma UnescapeHead(c: char, tail: string)
    ensures Unescape(EscapeChar(c) + tail) == [c] + Unescape(tail)
  {
    var head := EscapeChar(c);
    var r := head + tail;
    assert r[|head|..] == tail;
    assert head <= r;
    if c == '&' {
    } else if c == '<' {
      assert !("&amp;" <= r) by { assert r[1] == 'l'; }
    } else if c == '>' {
      assert !("&amp;" <= r) && !("&lt;" <= r) by { assert r[1] == 'g'; }
    } else if c == '"' {
      assert !("&amp;" <= r) && !("&lt;" <= r) && !("&gt;" <= r) by { assert r[1] == 'q'; }
    } else if c == '\'' {
      assert !("&amp;" <= r) && !("&lt;" <= r) && !("&gt;" <= r) && !("&quot;" <= r) by { assert r[1] == '#'; }
    } else {
      assert r[0] == c != '&';
    }
  }

  /** Decoding the escaped text gives the original text back. */
  lemma {:induction false} UnescapeEscapeEach(s: string)
    ensures Unescape(EscapeEach(s)) == s
  {
    if s != [] {
      UnescapeEscapeEach(s[1..]);
      UnescapeHead(s[0], EscapeEach(s[1..]));
      assert s == [s[0]] + s[1..];
    }
  }

  /** `escapeHTML` loses nothing: the original text can be recovered from its output. */
  lemma EscapeHTMLRoundTrip(s: string)
    ensures Unescape(EscapeHTML(Some(s))) == s
  {
    EscapeChainIsPerCharacter(s);
    UnescapeEscapeEach(s);
  }
}
