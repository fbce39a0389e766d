/** `escapeHtml` (game.js:11-18): the encoder applied to every text the player types before it
    is placed in the poster preview. */
module Html {
  import opened Text

  /** The five characters that carry meaning in HTML markup and attribute values. */
  predicate IsSpecial(c: char)
  {
    c == '&' || c == '<' || c == '>' || c == '"' || c == '\''
  }

  /** What the encoder writes for one character: an entity for a special one, the character
      itself otherwise. */
  function EscapeChar(c: char): string
  {
    if c == '&' then "&amp;"
    else if c == '<' then "&lt;"
    else if c == '>' then "&gt;"
    else if c == '"' then "&quot;"
    else if c == '\'' then "&#39;"
    else [c]
  }

  /** Reference encoder: one left-to-right pass, each character replaced by `EscapeChar`. */
  function Escaped(s: string): string
  {
    if s == [] then [] else EscapeChar(s[0]) + Escaped(s[1..])
  }

  /** `escapeHtml` as written: five `replaceAll` passes over the whole string, `&` first. */
  function EscapeHtml(s: string): string
  {
    ReplaceAll(ReplaceAll(ReplaceAll(ReplaceAll(ReplaceAll(
      s, '&', "&amp;"), '<', "&lt;"), '>', "&gt;"), '"', "&quot;"), '\'', "&#39;")
  }

  predicate StartsWith(s: string, prefix: string)
  {
    |prefix| <= |s| && s[..|prefix|] == prefix
  }

  /** Decoder for the five entities the encoder writes; any other character is kept. */
  function Unescape(s: string): string
    decreases |s|
  {
    if s == [] then []
    else if StartsWith(s, "&amp;") then "&" + Unescape(s[5..])
    else if StartsWith(s, "&lt;") then "<" + Unescape(s[4..])
    else if StartsWith(s, "&gt;") then ">" + Unescape(s[4..])
    else if StartsWith(s, "&quot;") then "\"" + Unescape(s[6..])
    else if StartsWith(s, "&#39;") then "'" + Unescape(s[5..])
    else [s[0]] + Unescape(s[1..])
  }

  /** One of the five entities starts at position `i` of `t`. */
  predicate EntityAt(t: string, i: nat)
    requires i <= |t|
  {
    var rest := t[i..];
    StartsWith(rest, "&amp;") || StartsWith(rest, "&lt;") || StartsWith(rest, "&gt;")
    || StartsWith(rest, "&quot;") || StartsWith(rest, "&#39;")
  }

  /** Safe to splice into markup: no `<`, `>`, `"` or `'`, and every `&` opens an entity. */
  predicate WellEscaped(t: string)
  {
    forall i :: 0 <= i < |t| ==>
      t[i] != '<' && t[i] != '>' && t[i] != '"' && t[i] != '\''
      && (t[i] == '&' ==> EntityAt(t, i))
  }

  lemma {:induction false} EscapedAppend(a: string, b: string)
    ensures Escaped(a + b) == Escaped(a) + Escaped(b)
  {
    if a == [] {
      assert a + b == b;
    } else {
      assert (a + b)[0] == a[0] && (a + b)[1..] == a[1..] + b;
      EscapedAppend(a[1..], b);
    }
  }

  lemma EscapeHtmlAppend(a: string, b: string)
    ensures EscapeHtml(a + b) == EscapeHtml(a) + EscapeHtml(b)
  {
    var a1, b1 := ReplaceAll(a, '&', "&amp;"), ReplaceAll(b, '&', "&amp;");
    ReplaceAllAppend(a, b, '&', "&amp;");
    var a2, b2 := ReplaceAll(a1, '<', "&lt;"), ReplaceAll(b1, '<', "&lt;");
    ReplaceAllAppend(a1, b1, '<', "&lt;");
    var a3, b3 := ReplaceAll(a2, '>', "&gt;"), ReplaceAll(b2, '>', "&gt;");
    ReplaceAllAppend(a2, b2, '>', "&gt;");
    var a4, b4 := ReplaceAll(a3, '"', "&quot;"), ReplaceAll(b3, '"', "&quot;");
    ReplaceAllAppend(a3, b3, '"', "&quot;");
    ReplaceAllAppend(a4, b4, '\'', "&#39;");
  }

  lemma ReplaceAllOne(c: char, x: char, rep: string)
    ensures ReplaceAll([c], x, rep) == if c == x then rep else [c]
  {
    assert [c][1..] == [];
  }

  /** On one character the five passes write exactly `EscapeChar`: no later pass touches an
      entity written by an earlier one. */
  lemma EscapeHtmlChar(c: char)
    ensures EscapeHtml([c]) == EscapeChar(c)
  {
    if IsSpecial(c) {
      EscapeHtmlSpecial(c);
    } else {
      EscapeHtmlPlain([c]);
    }
  }

  lemma EscapeHtmlSpecial(c: char)
    requires IsSpecial(c)
    ensures EscapeHtml([c]) == EscapeChar(c)
  {
    if c == '&' { EscapeAmp(); }
    else if c == '<' { EscapeLt(); }
    else if c == '>' { EscapeGt(); }
    else if c == '"' { EscapeQuot(); }
    else { EscapeApos(); }
  }

  lemma EscapeAmp()
    ensures EscapeHtml("&") == "&amp;"
  {
    ReplaceAllOne('&', '&', "&amp;");
    LaterPassesKeep("&amp;");
  }

  /** The four passes after the first leave alone a text with none of `<`, `>`, `"`, `'`. */
  lemma LaterPassesKeep(e: string)
    requires '<' !in e && '>' !in e && '"' !in e && '\'' !in e
    ensures ReplaceAll(ReplaceAll(ReplaceAll(ReplaceAll(
              e, '<', "&lt;"), '>', "&gt;"), '"', "&quot;"), '\'', "&#39;") == e
  {
    ReplaceAllAbsent(e, '<', "&lt;");
    ReplaceAllAbsent(e, '>', "&gt;");
    ReplaceAllAbsent(e, '"', "&quot;");
    ReplaceAllAbsent(e, '\'', "&#39;");
  }

  lemma EscapeLt()
    ensures EscapeHtml("<") == "&lt;"
  {
    var s1 := ReplaceAll("<", '&', "&amp;");
    assert s1 == "<" by { ReplaceAllOne('<', '&', "&amp;"); }
    var s2 := ReplaceAll(s1, '<', "&lt;");
    assert s2 == "&lt;" by { ReplaceAllOne('<', '<', "&lt;"); }
    var s3 := ReplaceAll(s2, '>', "&gt;");
    assert s3 == "&lt;" by { ReplaceAllAbsent("&lt;", '>', "&gt;"); }
    var s4 := ReplaceAll(s3, '"', "&quot;");
    assert s4 == "&lt;" by { ReplaceAllAbsent("&lt;", '"', "&quot;"); }
    var s5 := ReplaceAll(s4, '\'', "&#39;");
    assert s5 == "&lt;" by { ReplaceAllAbsent("&lt;", '\'', "&#39;"); }
  }

  lemma EscapeGt()
    ensures EscapeHtml(">") == "&gt;"
  {
    var s1 := ReplaceAll(">", '&', "&amp;");
    assert s1 == ">" by { ReplaceAllOne('>', '&', "&amp;"); }
    var s2 := ReplaceAll(s1, '<', "&lt;");
    assert s2 == ">" by { ReplaceAllOne('>', '<', "&lt;"); }
    var s3 := ReplaceAll(s2, '>', "&gt;");
    assert s3 == "&gt;" by { ReplaceAllOne('>', '>', "&gt;"); }
    var s4 := ReplaceAll(s3, '"', "&quot;");
    assert s4 == "&gt;" by { ReplaceAllAbsent("&gt;", '"', "&quot;"); }
    var s5 := ReplaceAll(s4, '\'', "&#39;");
    assert s5 == "&gt;" by { ReplaceAllAbsent("&gt;", '\'', "&#39;"); }
  }

  lemma EscapeQuot()
    ensures EscapeHtml("\"") == "&quot;"
  {
    var s1 := ReplaceAll("\"", '&', "&amp;");
    assert s1 == "\"" by { ReplaceAllOne('"', '&', "&amp;"); }
    var s2 := ReplaceAll(s1, '<', "&lt;");
    assert s2 == "\"" by { ReplaceAllOne('"', '<', "&lt;"); }
    var s3 := ReplaceAll(s2, '>', "&gt;");
    assert s3 == "\"" by { ReplaceAllOne('"', '>', "&gt;"); }
    var s4 := ReplaceAll(s3, '"', "&quot;");
    assert s4 == "&quot;" by { ReplaceAllOne('"', '"', "&quot;"); }
    var s5 := ReplaceAll(s4, '\'', "&#39;");
    assert s5 == "&quot;" by { ReplaceAllAbsent("&quot;", '\'', "&#39;"); }
  }

  lemma EscapeApos()
    ensures EscapeHtml("'") == "&#39;"
  {
    var s1 := ReplaceAll("'", '&', "&amp;");
    assert s1 == "'" by { ReplaceAllOne('\'', '&', "&amp;"); }
    var s2 := ReplaceAll(s1, '<', "&lt;");
    assert s2 == "'" by { ReplaceAllOne('\'', '<', "&lt;"); }
    var s3 := ReplaceAll(s2, '>', "&gt;");
    assert s3 == "'" by { ReplaceAllOne('\'', '>', "&gt;"); }
    var s4 := ReplaceAll(s3, '"', "&quot;");
    assert s4 == "'" by { ReplaceAllOne('\'', '"', "&quot;"); }
    var s5 := ReplaceAll(s4, '\'', "&#39;");
    assert s5 == "&#39;" by { ReplaceAllOne('\'', '\'', "&#39;"); }
  }

  /** The chained passes of `escapeHtml` equal the single-pass encoder. Because `&` is replaced
      first, no `&` of an entity is escaped a second time. */
  lemma {:induction false} EscapeHtmlIsSinglePass(s: string)
    ensures EscapeHtml(s) == Escaped(s)
  {
    if s == [] {
      assert EscapeHtml(s) == [];
    } else {
      assert s == [s[0]] + s[1..];
      EscapeHtmlAppend([s[0]], s[1..]);
      EscapeHtmlChar(s[0]);
      EscapeHtmlIsSinglePass(s[1..]);
    }
  }

  lemma UnescapeEscapeChar(c: char, t: string)
    ensures Unescape(EscapeChar(c) + t) == [c] + Unescape(t)
  {
    if c == '&' { UnescapeAmp(t); }
    else if c == '<' { UnescapeLt(t); }
    else if c == '>' { UnescapeGt(t); }
    else if c == '"' { UnescapeQuot(t); }
    else if c == '\'' { UnescapeApos(t); }
    else { UnescapePlain(c, t); }
  }

  /** A character other than `&` opens no entity and is kept as it is. */
  lemma UnescapePlain(c: char, t: string)
    requires c != '&'
    ensures Unescape([c] + t) == [c] + Unescape(t)
  {
    var s := [c] + t;
    assert s[0] == c && s[1..] == t;
    assert !StartsWith(s, "&amp;") && !StartsWith(s, "&lt;") && !StartsWith(s, "&gt;")
           && !StartsWith(s, "&quot;") && !StartsWith(s, "&#39;") by {
      forall p: string | |p| > 0 && p[0] == '&' ensures !StartsWith(s, p) {
        if |p| <= |s| { assert s[..|p|][0] == c; }
      }
    }
  }

  lemma UnescapeAmp(t: string)
    ensures Unescape("&amp;" + t) == "&" + Unescape(t)
  {
    var s := "&amp;" + t;
    assert s[..5] == "&amp;" && s[5..] == t;
  }

  lemma UnescapeLt(t: string)
    ensures Unescape("&lt;" + t) == "<" + Unescape(t)
  {
    var s := "&lt;" + t;
    assert s[1] == 'l';
    assert s[..4] == "&lt;" && s[4..] == t;
  }

  lemma UnescapeGt(t: string)
    ensures Unescape("&gt;" + t) == ">" + Unescape(t)
  {
    var s := "&gt;" + t;
    assert s[1] == 'g';
    assert s[..4] == "&gt;" && s[4..] == t;
  }

  lemma UnescapeQuot(t: string)
    ensures Unescape("&quot;" + t) == "\"" + Unescape(t)
  {
    var s := "&quot;" + t;
    assert s[1] == 'q';
    assert s[..6] == "&quot;" && s[6..] == t;
  }

  lemma UnescapeApos(t: string)
    ensures Unescape("&#39;" + t) == "'" + Unescape(t)
  {
    var s := "&#39;" + t;
    assert s[1] == '#';
    assert s[..5] == "&#39;" && s[5..] == t;
  }

  /** Unescaping the encoder's output gives back the input. */
  lemma {:induction false} UnescapeEscaped(s: string)
    ensures Unescape(Escaped(s)) == s
  {
    if s != [] {
      UnescapeEscapeChar(s[0], Escaped(s[1..]));
      UnescapeEscaped(s[1..]);
      assert s == [s[0]] + s[1..];
    }
  }

  /** Round trip for `escapeHtml` itself. */
  lemma EscapeHtmlRoundTrip(s: string)
    ensures Unescape(EscapeHtml(s)) == s
  {
    EscapeHtmlIsSinglePass(s);
    UnescapeEscaped(s);
  }

  /** Different inputs give different outputs, so the preview never conflates two texts. */
  lemma EscapeHtmlInjective(s: string, t: string)
    requires EscapeHtml(s) == EscapeHtml(t)
    ensures s == t
  {
    EscapeHtmlRoundTrip(s);
    EscapeHtmlRoundTrip(t);
  }

  lemma StartsWithAppend(a: string, b: string, p: string)
    requires StartsWith(a, p)
    ensures StartsWith(a + b, p)
  {
    assert (a + b)[..|p|] == a[..|p|];
  }

  lemma WellEscapedAppend(a: string, b: string)
    requires WellEscaped(a) && WellEscaped(b)
    ensures WellEscaped(a + b)
  {
    var t := a + b;
    forall i | 0 <= i < |t| && t[i] == '&'
      ensures EntityAt(t, i)
    {
      if i < |a| {
        assert a[i] == '&' && EntityAt(a, i);
        assert t[i..] == a[i..] + b;
        var p :| p in ["&amp;", "&lt;", "&gt;", "&quot;", "&#39;"] && StartsWith(a[i..], p);
        StartsWithAppend(a[i..], b, p);
      } else {
        assert b[i - |a|] == '&' && EntityAt(b, i - |a|);
        assert t[i..] == b[i - |a|..];
      }
    }
  }

  lemma WellEscapedChar(c: char)
    ensures WellEscaped(EscapeChar(c))
  {
    var e := EscapeChar(c);
    if c == '&' || c == '<' || c == '>' || c == '"' || c == '\'' {
      assert e[..|e|] == e;
      forall i | 0 < i < |e| ensures e[i] != '&' {
      }
    }
  }

  /** The encoder's output contains no `<`, `>`, `"` or `'`, and every `&` in it starts one of
      the five entities. */
  lemma {:induction false} EscapeHtmlWellEscaped(s: string)
    ensures WellEscaped(EscapeHtml(s))
  {
    EscapeHtmlIsSinglePass(s);
    EscapedWellEscaped(s);
  }

  lemma {:induction false} EscapedWellEscaped(s: string)
    ensures WellEscaped(Escaped(s))
  {
    if s != [] {
      WellEscapedChar(s[0]);
      EscapedWellEscaped(s[1..]);
      WellEscapedAppend(EscapeChar(s[0]), Escaped(s[1..]));
    }
  }

  /** A text with none of the five special characters is returned unchanged. */
  lemma EscapeHtmlPlain(s: string)
    requires forall i :: 0 <= i < |s| ==> !IsSpecial(s[i])
    ensures EscapeHtml(s) == s
  {
    ReplaceAllAbsent(s, '&', "&amp;");
    ReplaceAllAbsent(s, '<', "&lt;");
    ReplaceAllAbsent(s, '>', "&gt;");
    ReplaceAllAbsent(s, '"', "&quot;");
    ReplaceAllAbsent(s, '\'', "&#39;");
  }
}
