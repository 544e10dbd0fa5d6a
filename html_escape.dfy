/** HTML escaping of code text before it is placed into markup.

    The page escapes with a chain of five global single-character
    replacements. This module models that chain as written (EscapeChain),
    gives the per-character escaping it amounts to (EscapeHtml), and proves
    the two equal, together with the properties the escaping is there for:
    no markup-significant character survives, the escaping distributes over
    concatenation, it leaves plain text alone, and it can be undone. */
module HtmlEscape {

  /** The result of `s.replace(/target/g, repl)` for a one-character pattern
      and a replacement without `$` patterns: every occurrence of `target`
      is replaced by `repl`, left to right. */
  function ReplaceAll(s: string, target: char, repl: string): (r: string)
    ensures |repl| >= 1 ==> |r| >= |s|
  {
    if s == [] then []
    else (if s[0] == target then repl else [s[0]]) + ReplaceAll(s[1..], target, repl)
  }

  /** A replacement without the target leaves no occurrence of it. */
  lemma {:induction false} ReplaceAllRemovesTarget(s: string, target: char, repl: string)
    requires target !in repl
    ensures target !in ReplaceAll(s, target, repl)
  {
    if s != [] {
      ReplaceAllRemovesTarget(s[1..], target, repl);
    }
  }

  /** Text without the target is returned unchanged. */
  lemma {:induction false} ReplaceAllAbsent(s: string, target: char, repl: string)
    requires target !in s
    ensures ReplaceAll(s, target, repl) == s
  {
    if s != [] {
      assert s[0] in s;
      ReplaceAllAbsent(s[1..], target, repl);
      assert [s[0]] + s[1..] == s;
    }
  }

  lemma {:induction false} ReplaceAllConcat(s: string, t: string, target: char, repl: string)
    ensures ReplaceAll(s + t, target, repl) == ReplaceAll(s, target, repl) + ReplaceAll(t, target, repl)
  {
    if s != [] {
      assert (s + t)[0] == s[0];
      assert (s + t)[1..] == s[1..] + t;
      ReplaceAllConcat(s[1..], t, target, repl);
    } else {
      assert s + t == t;
    }
  }

  /** escapeHtml as the page writes it: `&` first, then `<`, `>`, `"`, `'`. */
  function EscapeChain(text: string): (escaped: string)
    ensures |escaped| >= |text|
  {
    var amp := ReplaceAll(text, '&', "&amp;");
    var lt := ReplaceAll(amp, '<', "&lt;");
    var gt := ReplaceAll(lt, '>', "&gt;");
    var quot := ReplaceAll(gt, '"', "&quot;");
    ReplaceAll(quot, '\'', "&#039;")
  }

  /** The character reference (or the character itself) one input character becomes. */
  function EscapeChar(c: char): string
  {
    match c
    case '&' => "&amp;"
    case '<' => "&lt;"
    case '>' => "&gt;"
    case '"' => "&quot;"
    case '\'' => "&#039;"
    case _ => [c]
  }

  /** True of the five characters the escaping rewrites. */
  predicate IsSpecial(c: char)
  {
    c == '&' || c == '<' || c == '>' || c == '"' || c == '\''
  }

  /** Escaping as a per-character map. */
  function EscapeHtml(text: string): (r: string)
    ensures NoMarkup(r)
    ensures |r| >= |text|
  {
    if text == [] then []
    else
      EscapeCharSafe(text[0]);
      EscapeChar(text[0]) + EscapeHtml(text[1..])
  }

  /** No character escapes to markup containing `<`, `>`, `"` or `'`. */
  lemma EscapeCharSafe(c: char)
    ensures NoMarkup(EscapeChar(c))
    ensures |EscapeChar(c)| >= 1
  {
    ReferencesHaveNoMarkup();
  }

  lemma EscapeChainOneChar(c: char)
    ensures EscapeChain([c]) == EscapeChar(c)
  {
    ReferencesHaveNoMarkup();
    var e := EscapeChar(c);
    ReplaceAllOne(c, '&', "&amp;");
    if c != '&' {
      ReplaceAllOne(c, '<', "&lt;");
      if c != '<' {
        ReplaceAllOne(c, '>', "&gt;");
        if c != '>' {
          ReplaceAllOne(c, '"', "&quot;");
          if c != '"' {
            ReplaceAllOne(c, '\'', "&#039;");
            return;
          }
        }
      }
    }
    // the reference `c` became passes the remaining steps unchanged
    ReplaceAllAbsent(e, '<', "&lt;");
    ReplaceAllAbsent(e, '>', "&gt;");
    ReplaceAllAbsent(e, '"', "&quot;");
    ReplaceAllAbsent(e, '\'', "&#039;");
  }

  predicate IsMarkup(c: char)
  {
    c == '<' || c == '>' || c == '"' || c == '\''
  }

  /** True of text holding none of `<`, `>`, `"`, `'`. */
  predicate NoMarkup(s: string)
  {
    '<' !in s && '>' !in s && '"' !in s && '\'' !in s
  }

  lemma NoMarkupByIndex(s: string)
    requires forall i :: 0 <= i < |s| ==> !IsMarkup(s[i])
    ensures NoMarkup(s)
  {
    if !NoMarkup(s) {
      var i :| 0 <= i < |s| && IsMarkup(s[i]);
    }
  }

  /** None of the five references contains markup characters. */
  lemma ReferencesHaveNoMarkup()
    ensures NoMarkup("&amp;") && NoMarkup("&lt;") && NoMarkup("&gt;") && NoMarkup("&quot;")
    ensures NoMarkup("&#039;")
  {
    AmpHasNoMarkup();
    LtHasNoMarkup();
    GtHasNoMarkup();
    QuotHasNoMarkup();
    AposHasNoMarkup();
  }

  lemma AmpHasNoMarkup()
    ensures NoMarkup("&amp;")
  {
    var s := "&amp;";
    assert s[0] == '&' && s[1] == 'a' && s[2] == 'm' && s[3] == 'p' && s[4] == ';';
    forall i | 0 <= i < |s| ensures !IsMarkup(s[i]) {
      assert i == 0 || i == 1 || i == 2 || i == 3 || i == 4;
    }
    NoMarkupByIndex(s);
  }

  lemma LtHasNoMarkup()
    ensures NoMarkup("&lt;")
  {
    var s := "&lt;";
    assert s[0] == '&' && s[1] == 'l' && s[2] == 't' && s[3] == ';';
    forall i | 0 <= i < |s| ensures !IsMarkup(s[i]) {
      assert i == 0 || i == 1 || i == 2 || i == 3;
    }
    NoMarkupByIndex(s);
  }

  lemma GtHasNoMarkup()
    ensures NoMarkup("&gt;")
  {
    var s := "&gt;";
    assert s[0] == '&' && s[1] == 'g' && s[2] == 't' && s[3] == ';';
    forall i | 0 <= i < |s| ensures !IsMarkup(s[i]) {
      assert i == 0 || i == 1 || i == 2 || i == 3;
    }
    NoMarkupByIndex(s);
  }

  lemma QuotHasNoMarkup()
    ensures NoMarkup("&quot;")
  {
    var s := "&quot;";
    assert s[0] == '&' && s[1] == 'q' && s[2] == 'u' && s[3] == 'o' && s[4] == 't' && s[5] == ';';
    forall i | 0 <= i < |s| ensures !IsMarkup(s[i]) {
      assert i == 0 || i == 1 || i == 2 || i == 3 || i == 4 || i == 5;
    }
    NoMarkupByIndex(s);
  }

  lemma AposHasNoMarkup()
    ensures NoMarkup("&#039;")
  {
    var s := "&#039;";
    assert s[0] == '&' && s[1] == '#' && s[2] == '0' && s[3] == '3' && s[4] == '9' && s[5] == ';';
    forall i | 0 <= i < |s| ensures !IsMarkup(s[i]) {
      assert i == 0 || i == 1 || i == 2 || i == 3 || i == 4 || i == 5;
    }
    NoMarkupByIndex(s);
  }

  lemma ReplaceAllOne(c: char, target: char, repl: string)
    ensures ReplaceAll([c], target, repl) == if c == target then repl else [c]
  {
    assert [c][1..] == [];
  }

  lemma {:induction false} EscapeChainConcat(s: string, t: string)
    ensures EscapeChain(s + t) == EscapeChain(s) + EscapeChain(t)
  {
    var a1, b1 := ReplaceAll(s, '&', "&amp;"), ReplaceAll(t, '&', "&amp;");
    ReplaceAllConcat(s, t, '&', "&amp;");
    var a2, b2 := ReplaceAll(a1, '<', "&lt;"), ReplaceAll(b1, '<', "&lt;");
    ReplaceAllConcat(a1, b1, '<', "&lt;");
    var a3, b3 := ReplaceAll(a2, '>', "&gt;"), ReplaceAll(b2, '>', "&gt;");
    ReplaceAllConcat(a2, b2, '>', "&gt;");
    var a4, b4 := ReplaceAll(a3, '"', "&quot;"), ReplaceAll(b3, '"', "&quot;");
    ReplaceAllConcat(a3, b3, '"', "&quot;");
    ReplaceAllConcat(a4, b4, '\'', "&#039;");
  }

  /** The replace chain is the per-character escaping: since `&` goes first
      and no later replacement text contains a later target, no character is
      rewritten twice. */
  lemma {:induction false} EscapeChainIsEscapeHtml(text: string)
    ensures EscapeChain(text) == EscapeHtml(text)
  {
    if text != [] {
      assert text == [text[0]] + text[1..];
      EscapeChainConcat([text[0]], text[1..]);
      EscapeChainOneChar(text[0]);
      EscapeChainIsEscapeHtml(text[1..]);
    }
  }

  /** Escaping distributes over concatenation. */
  lemma {:induction false} EscapeHtmlConcat(s: string, t: string)
    ensures EscapeHtml(s + t) == EscapeHtml(s) + EscapeHtml(t)
  {
    if s != [] {
      assert (s + t)[0] == s[0];
      assert (s + t)[1..] == s[1..] + t;
      EscapeHtmlConcat(s[1..], t);
    } else {
      assert s + t == t;
    }
  }

  /** Text without any of the five special characters is left as it is. */
  lemma {:induction false} EscapeHtmlPlainText(text: string)
    requires forall i :: 0 <= i < |text| ==> !IsSpecial(text[i])
    ensures EscapeHtml(text) == text
  {
    if text != [] {
      EscapeHtmlPlainText(text[1..]);
    }
  }

  /** Escaping is empty exactly when the text is. */
  lemma EscapeHtmlEmpty(text: string)
    ensures EscapeHtml(text) == [] <==> text == []
  {
  }

  /** True if `s` begins with `prefix`. */
  predicate StartsWith(s: string, prefix: string)
  {
    |prefix| <= |s| && forall i :: 0 <= i < |prefix| ==> s[i] == prefix[i]
  }

  /** Decodes the five character references escaping produces; everything
      else is copied. */
  function Unescape(s: string): string
    decreases |s|
  {
    if s == [] then []
    else if s[0] != '&' then [s[0]] + Unescape(s[1..])
    else if StartsWith(s, "&amp;") then "&" + Unescape(s[5..])
    else if StartsWith(s, "&lt;") then "<" + Unescape(s[4..])
    else if StartsWith(s, "&gt;") then ">" + Unescape(s[4..])
    else if StartsWith(s, "&quot;") then "\"" + Unescape(s[6..])
    else if StartsWith(s, "&#039;") then "'" + Unescape(s[6..])
    else [s[0]] + Unescape(s[1..])
  }

  lemma UnescapeStep(c: char, rest: string)
    ensures Unescape(EscapeChar(c) + rest) == [c] + Unescape(rest)
  {
    if c == '&' {
      UnescapeAmp(rest);
    } else if c == '<' {
      UnescapeLt(rest);
    } else if c == '>' {
      UnescapeGt(rest);
    } else if c == '"' {
      UnescapeQuot(rest);
    } else if c == '\'' {
      UnescapeApos(rest);
    } else {
      var x := [c] + rest;
      assert x[0] == c && x[1..] == rest;
    }
  }

  lemma UnescapeAmp(rest: string)
    ensures Unescape("&amp;" + rest) == "&" + Unescape(rest)
  {
    var x := "&amp;" + rest;
    assert StartsWith(x, "&amp;");
    assert x[5..] == rest;
  }

  lemma UnescapeLt(rest: string)
    ensures Unescape("&lt;" + rest) == "<" + Unescape(rest)
  {
    var x := "&lt;" + rest;
    assert x[1] == 'l';
    assert StartsWith(x, "&lt;");
    assert x[4..] == rest;
  }

  lemma UnescapeGt(rest: string)
    ensures Unescape("&gt;" + rest) == ">" + Unescape(rest)
  {
    var x := "&gt;" + rest;
    assert x[1] == 'g';
    assert StartsWith(x, "&gt;");
    assert x[4..] == rest;
  }

  lemma UnescapeQuot(rest: string)
    ensures Unescape("&quot;" + rest) == "\"" + Unescape(rest)
  {
    var x := "&quot;" + rest;
    assert x[1] == 'q';
    assert StartsWith(x, "&quot;");
    assert x[6..] == rest;
  }

  lemma UnescapeApos(rest: string)
    ensures Unescape("&#039;" + rest) == "'" + Unescape(rest)
  {
    var x := "&#039;" + rest;
    assert x[1] == '#';
    assert StartsWith(x, "&#039;");
    assert x[6..] == rest;
  }

  /** Escaping loses nothing: decoding the escaped text gives the text back. */
  lemma {:induction false} UnescapeEscapeHtml(text: string)
    ensures Unescape(EscapeHtml(text)) == text
  {
    if text != [] {
      UnescapeStep(text[0], EscapeHtml(text[1..]));
      UnescapeEscapeHtml(text[1..]);
    }
  }

  /** Hence escaping is injective. */
  lemma EscapeHtmlInjective(s: string, t: string)
    requires EscapeHtml(s) == EscapeHtml(t)
    ensures s == t
  {
    UnescapeEscapeHtml(s);
    UnescapeEscapeHtml(t);
  }
}
