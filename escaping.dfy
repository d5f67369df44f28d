/** The two text-safety transforms of the formatter (rsformat.js:14-29):
    markup escaping of the five characters `& < > " '`, and turning line
    breaks into `<br>` markers after escaping.

    Each is modelled twice: as the chain of global replaces the source
    writes, and as a one-pass reference definition; lemmas prove the two
    equal, so the properties proved of the reference hold of the source's
    chain. */
module Escaping {
  import opened Text
  import opened Values

  /** The entity a single character is escaped to. */
  function EscapeChar(c: char): string
  {
    if c == '&' then "&amp;"
    else if c == '<' then "&lt;"
    else if c == '>' then "&gt;"
    else if c == '"' then "&quot;"
    else if c == '\'' then "&#039;"
    else [c]
  }

  predicate IsMarkupChar(c: char)
  {
    c == '&' || c == '<' || c == '>' || c == '"' || c == '\''
  }

  /** Neither an angle bracket nor a quote occurs in `s`. */
  predicate MarkupFree(s: string)
  {
    forall k :: 0 <= k < |s| ==> s[k] != '<' && s[k] != '>' && s[k] != '"' && s[k] != '\''
  }

  /** Reference definition of escaping: each character on its own. */
  function EscapeText(s: string): (r: string)
    ensures MarkupFree(r)
    ensures (forall k :: 0 <= k < |s| ==> !IsMarkupChar(s[k])) ==> r == s
    ensures |r| >= |s|
    decreases |s|
  {
    if s == [] then ""
    else EscapeChar(s[0]) + EscapeText(s[1..])
  }

  /** The chain of replaces at rsformat.js:16-21, `&` first. */
  function EscapeChain(s: string): string
  {
    ReplaceChar(ReplaceChar(ReplaceChar(ReplaceChar(ReplaceChar(
      s, '&', "&amp;"), '<', "&lt;"), '>', "&gt;"), '"', "&quot;"), '\'', "&#039;")
  }

  lemma EscapeChainAppend(a: string, b: string)
    ensures EscapeChain(a + b) == EscapeChain(a) + EscapeChain(b)
  {
    var a1, b1 := ReplaceChar(a, '&', "&amp;"), ReplaceChar(b, '&', "&amp;");
    ReplaceCharAppend(a, b, '&', "&amp;");
    var a2, b2 := ReplaceChar(a1, '<', "&lt;"), ReplaceChar(b1, '<', "&lt;");
    ReplaceCharAppend(a1, b1, '<', "&lt;");
    var a3, b3 := ReplaceChar(a2, '>', "&gt;"), ReplaceChar(b2, '>', "&gt;");
    ReplaceCharAppend(a2, b2, '>', "&gt;");
    var a4, b4 := ReplaceChar(a3, '"', "&quot;"), ReplaceChar(b3, '"', "&quot;");
    ReplaceCharAppend(a3, b3, '"', "&quot;");
    ReplaceCharAppend(a4, b4, '\'', "&#039;");
  }

  /** No entity holds a character that a later replace in the chain acts on. */
  lemma EntitiesInert()
    ensures '<' !in "&amp;" && '>' !in "&amp;" && '"' !in "&amp;" && '\'' !in "&amp;"
    ensures '>' !in "&lt;" && '"' !in "&lt;" && '\'' !in "&lt;"
    ensures '"' !in "&gt;" && '\'' !in "&gt;"
    ensures '\'' !in "&quot;"
  {
  }

  lemma EscapeChainChar(c: char)
    ensures EscapeChain([c]) == EscapeChar(c)
  {
    var s1 := ReplaceChar([c], '&', "&amp;");
    var s2 := ReplaceChar(s1, '<', "&lt;");
    var s3 := ReplaceChar(s2, '>', "&gt;");
    var s4 := ReplaceChar(s3, '"', "&quot;");
    EntitiesInert();
    ReplaceSingle(c, '&', "&amp;");
    if c == '&' {
      return;
    }
    ReplaceSingle(c, '<', "&lt;");
    if c == '<' {
      return;
    }
    ReplaceSingle(c, '>', "&gt;");
    if c == '>' {
      return;
    }
    ReplaceSingle(c, '"', "&quot;");
    if c == '"' {
      return;
    }
    ReplaceSingle(c, '\'', "&#039;");
  }

  /** Because `&` is replaced first, the chain never re-escapes the
      entities it has just produced: it is exactly per-character escaping. */
  lemma {:induction false} EscapeChainIsEscapeText(s: string)
    ensures EscapeChain(s) == EscapeText(s)
    decreases |s|
  {
    if s != [] {
      assert s == [s[0]] + s[1..];
      EscapeChainAppend([s[0]], s[1..]);
      EscapeChainChar(s[0]);
      EscapeChainIsEscapeText(s[1..]);
    }
  }

  /** `escapeHtml(value)` (rsformat.js:14-22). */
  function EscapeHtml(v: Value): (r: string)
    ensures IsNullish(v) ==> r == ""
    ensures r == EscapeText(Display(v))
  {
    if IsNullish(v) then ""
    else EscapeChainIsEscapeText(ToStr(v)); EscapeChain(ToStr(v))
  }

  /** Decoding of the five entities, the inverse of escaping. */
  function Unescape(s: string): string
    decreases |s|
  {
    if s == [] then ""
    else if "&amp;" <= s then "&" + Unescape(s[5..])
    else if "&lt;" <= s then "<" + Unescape(s[4..])
    else if "&gt;" <= s then ">" + Unescape(s[4..])
    else if "&quot;" <= s then "\"" + Unescape(s[6..])
    else if "&#039;" <= s then "'" + Unescape(s[6..])
    else [s[0]] + Unescape(s[1..])
  }

  /** Escaping loses nothing: decoding the escaped text gives the text back. */
  lemma {:induction false} UnescapeEscapeText(s: string)
    ensures Unescape(EscapeText(s)) == s
    decreases |s|
  {
    if s != [] {
      var t := EscapeText(s[1..]);
      assert EscapeText(s) == EscapeChar(s[0]) + t;
      UnescapeChar(s[0], t);
      UnescapeEscapeText(s[1..]);
      assert [s[0]] + s[1..] == s;
    }
  }

  /** One escaped character decodes back to that character. */
  lemma UnescapeChar(c: char, t: string)
    ensures Unescape(EscapeChar(c) + t) == [c] + Unescape(t)
  {
    var x := EscapeChar(c) + t;
    if c == '&' {
      assert x[..5] == "&amp;" && x[5..] == t;
    } else if c == '<' {
      UnescapeShort(x, "&lt;", 'l', t);
    } else if c == '>' {
      UnescapeShort(x, "&gt;", 'g', t);
    } else if c == '"' {
      UnescapeLong(x, "&quot;", 'q', t);
    } else if c == '\'' {
      UnescapeLong(x, "&#039;", '#', t);
    } else {
      assert x[0] == c && x[1..] == t;
    }
  }

  /** A four-character entity is decoded by its own branch: its second
      character rules out the earlier ones. */
  lemma UnescapeShort(x: string, ent: string, second: char, t: string)
    requires ent == "&lt;" || ent == "&gt;"
    requires second == ent[1] && x == ent + t
    ensures Unescape(x) == (if ent == "&lt;" then "<" else ">") + Unescape(t)
  {
    assert x[1] == second && x[..4] == ent && x[4..] == t;
  }

  /** A six-character entity is decoded by its own branch. */
  lemma UnescapeLong(x: string, ent: string, second: char, t: string)
    requires ent == "&quot;" || ent == "&#039;"
    requires second == ent[1] && x == ent + t
    ensures Unescape(x) == (if ent == "&quot;" then "\"" else "'") + Unescape(t)
  {
    assert x[1] == second && x[..6] == ent && x[6..] == t;
  }

  /** `s.replace(/\r\n/g, '<br>')`. */
  function ReplaceCrlf(s: string): string
    decreases |s|
  {
    if s == [] then ""
    else if |s| >= 2 && s[0] == '\r' && s[1] == '\n' then "<br>" + ReplaceCrlf(s[2..])
    else [s[0]] + ReplaceCrlf(s[1..])
  }

  /** The chain of replaces at rsformat.js:28: CRLF, then LF, then CR. */
  function BreakChain(s: string): string
  {
    ReplaceChar(ReplaceChar(ReplaceCrlf(s), '\n', "<br>"), '\r', "<br>")
  }

  /** Reference definition of line-break conversion, in one left-to-right
      pass: a CRLF pair, a lone LF and a lone CR each become one `<br>`. */
  function BreakLines(s: string): (r: string)
    ensures '\r' !in r && '\n' !in r
    ensures '\r' !in s && '\n' !in s ==> r == s
    decreases |s|
  {
    if s == [] then ""
    else if |s| >= 2 && s[0] == '\r' && s[1] == '\n' then "<br>" + BreakLines(s[2..])
    else if s[0] == '\r' || s[0] == '\n' then "<br>" + BreakLines(s[1..])
    else [s[0]] + BreakLines(s[1..])
  }

  /** The LF and CR passes applied after the CRLF pass. */
  function LoneBreakPasses(s: string): string
  {
    ReplaceChar(ReplaceChar(s, '\n', "<br>"), '\r', "<br>")
  }

  lemma LoneBreakPassesAppend(a: string, b: string)
    ensures LoneBreakPasses(a + b) == LoneBreakPasses(a) + LoneBreakPasses(b)
  {
    ReplaceCharAppend(a, b, '\n', "<br>");
    ReplaceCharAppend(ReplaceChar(a, '\n', "<br>"), ReplaceChar(b, '\n', "<br>"), '\r', "<br>");
  }

  lemma {:induction false} BreakChainIsBreakLines(s: string)
    ensures BreakChain(s) == BreakLines(s)
    decreases |s|
  {
    if s != [] {
      if |s| >= 2 && s[0] == '\r' && s[1] == '\n' {
        LoneBreakPassesAppend("<br>", ReplaceCrlf(s[2..]));
        BreakChainIsBreakLines(s[2..]);
      } else {
        var c := s[0];
        LoneBreakPassesAppend([c], ReplaceCrlf(s[1..]));
        BreakChainIsBreakLines(s[1..]);
        assert [c][1..] == [];
        if c == '\n' {
          assert LoneBreakPasses([c]) == "<br>";
        } else if c == '\r' {
          assert ReplaceChar([c], '\n', "<br>") == [c];
          assert LoneBreakPasses([c]) == "<br>";
        } else {
          assert LoneBreakPasses([c]) == [c];
        }
      }
    }
  }

  /** `convertNewlineToBr(value)` (rsformat.js:24-29): null and undefined
      give the empty string; otherwise the text is escaped first and the
      line breaks are converted afterwards. */
  function ConvertNewlineToBr(v: Value): (r: string)
    ensures IsNullish(v) ==> r == ""
    ensures r == BreakLines(EscapeText(Display(v)))
  {
    if IsNullish(v) then ""
    else
      var str := ToStr(v);
      var escaped := EscapeHtml(Str(str));
      BreakChainIsBreakLines(escaped);
      BreakChain(escaped)
  }

  /** Conversion works on each side of a cut that does not split a CRLF pair. */
  lemma {:induction false} BreakLinesAppend(a: string, b: string)
    requires a == [] || b == [] || a[|a| - 1] != '\r' || b[0] != '\n'
    ensures BreakLines(a + b) == BreakLines(a) + BreakLines(b)
    decreases |a|
  {
    var ab := a + b;
    if a == [] {
      assert ab == b;
    } else {
      var k: nat := if |a| >= 2 && a[0] == '\r' && a[1] == '\n' then 2 else 1;
      var h := BreakLines(a[..k]);
      assert ab[..k] == a[..k] && ab[k..] == a[k..] + b;
      assert a[k..] == [] || a[k..][|a[k..]| - 1] == a[|a| - 1];
      assert BreakLines(a) == h + BreakLines(a[k..]) by {
        BreakLinesStep(a, k);
      }
      assert BreakLines(ab) == h + BreakLines(ab[k..]) by {
        assert ab[0] == a[0];
        assert |a| >= 2 ==> ab[1] == a[1];
        assert |a| == 1 && b != [] ==> ab[1] == b[0];
        BreakLinesStep(ab, k);
      }
      BreakLinesAppend(a[k..], b);
      ConcatAssoc(h, BreakLines(a[k..]), BreakLines(b));
    }
  }

  /** The first step of the conversion, consuming `k` characters: two for
      a CRLF pair and one otherwise. */
  lemma BreakLinesStep(s: string, k: nat)
    requires 1 <= k <= 2 && k <= |s|
    requires k == 2 <==> |s| >= 2 && s[0] == '\r' && s[1] == '\n'
    ensures BreakLines(s) == BreakLines(s[..k]) + BreakLines(s[k..])
  {
    var t := s[..k];
    if k == 2 {
      assert t[0] == '\r' && t[1] == '\n' && t[2..] == [];
      assert BreakLines(t) == "<br>";
    } else {
      assert |t| == 1 && t[0] == s[0] && t[1..] == [];
      if s[0] == '\r' || s[0] == '\n' {
        assert BreakLines(t) == "<br>";
      } else {
        assert BreakLines(t) == [s[0]];
      }
    }
  }

  /** A CRLF pair becomes exactly one `<br>`. */
  lemma CrlfIsOneMarker(a: string, b: string)
    ensures BreakLines(a + "\r\n" + b) == BreakLines(a) + "<br>" + BreakLines(b)
  {
    var t := "\r\n" + b;
    assert t[0] == '\r' && t[1] == '\n' && t[2..] == b;
    assert BreakLines(t) == "<br>" + BreakLines(b);
    assert a + "\r\n" + b == a + t;
    BreakLinesAppend(a, t);
    ConcatAssoc(BreakLines(a), "<br>", BreakLines(b));
  }

  /** A line feed not preceded by CR becomes exactly one `<br>`. */
  lemma LfIsOneMarker(a: string, b: string)
    requires a == [] || a[|a| - 1] != '\r'
    ensures BreakLines(a + "\n" + b) == BreakLines(a) + "<br>" + BreakLines(b)
  {
    var t := "\n" + b;
    assert a + "\n" + b == a + t;
    assert t[1..] == b;
    BreakLinesAppend(a, t);
  }

  /** A carriage return not followed by LF becomes exactly one `<br>`. */
  lemma CrIsOneMarker(a: string, b: string)
    requires b == [] || b[0] != '\n'
    ensures BreakLines(a + "\r" + b) == BreakLines(a) + "<br>" + BreakLines(b)
  {
    var t := "\r" + b;
    assert a + "\r" + b == a + t;
    assert t[1..] == b;
    BreakLinesAppend(a, t);
  }

  /** Every `<` in `s` opens a `<br>` marker. */
  predicate OnlyBreakTags(s: string)
  {
    forall k :: 0 <= k < |s| && s[k] == '<' ==> "<br>" <= s[k..]
  }

  lemma OnlyBreakTagsAppend(a: string, b: string)
    requires OnlyBreakTags(a) && OnlyBreakTags(b)
    ensures OnlyBreakTags(a + b)
  {
    forall k | 0 <= k < |a + b| && (a + b)[k] == '<'
      ensures "<br>" <= (a + b)[k..]
    {
      if k < |a| {
        assert (a + b)[k..] == a[k..] + b;
        assert a[k] == '<';
      } else {
        assert (a + b)[k..] == b[k - |a|..];
        assert b[k - |a|] == '<';
      }
    }
  }

  lemma {:induction false} BreakLinesOnlyBreakTags(s: string)
    requires '<' !in s
    ensures OnlyBreakTags(BreakLines(s))
    decreases |s|
  {
    if s != [] {
      var head := if |s| >= 2 && s[0] == '\r' && s[1] == '\n' then "<br>"
                  else if s[0] == '\r' || s[0] == '\n' then "<br>" else [s[0]];
      var rest := if |s| >= 2 && s[0] == '\r' && s[1] == '\n' then s[2..] else s[1..];
      assert BreakLines(s) == head + BreakLines(rest);
      BreakLinesOnlyBreakTags(rest);
      assert OnlyBreakTags(head) by {
        if head == "<br>" {
          assert head[0..] == "<br>";
        }
      }
      OnlyBreakTagsAppend(head, BreakLines(rest));
    }
  }

  /** Because escaping comes first, the only `<` in the converted text
      are the inserted `<br>` markers. */
  lemma ConvertedTextHasOnlyBreakTags(v: Value)
    ensures OnlyBreakTags(ConvertNewlineToBr(v))
  {
    var e := EscapeText(Display(v));
    assert MarkupFree(e);
    BreakLinesOnlyBreakTags(e);
  }

  /** A literal `<br>` in the data comes out as `&lt;br&gt;`. */
  lemma LiteralBreakTagIsEscaped()
    ensures ConvertNewlineToBr(Str("<br>")) == "&lt;br&gt;"
  {
    assert Display(Str("<br>")) == "<br>";
    assert EscapeText("<br>") == "&lt;br&gt;" by {
      EscapedBreakTag("<br>");
    }
    assert BreakLines("&lt;br&gt;") == "&lt;br&gt;" by {
      assert '\r' !in "&lt;br&gt;" && '\n' !in "&lt;br&gt;";
    }
  }

  lemma EscapedBreakTag(s: string)
    requires s == "<br>"
    ensures EscapeText(s) == "&lt;br&gt;"
  {
    assert s[1..] == "br>" && s[1..][1..] == "r>" && s[1..][1..][1..] == ">";
    assert EscapeText(">") == "&gt;" by {
      assert ">"[1..] == "";
    }
    assert EscapeText("r>") == "r&gt;";
    assert EscapeText("br>") == "br&gt;";
  }
}
