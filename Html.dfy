/** `escapeHtml` (public/app.js:338-345): five global replacements applied in turn,
    ampersands first. */
module Html {

  /** `s.replace(/c/g, rep)`: every occurrence of the character `c` replaced. */
  function ReplaceAll(s: string, c: char, rep: string): (r: string)
    ensures c !in rep ==> c !in r
  {
    if s == [] then []
    else (if s[0] == c then rep else [s[0]]) + ReplaceAll(s[1..], c, rep)
  }

  /** The chain of replacements, in source order. */
  function EscapeHtml(unsafe: string): string
  {
    ReplaceAll(ReplaceAll(ReplaceAll(ReplaceAll(ReplaceAll(unsafe,
      '&', "&amp;"), '<', "&lt;"), '>', "&gt;"), '"', "&quot;"), '\'', "&#039;")
  }

  /** The entity for one character: an independent, single-pass definition. */
  function EscapeChar(c: char): string
  {
    match c
    case '&' => "&amp;"
    case '<' => "&lt;"
    case '>' => "&gt;"
    case '"' => "&quot;"
    case '\'' => "&#039;"
    case _ => [c]
  }

  /** Every character replaced by its entity in one pass. */
  function EscapeEach(s: string): string
  {
    if s == [] then [] else EscapeChar(s[0]) + EscapeEach(s[1..])
  }

  lemma {:induction false} ReplaceAllAppend(a: string, b: string, c: char, rep: string)
    ensures ReplaceAll(a + b, c, rep) == ReplaceAll(a, c, rep) + ReplaceAll(b, c, rep)
  {
    if a == [] {
      assert a + b == b;
    } else {
      assert (a + b)[0] == a[0];
      assert (a + b)[1..] == a[1..] + b;
      ReplaceAllAppend(a[1..], b, c, rep);
    }
  }

  lemma {:induction false} EscapeHtmlAppend(a: string, b: string)
    ensures EscapeHtml(a + b) == EscapeHtml(a) + EscapeHtml(b)
  {
    var s1a, s1b := ReplaceAll(a, '&', "&amp;"), ReplaceAll(b, '&', "&amp;");
    ReplaceAllAppend(a, b, '&', "&amp;");
    var s2a, s2b := ReplaceAll(s1a, '<', "&lt;"), ReplaceAll(s1b, '<', "&lt;");
    ReplaceAllAppend(s1a, s1b, '<', "&lt;");
    var s3a, s3b := ReplaceAll(s2a, '>', "&gt;"), ReplaceAll(s2b, '>', "&gt;");
    ReplaceAllAppend(s2a, s2b, '>', "&gt;");
    var s4a, s4b := ReplaceAll(s3a, '"', "&quot;"), ReplaceAll(s3b, '"', "&quot;");
    ReplaceAllAppend(s3a, s3b, '"', "&quot;");
    ReplaceAllAppend(s4a, s4b, '\'', "&#039;");
  }

  /** A replacement introduces no character its replacement text lacks. */
  lemma {:induction false} ReplaceKeepsAbsent(s: string, c: char, rep: string, d: char)
    requires d !in s && d !in rep
    ensures d !in ReplaceAll(s, c, rep)
  {
    if s != [] {
      ReplaceKeepsAbsent(s[1..], c, rep, d);
    }
  }

  /** Replacing a character that does not occur changes nothing. */
  lemma {:induction false} ReplaceAbsent(s: string, c: char, rep: string)
    requires c !in s
    ensures ReplaceAll(s, c, rep) == s
  {
    if s != [] {
      ReplaceAbsent(s[1..], c, rep);
    }
  }

  lemma ReplaceOne(c: char, d: char, rep: string)
    ensures ReplaceAll([c], d, rep) == if c == d then rep else [c]
  {
    assert [c][1..] == [];
  }

  /** An entity produced by an earlier replacement passes a later one unchanged. */
  lemma EscapeThrough(entity: string, c: char, rep: string)
    requires entity in {"&amp;", "&lt;", "&gt;", "&quot;"} && c in {'<', '>', '"', '\''}
    ensures ReplaceAll(entity, c, rep) == entity
  {
    ReplaceAbsent(entity, c, rep);
  }

  /** One character goes through the chain to its entity: no replacement text is
      touched by a later replacement because ampersands go first. */
  lemma EscapeOne(c: char)
    ensures EscapeHtml([c]) == EscapeChar(c)
  {
    ReplaceOne(c, '&', "&amp;");
    if c == '&' {
      EscapeThrough("&amp;", '<', "&lt;");
      EscapeThrough("&amp;", '>', "&gt;");
      EscapeThrough("&amp;", '"', "&quot;");
      EscapeThrough("&amp;", '\'', "&#039;");
    } else {
      ReplaceOne(c, '<', "&lt;");
      if c == '<' {
        EscapeThrough("&lt;", '>', "&gt;");
        EscapeThrough("&lt;", '"', "&quot;");
        EscapeThrough("&lt;", '\'', "&#039;");
      } else {
        ReplaceOne(c, '>', "&gt;");
        if c == '>' {
          EscapeThrough("&gt;", '"', "&quot;");
          EscapeThrough("&gt;", '\'', "&#039;");
        } else {
          ReplaceOne(c, '"', "&quot;");
          if c == '"' {
            EscapeThrough("&quot;", '\'', "&#039;");
          } else {
            ReplaceOne(c, '\'', "&#039;");
          }
        }
      }
    }
  }

  /** The chain of replacements equals the single-pass escape. */
  lemma {:induction false} EscapeHtmlIsEscapeEach(s: string)
    ensures EscapeHtml(s) == EscapeEach(s)
  {
    if s != [] {
      assert s == [s[0]] + s[1..];
      EscapeHtmlAppend([s[0]], s[1..]);
      EscapeOne(s[0]);
      EscapeHtmlIsEscapeEach(s[1..]);
    }
  }

  /** The escaped text holds no markup-significant character other than the
      ampersands that start entities. */
  lemma EscapedIsInert(s: string)
    ensures '<' !in EscapeHtml(s) && '>' !in EscapeHtml(s)
    ensures '"' !in EscapeHtml(s) && '\'' !in EscapeHtml(s)
  {
    var t1 := ReplaceAll(s, '&', "&amp;");
    var t2 := ReplaceAll(t1, '<', "&lt;");
    var t3 := ReplaceAll(t2, '>', "&gt;");
    var t4 := ReplaceAll(t3, '"', "&quot;");
    assert '<' !in t2;
    ReplaceKeepsAbsent(t2, '>', "&gt;", '<');
    assert '>' !in t3;
    ReplaceKeepsAbsent(t3, '"', "&quot;", '<');
    ReplaceKeepsAbsent(t3, '"', "&quot;", '>');
    assert '"' !in t4;
    ReplaceKeepsAbsent(t4, '\'', "&#039;", '<');
    ReplaceKeepsAbsent(t4, '\'', "&#039;", '>');
    ReplaceKeepsAbsent(t4, '\'', "&#039;", '"');
  }
}
