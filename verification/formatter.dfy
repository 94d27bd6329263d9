/** The reply formatter of the chat route: Markdown bold markers are dropped,
    remaining asterisks become bullet glyphs and line breaks become `<br>`. */
module Formatter {
  import opened Strings

  /** The bullet glyph U+2022 that replaces a lone asterisk. */
  const Bullet: char := '\U{2022}'

  /** The chain of four `str.replace` calls applied to the answer and to the
      reflection: `**` removed, `*` to a bullet, `\n\n` to `<br><br>`, `\n` to `<br>`. */
  function Format(s: string): (r: string)
    ensures '*' !in r
    ensures '\n' !in r
    ensures '*' !in s && '\n' !in s ==> r == s
  {
    var unbolded := Replace(s, "**", "");
    var bulleted := Replace(unbolded, "*", [Bullet]);
    var paragraphs := Replace(bulleted, "\n\n", "<br><br>");
    var lines := Replace(paragraphs, "\n", "<br>");
    assert '*' !in paragraphs;
    ContainsCharOf(s, "**", 0);
    ContainsCharOf(unbolded, "*", 0);
    ContainsCharOf(bulleted, "\n\n", 0);
    ContainsCharOf(paragraphs, "\n", 0);
    lines
  }

  /** Single-pass reference reading of the formatter: a `**` pair vanishes, a lone
      `*` becomes a bullet, every newline becomes one `<br>`, and every other
      character is copied. */
  function Render(s: string): string
    decreases |s|
  {
    if |s| == 0 then ""
    else if "**" <= s then Render(s[2..])
    else if s[0] == '*' then [Bullet] + Render(s[1..])
    else if s[0] == '\n' then "<br>" + Render(s[1..])
    else [s[0]] + Render(s[1..])
  }

  /** Replacing a one-character pattern in a one-character string. */
  lemma ReplaceOneChar(c: char, p: char, rep: string)
    ensures Replace([c], [p], rep) == if c == p then rep else [c]
  {
  }

  /** `Replace(s, "\n", "<br>")`, the one-step reading of the two newline steps. */
  function Breaks(s: string): string {
    Replace(s, "\n", "<br>")
  }

  /** The two newline steps of the chain. */
  function PairsThenBreaks(s: string): string {
    Breaks(Replace(s, "\n\n", "<br><br>"))
  }

  /** Replacing `\n\n` by `<br><br>` and then `\n` by `<br>` is the same as
      replacing every newline by one `<br>`. */
  lemma {:induction false} NewlinePairsAreSingleBreaks(s: string)
    ensures PairsThenBreaks(s) == Breaks(s)
    decreases |s|
  {
    if |s| == 0 {
    } else if "\n\n" <= s {
      NewlinePairsAreSingleBreaks(s[2..]);
      PairStep(s);
    } else {
      NewlinePairsAreSingleBreaks(s[1..]);
      OtherStep(s);
    }
  }

  /** The `<br>` markup holds no newline, so the line-break step leaves it alone. */
  lemma BreaksKeepMarkup()
    ensures Breaks("<br><br>") == "<br><br>"
  {
    ContainsCharOf("<br><br>", "\n", 0);
  }

  /** A blank line becomes two `<br>` under the line-break step. */
  lemma BreaksOfBlankLine()
    ensures Breaks("\n\n") == "<br><br>"
  {
    assert "\n\n" == "\n" + "\n";
    ReplaceCharConcat("\n", "\n", '\n', "<br>");
    ReplaceOneChar('\n', '\n', "<br>");
  }

  /** On a text that starts with a blank line, the line-break step turns that
      blank line into `<br><br>` and carries on with the rest. */
  lemma BreaksAfterBlankLine(s: string)
    requires "\n\n" <= s
    ensures Breaks(s) == "<br><br>" + Breaks(s[2..])
  {
    assert s == "\n\n" + s[2..];
    ReplaceCharConcat("\n\n", s[2..], '\n', "<br>");
    BreaksOfBlankLine();
  }

  /** Inductive step when the text starts with a blank line. */
  lemma PairStep(s: string)
    requires "\n\n" <= s
    requires PairsThenBreaks(s[2..]) == Breaks(s[2..])
    ensures PairsThenBreaks(s) == Breaks(s)
  {
    var tail := Replace(s[2..], "\n\n", "<br><br>");
    assert Replace(s, "\n\n", "<br><br>") == "<br><br>" + tail;
    ReplaceCharConcat("<br><br>", tail, '\n', "<br>");
    BreaksKeepMarkup();
    assert PairsThenBreaks(s) == "<br><br>" + Breaks(tail);
    BreaksAfterBlankLine(s);
  }

  /** Inductive step when the text does not start with a blank line. */
  lemma OtherStep(s: string)
    requires |s| > 0 && !("\n\n" <= s)
    requires PairsThenBreaks(s[1..]) == Breaks(s[1..])
    ensures PairsThenBreaks(s) == Breaks(s)
  {
  }

  /** What one character becomes once it has passed the bullet and line-break steps. */
  lemma RenderOneChar(c: char)
    ensures Replace(Replace([c], "*", [Bullet]), "\n", "<br>") ==
      (if c == '*' then [Bullet] else if c == '\n' then "<br>" else [c])
  {
  }

  /** The last three steps of the chain agree with the single-pass reading once
      the `**` pairs are gone. */
  lemma {:induction false} ChainMatchesRender(s: string)
    ensures Replace(Replace(Replace(s, "**", ""), "*", [Bullet]), "\n", "<br>") == Render(s)
    decreases |s|
  {
    if |s| == 0 {
    } else if "**" <= s {
      ChainMatchesRender(s[2..]);
      assert Replace(s, "**", "") == "" + Replace(s[2..], "**", "");
      assert "" + Replace(s[2..], "**", "") == Replace(s[2..], "**", "");
    } else {
      var tail := Replace(s[1..], "**", "");
      assert Replace(s, "**", "") == [s[0]] + tail;
      ChainMatchesRender(s[1..]);
      ReplaceCharConcat([s[0]], tail, '*', [Bullet]);
      ReplaceCharConcat(Replace([s[0]], "*", [Bullet]), Replace(tail, "*", [Bullet]), '\n', "<br>");
      RenderOneChar(s[0]);
    }
  }

  /** The four-step chain equals the single-pass reference reading. */
  lemma FormatMatchesRender(s: string)
    ensures Format(s) == Render(s)
  {
    var bulleted := Replace(Replace(s, "**", ""), "*", [Bullet]);
    NewlinePairsAreSingleBreaks(bulleted);
    ChainMatchesRender(s);
  }

  /** Formatting an already formatted text changes nothing. */
  lemma FormatIdempotent(s: string)
    ensures Format(Format(s)) == Format(s)
  {
  }

  /** Clean text, with no asterisk and no newline, passes through unchanged. */
  lemma FormatIdentityOnClean(s: string)
    requires '*' !in s && '\n' !in s
    ensures Format(s) == s
  {
  }
}
