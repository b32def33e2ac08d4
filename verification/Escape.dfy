/** Terminal escaping for text from elsewhere: whole escapes, cut at a budget, and readable back. */
module Escape {
  import opened Wrappers
  import opened Text

  const BLANK_LETTERS: set<char> := {'\U{115f}', '\U{1160}', '\U{3164}', '\U{ffa0}', '\U{2800}'}

  function HexOf(n: nat): (s: string)
    ensures |s| > 0
  {
    if n < 16 then [DigitChar(n)] else HexOf(n / 16) + [DigitChar(n % 16)]
  }

  /** `char::escape_unicode`. */
  function EscapeUnicode(c: char): string { "\\u{" + HexOf(c as int) + "}" }

  /** `char::escape_debug`, `raw` being the characters the Unicode tables print and never combine. */
  function EscapeDebug(raw: char -> bool, c: char): string {
    if c == '\0' then "\\0"
    else if c == '\t' then "\\t"
    else if c == '\r' then "\\r"
    else if c == '\n' then "\\n"
    else if c == '\\' then "\\\\"
    else if c == '"' then "\\\""
    else if c == '\'' then "\\'"
    else if raw(c) then [c]
    else EscapeUnicode(c)
  }

  /** One character as it may reach a line: letters that print as blank space are spelled out. */
  function Escaped(raw: char -> bool, c: char): (s: string)
    ensures |s| > 0
  {
    if c in BLANK_LETTERS then EscapeUnicode(c) else EscapeDebug(raw, c)
  }

  function Render(raw: char -> bool, text: string): string {
    if text == [] then [] else Escaped(raw, text[0]) + Render(raw, text[1..])
  }

  /** How many characters' whole escapes the budget holds. */
  function Fitting(raw: char -> bool, text: string, budget: nat): (k: nat)
    ensures k <= |text|
  {
    if text == [] || |Escaped(raw, text[0])| > budget then 0
    else 1 + Fitting(raw, text[1..], budget - |Escaped(raw, text[0])|)
  }

  function Capped(raw: char -> bool, text: string, limit: Option<nat>): string {
    match limit
    case None => Render(raw, text)
    case Some(budget) =>
      var k := Fitting(raw, text, budget);
      Render(raw, text[..k]) + if k < |text| then "..." else []
  }

  lemma {:induction false} RenderAppend(raw: char -> bool, a: string, b: string)
    ensures Render(raw, a + b) == Render(raw, a) + Render(raw, b)
  {
    if a == [] {
      assert a + b == b;
    } else {
      assert (a + b)[1..] == a[1..] + b;
      assert Render(raw, a + b) == Escaped(raw, a[0]) + Render(raw, a[1..] + b);
      RenderAppend(raw, a[1..], b);
      Chain(Escaped(raw, a[0]), Render(raw, a[1..]), Render(raw, b));
    }
  }

  /** One character more of a render. */
  lemma RenderTurn(raw: char -> bool, text: string, i: nat)
    requires i < |text|
    ensures Render(raw, text[..i + 1]) == Render(raw, text[..i]) + Escaped(raw, text[i])
  {
    assert text[..i + 1] == text[..i] + [text[i]];
    RenderAppend(raw, text[..i], [text[i]]);
    assert [text[i]][1..] == [];
  }

  /** And of the budget it takes. */
  lemma FittingTurn(raw: char -> bool, text: string, i: nat, left: nat)
    requires i < |text|
    ensures Fitting(raw, text[i..], left) ==
            var width := |Escaped(raw, text[i])|;
            if width > left then 0 else 1 + Fitting(raw, text[i + 1..], left - width)
  {
    assert text[i..][1..] == text[i + 1..];
  }

  /** `fmt_with_limit`, over what the formatter is given. */
  method FmtWithLimit(raw: char -> bool, text: string, limit: Option<nat>) returns (out: string)
    ensures out == Capped(raw, text, limit)
  {
    out := "";
    var remaining: Option<nat> := limit;
    for i := 0 to |text|
      invariant out == Render(raw, text[..i])
      invariant limit.None? <==> remaining.None?
      invariant limit.Some? ==>
                  Fitting(raw, text, limit.value) == i + Fitting(raw, text[i..], remaining.value)
    {
      RenderTurn(raw, text, i);
      var ch := text[i];
      var blank := ch in BLANK_LETTERS;
      if remaining.Some? {
        FittingTurn(raw, text, i, remaining.value);
        var width := if blank then |EscapeUnicode(ch)| else |EscapeDebug(raw, ch)|;
        if width > remaining.value { return out + "..."; }
        remaining := Some(remaining.value - width);
      }
      out := out + if blank then EscapeUnicode(ch) else EscapeDebug(raw, ch);
    }
    assert text[..|text|] == text && text[|text|..] == [];
    assert out + [] == out;
  }

  /** The cut is at whole escapes and as late as the budget allows: what is written fits, and no longer prefix
      of the text would. */
  lemma {:induction false} FittingLongest(raw: char -> bool, text: string, budget: nat, j: nat)
    requires j <= |text|
    ensures |Render(raw, text[..j])| <= budget <==> j <= Fitting(raw, text, budget)
  {
    if text != [] && j > 0 {
      var width := |Escaped(raw, text[0])|;
      assert text[..j][1..] == text[1..][..j - 1];
      if width <= budget { FittingLongest(raw, text[1..], budget - width, j - 1); }
    } else {
      assert text[..j] == [];
    }
  }

  /** The capped render is the complete one exactly when that fits the budget; otherwise it is the complete
      escapes of the longest prefix that fits, and the mark of a cut. */
  lemma CappedExact(raw: char -> bool, text: string, budget: nat)
    ensures |Render(raw, text)| <= budget ==> Capped(raw, text, Some(budget)) == Render(raw, text)
    ensures |Render(raw, text)| > budget ==>
              exists k ::
                && 0 <= k < |text|
                && Capped(raw, text, Some(budget)) == Render(raw, text[..k]) + "..."
                && |Render(raw, text[..k])| <= budget < |Render(raw, text[..k + 1])|
    ensures |Capped(raw, text, Some(budget))| <= budget + 3
  {
    var k := Fitting(raw, text, budget);
    assert text[..|text|] == text;
    FittingLongest(raw, text, budget, |text|);
    FittingLongest(raw, text, budget, k);
    if k < |text| {
      FittingLongest(raw, text, budget, k + 1);
    } else {
      assert Render(raw, text) + [] == Render(raw, text);
    }
  }

  // --- what may reach a line ---

  /** A character a line may show: printable ASCII, or one that prints as itself and not as blank space. */
  predicate Shows(raw: char -> bool, c: char) { ' ' <= c <= '~' || (raw(c) && c !in BLANK_LETTERS) }

  predicate AllShow(raw: char -> bool, s: string) { forall i :: 0 <= i < |s| ==> Shows(raw, s[i]) }

  lemma {:induction false} HexOfShows(raw: char -> bool, n: nat)
    ensures AllShow(raw, HexOf(n))
  {
    if n >= 16 { HexOfShows(raw, n / 16); }
  }

  lemma EscapedShows(raw: char -> bool, c: char)
    ensures AllShow(raw, Escaped(raw, c))
  {
    HexOfShows(raw, c as int);
  }

  /** Nothing but such characters reaches a line: no control, and nothing that hides or reorders text, whatever the
      text is. */
  lemma {:induction false} RenderShows(raw: char -> bool, text: string)
    ensures forall i :: 0 <= i < |Render(raw, text)| ==>
              var c := Render(raw, text)[i];
              ' ' <= c <= '~' || (raw(c) && c !in BLANK_LETTERS)
  {
    if text != [] {
      EscapedShows(raw, text[0]);
      RenderShows(raw, text[1..]);
      assert AllShow(raw, Escaped(raw, text[0]));
      assert AllShow(raw, Render(raw, text[1..]));
      assert AllShow(raw, Render(raw, text));
    }
  }

  lemma CappedShows(raw: char -> bool, text: string, limit: Option<nat>)
    ensures forall i :: 0 <= i < |Capped(raw, text, limit)| ==>
              var c := Capped(raw, text, limit)[i];
              ' ' <= c <= '~' || (raw(c) && c !in BLANK_LETTERS)
  {
    RenderShows(raw, text);
    if limit.Some? { RenderShows(raw, text[..Fitting(raw, text, limit.value)]); }
  }

  /** The characters with escapes of their own have those, quotes and the backslash among them, whatever prints raw; and
      the letters that print as blank space are spelled out. */
  lemma EscapeTable(raw: char -> bool, c: char)
    ensures Escaped(raw, '\0') == "\\0" && Escaped(raw, '\t') == "\\t"
    ensures Escaped(raw, '\r') == "\\r" && Escaped(raw, '\n') == "\\n"
    ensures Escaped(raw, '\\') == "\\\\" && Escaped(raw, '"') == "\\\"" && Escaped(raw, '\'') == "\\'"
    ensures c in BLANK_LETTERS ==> Escaped(raw, c) == "\\u{" + HexOf(c as int) + "}"
  {}

  /** And printable text is left alone, but for quotes and the backslash. */
  lemma {:induction false} PlainStays(raw: char -> bool, text: string)
    requires forall i :: 0 <= i < |text| ==>
               raw(text[i]) && text[i] !in BLANK_LETTERS && text[i] !in "\0\t\r\n\\\"\'"
    ensures Render(raw, text) == text
  {
    if text != [] {
      assert text[0] !in "\0\t\r\n\\\"\'";
      assert "\0\t\r\n\\\"\'" == ['\0', '\t', '\r', '\n', '\\', '"', '\''];
      PlainStays(raw, text[1..]);
      assert text == [text[0]] + text[1..];
    }
  }

  // --- reading a complete render back ---

  function HexValue(s: string): Option<nat> {
    if s == [] then Some(0)
    else match (HexValue(s[..|s| - 1]), HexDigit(s[|s| - 1]))
      case (Some(n), Some(d)) => Some(n * 16 + d)
      case _ => None
  }

  predicate IsScalar(n: nat) { n < 0xD800 || 0xE000 <= n < 0x11_0000 }

  /** One character off the front of a render, and how much of the render it took. */
  function Lex(s: string): Option<(char, nat)>
    requires s != []
  {
    if s[0] != '\\' then Some((s[0], 1))
    else if |s| < 2 then None
    else if s[1] == '0' then Some(('\0', 2))
    else if s[1] == 't' then Some(('\t', 2))
    else if s[1] == 'r' then Some(('\r', 2))
    else if s[1] == 'n' then Some(('\n', 2))
    else if s[1] == '\\' || s[1] == '"' || s[1] == '\'' then Some((s[1], 2))
    else if |s| > 3 && s[1] == 'u' && s[2] == '{' then
      var i := Find(s[3..], '}');
      if i == |s| - 3 then None
      else
        match HexValue(s[3..3 + i])
        case Some(n) => if IsScalar(n) then Some((n as char, i + 4)) else None
        case None => None
    else None
  }

  function Unescape(s: string): Option<string>
    decreases |s|
  {
    if s == [] then Some([])
    else match Lex(s)
      case None => None
      case Some((c, n)) =>
        if !(0 < n <= |s|) then None
        else match Unescape(s[n..]) case Some(rest) => Some([c] + rest) case None => None
  }

  lemma {:induction false} HexOfBack(n: nat)
    ensures HexValue(HexOf(n)) == Some(n) && Lacks(HexOf(n), '}')
  {
    DigitBack(n % 16);
    if n < 16 {
      assert HexOf(n)[..0] == [] && HexValue([]) == Some(0);
    } else {
      HexOfBack(n / 16);
      assert HexOf(n)[..|HexOf(n)| - 1] == HexOf(n / 16);
    }
  }

  lemma LexUnicode(c: char, rest: string)
    ensures Lex(EscapeUnicode(c) + rest) == Some((c, |EscapeUnicode(c)|))
  {
    var h := HexOf(c as int);
    var s := EscapeUnicode(c) + rest;
    HexOfBack(c as int);
    assert s[3..] == h + ("}" + rest);
    FindIs(s[3..], '}', |h|);
    assert s[3..3 + |h|] == h;
  }

  /** Every escape says where it ends. */
  lemma LexEscaped(raw: char -> bool, c: char, rest: string)
    ensures Lex(Escaped(raw, c) + rest) == Some((c, |Escaped(raw, c)|))
  {
    LexUnicode(c, rest);
    assert '\\' !in BLANK_LETTERS;
  }

  /** A complete render reads back as the text it was made of. */
  lemma {:induction false} RenderBack(raw: char -> bool, text: string)
    ensures Unescape(Render(raw, text)) == Some(text)
  {
    if text != [] {
      var e, rest := Escaped(raw, text[0]), Render(raw, text[1..]);
      LexEscaped(raw, text[0], rest);
      assert (e + rest)[|e|..] == rest;
      RenderBack(raw, text[1..]);
      assert [text[0]] + text[1..] == text;
    }
  }

  /** So no two texts render alike. */
  lemma RenderDecides(raw: char -> bool, a: string, b: string)
    ensures Render(raw, a) == Render(raw, b) <==> a == b
  {
    RenderBack(raw, a);
    RenderBack(raw, b);
  }
}
