/**
 * Splitting one line of the parameter definition file into tokens, the way
 * `while (iss >> std::quoted(s)) tokens.push_back(s);` does it
 * (src/camera_driver.cpp:218-223).
 *
 * One extraction skips leading white space; if the next character is the
 * delimiter `"` it reads up to the next unescaped `"`, dropping the
 * delimiters and taking the character after each `\` literally; otherwise it
 * reads a plain word up to the next white space. An extraction that reaches
 * the end of the line inside a quoted token fails, and so does one that finds
 * only white space: the loop stops there and the partial token is lost.
 */
module QuotedTokens {
  import opened Wrappers

  const Delimiter: char := '"'
  const EscapeChar: char := '\\'

  /** White space as the classic "C" locale classifies it: space, \t, \n, \v, \f, \r. */
  predicate IsSpace(c: char) {
    c == ' ' || 9 <= c as int <= 13
  }

  /** The rest of `s` after its leading white space. */
  function SkipSpace(s: string): (r: string)
    ensures |r| <= |s| && r == s[|s| - |r|..]
    ensures r == [] || !IsSpace(r[0])
  {
    if s != [] && IsSpace(s[0]) then SkipSpace(s[1..]) else s
  }

  /** A plain (unquoted) word: everything up to the next white space. */
  function ScanWord(s: string): (r: (string, string))
    ensures r.0 + r.1 == s
    ensures forall i :: 0 <= i < |r.0| ==> !IsSpace(r.0[i])
    ensures r.1 == [] || IsSpace(r.1[0])
  {
    if s == [] || IsSpace(s[0]) then ([], s)
    else
      var (w, rest) := ScanWord(s[1..]);
      ([s[0]] + w, rest)
  }

  /**
   * The body of a quoted token, `s` starting just after the opening
   * delimiter: the unescaped text and what follows the closing delimiter, or
   * None when the line ends first.
   */
  function ScanQuoted(s: string): (r: Option<(string, string)>)
    ensures r.Some? ==> |r.value.1| < |s|
  {
    if s == [] then None
    else if s[0] == EscapeChar then
      if |s| < 2 then None
      else
        match ScanQuoted(s[2..])
        case None => None
        case Some((t, rest)) => Some(([s[1]] + t, rest))
    else if s[0] == Delimiter then Some(([], s[1..]))
    else
      match ScanQuoted(s[1..])
      case None => None
      case Some((t, rest)) => Some(([s[0]] + t, rest))
  }

  /**
   * A quoted read succeeds only at a closing delimiter: the rest it returns
   * is what follows a `"` of the input, and the token is shorter than the
   * text consumed. A line without any `"` after the opening one fails.
   */
  lemma {:induction false} ScanQuotedStopsAtDelimiter(s: string)
    ensures ScanQuoted(s).Some? ==>
      var rest := ScanQuoted(s).value.1;
      && rest == s[|s| - |rest|..] && s[|s| - |rest| - 1] == Delimiter
      && |ScanQuoted(s).value.0| < |s| - |rest|
    ensures Delimiter !in s ==> ScanQuoted(s).None?
  {
    if s == [] {
    } else if s[0] == EscapeChar {
      if |s| >= 2 {
        ScanQuotedStopsAtDelimiter(s[2..]);
        assert Delimiter !in s ==> Delimiter !in s[2..];
      }
    } else if s[0] != Delimiter {
      ScanQuotedStopsAtDelimiter(s[1..]);
      assert Delimiter !in s ==> Delimiter !in s[1..];
    }
  }

  /** One `iss >> std::quoted(s)`: the token read and the unread rest, or None when it fails. */
  function NextToken(s: string): (r: Option<(string, string)>)
    ensures r.Some? ==> |r.value.1| < |s|
  {
    var t := SkipSpace(s);
    if t == [] then None
    else if t[0] == Delimiter then ScanQuoted(t[1..])
    else
      var (w, rest) := ScanWord(t);
      assert w != [];
      Some((w, rest))
  }

  /** Every token the extraction loop pushes for line `s`. */
  function Tokens(s: string): seq<string>
    decreases |s|
  {
    match NextToken(s)
    case None => []
    case Some((t, rest)) => [t] + Tokens(rest)
  }

  /** The extraction loop itself, proved to push exactly `Tokens(line)`. */
  method TokenizeLine(line: string) returns (tokens: seq<string>)
    ensures tokens == Tokens(line)
  {
    tokens := [];
    var rest := line;
    var next := NextToken(rest);
    while next.Some?
      invariant tokens + Tokens(rest) == Tokens(line)
      invariant next == NextToken(rest)
      decreases |rest|
    {
      tokens := tokens + [next.value.0];
      rest := next.value.1;
      next := NextToken(rest);
    }
  }

  // ----- Writing tokens, and reading them back -----

  /** The text `std::quoted` writes between the delimiters: `"` and `\` are escaped. */
  function EscapeText(w: string): (r: string)
    ensures |r| >= |w|
  {
    if w == [] then []
    else (if w[0] == Delimiter || w[0] == EscapeChar then [EscapeChar, w[0]] else [w[0]]) + EscapeText(w[1..])
  }

  function Quote(w: string): string {
    [Delimiter] + EscapeText(w) + [Delimiter]
  }

  /** A word that reads back as itself without quoting. */
  predicate IsPlainWord(w: string) {
    w != [] && w[0] != Delimiter && forall i :: 0 <= i < |w| ==> !IsSpace(w[i])
  }

  /** Fields written one after another, separated by single spaces. */
  function JoinFields(ws: seq<string>): string {
    if ws == [] then []
    else if |ws| == 1 then ws[0]
    else ws[0] + [' '] + JoinFields(ws[1..])
  }

  function QuoteAll(ws: seq<string>): (r: seq<string>)
    ensures |r| == |ws|
    ensures forall i :: 0 <= i < |ws| ==> r[i] == Quote(ws[i])
  {
    if ws == [] then [] else [Quote(ws[0])] + QuoteAll(ws[1..])
  }

  lemma {:induction false} ScanQuotedEscaped(w: string, rest: string)
    ensures ScanQuoted(EscapeText(w) + [Delimiter] + rest) == Some((w, rest))
  {
    var s := EscapeText(w) + [Delimiter] + rest;
    if w == [] {
      assert s == [Delimiter] + rest;
    } else if w[0] == Delimiter || w[0] == EscapeChar {
      assert s == [EscapeChar, w[0]] + (EscapeText(w[1..]) + [Delimiter] + rest);
      assert s[2..] == EscapeText(w[1..]) + [Delimiter] + rest;
      ScanQuotedEscaped(w[1..], rest);
      assert [w[0]] + w[1..] == w;
    } else {
      assert s == [w[0]] + (EscapeText(w[1..]) + [Delimiter] + rest);
      assert s[1..] == EscapeText(w[1..]) + [Delimiter] + rest;
      ScanQuotedEscaped(w[1..], rest);
      assert [w[0]] + w[1..] == w;
    }
  }

  /** A quoted token reads back as the original text, whatever follows it. */
  lemma QuotedTokenRoundTrip(w: string, rest: string)
    ensures NextToken(Quote(w) + rest) == Some((w, rest))
    ensures Tokens(Quote(w) + rest) == [w] + Tokens(rest)
  {
    var s := Quote(w) + rest;
    assert SkipSpace(s) == s;
    assert s[1..] == EscapeText(w) + [Delimiter] + rest;
    ScanQuotedEscaped(w, rest);
  }

  lemma {:induction false} ScanPlainWord(w: string, rest: string)
    requires forall i :: 0 <= i < |w| ==> !IsSpace(w[i])
    requires rest == [] || IsSpace(rest[0])
    ensures ScanWord(w + rest) == (w, rest)
  {
    if w == [] {
      assert w + rest == rest;
    } else {
      assert (w + rest)[0] == w[0] && !IsSpace(w[0]);
      assert (w + rest)[1..] == w[1..] + rest;
      ScanPlainWord(w[1..], rest);
      assert [w[0]] + w[1..] == w;
    }
  }

  /** A plain word reads back as itself when a space or the end of the line follows it. */
  lemma PlainTokenRoundTrip(w: string, rest: string)
    requires IsPlainWord(w)
    requires rest == [] || IsSpace(rest[0])
    ensures NextToken(w + rest) == Some((w, rest))
    ensures Tokens(w + rest) == [w] + Tokens(rest)
  {
    assert SkipSpace(w + rest) == w + rest;
    ScanPlainWord(w, rest);
  }

  lemma LeadingSpaceIgnored(s: string)
    ensures Tokens([' '] + s) == Tokens(s)
  {
    assert ([' '] + s)[1..] == s;
    assert SkipSpace([' '] + s) == SkipSpace(s);
  }

  /** Writing fields as `std::quoted` does and tokenizing the line gives the fields back. */
  lemma {:induction false} QuotedFieldsRoundTrip(ws: seq<string>)
    ensures Tokens(JoinFields(QuoteAll(ws))) == ws
  {
    if ws == [] {
      assert Tokens([]) == [];
    } else if |ws| == 1 {
      assert JoinFields(QuoteAll(ws)) == Quote(ws[0]) + [];
      QuotedTokenRoundTrip(ws[0], []);
      assert Tokens([]) == [];
    } else {
      var tail := JoinFields(QuoteAll(ws[1..]));
      JoinFieldsCons(QuoteAll(ws));
      assert QuoteAll(ws)[1..] == QuoteAll(ws[1..]);
      assert JoinFields(QuoteAll(ws)) == Quote(ws[0]) + ([' '] + tail);
      QuotedTokenRoundTrip(ws[0], [' '] + tail);
      LeadingSpaceIgnored(tail);
      QuotedFieldsRoundTrip(ws[1..]);
    }
  }

  lemma JoinFieldsCons(ws: seq<string>)
    requires |ws| >= 2
    ensures JoinFields(ws) == ws[0] + ([' '] + JoinFields(ws[1..]))
  {
  }

  /** Plain words separated by single spaces tokenize back into the same words. */
  lemma {:induction false} PlainFieldsRoundTrip(ws: seq<string>)
    requires forall i :: 0 <= i < |ws| ==> IsPlainWord(ws[i])
    ensures Tokens(JoinFields(ws)) == ws
  {
    if ws == [] {
      assert Tokens([]) == [];
    } else if |ws| == 1 {
      assert JoinFields(ws) == ws[0] + [];
      PlainTokenRoundTrip(ws[0], []);
      assert Tokens([]) == [];
    } else {
      var tail := JoinFields(ws[1..]);
      JoinFieldsCons(ws);
      PlainTokenRoundTrip(ws[0], [' '] + tail);
      LeadingSpaceIgnored(tail);
      PlainFieldsRoundTrip(ws[1..]);
    }
  }
}
