/**
 Repairing the quotes of JSON written by a language model.

 `ConvertSingleQuotes` is a character-by-character state machine.  It is compared with a reference
 lexer that reads whole strings (JSON strings, section 7 of RFC 8259): reading the input with either
 quote as a delimiter gives the same tokens as reading the output with double quotes only.
 */
module JsonQuotes {

  // The state machine.

  /** `quote` is the delimiter of the open string, `None` outside strings. */
  datatype Quote = None | Open(quote: char)
  datatype State = State(inString: Quote, escapeNext: bool)

  const Outside := State(None, false)

  function Inside(q: char): State { State(Open(q), false) }

  function Advance(st: State, ch: char): State {
    if st.escapeNext then st.(escapeNext := false)
    else if ch == '\\' then st.(escapeNext := true)
    else if st.inString.None? then (if ch == '"' || ch == '\'' then Inside(ch) else st)
    else if ch == st.inString.quote then Outside
    else st
  }

  function Emit(st: State, ch: char): string {
    if st.escapeNext || ch == '\\' then [ch]
    else if st.inString.None? then (if ch == '"' || ch == '\'' then "\"" else [ch])
    else if ch == st.inString.quote then "\""
    else if ch == '"' && st.inString.quote == '\'' then "\\\""
    else [ch]
  }

  function Convert(st: State, s: string): string
    decreases |s|
  {
    if s == [] then [] else Emit(st, s[0]) + Convert(Advance(st, s[0]), s[1..])
  }

  lemma {:induction false} ConvertSnoc(st: State, s: string, ch: char)
    ensures Convert(st, s + [ch]) == Convert(st, s) + Emit(Reach(st, s), ch)
    ensures Reach(st, s + [ch]) == Advance(Reach(st, s), ch)
    decreases |s|
  {
    if s == [] {
      assert s + [ch] == [ch] && [ch][1..] == [];
    } else {
      assert (s + [ch])[1..] == s[1..] + [ch];
      ConvertSnoc(Advance(st, s[0]), s[1..], ch);
    }
  }

  /** The state after reading `s`. */
  function Reach(st: State, s: string): State
    decreases |s|
  {
    if s == [] then st else Reach(Advance(st, s[0]), s[1..])
  }

  method ConvertSingleQuotes(text: string) returns (result: string)
    ensures result == Convert(Outside, text)
  {
    result := [];
    var inString, escapeNext, stringChar := false, false, ' ';
    for i := 0 to |text|
      invariant result == Convert(Outside, text[..i])
      invariant Reach(Outside, text[..i]) == State(if inString then Open(stringChar) else None, escapeNext)
    {
      var ch := text[i];
      assert text[..i + 1] == text[..i] + [ch];
      ConvertSnoc(Outside, text[..i], ch);
      if escapeNext {
        result := result + [ch];
        escapeNext := false;
        continue;
      }
      if ch == '\\' {
        result := result + [ch];
        escapeNext := true;
        continue;
      }
      if !inString {
        if ch == '"' || ch == '\'' {
          inString, stringChar := true, ch;
          result := result + "\"";
        } else {
          result := result + [ch];
        }
      } else if ch == stringChar {
        inString := false;
        result := result + "\"";
      } else if ch == '"' && stringChar == '\'' {
        result := result + "\\\"";
      } else {
        result := result + [ch];
      }
    }
    assert text[..|text|] == text;
  }

  // The reference lexer.

  /** One character of string content; `\"` stands for a quote, other escapes are kept as they are. */
  datatype Item = Plain(c: char) | Escape(c: char)

  function Decode(c: char): Item { if c == '"' then Plain(c) else Escape(c) }

  /** How a string ends: at its delimiter, at the end of the text, or there with a lone backslash. */
  datatype End = Closed | Unterminated | Dangling

  datatype Token = Text(c: char) | TextEscape(c: char) | Backslash | Str(items: seq<Item>, end: End)

  datatype Scan = Scan(items: seq<Item>, end: End, rest: string)

  /** Reads string content up to the delimiter `q`; `rest` is what follows the string. */
  function ScanString(s: string, q: char): (r: Scan)
    ensures |r.rest| <= |s|
    decreases |s|
  {
    if s == [] then Scan([], Unterminated, [])
    else if s[0] == '\\' then
      if |s| == 1 then Scan([], Dangling, [])
      else var r := ScanString(s[2..], q); r.(items := [Decode(s[1])] + r.items)
    else if s[0] == q then Scan([], Closed, s[1..])
    else var r := ScanString(s[1..], q); r.(items := [Plain(s[0])] + r.items)
  }

  /** The tokens of a text whose strings are delimited by double quotes, or by either quote. */
  function Lex(s: string, either: bool): seq<Token>
    decreases |s|
  {
    if s == [] then []
    else if s[0] == '\\' then
      if |s| == 1 then [Backslash] else [TextEscape(s[1])] + Lex(s[2..], either)
    else if s[0] == '"' || (either && s[0] == '\'') then
      var r := ScanString(s[1..], s[0]);
      [Str(r.items, r.end)] + Lex(r.rest, either)
    else [Text(s[0])] + Lex(s[1..], either)
  }

  lemma ConvertEscape(st: State, s: string)
    requires !st.escapeNext && s != [] && s[0] == '\\'
    ensures Convert(st, s) == if |s| == 1 then s else s[..2] + Convert(st, s[2..])
  {
    var pending := st.(escapeNext := true);
    assert Convert(st, s) == [s[0]] + Convert(pending, s[1..]);
    if |s| > 1 {
      assert Convert(pending, s[1..]) == [s[1]] + Convert(st, s[1..][1..]);
      assert s[1..][1..] == s[2..];
    }
  }

  /** Inside a string, the conversion gives the same content and the same end with double quotes. */
  lemma {:induction false} ScanConverted(s: string, q: char)
    requires q == '"' || q == '\''
    ensures var r := ScanString(s, q);
      ScanString(Convert(Inside(q), s), '"') == Scan(r.items, r.end, Convert(Outside, r.rest))
    decreases |s|
  {
    if s == [] {
    } else if s[0] == '\\' {
      ConvertEscape(Inside(q), s);
      if |s| > 1 {
        ScanConverted(s[2..], q);
        assert Convert(Inside(q), s)[2..] == Convert(Inside(q), s[2..]);
      }
    } else if s[0] == q {
      assert Convert(Inside(q), s) == "\"" + Convert(Outside, s[1..]);
    } else {
      ScanConverted(s[1..], q);
      var tail := Convert(Inside(q), s[1..]);
      if s[0] == '"' {
        assert Convert(Inside(q), s) == "\\\"" + tail;
        assert ("\\\"" + tail)[2..] == tail;
      } else {
        assert Convert(Inside(q), s) == [s[0]] + tail;
        assert ([s[0]] + tail)[1..] == tail;
      }
    }
  }

  /** The conversion preserves meaning: same tokens, same string contents. */
  lemma {:induction false} ConvertPreservesTokens(s: string)
    ensures Lex(Convert(Outside, s), false) == Lex(s, true)
    decreases |s|
  {
    var out := Convert(Outside, s);
    if s == [] {
    } else if s[0] == '\\' {
      ConvertEscape(Outside, s);
      if |s| > 1 {
        ConvertPreservesTokens(s[2..]);
        assert out[2..] == Convert(Outside, s[2..]);
      }
    } else if s[0] == '"' || s[0] == '\'' {
      ScanConverted(s[1..], s[0]);
      ConvertPreservesTokens(ScanString(s[1..], s[0]).rest);
      assert out[1..] == Convert(Inside(s[0]), s[1..]);
    } else {
      ConvertPreservesTokens(s[1..]);
      assert out[1..] == Convert(Outside, s[1..]);
    }
  }

  // Identity and idempotence.

  /** An unescaped single quote stands outside every double-quoted string. */
  predicate SingleQuoteOutside(s: string)
    decreases |s|
  {
    s != [] &&
    if s[0] == '\\' then |s| > 1 && SingleQuoteOutside(s[2..])
    else if s[0] == '\'' then true
    else if s[0] == '"' then SingleQuoteOutside(ScanString(s[1..], '"').rest)
    else SingleQuoteOutside(s[1..])
  }

  /** The part of a text that scanning a double-quoted string consumes. */
  function Consumed(s: string): string
    decreases |s|
  {
    if s == [] then []
    else if s[0] == '\\' then (if |s| == 1 then s else [s[0], s[1]] + Consumed(s[2..]))
    else if s[0] == '"' then [s[0]]
    else [s[0]] + Consumed(s[1..])
  }

  lemma {:induction false} ConsumedThenRest(s: string)
    ensures s == Consumed(s) + ScanString(s, '"').rest
    decreases |s|
  {
    if s == [] || (|s| == 1 && s[0] == '\\') {
    } else if s[0] == '\\' {
      ConsumedThenRest(s[2..]);
      assert s == [s[0], s[1]] + s[2..];
    } else {
      assert s == [s[0]] + s[1..];
      if s[0] != '"' {
        ConsumedThenRest(s[1..]);
      }
    }
  }

  /** A double-quoted string is copied; the conversion resumes after it. */
  lemma {:induction false} DoubleQuotedCopied(s: string)
    ensures Convert(Inside('"'), s) == Consumed(s) + Convert(Outside, ScanString(s, '"').rest)
    decreases |s|
  {
    if s == [] {
    } else if s[0] == '\\' {
      ConvertEscape(Inside('"'), s);
      if |s| > 1 {
        DoubleQuotedCopied(s[2..]);
        assert s[..2] == [s[0], s[1]];
        JoinAssociates(s[..2], Consumed(s[2..]), Convert(Outside, ScanString(s[2..], '"').rest));
      }
    } else {
      assert s == [s[0]] + s[1..];
      ConvertCons(Inside('"'), s[0], s[1..]);
      if s[0] != '"' {
        DoubleQuotedCopied(s[1..]);
        JoinAssociates([s[0]], Consumed(s[1..]), Convert(Outside, ScanString(s[1..], '"').rest));
      }
    }
  }

  lemma JoinAssociates(a: string, b: string, c: string)
    ensures a + (b + c) == a + b + c
  {}

  lemma ConvertCons(st: State, c: char, s: string)
    ensures Convert(st, [c] + s) == Emit(st, c) + Convert(Advance(st, c), s)
  {
    assert ([c] + s)[1..] == s;
  }

  lemma SamePrefix(p: string, a: string, b: string)
    ensures p + a == p + b <==> a == b
  {
    if p + a == p + b {
      assert (p + a)[|p|..] == a && (p + b)[|p|..] == b;
    }
  }

  lemma QuotedPrefixCopied(s: string)
    requires s != [] && s[0] == '"'
    ensures var rest := ScanString(s[1..], '"').rest;
      Convert(Outside, s) == s <==> Convert(Outside, rest) == rest
  {
    var body := s[1..];
    var rest := ScanString(body, '"').rest;
    var prefix := "\"" + Consumed(body);
    QuotedPrefix(s);
    SamePrefix(prefix, Convert(Outside, rest), rest);
  }

  lemma QuotedPrefix(s: string)
    requires s != [] && s[0] == '"'
    ensures var rest, prefix := ScanString(s[1..], '"').rest, "\"" + Consumed(s[1..]);
      s == prefix + rest && Convert(Outside, s) == prefix + Convert(Outside, rest)
  {
    var body := s[1..];
    ConsumedThenRest(body);
    DoubleQuotedCopied(body);
    assert s == "\"" + body;
    ConvertCons(Outside, '"', body);
    OpeningQuote(Consumed(body), Convert(Outside, ScanString(body, '"').rest));
  }

  lemma OpeningQuote(body: string, rest: string)
    ensures Emit(Outside, '"') == "\"" && Advance(Outside, '"') == Inside('"')
    ensures "\"" + (body + rest) == "\"" + body + rest
  {
  }

  /** The conversion leaves a text alone exactly when no single quote opens a string in it. */
  lemma {:induction false} IdentityIff(s: string)
    ensures Convert(Outside, s) == s <==> !SingleQuoteOutside(s)
    decreases |s|
  {
    if s == [] {
    } else if s[0] == '\\' {
      ConvertEscape(Outside, s);
      if |s| > 1 {
        IdentityIff(s[2..]);
        assert s == s[..2] + s[2..];
        SamePrefix(s[..2], Convert(Outside, s[2..]), s[2..]);
      }
    } else if s[0] == '"' {
      IdentityIff(ScanString(s[1..], '"').rest);
      QuotedPrefixCopied(s);
    } else if s[0] == '\'' {
      assert Convert(Outside, s)[0] == '"';
    } else {
      IdentityIff(s[1..]);
      assert s == s[..1] + s[1..];
      assert Convert(Outside, s) == s[..1] + Convert(Outside, s[1..]);
      SamePrefix(s[..1], Convert(Outside, s[1..]), s[1..]);
    }
  }

  lemma {:induction false} NoSingleQuoteLeft(s: string)
    ensures !SingleQuoteOutside(Convert(Outside, s))
    decreases |s|
  {
    var out := Convert(Outside, s);
    if s == [] {
    } else if s[0] == '\\' {
      ConvertEscape(Outside, s);
      if |s| > 1 {
        NoSingleQuoteLeft(s[2..]);
        assert out[2..] == Convert(Outside, s[2..]);
      }
    } else if s[0] == '"' || s[0] == '\'' {
      ScanConverted(s[1..], s[0]);
      NoSingleQuoteLeft(ScanString(s[1..], s[0]).rest);
      assert out[1..] == Convert(Inside(s[0]), s[1..]);
    } else {
      NoSingleQuoteLeft(s[1..]);
      assert out[1..] == Convert(Outside, s[1..]);
    }
  }

  lemma ConvertIdempotent(s: string)
    ensures Convert(Outside, Convert(Outside, s)) == Convert(Outside, s)
  {
    NoSingleQuoteLeft(s);
    IdentityIff(Convert(Outside, s));
  }

  // What the conversion does not repair.

  /** The escapes of section 7 of RFC 8259. */
  predicate LegalEscape(c: char) {
    c == '"' || c == '\\' || c == '/' || c == 'b' || c == 'f' || c == 'n' || c == 'r' || c == 't' || c == 'u'
  }

  /** Every string of the token list is closed and uses legal escapes only. */
  predicate LegalStrings(ts: seq<Token>) {
    forall t :: t in ts && t.Str? ==> t.end == Closed && forall i :: i in t.items && i.Escape? ==> LegalEscape(i.c)
  }

  /** The output has legal strings exactly when the input, read with either quote, has. */
  lemma OutputLegalIff(s: string)
    ensures LegalStrings(Lex(Convert(Outside, s), false)) <==> LegalStrings(Lex(s, true))
  {
    ConvertPreservesTokens(s);
  }

  /** An escaped apostrophe in a single-quoted string is copied, and stays an illegal escape. */
  lemma EscapedApostropheStaysIllegal()
    ensures !LegalStrings(Lex(Convert(Outside, "'\\''"), false))
  {
    var s := "'\\''";
    ConvertPreservesTokens(s);
    var body := s[1..];
    assert body == "\\''" && body[2..] == "'" && "'"[1..] == "";
    assert ScanString(body[2..], '\'') == Scan([], Closed, "");
    assert ScanString(body, '\'').items == [Escape('\'')];
    assert Lex(s, true)[0] == Str([Escape('\'')], Closed);
  }

  // The balancing tail of the error repair.

  function Count(s: string, c: char): nat {
    if s == [] then 0 else (if s[0] == c then 1 else 0) + Count(s[1..], c)
  }

  function Repeat(c: char, n: int): string { if n <= 0 then [] else [c] + Repeat(c, n - 1) }

  lemma {:induction false} CountConcat(a: string, b: string, c: char)
    ensures Count(a + b, c) == Count(a, c) + Count(b, c)
  {
    if a == [] {
      assert a + b == b;
    } else {
      assert (a + b)[1..] == a[1..] + b;
      CountConcat(a[1..], b, c);
    }
  }

  lemma {:induction false} CountRepeat(c: char, n: int, d: char)
    ensures Count(Repeat(c, n), d) == if c == d && n > 0 then n else 0
  {
    if n > 0 {
      assert Repeat(c, n)[1..] == Repeat(c, n - 1);
      CountRepeat(c, n - 1, d);
    }
  }

  function CloseQuote(s: string): string {
    if Count(s, '"') % 2 != 0 then s + "\"" else s
  }

  function Balance(s: string): string {
    var q := CloseQuote(s);
    q + Repeat('}', Count(q, '{') - Count(q, '}')) + Repeat(']', Count(q, '[') - Count(q, ']'))
  }

  method BalanceTail(text: string) returns (fixed: string)
    ensures fixed == Balance(text)
  {
    fixed := text;
    if Count(fixed, '"') % 2 != 0 {
      fixed := fixed + "\"";
    }
    var openBraces := Count(fixed, '{') - Count(fixed, '}');
    var openBrackets := Count(fixed, '[') - Count(fixed, ']');
    fixed := fixed + Repeat('}', openBraces);
    fixed := fixed + Repeat(']', openBrackets);
  }

  function Max(a: nat, b: nat): nat { if a < b then b else a }

  /** Only closers are appended, exactly as many as are missing by count. */
  lemma BalanceCounts(s: string)
    ensures s <= Balance(s)
    ensures Count(Balance(s), '"') == Count(s, '"') + Count(s, '"') % 2
    ensures Count(Balance(s), '{') == Count(s, '{') && Count(Balance(s), '}') == Max(Count(s, '{'), Count(s, '}'))
    ensures Count(Balance(s), '[') == Count(s, '[') && Count(Balance(s), ']') == Max(Count(s, '['), Count(s, ']'))
  {
    BalanceCount(s, '"');
    BalanceCount(s, '{');
    BalanceCount(s, '}');
    BalanceCount(s, '[');
    BalanceCount(s, ']');
  }

  lemma CloseQuoteCount(s: string, c: char)
    ensures Count(CloseQuote(s), c) == Count(s, c) + (if c == '"' then Count(s, '"') % 2 else 0)
  {
    CountConcat(s, "\"", c);
    assert "\""[1..] == [];
  }

  lemma BalanceCount(s: string, c: char)
    ensures Count(Balance(s), c) == Count(s, c) + (
      if c == '"' then Count(s, '"') % 2
      else if c == '}' && Count(s, '{') > Count(s, '}') then Count(s, '{') - Count(s, '}')
      else if c == ']' && Count(s, '[') > Count(s, ']') then Count(s, '[') - Count(s, ']')
      else 0)
  {
    var q := CloseQuote(s);
    CloseQuoteCount(s, c);
    CloseQuoteCount(s, '{');
    CloseQuoteCount(s, '}');
    CloseQuoteCount(s, '[');
    CloseQuoteCount(s, ']');
    var braces := Repeat('}', Count(q, '{') - Count(q, '}'));
    var brackets := Repeat(']', Count(q, '[') - Count(q, ']'));
    CountConcat(q, braces, c);
    CountConcat(q + braces, brackets, c);
    CountRepeat('}', Count(q, '{') - Count(q, '}'), c);
    CountRepeat(']', Count(q, '[') - Count(q, ']'), c);
  }

  lemma {:induction false} CountIsMultiplicity(s: string, c: char)
    ensures Count(s, c) == multiset(s)[c]
  {
    if s != [] {
      CountIsMultiplicity(s[1..], c);
      assert s == [s[0]] + s[1..];
    }
  }

  predicate IsRepeat(t: string, c: char, n: int) {
    |t| == (if n > 0 then n else 0) && forall i :: 0 <= i < |t| ==> t[i] == c
  }

  lemma {:induction false} RepeatIsRepeat(c: char, n: int)
    ensures IsRepeat(Repeat(c, n), c, n)
  {
    if n > 0 {
      RepeatIsRepeat(c, n - 1);
    }
  }

  /** The repair appends a quote when their number is odd, then the missing braces, then the missing brackets. */
  lemma BalanceIsExactly(s: string) returns (quote: string, braces: string, brackets: string)
    ensures Balance(s) == s + quote + braces + brackets
    ensures quote == if multiset(s)['"'] % 2 == 1 then "\"" else ""
    ensures IsRepeat(braces, '}', multiset(s)['{'] as int - multiset(s)['}'] as int)
    ensures IsRepeat(brackets, ']', multiset(s)['['] as int - multiset(s)[']'] as int)
  {
    quote := if Count(s, '"') % 2 == 1 then "\"" else "";
    braces := Repeat('}', Count(s, '{') - Count(s, '}'));
    brackets := Repeat(']', Count(s, '[') - Count(s, ']'));
    forall c | c in ['"', '{', '}', '[', ']'] ensures Count(s, c) == multiset(s)[c] && (c != '"' ==> Count(CloseQuote(s), c) == Count(s, c)) {
      CountIsMultiplicity(s, c);
      CloseQuoteCount(s, c);
    }
    assert '"' in ['"', '{', '}', '[', ']'] && '{' in ['"', '{', '}', '[', ']'] && '}' in ['"', '{', '}', '[', ']'];
    assert '[' in ['"', '{', '}', '[', ']'] && ']' in ['"', '{', '}', '[', ']'];
    RepeatIsRepeat('}', Count(s, '{') - Count(s, '}'));
    RepeatIsRepeat(']', Count(s, '[') - Count(s, ']'));
    assert CloseQuote(s) == s + quote;
  }

  /** Reading with double quotes only: whether a string is open, and whether a backslash is pending. */
  datatype Mode = Mode(open: bool, pending: bool)

  function StepMode(m: Mode, c: char): Mode {
    if m.pending then m.(pending := false)
    else if c == '\\' then m.(pending := true)
    else if c == '"' then m.(open := !m.open)
    else m
  }

  function ReadMode(m: Mode, s: string): Mode
    decreases |s|
  {
    if s == [] then m else ReadMode(StepMode(m, s[0]), s[1..])
  }

  /** The double quotes that a backslash escapes. */
  function EscapedQuotes(m: Mode, s: string): nat
    decreases |s|
  {
    if s == [] then 0
    else (if m.pending && s[0] == '"' then 1 else 0) + EscapedQuotes(StepMode(m, s[0]), s[1..])
  }

  predicate Odd(n: int) { n % 2 != 0 }

  lemma {:induction false} OpenParity(m: Mode, s: string)
    ensures Count(s, '"') >= EscapedQuotes(m, s)
    ensures ReadMode(m, s).open == (m.open != Odd(Count(s, '"') - EscapedQuotes(m, s)))
    decreases |s|
  {
    if s != [] {
      OpenParity(StepMode(m, s[0]), s[1..]);
    }
  }

  lemma {:induction false} ReadModeSnoc(m: Mode, s: string, c: char)
    ensures ReadMode(m, s + [c]) == StepMode(ReadMode(m, s), c)
    decreases |s|
  {
    if s == [] {
      assert s + [c] == [c];
    } else {
      assert (s + [c])[1..] == s[1..] + [c];
      ReadModeSnoc(StepMode(m, s[0]), s[1..], c);
    }
  }

  // The same facts on tokens.

  /** The text does not end within a string. */
  predicate EndsClosed(ts: seq<Token>) { ts == [] || !ts[|ts| - 1].Str? || ts[|ts| - 1].end == Closed }

  /** The last character of the text is a backslash that escapes nothing. */
  predicate EndsInBackslash(ts: seq<Token>) {
    ts != [] && (ts[|ts| - 1].Backslash? || (ts[|ts| - 1].Str? && ts[|ts| - 1].end == Dangling))
  }

  function QuotesInItems(items: seq<Item>): nat {
    if items == [] then 0 else (if items[0] == Plain('"') then 1 else 0) + QuotesInItems(items[1..])
  }

  /** The double quotes that tokens hold as content; a backslash escapes each of them. */
  function QuotesHeld(ts: seq<Token>): nat {
    if ts == [] then 0
    else (if ts[0].Str? then QuotesInItems(ts[0].items) else if ts[0] == TextEscape('"') then 1 else 0) + QuotesHeld(ts[1..])
  }

  /** Reading over a string as the scanner does. */
  lemma {:induction false} ModeAfterString(s: string)
    ensures var r := ScanString(s, '"');
      && ReadMode(Mode(true, false), s) ==
           (if r.end == Closed then ReadMode(Mode(false, false), r.rest) else Mode(true, r.end == Dangling))
      && EscapedQuotes(Mode(true, false), s) ==
           QuotesInItems(r.items) + (if r.end == Closed then EscapedQuotes(Mode(false, false), r.rest) else 0)
      && (r.end != Closed ==> r.rest == [])
    decreases |s|
  {
    if s == [] {
    } else if s[0] == '\\' {
      TwoCharacters(Mode(true, false), s);
      if |s| > 1 {
        ModeAfterString(s[2..]);
        QuotesCons(Decode(s[1]), ScanString(s[2..], '"').items);
      }
    } else if s[0] != '"' {
      ModeAfterString(s[1..]);
      QuotesCons(Plain(s[0]), ScanString(s[1..], '"').items);
    }
  }

  lemma QuotesCons(x: Item, items: seq<Item>)
    ensures QuotesInItems([x] + items) == (if x == Plain('"') then 1 else 0) + QuotesInItems(items)
  {
    assert ([x] + items)[1..] == items;
  }

  /** A backslash and the character that it escapes. */
  lemma TwoCharacters(m: Mode, s: string)
    requires !m.pending && s != [] && s[0] == '\\'
    ensures |s| == 1 ==> ReadMode(m, s) == m.(pending := true) && EscapedQuotes(m, s) == 0
    ensures |s| > 1 ==>
      && ReadMode(m, s) == ReadMode(m, s[2..])
      && EscapedQuotes(m, s) == (if s[1] == '"' then 1 else 0) + EscapedQuotes(m, s[2..])
  {
    var after := m.(pending := true);
    assert ReadMode(m, s) == ReadMode(after, s[1..]) && EscapedQuotes(m, s) == EscapedQuotes(after, s[1..]);
    if |s| > 1 {
      assert s[1..][1..] == s[2..];
    }
  }

  lemma TokenCons(x: Token, ts: seq<Token>)
    ensures QuotesHeld([x] + ts) == QuotesHeld([x]) + QuotesHeld(ts)
    ensures EndsClosed([x] + ts) == EndsClosed(if ts == [] then [x] else ts)
    ensures EndsInBackslash([x] + ts) == EndsInBackslash(if ts == [] then [x] else ts)
  {
    assert ([x] + ts)[1..] == ts;
  }

  /** Reading character by character and reading tokens agree on where a text ends. */
  lemma {:induction false} ModeOfTokens(s: string)
    ensures var ts, m := Lex(s, false), ReadMode(Mode(false, false), s);
      && (m.open <==> !EndsClosed(ts)) && (m.pending <==> EndsInBackslash(ts))
      && EscapedQuotes(Mode(false, false), s) == QuotesHeld(ts)
    decreases |s|
  {
    if s == [] {
    } else if s[0] == '\\' {
      TwoCharacters(Mode(false, false), s);
      if |s| > 1 {
        ModeOfTokens(s[2..]);
        TokenCons(TextEscape(s[1]), Lex(s[2..], false));
      }
    } else if s[0] == '"' {
      var r := ScanString(s[1..], '"');
      ModeAfterString(s[1..]);
      ModeOfTokens(r.rest);
      TokenCons(Str(r.items, r.end), Lex(r.rest, false));
    } else {
      ModeOfTokens(s[1..]);
      TokenCons(Text(s[0]), Lex(s[1..], false));
    }
  }

  /**
   Counting quotes is a heuristic: it leaves no string open exactly when the escaped quotes are even in
   number and no backslash is pending in an open string, or odd with a backslash pending outside one.
   */
  lemma CloseQuoteClosesIff(s: string)
    ensures var ts := Lex(s, false);
      EndsClosed(Lex(CloseQuote(s), false)) <==>
        if QuotesHeld(ts) % 2 == 0 then EndsClosed(ts) || !EndsInBackslash(ts) else EndsClosed(ts) && EndsInBackslash(ts)
  {
    var start := Mode(false, false);
    OpenParity(start, s);
    OddDifference(Count(s, '"'), EscapedQuotes(start, s));
    ClosesIff(ReadMode(start, s), Count(s, '"'), EscapedQuotes(start, s));
    ModeAfterClose(start, s);
    ModeOfTokens(s);
    ModeOfTokens(CloseQuote(s));
  }

  lemma ModeAfterClose(start: Mode, s: string)
    ensures ReadMode(start, CloseQuote(s)) == if Odd(Count(s, '"')) then StepMode(ReadMode(start, s), '"') else ReadMode(start, s)
  {
    ReadModeSnoc(start, s, '"');
    assert s + "\"" == s + ['"'];
  }

  lemma ClosesIff(m: Mode, quotes: nat, escaped: nat)
    requires m.open == (Odd(quotes) != Odd(escaped))
    ensures !(if Odd(quotes) then StepMode(m, '"') else m).open <==>
      if escaped % 2 == 0 then !(m.open && m.pending) else !m.open && m.pending
  {}

  lemma OddDifference(a: int, b: int)
    ensures Odd(a - b) <==> (Odd(a) != Odd(b))
  {}
}
