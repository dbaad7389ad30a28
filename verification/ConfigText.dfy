/** The tokenizer of `Config::load_from_buffer`. */
module ConfigText {
  import opened Text

  /** The state of the tokenizer between two characters. */
  datatype Lexer = Lexer(inStr: bool, escape: bool, buffer: string, tokens: seq<string>)

  const FRESH := Lexer(false, false, "", [])

  predicate IsMark(c: char) {
    c == '{' || c == '}' || c == ';'
  }

  /** A finished bare token, if there is one. */
  function Flush(x: Lexer): Lexer {
    if x.buffer == "" then x else x.(tokens := x.tokens + [x.buffer], buffer := "")
  }

  function Read(x: Lexer, ch: char): Lexer {
    if x.inStr then
      if x.escape then
        x.(escape := false, buffer := x.buffer + (if ch == '\\' || ch == '"' || ch == '\'' then [ch] else ['\\', ch]))
      else if ch == '\\' then x.(escape := true)
      else if ch == '"' then x.(inStr := false, tokens := x.tokens + ["\"" + x.buffer + "\""], buffer := "")
      else x.(buffer := x.buffer + [ch])
    else if ch == '"' then x.(inStr := true)
    else if IsSpace(ch) then Flush(x)
    else if IsMark(ch) then
      var y := Flush(x);
      y.(tokens := y.tokens + [[ch]])
    else x.(buffer := x.buffer + [ch])
  }

  function Scan(x: Lexer, text: string): Lexer
    decreases |text|
  {
    if text == "" then x else Scan(Read(x, text[0]), text[1..])
  }

  /** The tokens of a text; what is still in the buffer at the end is no token. */
  method Tokenize(data: string) returns (tokens: seq<string>)
    ensures tokens == Scan(FRESH, data).tokens
  {
    tokens := [];
    var buffer, inStr, escape := "", false, false;
    for i := 0 to |data|
      invariant Scan(Lexer(inStr, escape, buffer, tokens), data[i..]) == Scan(FRESH, data)
    {
      var ch := data[i];
      assert data[i..][1..] == data[i + 1..];
      if inStr {
        if escape {
          escape := false;
          if ch == '\\' || ch == '"' || ch == '\'' {
            buffer := buffer + [ch];
          } else {
            buffer := buffer + ['\\', ch];
          }
        } else if ch == '\\' {
          escape := true;
        } else if ch == '"' {
          inStr := false;
          tokens := tokens + ["\"" + buffer + "\""];
          buffer := "";
        } else {
          buffer := buffer + [ch];
        }
      } else if ch == '"' {
        inStr := true;
      } else if IsSpace(ch) {
        if buffer != "" {
          tokens := tokens + [buffer];
          buffer := "";
        }
      } else if IsMark(ch) {
        if buffer != "" {
          tokens := tokens + [buffer];
          buffer := "";
        }
        tokens := tokens + [[ch]];
      } else {
        buffer := buffer + [ch];
      }
    }
  }

  lemma {:induction false} ScanAppend(x: Lexer, a: string, b: string)
    ensures Scan(x, a + b) == Scan(Scan(x, a), b)
    decreases |a|
  {
    if a == "" {
      assert a + b == b;
    } else {
      assert (a + b)[1..] == a[1..] + b;
      ScanAppend(Read(x, a[0]), a[1..], b);
    }
  }

  //// Tokens that can be written

  predicate IsBare(t: string) {
    t != "" && forall i :: 0 <= i < |t| ==> t[i] != '"' && !IsSpace(t[i]) && !IsMark(t[i])
  }

  predicate IsQuoted(t: string) {
    |t| >= 2 && t[0] == '"' && t[|t| - 1] == '"'
  }

  predicate IsWord(t: string) {
    IsBare(t) || IsQuoted(t)
  }

  predicate IsToken(t: string) {
    IsWord(t) || IsMarkToken(t)
  }

  /** text between quotes stands for s: a backslash makes a backslash or a quote literal, and
      in front of any other character stands for itself. */
  predicate Quotes(text: string, s: string)
    decreases |text|
  {
    if text == "" || s == "" then text == s
    else if text[0] == '\\' && |text| >= 2 then
      if text[1] == '\\' || text[1] == '"' || text[1] == '\'' then s[0] == text[1] && Quotes(text[2..], s[1..])
      else |s| >= 2 && s[0] == '\\' && s[1] == text[1] && Quotes(text[2..], s[2..])
    else text[0] != '"' && text[0] != '\\' && s[0] == text[0] && Quotes(text[1..], s[1..])
  }

  /** text is a writing of token t. */
  predicate Writes(text: string, t: string) {
    if IsQuoted(t) then
      |text| >= 2 && text[0] == '"' && text[|text| - 1] == '"' && Quotes(text[1..|text| - 1], t[1..|t| - 1])
    else text == t
  }

  function Escape(s: string): string {
    if s == "" then "" else (if s[0] == '\\' || s[0] == '"' then ['\\', s[0]] else [s[0]]) + Escape(s[1..])
  }

  /** Every string can be written between quotes. */
  lemma {:induction false} EscapeQuotes(s: string)
    ensures Quotes(Escape(s), s)
  {
    if s != "" {
      EscapeQuotes(s[1..]);
      var e := Escape(s);
      if s[0] == '\\' || s[0] == '"' {
        assert e[2..] == Escape(s[1..]);
      } else {
        assert e[1..] == Escape(s[1..]);
      }
    }
  }

  predicate IsMarkToken(t: string) {
    t == "{" || t == "}" || t == ";"
  }

  predicate IsGap(s: string) {
    forall i :: 0 <= i < |s| ==> IsSpace(s[i])
  }

  /** The gap behind token i is white space, which only a bare token needs, and not before
      a mark. */
  predicate FitsAt(tokens: seq<string>, gaps: seq<string>, i: nat)
    requires i < |tokens| == |gaps|
  {
    && IsGap(gaps[i])
    && (IsBare(tokens[i]) && gaps[i] == "" ==> i + 1 < |tokens| && IsMarkToken(tokens[i + 1]))
  }

  predicate GapsFit(tokens: seq<string>, gaps: seq<string>) {
    |gaps| == |tokens| && forall i: nat :: i < |tokens| ==> FitsAt(tokens, gaps, i)
  }

  /** The writings of the tokens, each followed by its gap. */
  function WriteAll(texts: seq<string>, gaps: seq<string>): string
    requires |gaps| == |texts|
  {
    if texts == [] then "" else texts[0] + gaps[0] + WriteAll(texts[1..], gaps[1..])
  }

  lemma {:induction false} QuotedTextIsRead(x: Lexer, text: string, s: string)
    requires x.inStr && !x.escape && Quotes(text, s)
    ensures Scan(x, text) == x.(buffer := x.buffer + s)
    decreases |text|
  {
    if text == "" {
      assert x.buffer + s == x.buffer;
    } else if text[0] != '\\' {
      OneIsRead(x, text[0], text[1..]);
      QuotedTextIsRead(x.(buffer := x.buffer + [s[0]]), text[1..], s[1..]);
      assert (x.buffer + [s[0]]) + s[1..] == x.buffer + s;
    } else {
      PairIsRead(x, text);
      var n := if text[1] == '\\' || text[1] == '"' || text[1] == '\'' then 1 else 2;
      assert s[..n] == if n == 1 then [text[1]] else ['\\', text[1]];
      QuotedTextIsRead(x.(buffer := x.buffer + s[..n]), text[2..], s[n..]);
      assert (x.buffer + s[..n]) + s[n..] == x.buffer + s;
    }
  }

  lemma OneIsRead(x: Lexer, c: char, rest: string)
    requires x.inStr && !x.escape && c != '\\' && c != '"'
    ensures Scan(x, [c] + rest) == Scan(x.(buffer := x.buffer + [c]), rest)
  {
    assert ([c] + rest)[1..] == rest;
  }

  lemma PairIsRead(x: Lexer, text: string)
    requires x.inStr && !x.escape && |text| >= 2 && text[0] == '\\'
    ensures Scan(x, text) ==
      Scan(x.(buffer := x.buffer +
               if text[1] == '\\' || text[1] == '"' || text[1] == '\'' then [text[1]] else ['\\', text[1]]), text[2..])
  {
    assert text[1..][1..] == text[2..];
  }

  lemma {:induction false} BareIsRead(x: Lexer, s: string)
    requires !x.inStr && forall i :: 0 <= i < |s| ==> s[i] != '"' && !IsSpace(s[i]) && !IsMark(s[i])
    ensures Scan(x, s) == x.(buffer := x.buffer + s)
    decreases |s|
  {
    if s == "" {
      assert x.buffer + s == x.buffer;
    } else {
      BareIsRead(x.(buffer := x.buffer + [s[0]]), s[1..]);
      assert (x.buffer + [s[0]]) + s[1..] == x.buffer + s;
    }
  }

  lemma {:induction false} GapIsRead(x: Lexer, gap: string)
    requires !x.inStr && IsGap(gap)
    ensures Scan(x, gap) == if gap == "" then x else Flush(x)
    decreases |gap|
  {
    if gap != "" {
      GapIsRead(Flush(x), gap[1..]);
    }
  }

  /** The tokenizer outside quotes; word is a bare token that is not finished. */
  function Between(word: string, tokens: seq<string>): Lexer {
    Lexer(false, false, word, tokens)
  }

  function Finished(word: string, tokens: seq<string>): seq<string> {
    if word == "" then tokens else tokens + [word]
  }

  /** Characters right in front of the quotes become part of the quoted token. */
  lemma {:induction false} QuotedIsRead(text: string, word: string, s: string, tokens: seq<string>)
    requires Quotes(text, s)
    ensures Scan(Between(word, tokens), "\"" + text + "\"") == Between("", tokens + ["\"" + (word + s) + "\""])
  {
    var x := Between(word, tokens);
    Regroup("\"", text, "\"");
    OpenQuote(x, text + "\"");
    ScanAppend(x.(inStr := true), text, "\"");
    QuotedTextIsRead(x.(inStr := true), text, s);
    CloseQuote(x.(inStr := true, buffer := word + s));
  }

  lemma {:induction false} OpenQuote(x: Lexer, rest: string)
    requires !x.inStr
    ensures Scan(x, "\"" + rest) == Scan(x.(inStr := true), rest)
  {
    assert ("\"" + rest)[1..] == rest;
  }

  lemma {:induction false} CloseQuote(x: Lexer)
    requires x.inStr && !x.escape
    ensures Scan(x, "\"") == x.(inStr := false, tokens := x.tokens + ["\"" + x.buffer + "\""], buffer := "")
  {
    assert "\""[1..] == "";
  }

  lemma {:induction false} MarkIsRead(t: string, word: string, tokens: seq<string>)
    requires IsMarkToken(t)
    ensures Scan(Between(word, tokens), t) == Between("", Finished(word, tokens) + [t])
  {
    assert t[1..] == "" && [t[0]] == t;
  }

  lemma {:induction false} QuotedTokenIsRead(t: string, text: string, tokens: seq<string>)
    requires IsQuoted(t) && Writes(text, t)
    ensures Scan(Between("", tokens), text) == Between("", tokens + [t])
  {
    var inner, s := text[1..|text| - 1], t[1..|t| - 1];
    QuotedIsRead(inner, "", s, tokens);
    assert text == "\"" + inner + "\"" && t == "\"" + ("" + s) + "\"";
  }

  /** A word in progress is finished by a mark; a bare token without a gap stays in progress. */
  lemma {:induction false} TokenIsRead(t: string, text: string, gap: string, word: string, tokens: seq<string>)
    requires IsToken(t) && Writes(text, t) && IsGap(gap) && (word == "" || IsMarkToken(t))
    ensures Scan(Between(word, tokens), text + gap) ==
      if IsBare(t) && gap == "" then Between(t, tokens) else Between("", Finished(word, tokens) + [t])
  {
    ScanAppend(Between(word, tokens), text, gap);
    if IsQuoted(t) {
      QuotedTokenIsRead(t, text, tokens);
      GapIsRead(Between("", tokens + [t]), gap);
    } else if IsMarkToken(t) {
      MarkIsRead(t, word, tokens);
      GapIsRead(Between("", Finished(word, tokens) + [t]), gap);
    } else {
      BareIsRead(Between("", tokens), t);
      assert "" + t == t;
      GapIsRead(Between(t, tokens), gap);
    }
  }

  ghost predicate AreWritings(texts: seq<string>, ts: seq<string>) {
    |texts| == |ts| && forall i :: 0 <= i < |ts| ==> IsToken(ts[i]) && Writes(texts[i], ts[i])
  }

  /** Tokenizing undoes writing, however the tokens are written, with any white space that
      keeps them apart. */
  lemma {:induction false} TokensAreRead(
    ts: seq<string>, texts: seq<string>, gaps: seq<string>, word: string, tokens: seq<string>)
    requires GapsFit(ts, gaps) && AreWritings(texts, ts)
    requires word != "" ==> ts != [] && IsMarkToken(ts[0])
    ensures Scan(Between(word, tokens), WriteAll(texts, gaps)) == Between("", Finished(word, tokens) + ts)
    decreases |ts|
  {
    if ts == [] {
      assert tokens + ts == tokens;
    } else {
      ScanAppend(Between(word, tokens), texts[0] + gaps[0], WriteAll(texts[1..], gaps[1..]));
      assert FitsAt(ts, gaps, 0);
      TokenIsRead(ts[0], texts[0], gaps[0], word, tokens);
      RestFits(ts, gaps);
      if IsBare(ts[0]) && gaps[0] == "" {
        TokensAreRead(ts[1..], texts[1..], gaps[1..], ts[0], tokens);
        FirstThenRest(ts, tokens);
      } else {
        TokensAreRead(ts[1..], texts[1..], gaps[1..], "", Finished(word, tokens) + [ts[0]]);
        FirstThenRest(ts, Finished(word, tokens));
      }
    }
  }

  lemma FirstThenRest(ts: seq<string>, before: seq<string>)
    requires ts != []
    ensures (before + [ts[0]]) + ts[1..] == before + ts
  {
  }

  lemma RestFits(ts: seq<string>, gaps: seq<string>)
    requires GapsFit(ts, gaps) && ts != []
    ensures GapsFit(ts[1..], gaps[1..])
  {
    forall i: nat | i < |ts[1..]| ensures FitsAt(ts[1..], gaps[1..], i) {
      assert FitsAt(ts, gaps, i + 1);
    }
  }

  /** No token is empty, and a mark in quotes is not a mark. */
  lemma {:induction false} TokensAreNotEmpty(x: Lexer, text: string)
    requires "" !in x.tokens
    ensures "" !in Scan(x, text).tokens
    decreases |text|
  {
    if text != "" {
      TokensAreNotEmpty(Read(x, text[0]), text[1..]);
    }
  }
}
