/** The lexical analyzer of the DOT language: tokens, the function from text to tokens, and the analyzer with
    its cursor. Character classes are those of the "C" locale. */
module DotLexer {
  import opened Options

  datatype Kind = Identifier | Keyword | Literal | Operator | Punctuator | Eof

  datatype Token = Token(kind: Kind, text: string)

  const Fallback := Token(Eof, "")

  predicate IsAlpha(c: char) {
    'a' <= c <= 'z' || 'A' <= c <= 'Z'
  }

  predicate IsDigit(c: char) {
    '0' <= c <= '9'
  }

  /** Classes of symbols that are scanned over. */
  datatype Symbols = Spaces | WordSymbols | LiteralSymbols

  predicate Among(c: char, symbols: Symbols) {
    match symbols
    case Spaces => c in " \t\n\U{0B}\U{0C}\r"
    case WordSymbols => IsAlpha(c) || IsDigit(c) || c == '_' || c == '-'
    case LiteralSymbols => IsDigit(c) || c == '.'
  }

  predicate IsKeyword(w: string) {
    w == "graph" || w == "digraph"
  }

  predicate IsOperator(w: string) {
    w == "--" || w == "->" || w == "="
  }

  predicate IsPunctuator(w: string) {
    w == ";" || w == "{" || w == "}" || w == "[" || w == "]"
  }

  /** The operators or punctuators that begin with `c`. */
  function Entities(kind: Kind, c: char): set<string> {
    if kind == Operator then
      if c == '-' then {"--", "->"} else if c == '=' then {"="} else {}
    else if IsPunctuator([c]) then {[c]}
    else {}
  }

  predicate IsEntity(kind: Kind, w: string) {
    if kind == Operator then IsOperator(w) else IsPunctuator(w)
  }

  /** The size of the greatest of them. */
  function EntitySize(kind: Kind, c: char): nat {
    if kind == Operator && c == '-' then 2 else 1
  }

  /** The length of the longest prefix made of `symbols`. */
  function Span(s: string, symbols: Symbols): (n: nat)
    ensures n <= |s| && (forall i :: 0 <= i < n ==> Among(s[i], symbols)) && (n < |s| ==> !Among(s[n], symbols))
  {
    if s == [] || !Among(s[0], symbols) then 0 else 1 + Span(s[1..], symbols)
  }

  /** The token at the start of `s`, and its length; the fallback when there is none. */
  function Scan(s: string): (r: (Token, nat))
    ensures r.1 <= |s| && r.0.text == s[..r.1] && if r.0.kind == Eof then r.0 == Fallback else r.1 > 0
  {
    if s == [] then (Fallback, 0)
    else if IsAlpha(s[0]) then
      var n := Span(s, WordSymbols);
      (Token(if IsKeyword(s[..n]) then Keyword else Identifier, s[..n]), n)
    else if IsDigit(s[0]) then
      var n := Span(s, LiteralSymbols);
      (Token(Literal, s[..n]), n)
    else if IsPunctuator(s[..1]) then (Token(Punctuator, s[..1]), 1)
    else if |s| >= 2 && IsOperator(s[..2]) then (Token(Operator, s[..2]), 2)
    else if IsOperator(s[..1]) then (Token(Operator, s[..1]), 1)
    else (Fallback, 0)
  }

  /** The next token of `s`, and how far the cursor moves. */
  function Next(s: string): (r: (Token, nat))
    ensures r.1 <= |s| && if r.0.kind == Eof then r.0 == Fallback else r.1 > 0
  {
    var spaces := Span(s, Spaces);
    var (t, n) := Scan(s[spaces..]);
    (t, spaces + n)
  }

  /** All tokens up to the first place where there is none. */
  function Tokens(s: string): seq<Token> {
    var (t, n) := Next(s);
    if t.kind == Eof then [] else [t] + Tokens(s[n..])
  }

  // ---------------------------------------------------------------- the documented tokens

  /** The symbols that a word may contain. */
  predicate InWord(c: char) {
    'a' <= c <= 'z' || 'A' <= c <= 'Z' || '0' <= c <= '9' || c == '_' || c == '-'
  }

  predicate InNumber(c: char) {
    '0' <= c <= '9' || c == '.'
  }

  predicate IsBlank(c: char) {
    c == ' ' || c == '\t' || c == '\n' || c == '\U{0B}' || c == '\U{0C}' || c == '\r'
  }

  ghost predicate IsWord(w: string) {
    w != "" && ('a' <= w[0] <= 'z' || 'A' <= w[0] <= 'Z') && forall i :: 0 <= i < |w| ==> InWord(w[i])
  }

  ghost predicate IsNumber(w: string) {
    w != "" && '0' <= w[0] <= '9' && forall i :: 0 <= i < |w| ==> InNumber(w[i])
  }

  /** The tokens of the language, by their symbols. */
  ghost predicate Lexable(t: Token) {
    match t.kind
    case Identifier => IsWord(t.text) && t.text != "graph" && t.text != "digraph"
    case Keyword => t.text == "graph" || t.text == "digraph"
    case Literal => IsNumber(t.text)
    case Operator => t.text == "--" || t.text == "->" || t.text == "="
    case Punctuator => |t.text| == 1 && t.text[0] in {';', '{', '}', '[', ']'}
    case Eof => false
  }

  lemma SymbolsAgree(c: char)
    ensures Among(c, Spaces) <==> IsBlank(c)
    ensures Among(c, WordSymbols) <==> InWord(c)
    ensures Among(c, LiteralSymbols) <==> InNumber(c)
  {
  }

  lemma KeywordsAreWords(w: string)
    requires w == "graph" || w == "digraph"
    ensures IsWord(w)
  {
  }

  ghost predicate AllLexable(ts: seq<Token>) {
    forall i :: 0 <= i < |ts| ==> Lexable(ts[i])
  }

  /** The tokens with a space after each. */
  function Print(ts: seq<Token>): string {
    if ts == [] then "" else ts[0].text + (" " + Print(ts[1..]))
  }

  lemma {:induction false} SpanOfPrefix(s: string, symbols: Symbols, n: nat)
    requires n <= |s| && (forall i :: 0 <= i < n ==> Among(s[i], symbols)) && (n < |s| ==> !Among(s[n], symbols))
    ensures Span(s, symbols) == n
  {
    if n > 0 {
      SpanOfPrefix(s[1..], symbols, n - 1);
    }
  }

  // ---------------------------------------------------------------- texts laid out in any way

  ghost predicate AllBlank(gap: string) {
    forall i :: 0 <= i < |gap| ==> IsBlank(gap[i])
  }

  /** What follows does not continue the token. */
  predicate Ends(t: Token, rest: string) {
    match t.kind
    case Identifier => rest == "" || !InWord(rest[0])
    case Keyword => rest == "" || !InWord(rest[0])
    case Literal => rest == "" || !InNumber(rest[0])
    case _ => true
  }

  /** The tokens with a gap after each. */
  function Layout(ts: seq<Token>, gaps: seq<string>): string
    requires |gaps| == |ts|
  {
    if ts == [] then "" else ts[0].text + (gaps[0] + Layout(ts[1..], gaps[1..]))
  }

  /** The gaps are blank, and where one is empty the next token does not continue the one before. */
  ghost predicate Spaced(ts: seq<Token>, gaps: seq<string>)
    requires |gaps| == |ts|
  {
    ts != [] ==>
      AllBlank(gaps[0]) && Ends(ts[0], gaps[0] + Layout(ts[1..], gaps[1..])) && Spaced(ts[1..], gaps[1..])
  }

  /** A gap that is not empty ends every token. */
  lemma {:induction false} GapsSpace(ts: seq<Token>, gaps: seq<string>)
    requires |gaps| == |ts| && forall i :: 0 <= i < |gaps| ==> gaps[i] != "" && AllBlank(gaps[i])
    ensures Spaced(ts, gaps)
  {
    if ts != [] {
      assert IsBlank(gaps[0][0]);
      assert (gaps[0] + Layout(ts[1..], gaps[1..]))[0] == gaps[0][0];
      GapsSpace(ts[1..], gaps[1..]);
    }
  }

  lemma WordReadsBack(t: Token, rest: string)
    requires IsWord(t.text) && (rest == "" || !InWord(rest[0]))
    requires t.kind == if t.text == "graph" || t.text == "digraph" then Keyword else Identifier
    ensures Scan(t.text + rest) == (t, |t.text|)
  {
    var s := t.text + rest;
    forall i | 0 <= i <= |t.text| && i < |s|
      ensures i < |t.text| <==> Among(s[i], WordSymbols)
    {
      SymbolsAgree(s[i]);
    }
    SpanOfPrefix(s, WordSymbols, |t.text|);
    assert s[..|t.text|] == t.text;
  }

  lemma NumberReadsBack(t: Token, rest: string)
    requires t.kind == Literal && IsNumber(t.text) && (rest == "" || !InNumber(rest[0]))
    ensures Scan(t.text + rest) == (t, |t.text|)
  {
    var s := t.text + rest;
    forall i | 0 <= i <= |t.text| && i < |s|
      ensures i < |t.text| <==> Among(s[i], LiteralSymbols)
    {
      SymbolsAgree(s[i]);
    }
    SpanOfPrefix(s, LiteralSymbols, |t.text|);
    assert s[..|t.text|] == t.text;
  }

  lemma ScanPunctuator(t: Token, rest: string)
    requires t.kind == Punctuator && Lexable(t)
    ensures Scan(t.text + rest) == (t, |t.text|)
  {
    var s := t.text + rest;
    assert s[..1] == t.text == [s[0]];
  }

  lemma ScanOperator(t: Token, rest: string)
    requires t.kind == Operator && Lexable(t)
    ensures Scan(t.text + rest) == (t, |t.text|)
  {
    var s := t.text + rest;
    assert s[0] == t.text[0] && s[..|t.text|] == t.text && !IsPunctuator(s[..1]);
    if |t.text| == 1 && |s| >= 2 {
      assert s[..2][0] == '=';
    }
  }

  /** A token is read back, up to what follows. */
  lemma ScanReadsBack(t: Token, rest: string)
    requires Lexable(t) && Ends(t, rest)
    ensures Scan(t.text + rest) == (t, |t.text|)
  {
    match t.kind
    case Identifier => WordReadsBack(t, rest);
    case Keyword =>
      KeywordsAreWords(t.text);
      WordReadsBack(t, rest);
    case Literal => NumberReadsBack(t, rest);
    case Punctuator => ScanPunctuator(t, rest);
    case Operator => ScanOperator(t, rest);
  }

  lemma FirstIsNotBlank(t: Token)
    requires Lexable(t)
    ensures t.text != "" && !IsBlank(t.text[0])
  {
    if t.kind == Keyword {
      KeywordsAreWords(t.text);
    }
  }

  lemma NextReadsBack(before: string, t: Token, rest: string)
    requires AllBlank(before) && Lexable(t) && Ends(t, rest)
    ensures var s := before + (t.text + rest);
            Next(s) == (t, |before| + |t.text|) && s[|before| + |t.text|..] == rest
  {
    var s := before + (t.text + rest);
    FirstIsNotBlank(t);
    forall i | 0 <= i <= |before|
      ensures i < |before| <==> Among(s[i], Spaces)
    {
      SymbolsAgree(s[i]);
    }
    SpanOfPrefix(s, Spaces, |before|);
    assert s[|before|..] == t.text + rest;
    ScanReadsBack(t, rest);
  }

  lemma NextAfterSpaces(s: string, spaces: nat, after: string, t: Token, n: nat)
    requires Span(s, Spaces) == spaces && s[spaces..] == after && Scan(after).0 == t && Scan(after).1 == n
    ensures Next(s).0 == t && Next(s).1 == spaces + n && s[spaces + n..] == after[n..]
  {
  }

  lemma TokensFrom(s: string, t: Token, n: nat, rest: string)
    requires Next(s) == (t, n) && t.kind != Eof && s[n..] == rest
    ensures Tokens(s) == [t] + Tokens(rest)
  {
  }

  lemma TokensOfBlanks(gap: string)
    requires AllBlank(gap)
    ensures Tokens(gap) == []
  {
    forall i | 0 <= i < |gap|
      ensures Among(gap[i], Spaces)
    {
      SymbolsAgree(gap[i]);
    }
    SpanOfPrefix(gap, Spaces, |gap|);
  }

  lemma FirstToken(before: string, t: Token, rest: string, ts: seq<Token>)
    requires AllBlank(before) && Lexable(t) && Ends(t, rest) && Tokens(rest) == ts
    ensures Tokens(before + (t.text + rest)) == [t] + ts
  {
    NextReadsBack(before, t, rest);
    TokensFrom(before + (t.text + rest), t, |before| + |t.text|, rest);
  }

  /** Lexing gives back the tokens however they have been laid out: with any blanks before, between and after, and
      with none where a token ends anyway. */
  lemma {:induction false} TokensOfLayout(before: string, ts: seq<Token>, gaps: seq<string>)
    requires AllBlank(before) && AllLexable(ts) && |gaps| == |ts| && Spaced(ts, gaps)
    ensures Tokens(before + Layout(ts, gaps)) == ts
    decreases |ts|
  {
    if ts == [] {
      assert before + "" == before;
      TokensOfBlanks(before);
    } else {
      LayoutSplits(ts, gaps);
      TokensOfLayout(gaps[0], ts[1..], gaps[1..]);
      FirstToken(before, ts[0], gaps[0] + Layout(ts[1..], gaps[1..]), ts[1..]);
    }
  }

  lemma LayoutSplits(ts: seq<Token>, gaps: seq<string>)
    requires |gaps| == |ts| && ts != [] && AllLexable(ts) && Spaced(ts, gaps)
    ensures ts == [ts[0]] + ts[1..] && Lexable(ts[0]) && AllLexable(ts[1..])
    ensures Layout(ts, gaps) == ts[0].text + (gaps[0] + Layout(ts[1..], gaps[1..]))
    ensures AllBlank(gaps[0]) && Spaced(ts[1..], gaps[1..])
    ensures Ends(ts[0], gaps[0] + Layout(ts[1..], gaps[1..]))
  {
  }

  lemma {:induction false} PrintIsLayout(ts: seq<Token>)
    ensures Print(ts) == Layout(ts, seq(|ts|, _ => " "))
  {
    if ts != [] {
      PrintIsLayout(ts[1..]);
      assert seq(|ts|, _ => " ")[1..] == seq(|ts[1..]|, _ => " ");
    }
  }

  /** Lexing the printed tokens gives back the tokens. */
  lemma TokensOfPrint(ts: seq<Token>)
    requires AllLexable(ts)
    ensures Tokens(Print(ts)) == ts
  {
    var gaps := seq(|ts|, _ => " ");
    PrintIsLayout(ts);
    GapsSpace(ts, gaps);
    TokensOfLayout("", ts, gaps);
    assert "" + Layout(ts, gaps) == Layout(ts, gaps);
  }

  // ---------------------------------------------------------------- the longest token

  lemma ScanIsLexable(s: string)
    ensures Scan(s).0.kind != Eof ==> Lexable(Scan(s).0)
  {
    if s != [] && IsAlpha(s[0]) {
      forall i | 0 <= i < Span(s, WordSymbols)
        ensures InWord(s[i])
      {
        SymbolsAgree(s[i]);
      }
    } else if s != [] && IsDigit(s[0]) {
      forall i | 0 <= i < Span(s, LiteralSymbols)
        ensures InNumber(s[i])
      {
        SymbolsAgree(s[i]);
      }
    }
  }

  lemma ScanIsLongest(s: string, t: Token)
    requires Lexable(t) && t.text <= s
    ensures |t.text| <= |Scan(s).0.text| && (|t.text| == |Scan(s).0.text| ==> t == Scan(s).0)
  {
    var rest := s[|t.text|..];
    assert s == t.text + rest;
    if Ends(t, rest) {
      ScanReadsBack(t, rest);
    } else {
      if t.kind == Keyword {
        KeywordsAreWords(t.text);
      }
      forall i | 0 <= i <= |t.text|
        ensures t.kind != Literal ==> Among(s[i], WordSymbols)
        ensures t.kind == Literal ==> Among(s[i], LiteralSymbols)
      {
        SymbolsAgree(s[i]);
        assert i == |t.text| || s[i] == t.text[i];
      }
      assert s[0] == t.text[0];
    }
  }

  /** After the blanks, `k` of them, the next token is the longest token of the language that the text begins with,
      and the only one of its length; there is none only if the text begins with no token. */
  lemma NextIsLongest(s: string) returns (k: nat)
    ensures var (t, n) := Next(s);
            && k <= n <= |s| && AllBlank(s[..k]) && (k < |s| ==> !IsBlank(s[k])) && n == k + |t.text|
            && (if t.kind == Eof then t.text == "" else Lexable(t) && t.text <= s[k..])
            && forall u :: Lexable(u) && u.text <= s[k..] ==>
                 |u.text| <= |t.text| && (|u.text| == |t.text| ==> u == t)
  {
    k := Span(s, Spaces);
    forall i | 0 <= i <= k && i < |s|
      ensures i < k <==> IsBlank(s[i])
    {
      SymbolsAgree(s[i]);
    }
    ScanIsLexable(s[k..]);
    forall u | Lexable(u) && u.text <= s[k..]
      ensures var t := Next(s).0; |u.text| <= |t.text| && (|u.text| == |t.text| ==> u == t)
    {
      ScanIsLongest(s[k..], u);
    }
  }

  /** Every text has only such tokens. */
  lemma {:induction false} TokensAreLexable(s: string)
    ensures AllLexable(Tokens(s))
    decreases |s|
  {
    var (t, n) := Next(s);
    if t.kind != Eof {
      ScanIsLexable(s[Span(s, Spaces)..]);
      TokensAreLexable(s[n..]);
    }
  }

  lemma SpacesBetween(s: string, from: nat, to: nat)
    requires from <= to <= |s| && (forall i :: from <= i < to ==> Among(s[i], Spaces))
    requires to < |s| ==> !Among(s[to], Spaces)
    ensures Span(s[from..], Spaces) == to - from && s[from..][to - from..] == s[to..]
  {
    SpanOfPrefix(s[from..], Spaces, to - from);
  }

  class LexicalAnalyzer {
    const graphviz_: string
    var sp_: nat

    ghost predicate Valid()
      reads this
    {
      sp_ <= |graphviz_|
    }

    /** The text not yet read. */
    ghost function Ahead(): string
      reads this
      requires Valid()
    {
      graphviz_[sp_..]
    }

    constructor (graphviz: string)
      ensures Valid() && graphviz_ == graphviz && sp_ == 0
    {
      graphviz_ := graphviz;
      sp_ := 0;
    }

    /** What a method for one kind of token leaves: `r` and a moved cursor if such a token, or the end of
        the text, is ahead. */
    ghost predicate Read(ahead: string, sp: nat, matches: bool, r: Option<Token>)
      reads this
    {
      && sp <= sp_ && Valid()
      && if ahead == [] || matches then r == Some(Scan(ahead).0) && sp_ - sp == Scan(ahead).1
         else r == None && sp_ == sp
    }

    /** `get_next<token::keyword>`. */
    method GetNextWord() returns (r: Option<Token>)
      requires Valid()
      modifies this
      ensures Read(old(Ahead()), old(sp_), old(Ahead() != [] && IsAlpha(Ahead()[0])), r)
    {
      if sp_ >= |graphviz_| {
        return Some(Fallback);
      }
      if IsAlpha(graphviz_[sp_]) {
        var n := Span(graphviz_[sp_..], WordSymbols);
        var word := graphviz_[sp_..][..n];
        sp_ := sp_ + n;
        return Some(Token(if IsKeyword(word) then Keyword else Identifier, word));
      }
      return None;
    }

    /** `get_next<token::literal>`. */
    method GetNextLiteral() returns (r: Option<Token>)
      requires Valid()
      modifies this
      ensures Read(old(Ahead()), old(sp_), old(Ahead() != [] && IsDigit(Ahead()[0])), r)
    {
      if sp_ >= |graphviz_| {
        return Some(Fallback);
      }
      if IsDigit(graphviz_[sp_]) {
        var n := Span(graphviz_[sp_..], LiteralSymbols);
        var literal := graphviz_[sp_..][..n];
        sp_ := sp_ + n;
        return Some(Token(Literal, literal));
      }
      return None;
    }

    /** `get_next` for operators and punctuators: the longest match is tried first. */
    method GetNextEntity(kind: Kind) returns (r: Option<Token>)
      requires Valid() && kind in {Operator, Punctuator}
      modifies this
      ensures old(Ahead()) == [] ==> r == Some(Fallback) && sp_ == old(sp_)
      ensures r == None ==>
                sp_ == old(sp_) && forall n: nat :: 0 < n <= |old(Ahead())| ==> !IsEntity(kind, old(Ahead())[..n])
      ensures r.Some? && old(Ahead()) != [] ==>
                && old(sp_) < sp_ <= |graphviz_| && r == Some(Token(kind, old(Ahead())[..sp_ - old(sp_)]))
                && IsEntity(kind, r.value.text)
                && forall n: nat :: sp_ - old(sp_) < n <= |old(Ahead())| ==> !IsEntity(kind, old(Ahead())[..n])
    {
      if sp_ >= |graphviz_| {
        return Some(Fallback);
      }
      ghost var ahead := Ahead();
      var entities := Entities(kind, graphviz_[sp_]);
      if entities != {} {
        var maxSize: nat := EntitySize(kind, graphviz_[sp_]);
        if |graphviz_| - sp_ < maxSize {
          maxSize := |graphviz_| - sp_;
        }
        while maxSize != 0
          invariant maxSize <= |ahead| && sp_ == old(sp_)
          invariant forall n: nat :: maxSize < n <= |ahead| ==> ahead[..n] !in entities
        {
          var data := graphviz_[sp_..][..maxSize];
          if data in entities {
            sp_ := sp_ + maxSize;
            return Some(Token(kind, data));
          }
          maxSize := maxSize - 1;
        }
      }
      return None;
    }

    /** The next token. The cursor never moves back, and moves on with every token but the fallback. */
    method GetNextToken() returns (t: Token)
      requires Valid()
      modifies this
      ensures Valid() && old(sp_) <= sp_ && t == Next(old(Ahead())).0
      ensures sp_ - old(sp_) == Next(old(Ahead())).1 && Ahead() == old(Ahead())[sp_ - old(sp_)..]
      ensures t.kind != Eof ==> old(sp_) < sp_
    {
      ghost var text := Ahead();
      SkipSpaces();
      ghost var spaces, after := sp_ - old(sp_), Ahead();
      t := ScanToken();
      NextAfterSpaces(text, spaces, after, t, sp_ - old(sp_) - spaces);
    }

    method SkipSpaces()
      requires Valid()
      modifies this
      ensures Valid() && old(sp_) <= sp_ && Ahead() == old(Ahead())[sp_ - old(sp_)..]
      ensures Span(old(Ahead()), Spaces) == sp_ - old(sp_)
    {
      while |graphviz_| != sp_ && Among(graphviz_[sp_], Spaces)
        invariant old(sp_) <= sp_ <= |graphviz_|
        invariant forall i :: old(sp_) <= i < sp_ ==> Among(graphviz_[i], Spaces)
        decreases |graphviz_| - sp_
      {
        sp_ := sp_ + 1;
      }
      SpacesBetween(graphviz_, old(sp_), sp_);
    }

    /** The alternatives in their order. */
    method ScanToken() returns (t: Token)
      requires Valid()
      modifies this
      ensures Valid() && old(sp_) <= sp_ && t == Scan(old(Ahead())).0 && sp_ - old(sp_) == Scan(old(Ahead())).1
      ensures Ahead() == old(Ahead())[sp_ - old(sp_)..]
    {
      var r := GetNextWord();
      if r == None {
        r := GetNextLiteral();
      }
      if r == None {
        r := GetNextEntity(Punctuator);
      }
      if r == None {
        r := GetNextEntity(Operator);
      }
      t := if r == None then Fallback else r.value;
    }
  }
}
