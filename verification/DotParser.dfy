/** The recursive-descent parser of the DOT language, which keeps one token ahead. Every method does on the
    stream of tokens what the function of the same name does, and terminates on every text. */
module DotParser {
  import opened Options
  import opened DotLexer
  import opened DotSyntax

  /** `Thrown` stands for the exception `unexpected_syntax`. */
  datatype Outcome<T> = Thrown | Returned(value: T)

  /** A method has done what the parsing function prescribes. */
  ghost predicate Agrees<T(!new)>(p: Parsed<T>, r: Outcome<T>, stream: seq<Token>) {
    match p
    case Failed => r == Thrown
    case Parsed(value, rest) => r == Returned(value) && stream == rest
  }

  /** The result of a list of which `done` has been read. */
  ghost function Prepended<T>(done: seq<T>, p: Parsed<seq<T>>): Parsed<seq<T>> {
    match p
    case Failed => Failed
    case Parsed(more, rest) => Parsed(done + more, rest)
  }

  lemma NothingPrepended<T>(p: Parsed<seq<T>>)
    ensures Prepended([], p) == p
  {
    if p.Parsed? {
      assert [] + p.value == p.value;
    }
  }

  lemma OneMoreAttribute(p: Parsed<seq<Attribute>>, done: seq<Attribute>, ts: seq<Token>)
    requires p == Prepended(done, ParseAttributes(ts))
    ensures match ParseAttribute(ts)
            case Failed => p == Failed
            case Parsed(None, rest) => p == Parsed(done, rest)
            case Parsed(Some(a), rest) => p == Prepended(done + [a], ParseAttributes(rest))
  {
    var r := ParseAttribute(ts);
    if r.Parsed? && r.value == None {
      assert done + [] == done;
    }
    if r.Parsed? && r.value.Some? && ParseAttributes(r.rest).Parsed? {
      var more := ParseAttributes(r.rest).value;
      assert done + ([r.value.value] + more) == (done + [r.value.value]) + more;
    }
  }

  lemma OneMoreStatement(p: Parsed<seq<Statement>>, done: seq<Statement>, ts: seq<Token>)
    requires p == Prepended(done, ParseStatements(ts))
    ensures match ParseStatement(ts)
            case Failed => p == Failed
            case Parsed(None, rest) => p == Parsed(done, rest)
            case Parsed(Some(st), rest) =>
              if Current(rest) == Punctuation(";") then p == Prepended(done + [st], ParseStatements(rest[1..]))
              else p == Failed
  {
    var r := ParseStatement(ts);
    if r.Parsed? && r.value == None {
      assert done + [] == done;
    }
    if r.Parsed? && r.value.Some? && Current(r.rest) == Punctuation(";") && ParseStatements(r.rest[1..]).Parsed? {
      var more := ParseStatements(r.rest[1..]).value;
      assert done + ([r.value.value] + more) == (done + [r.value.value]) + more;
    }
  }

  lemma TokensByNext(text: string, t: Token, ahead: string)
    requires t == Next(text).0 && ahead == text[Next(text).1..]
    ensures Tokens(text) == if t.kind == Eof then [] else [t] + Tokens(ahead)
  {
  }

  class SyntaxAnalyzer {
    const tokenizer_: LexicalAnalyzer
    var currentToken_: Token

    ghost predicate Valid()
      reads this, tokenizer_
    {
      tokenizer_.Valid() && (currentToken_.kind == Eof ==> currentToken_ == Fallback)
    }

    /** The tokens from the current one on. */
    ghost function Stream(): seq<Token>
      reads this, tokenizer_
      requires Valid()
    {
      if currentToken_.kind == Eof then [] else [currentToken_] + Tokens(tokenizer_.Ahead())
    }

    constructor (graphviz: string)
      ensures Valid() && fresh(tokenizer_) && Stream() == Tokens(graphviz)
    {
      var tokenizer := new LexicalAnalyzer(graphviz);
      assert tokenizer.Ahead() == graphviz;
      var token := tokenizer.GetNextToken();
      TokensByNext(graphviz, token, tokenizer.Ahead());
      tokenizer_, currentToken_ := tokenizer, token;
    }

    /** `get_token` and `get_token_maybe`; the former throws when nothing is returned. */
    method GetToken(expected: Kind) returns (text: Option<string>)
      requires Valid() && expected != Eof
      modifies this, tokenizer_
      ensures Valid()
      ensures text.Some? <==> Current(old(Stream())).kind == expected
      ensures text.Some? ==> text.value == old(Stream())[0].text && Stream() == old(Stream())[1..]
      ensures text == None ==> Stream() == old(Stream())
    {
      if currentToken_.kind != expected {
        return None;
      }
      text := Some(currentToken_.text);
      ghost var ahead := tokenizer_.Ahead();
      currentToken_ := tokenizer_.GetNextToken();
      TokensByNext(ahead, currentToken_, tokenizer_.Ahead());
    }

    method Attribute() returns (r: Outcome<Option<Attribute>>)
      requires Valid()
      modifies this, tokenizer_
      ensures Valid() && Agrees(ParseAttribute(old(Stream())), r, Stream())
    {
      if currentToken_.kind != Identifier {
        return Returned(None);
      }
      var key := GetToken(Identifier);
      var assign := GetToken(Operator);
      if assign != Some("=") {
        return Thrown;
      }
      var value := AttributeValue();
      if value == None {
        return Thrown;
      }
      return Returned(Some(DotSyntax.Attribute(key.value, value.value)));
    }

    method AttributeValue() returns (text: Option<string>)
      requires Valid()
      modifies this, tokenizer_
      ensures Valid()
      ensures text.Some? <==> Current(old(Stream())).kind in {Identifier, Literal}
      ensures text.Some? ==> text.value == old(Stream())[0].text && Stream() == old(Stream())[1..]
    {
      text := GetToken(Identifier);
      if text == None {
        text := GetToken(Literal);
      }
    }

    method Attributes() returns (r: Outcome<seq<Attribute>>)
      requires Valid()
      modifies this, tokenizer_
      ensures Valid() && Agrees(ParseAttributes(old(Stream())), r, Stream())
    {
      ghost var ts, p := Stream(), ParseAttributes(Stream());
      var attributes: seq<Attribute> := [];
      var attr := Attribute();
      NothingPrepended(p);
      while attr.Returned? && attr.value.Some?
        invariant Valid() && Agrees(ParseAttribute(ts), attr, Stream())
        invariant p == Prepended(attributes, ParseAttributes(ts))
        decreases |ts|
      {
        OneMoreAttribute(p, attributes, ts);
        attributes := attributes + [attr.value.value];
        ts := Stream();
        attr := Attribute();
      }
      OneMoreAttribute(p, attributes, ts);
      r := if attr.Thrown? then Thrown else Returned(attributes);
    }

    method AttributesList() returns (r: Outcome<Option<seq<Attribute>>>)
      requires Valid()
      modifies this, tokenizer_
      ensures Valid() && Agrees(ParseAttributesList(old(Stream())), r, Stream())
    {
      if currentToken_.text != "[" {
        return Returned(None);
      }
      var open := GetToken(Punctuator);
      if open == None {
        return Thrown;
      }
      var attributes := Attributes();
      if attributes.Thrown? {
        return Thrown;
      }
      var close := GetToken(Punctuator);
      if close != Some("]") {
        return Thrown;
      }
      return Returned(Some(attributes.value));
    }

    method NodeStatement() returns (r: Outcome<Option<Node>>)
      requires Valid()
      modifies this, tokenizer_
      ensures Valid() && Agrees(ParseNode(old(Stream())), r, Stream())
    {
      var name := GetToken(Identifier);
      if name == None {
        return Returned(None);
      }
      var attributes := AttributesList();
      if attributes.Thrown? {
        return Thrown;
      }
      return Returned(Some(Node(name.value, attributes.value)));
    }

    method Statement() returns (r: Outcome<Option<Statement>>)
      requires Valid()
      modifies this, tokenizer_
      ensures Valid() && Agrees(ParseStatement(old(Stream())), r, Stream())
      decreases |Stream()|
    {
      var left := NodeStatement();
      if left.Thrown? {
        return Thrown;
      }
      var operator := GetToken(Operator);
      if operator.Some? {
        if operator.value != "->" && operator.value != "--" {
          return Thrown;
        }
        var to := Statement();
        if to.Thrown? {
          return Thrown;
        }
        return Returned(Some(Edge(operator.value == "->", left.value, to.value)));
      }
      return Returned(if left.value == None then None else Some(Single(left.value.value)));
    }

    method StatementList() returns (r: Outcome<seq<Statement>>)
      requires Valid()
      modifies this, tokenizer_
      ensures Valid() && Agrees(ParseStatements(old(Stream())), r, Stream())
    {
      ghost var ts, p := Stream(), ParseStatements(Stream());
      var statements: seq<Statement> := [];
      var stmt := Statement();
      NothingPrepended(p);
      while stmt.Returned? && stmt.value.Some?
        invariant Valid() && Agrees(ParseStatement(ts), stmt, Stream())
        invariant p == Prepended(statements, ParseStatements(ts))
        decreases |ts|
      {
        OneMoreStatement(p, statements, ts);
        statements := statements + [stmt.value.value];
        var semicolon := GetToken(Punctuator);
        if semicolon != Some(";") {
          return Thrown;
        }
        ts := Stream();
        stmt := Statement();
      }
      OneMoreStatement(p, statements, ts);
      r := if stmt.Thrown? then Thrown else Returned(statements);
    }

    method Header() returns (r: Outcome<Graph>)
      requires Valid()
      modifies this, tokenizer_
      ensures Valid() && Agrees(ParseHeader(old(Stream())), r, Stream())
    {
      var graphType := GetToken(Keyword);
      if graphType == None || !IsKeyword(graphType.value) {
        return Thrown;
      }
      var graphName := GetToken(Identifier);
      if graphName == None {
        return Thrown;
      }
      var open := GetToken(Punctuator);
      if open != Some("{") {
        return Thrown;
      }
      return Returned(DotSyntax.Graph(graphType.value == "digraph", graphName.value, []));
    }

    method Graph() returns (r: Outcome<Graph>)
      requires Valid()
      modifies this, tokenizer_
      ensures Valid() && Agrees(ParseGraph(old(Stream())), r, Stream())
    {
      var header := Header();
      if header.Thrown? {
        return Thrown;
      }
      var statements := Body();
      if statements.Thrown? {
        return Thrown;
      }
      return Returned(header.value.(statements := statements.value));
    }

    method Body() returns (r: Outcome<seq<Statement>>)
      requires Valid()
      modifies this, tokenizer_
      ensures Valid() && Agrees(ParseBody(old(Stream())), r, Stream())
    {
      var statements := StatementList();
      if statements.Thrown? {
        return Thrown;
      }
      var close := GetToken(Punctuator);
      if close != Some("}") {
        return Thrown;
      }
      return Returned(statements.value);
    }
  }

  /** A parse of a whole text. */
  method ParseText(graphviz: string) returns (r: Option<Graph>)
    ensures r == Parse(graphviz)
  {
    var analyzer := new SyntaxAnalyzer(graphviz);
    var outcome := analyzer.Graph();
    r := if outcome.Thrown? then None else Some(outcome.value);
  }
}
