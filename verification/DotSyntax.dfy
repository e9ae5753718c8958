/** The syntax of the DOT language on tokens: the abstract syntax tree, the parser as a function, the printer,
    and the proof that each undoes the other. */
module DotSyntax {
  import opened Options
  import opened DotLexer

  datatype Attribute = Attribute(key: string, value: string)

  /** `attributes` is absent when there are no square brackets. */
  datatype Node = Node(name: string, attributes: Option<seq<Attribute>>)

  /** The source's null pointers for an empty statement are `None`. */
  datatype Statement =
    | Single(node: Node)
    | Edge(direct: bool, from: Option<Node>, to: Option<Statement>)

  datatype Graph = Graph(direct: bool, name: string, statements: seq<Statement>)

  /** `Failed` stands for the exception `unexpected_syntax`. */
  datatype Parsed<T> = Failed | Parsed(value: T, rest: seq<Token>)

  function Current(ts: seq<Token>): Token {
    if ts == [] then Fallback else ts[0]
  }

  function Punctuation(text: string): Token {
    Token(Punctuator, text)
  }

  // ---------------------------------------------------------------- the parser

  function ParseAttribute(ts: seq<Token>): (r: Parsed<Option<Attribute>>)
    ensures r.Parsed? ==> |r.rest| <= |ts| && (r.value.Some? ==> |r.rest| < |ts|)
  {
    if Current(ts).kind != Identifier then Parsed(None, ts)
    else
      var assign := ts[1..];
      if Current(assign) != Token(Operator, "=") then Failed
      else
        var value := assign[1..];
        if Current(value).kind in {Identifier, Literal} then
          Parsed(Some(Attribute(ts[0].text, value[0].text)), value[1..])
        else Failed
  }

  function ParseAttributes(ts: seq<Token>): (r: Parsed<seq<Attribute>>)
    ensures r.Parsed? ==> |r.rest| <= |ts|
    decreases |ts|
  {
    match ParseAttribute(ts)
    case Failed => Failed
    case Parsed(None, rest) => Parsed([], rest)
    case Parsed(Some(a), rest) =>
      match ParseAttributes(rest)
      case Failed => Failed
      case Parsed(more, rest') => Parsed([a] + more, rest')
  }

  function ParseAttributesList(ts: seq<Token>): (r: Parsed<Option<seq<Attribute>>>)
    ensures r.Parsed? ==> |r.rest| <= |ts|
  {
    if Current(ts).text != "[" then Parsed(None, ts)
    else if Current(ts).kind != Punctuator then Failed
    else
      match ParseAttributes(ts[1..])
      case Failed => Failed
      case Parsed(attributes, rest) =>
        if Current(rest) == Punctuation("]") then Parsed(Some(attributes), rest[1..]) else Failed
  }

  function ParseNode(ts: seq<Token>): (r: Parsed<Option<Node>>)
    ensures r.Parsed? ==> |r.rest| <= |ts| && (r.value.Some? ==> |r.rest| < |ts|) && (r.value == None ==> r.rest == ts)
  {
    if Current(ts).kind != Identifier then Parsed(None, ts)
    else
      match ParseAttributesList(ts[1..])
      case Failed => Failed
      case Parsed(attributes, rest) => Parsed(Some(Node(ts[0].text, attributes)), rest)
  }

  /** A statement is right-recursive, and any of its nodes may be missing. */
  function ParseStatement(ts: seq<Token>): (r: Parsed<Option<Statement>>)
    ensures r.Parsed? ==> |r.rest| <= |ts| && (r.value.Some? ==> |r.rest| < |ts|)
    decreases |ts|
  {
    match ParseNode(ts)
    case Failed => Failed
    case Parsed(left, rest) =>
      if Current(rest).kind == Operator then
        if rest[0].text != "->" && rest[0].text != "--" then Failed
        else
          match ParseStatement(rest[1..])
          case Failed => Failed
          case Parsed(to, rest') => Parsed(Some(Edge(rest[0].text == "->", left, to)), rest')
      else if left == None then Parsed(None, rest)
      else Parsed(Some(Single(left.value)), rest)
  }

  function ParseStatements(ts: seq<Token>): (r: Parsed<seq<Statement>>)
    ensures r.Parsed? ==> |r.rest| <= |ts|
    decreases |ts|
  {
    match ParseStatement(ts)
    case Failed => Failed
    case Parsed(None, rest) => Parsed([], rest)
    case Parsed(Some(st), rest) =>
      if Current(rest) != Punctuation(";") then Failed
      else
        match ParseStatements(rest[1..])
        case Failed => Failed
        case Parsed(more, rest') => Parsed([st] + more, rest')
  }

  /** The type and the name of a graph up to the opening bracket. */
  function ParseHeader(ts: seq<Token>): (r: Parsed<Graph>)
    ensures r.Parsed? ==> |ts| >= 3 && r.rest == ts[3..]
  {
    if Current(ts).kind != Keyword || !IsKeyword(ts[0].text) then Failed
    else if Current(ts[1..]).kind != Identifier || Current(ts[2..]) != Punctuation("{") then Failed
    else Parsed(Graph(ts[0].text == "digraph", ts[1].text, []), ts[3..])
  }

  function ParseBody(ts: seq<Token>): Parsed<seq<Statement>> {
    match ParseStatements(ts)
    case Failed => Failed
    case Parsed(statements, rest) =>
      if Current(rest) != Punctuation("}") then Failed else Parsed(statements, rest[1..])
  }

  function ParseGraph(ts: seq<Token>): Parsed<Graph> {
    match ParseHeader(ts)
    case Failed => Failed
    case Parsed(header, body) =>
      match ParseBody(body)
      case Failed => Failed
      case Parsed(statements, rest) => Parsed(header.(statements := statements), rest)
  }

  /** `parse` on a whole text; what follows the closing bracket is not looked at. */
  function Parse(text: string): Option<Graph> {
    match ParseGraph(Tokens(text))
    case Failed => None
    case Parsed(g, _) => Some(g)
  }

  // ---------------------------------------------------------------- the printer

  /** Each function prints its argument in front of `rest`. */
  function AttributeThen(a: Attribute, rest: seq<Token>): seq<Token> {
    var kind := if a.value != "" && IsDigit(a.value[0]) then Literal else Identifier;
    [Token(Identifier, a.key), Token(Operator, "="), Token(kind, a.value)] + rest
  }

  function AttributesThen(s: seq<Attribute>, rest: seq<Token>): seq<Token> {
    if s == [] then rest else AttributeThen(s[0], AttributesThen(s[1..], rest))
  }

  function NodeThen(n: Node, rest: seq<Token>): seq<Token> {
    [Token(Identifier, n.name)] +
    match n.attributes
    case None => rest
    case Some(s) => [Punctuation("[")] + AttributesThen(s, [Punctuation("]")] + rest)
  }

  function OptionalNodeThen(n: Option<Node>, rest: seq<Token>): seq<Token> {
    match n
    case None => rest
    case Some(node) => NodeThen(node, rest)
  }

  function StatementThen(st: Statement, rest: seq<Token>): seq<Token> {
    match st
    case Single(n) => NodeThen(n, rest)
    case Edge(direct, from, to) =>
      var right := match to case None => rest case Some(next) => StatementThen(next, rest);
      OptionalNodeThen(from, [Token(Operator, if direct then "->" else "--")] + right)
  }

  function StatementsThen(s: seq<Statement>, rest: seq<Token>): seq<Token> {
    if s == [] then rest else StatementThen(s[0], [Punctuation(";")] + StatementsThen(s[1..], rest))
  }

  function GraphThen(g: Graph, rest: seq<Token>): seq<Token> {
    [Token(Keyword, if g.direct then "digraph" else "graph"), Token(Identifier, g.name), Punctuation("{")] +
    StatementsThen(g.statements, [Punctuation("}")] + rest)
  }

  /** All names and values are such that the lexical analyzer can produce them. */
  ghost predicate WellFormed(g: Graph) {
    AllLexable(GraphThen(g, []))
  }

  // ---------------------------------------------------------------- parsing undoes printing

  lemma {:induction false} AttributesReadBack(s: seq<Attribute>, rest: seq<Token>)
    requires Current(rest).kind != Identifier
    ensures ParseAttributes(AttributesThen(s, rest)) == Parsed(s, rest)
  {
    if s != [] {
      var ts := AttributesThen(s, rest);
      AttributesReadBack(s[1..], rest);
      assert ts[1..][1..][1..] == AttributesThen(s[1..], rest);
      assert s == [s[0]] + s[1..];
    }
  }

  lemma NodeReadsBack(n: Node, rest: seq<Token>)
    requires n.attributes == None ==> Current(rest).text != "["
    ensures ParseNode(NodeThen(n, rest)) == Parsed(Some(n), rest)
  {
    var ts := NodeThen(n, rest);
    if n.attributes.Some? {
      var close := [Punctuation("]")] + rest;
      AttributesReadBack(n.attributes.value, close);
      assert ts[1..] == [Punctuation("[")] + AttributesThen(n.attributes.value, close);
      assert ts[1..][1..] == AttributesThen(n.attributes.value, close);
    } else {
      assert ts[1..] == rest;
    }
  }

  lemma OptionalNodeReadsBack(n: Option<Node>, rest: seq<Token>)
    requires rest != [] && rest[0].text != "[" && rest[0].kind != Identifier
    ensures ParseNode(OptionalNodeThen(n, rest)) == Parsed(n, rest)
  {
    if n.Some? {
      NodeReadsBack(n.value, rest);
    }
  }

  lemma NoStatement(ts: seq<Token>)
    requires ts != [] && ts[0].kind == Punctuator
    ensures ParseStatement(ts) == Parsed(None, ts)
  {
    assert ParseNode(ts) == Parsed(None, ts);
  }

  lemma EdgeReadsBack(direct: bool, from: Option<Node>, to: Option<Statement>, right: seq<Token>, rest: seq<Token>)
    requires ParseStatement(right) == Parsed(to, rest)
    ensures var op := Token(Operator, if direct then "->" else "--");
            ParseStatement(OptionalNodeThen(from, [op] + right)) == Parsed(Some(Edge(direct, from, to)), rest)
  {
    var op := [Token(Operator, if direct then "->" else "--")] + right;
    OptionalNodeReadsBack(from, op);
    assert op[1..] == right;
  }

  lemma {:induction false} StatementReadsBack(st: Statement, rest: seq<Token>)
    requires rest != [] && rest[0] == Punctuation(";")
    ensures ParseStatement(StatementThen(st, rest)) == Parsed(Some(st), rest)
  {
    match st
    case Single(n) =>
      NodeReadsBack(n, rest);
    case Edge(direct, from, to) =>
      if to.Some? {
        StatementReadsBack(to.value, rest);
        EdgeReadsBack(direct, from, to, StatementThen(to.value, rest), rest);
      } else {
        NoStatement(rest);
        EdgeReadsBack(direct, from, to, rest, rest);
      }
  }

  lemma StatementsStep(s: seq<Statement>, rest: seq<Token>)
    requires s != [] && ParseStatements(StatementsThen(s[1..], rest)) == Parsed(s[1..], rest)
    ensures ParseStatements(StatementsThen(s, rest)) == Parsed(s, rest)
  {
    var tail := [Punctuation(";")] + StatementsThen(s[1..], rest);
    StatementReadsBack(s[0], tail);
    assert tail[1..] == StatementsThen(s[1..], rest);
    assert s == [s[0]] + s[1..];
  }

  lemma {:induction false} StatementsReadBack(s: seq<Statement>, rest: seq<Token>)
    requires rest != [] && rest[0] == Punctuation("}")
    ensures ParseStatements(StatementsThen(s, rest)) == Parsed(s, rest)
  {
    if s == [] {
      NoStatement(rest);
    } else {
      StatementsReadBack(s[1..], rest);
      StatementsStep(s, rest);
    }
  }

  lemma GraphReadsBack(g: Graph, rest: seq<Token>)
    ensures ParseGraph(GraphThen(g, rest)) == Parsed(g, rest)
  {
    var ts, close := GraphThen(g, rest), [Punctuation("}")] + rest;
    StatementsReadBack(g.statements, close);
    assert ts[1..] != [] && ts[1..][0] == Token(Identifier, g.name);
    assert ts[2..] != [] && ts[2..][0] == Punctuation("{");
    assert ts[3..] == StatementsThen(g.statements, close);
    assert close[1..] == rest;
  }

  // ---------------------------------------------------------------- printing undoes parsing

  lemma RestIsLexable(ts: seq<Token>, n: nat)
    requires AllLexable(ts) && n <= |ts|
    ensures AllLexable(ts[n..])
  {
  }

  lemma {:induction false} AttributesReprint(ts: seq<Token>)
    requires AllLexable(ts) && ParseAttributes(ts).Parsed?
    ensures var r := ParseAttributes(ts); ts == AttributesThen(r.value, r.rest) && AllLexable(r.rest)
    decreases |ts|
  {
    var r := ParseAttribute(ts);
    if r.value.Some? {
      assert ts[1..][1..][1..] == ts[3..] && ts[1..][1..][0] == ts[2] && ts[1..][0] == ts[1];
      assert Lexable(ts[2]) && ts == ts[..3] + ts[3..];
      RestIsLexable(ts, 3);
      assert ts == AttributeThen(r.value.value, r.rest);
      AttributesReprint(r.rest);
    }
  }

  lemma NodeReprints(ts: seq<Token>)
    requires AllLexable(ts) && ParseNode(ts).Parsed?
    ensures var r := ParseNode(ts); ts == OptionalNodeThen(r.value, r.rest) && AllLexable(r.rest)
  {
    if Current(ts).kind == Identifier {
      assert Lexable(ts[0]) && ts == [ts[0]] + ts[1..];
      if Current(ts[1..]).text == "[" {
        var inner := ts[2..];
        assert ts[1..] == [Punctuation("[")] + inner && ts[1..][1..] == inner;
        RestIsLexable(ts, 2);
        AttributesReprint(inner);
        var close := ParseAttributes(inner).rest;
        assert close == [Punctuation("]")] + close[1..];
        RestIsLexable(close, 1);
      } else {
        RestIsLexable(ts, 1);
      }
    }
  }

  lemma {:induction false} StatementReprints(ts: seq<Token>)
    requires AllLexable(ts) && ParseStatement(ts).Parsed?
    ensures var r := ParseStatement(ts);
            AllLexable(r.rest) && ts == match r.value case None => r.rest case Some(st) => StatementThen(st, r.rest)
    decreases |ts|
  {
    NodeReprints(ts);
    var rest := ParseNode(ts).rest;
    if Current(rest).kind == Operator {
      assert rest == [rest[0]] + rest[1..];
      RestIsLexable(rest, 1);
      StatementReprints(rest[1..]);
    }
  }

  lemma {:induction false} StatementsReprint(ts: seq<Token>)
    requires AllLexable(ts) && ParseStatements(ts).Parsed?
    ensures var r := ParseStatements(ts); ts == StatementsThen(r.value, r.rest) && AllLexable(r.rest)
    decreases |ts|
  {
    StatementReprints(ts);
    var r := ParseStatement(ts);
    if r.value.Some? {
      assert r.rest == [r.rest[0]] + r.rest[1..];
      RestIsLexable(r.rest, 1);
      StatementsReprint(r.rest[1..]);
    }
  }

  lemma GraphReprints(ts: seq<Token>)
    requires AllLexable(ts) && ParseGraph(ts).Parsed?
    ensures var r := ParseGraph(ts); ts == GraphThen(r.value, r.rest)
  {
    assert ts == [ts[0], ts[1], ts[2]] + ts[3..];
    RestIsLexable(ts, 3);
    StatementsReprint(ts[3..]);
    var rest := ParseStatements(ts[3..]).rest;
    assert rest == [rest[0]] + rest[1..];
  }

  // ---------------------------------------------------------------- on texts

  /** The parser accepts exactly the texts whose tokens begin with a printed graph, and returns that graph. */
  lemma ParsesExactlyThePrinted(text: string, g: Graph)
    ensures Parse(text) == Some(g) <==> exists rest :: Tokens(text) == GraphThen(g, rest)
  {
    var ts := Tokens(text);
    TokensAreLexable(text);
    if Parse(text) == Some(g) {
      GraphReprints(ts);
      assert ts == GraphThen(g, ParseGraph(ts).rest);
    }
    if rest :| ts == GraphThen(g, rest) {
      GraphReadsBack(g, rest);
    }
  }

  /** Parsing the printed text of a graph gives back the graph. */
  lemma RoundTrip(g: Graph)
    requires WellFormed(g)
    ensures Parse(Print(GraphThen(g, []))) == Some(g)
  {
    TokensOfPrint(GraphThen(g, []));
    GraphReadsBack(g, []);
  }

  /** So does parsing it in any layout. */
  lemma LayoutRoundTrip(g: Graph, before: string, gaps: seq<string>)
    requires WellFormed(g) && AllBlank(before) && |gaps| == |GraphThen(g, [])| && Spaced(GraphThen(g, []), gaps)
    ensures Parse(before + Layout(GraphThen(g, []), gaps)) == Some(g)
  {
    TokensOfLayout(before, GraphThen(g, []), gaps);
    GraphReadsBack(g, []);
  }

  function EdgeTokens(arrow: bool, a: string, b: string, key: string, value: Token): seq<Token> {
    [Token(Identifier, a), Token(Punctuator, "["), Token(Identifier, key), Token(Operator, "="), value,
     Token(Punctuator, "]"), Token(Operator, if arrow then "->" else "--"), Token(Identifier, b)]
  }

  lemma NodePrinted(a: string, key: string, value: Token, rest: seq<Token>)
    requires Lexable(value) && value.kind in {Identifier, Literal}
    ensures NodeThen(Node(a, Some([Attribute(key, value.text)])), rest) ==
            [Token(Identifier, a), Token(Punctuator, "["), Token(Identifier, key), Token(Operator, "="), value,
             Token(Punctuator, "]")] + rest
  {
    var close := [Punctuation("]")] + rest;
    var s := [Attribute(key, value.text)];
    assert s[1..] == [] && AttributesThen(s[1..], close) == close;
    LexableValue(value);
    assert AttributesThen(s, close) == [Token(Identifier, key), Token(Operator, "="), value] + close;
  }

  lemma EdgePrinted(arrow: bool, a: string, b: string, key: string, value: Token, rest: seq<Token>)
    requires Lexable(value) && value.kind in {Identifier, Literal}
    ensures var from := Node(a, Some([Attribute(key, value.text)]));
            StatementThen(Edge(arrow, Some(from), Some(Single(Node(b, None)))), rest) ==
            EdgeTokens(arrow, a, b, key, value) + rest
  {
    var op := [Token(Operator, if arrow then "->" else "--")] + ([Token(Identifier, b)] + rest);
    NodePrinted(a, key, value, op);
  }

  lemma LexableValue(value: Token)
    requires Lexable(value) && value.kind in {Identifier, Literal}
    ensures value.text != "" && (IsDigit(value.text[0]) <==> value.kind == Literal)
  {
  }

  /** The concrete form: the keyword and the operator tell whether a graph and an edge are directed, and an
      attribute is a key, an equals sign and a value in square brackets. */
  lemma OneEdge(direct: bool, arrow: bool, name: string, a: string, b: string, key: string, value: Token)
    requires Lexable(value) && value.kind in {Identifier, Literal}
    ensures ParseGraph(
              [Token(Keyword, if direct then "digraph" else "graph"), Token(Identifier, name), Token(Punctuator, "{")] +
              (EdgeTokens(arrow, a, b, key, value) + [Token(Punctuator, ";"), Token(Punctuator, "}")])) ==
            Parsed(Graph(direct, name,
                         [Edge(arrow, Some(Node(a, Some([Attribute(key, value.text)]))), Some(Single(Node(b, None))))]),
                   [])
  {
    var edge := Edge(arrow, Some(Node(a, Some([Attribute(key, value.text)]))), Some(Single(Node(b, None))));
    var close := [Punctuation("}")] + [];
    assert [edge][1..] == [] && StatementsThen([edge][1..], close) == close;
    EdgePrinted(arrow, a, b, key, value, [Punctuation(";")] + close);
    assert [Punctuation(";")] + close == [Token(Punctuator, ";"), Token(Punctuator, "}")];
    GraphReadsBack(Graph(direct, name, [edge]), []);
  }

  lemma {:induction false} AttributesAppend(s: seq<Attribute>, a: seq<Token>, b: seq<Token>)
    ensures AttributesThen(s, a + b) == AttributesThen(s, a) + b
  {
    if s != [] {
      AttributesAppend(s[1..], a, b);
    }
  }

  lemma NodeAppends(n: Node, a: seq<Token>, b: seq<Token>)
    ensures NodeThen(n, a + b) == NodeThen(n, a) + b
  {
    if n.attributes.Some? {
      var close := [Punctuation("]")] + a;
      assert close + b == [Punctuation("]")] + (a + b);
      AttributesAppend(n.attributes.value, close, b);
    }
  }

  lemma {:induction false} StatementAppends(st: Statement, a: seq<Token>, b: seq<Token>)
    ensures StatementThen(st, a + b) == StatementThen(st, a) + b
  {
    match st
    case Single(n) =>
      NodeAppends(n, a, b);
    case Edge(direct, from, to) =>
      var right := match to case None => a case Some(next) => StatementThen(next, a);
      var op := [Token(Operator, if direct then "->" else "--")];
      if to.Some? {
        StatementAppends(to.value, a, b);
      }
      assert op + (right + b) == (op + right) + b;
      if from.Some? {
        NodeAppends(from.value, op + right, b);
      }
  }

  lemma {:induction false} StatementsAppend(s: seq<Statement>, a: seq<Token>, b: seq<Token>)
    ensures StatementsThen(s, a + b) == StatementsThen(s, a) + b
  {
    if s != [] {
      var semicolon, tail := [Punctuation(";")], StatementsThen(s[1..], a);
      StatementsAppend(s[1..], a, b);
      StatementAppends(s[0], semicolon + tail, b);
      assert semicolon + (tail + b) == (semicolon + tail) + b;
    }
  }

  lemma GraphAppends(g: Graph, rest: seq<Token>)
    ensures GraphThen(g, rest) == GraphThen(g, []) + rest
  {
    var open := [Token(Keyword, if g.direct then "digraph" else "graph"), Token(Identifier, g.name), Punctuation("{")];
    var close := [Punctuation("}")];
    StatementsAppend(g.statements, close, rest);
    assert close + [] == close;
    assert GraphThen(g, []) == open + StatementsThen(g.statements, close);
  }

  lemma PrefixIsLexable(a: seq<Token>, b: seq<Token>)
    requires AllLexable(a + b)
    ensures AllLexable(a)
  {
    assert forall i :: 0 <= i < |a| ==> (a + b)[i] == a[i];
  }

  /** What has been parsed is well-formed: printing it and parsing that again changes nothing. */
  lemma ParsedReadsBack(text: string)
    requires Parse(text).Some?
    ensures WellFormed(Parse(text).value)
    ensures Parse(Print(GraphThen(Parse(text).value, []))) == Parse(text)
  {
    var ts := Tokens(text);
    var g, rest := ParseGraph(ts).value, ParseGraph(ts).rest;
    TokensAreLexable(text);
    GraphReprints(ts);
    GraphAppends(g, rest);
    PrefixIsLexable(GraphThen(g, []), rest);
    RoundTrip(g);
  }
}
