/**
 Finding the brace that closes a block, outside quotes: the automaton two hand-written scanners share,
 and the grammar it is checked against.
 */
module BraceBlocks {
  import opened Wrappers

  // ----- the automaton

  /** Depth of open braces, the quote that is open, and whether the next character is escaped. */
  datatype Lexer = Lexer(depth: nat, quote: Option<char>, escaped: bool)

  function Outside(depth: nat): Lexer {
    Lexer(depth, None, false)
  }

  predicate AreQuotes(quotes: set<char>) {
    '{' !in quotes && '}' !in quotes && '\\' !in quotes
  }

  predicate Closes(lexer: Lexer, c: char) {
    !lexer.escaped && lexer.quote.None? && c == '}' && lexer.depth <= 1
  }

  function Next(lexer: Lexer, c: char, quotes: set<char>): Lexer
    requires !Closes(lexer, c)
  {
    if lexer.escaped then lexer.(escaped := false)
    else if lexer.quote.Some? then
      if c == '\\' then lexer.(escaped := true)
      else if c == lexer.quote.value then lexer.(quote := None)
      else lexer
    else if c in quotes then lexer.(quote := Some(c))
    else if c == '{' then lexer.(depth := lexer.depth + 1)
    else if c == '}' then lexer.(depth := lexer.depth - 1)
    else lexer
  }

  /** How many characters it takes to close all braces. */
  function Closing(s: string, lexer: Lexer, quotes: set<char>): (n: Option<nat>)
    ensures n.Some? ==> 1 <= n.value <= |s|
  {
    if s == "" then None
    else if Closes(lexer, s[0]) then Some(1)
    else Advance(1, Closing(s[1..], Next(lexer, s[0], quotes), quotes))
  }

  function Advance(k: nat, n: Option<nat>): Option<nat> {
    if n.Some? then Some(k + n.value) else None
  }

  lemma ReadOne(c: char, rest: string, lexer: Lexer, quotes: set<char>)
    ensures Closing([c] + rest, lexer, quotes) ==
            if Closes(lexer, c) then Some(1) else Advance(1, Closing(rest, Next(lexer, c, quotes), quotes))
  {
    assert ([c] + rest)[1..] == rest;
  }

  lemma BracesCount(depth: nat, quotes: set<char>)
    requires AreQuotes(quotes) && depth >= 1
    ensures !Closes(Outside(depth), '{') && Next(Outside(depth), '{', quotes) == Outside(depth + 1)
    ensures !Closes(Outside(depth + 1), '}') && Next(Outside(depth + 1), '}', quotes) == Outside(depth)
  {
  }

  /** A block opened and closed again leaves the scanner where it was. */
  lemma ReadBlock(inner: nat, body: string, tail: string, rest: string, depth: nat, quotes: set<char>)
    requires AreQuotes(quotes) && depth >= 1 && tail == ['}'] + rest
    requires Closing(body, Outside(depth + 1), quotes) == Advance(inner, Closing(tail, Outside(depth + 1), quotes))
    ensures Closing(['{'] + body, Outside(depth), quotes) == Advance(inner + 2, Closing(rest, Outside(depth), quotes))
  {
    BracesCount(depth, quotes);
    ReadOne('{', body, Outside(depth), quotes);
    ReadOne('}', rest, Outside(depth + 1), quotes);
  }

  /** The answer is the first closing: no shorter text has one, and what follows does not matter. */
  lemma {:induction false} ClosingIsFirst(s: string, lexer: Lexer, quotes: set<char>, k: nat)
    requires k <= |s|
    ensures Closing(s[..k], lexer, quotes) ==
            match Closing(s, lexer, quotes) case Some(n) => if n <= k then Some(n) else None case None => None
  {
    if k > 0 && !Closes(lexer, s[0]) {
      ClosingIsFirst(s[1..], Next(lexer, s[0], quotes), quotes, k - 1);
      assert s[..k][1..] == s[1..][..k - 1];
    }
  }

  // ----- the grammar

  datatype QuotedChar = Raw(c: char) | Escaped(c: char)

  datatype Piece = Plain(c: char) | Quoted(quote: char, body: seq<QuotedChar>) | Block(pieces: seq<Piece>)

  predicate IsBody(body: seq<QuotedChar>, quote: char) {
    forall i :: 0 <= i < |body| && body[i].Raw? ==> body[i].c != quote && body[i].c != '\\'
  }

  predicate IsPiece(piece: Piece, quotes: set<char>)
    decreases piece, 1
  {
    match piece
    case Plain(c) => c !in quotes && c != '{' && c != '}'
    case Quoted(quote, body) => quote in quotes && IsBody(body, quote)
    case Block(pieces) => ArePieces(pieces, quotes)
  }

  predicate ArePieces(pieces: seq<Piece>, quotes: set<char>)
    decreases pieces, 0
  {
    pieces == [] || (IsPiece(pieces[0], quotes) && ArePieces(pieces[1..], quotes))
  }

  function QuotedText(c: QuotedChar): string {
    if c.Raw? then [c.c] else ['\\', c.c]
  }

  function BodyText(body: seq<QuotedChar>): string {
    if body == [] then "" else QuotedText(body[0]) + BodyText(body[1..])
  }

  function PieceText(piece: Piece): string
    decreases piece, 1
  {
    match piece
    case Plain(c) => [c]
    case Quoted(quote, body) => [quote] + BodyText(body) + [quote]
    case Block(pieces) => ['{'] + PiecesText(pieces) + ['}']
  }

  function PiecesText(pieces: seq<Piece>): string
    decreases pieces, 0
  {
    if pieces == [] then "" else PieceText(pieces[0]) + PiecesText(pieces[1..])
  }

  // ----- every text of the grammar is closed where it ends

  lemma {:induction false} BodyIsSkipped(body: seq<QuotedChar>, depth: nat, quote: char, rest: string, quotes: set<char>)
    requires IsBody(body, quote) && AreQuotes(quotes) && quote in quotes
    ensures Closing(BodyText(body) + ([quote] + rest), Lexer(depth, Some(quote), false), quotes)
         == Advance(|BodyText(body)| + 1, Closing(rest, Outside(depth), quotes))
  {
    var inside := Lexer(depth, Some(quote), false);
    if body == [] {
      ReadOne(quote, rest, inside, quotes);
      assert BodyText(body) + ([quote] + rest) == [quote] + rest;
    } else {
      BodyIsSkipped(body[1..], depth, quote, rest, quotes);
      QuotedCharIsSkipped(body[0], BodyText(body[1..]) + ([quote] + rest), depth, quote, quotes);
      assert BodyText(body) + ([quote] + rest) == QuotedText(body[0]) + (BodyText(body[1..]) + ([quote] + rest));
    }
  }

  lemma QuotedCharIsSkipped(c: QuotedChar, after: string, depth: nat, quote: char, quotes: set<char>)
    requires IsBody([c], quote)
    ensures
      var inside := Lexer(depth, Some(quote), false);
      Closing(QuotedText(c) + after, inside, quotes) == Advance(|QuotedText(c)|, Closing(after, inside, quotes))
  {
    var inside := Lexer(depth, Some(quote), false);
    assert [c][0] == c;
    if c.Raw? {
      ReadOne(c.c, after, inside, quotes);
    } else {
      ReadOne('\\', [c.c] + after, inside, quotes);
      ReadOne(c.c, after, inside.(escaped := true), quotes);
      assert QuotedText(c) + after == ['\\'] + ([c.c] + after);
    }
  }

  lemma QuotationIsSkipped(quote: char, body: seq<QuotedChar>, depth: nat, rest: string, quotes: set<char>)
    requires IsBody(body, quote) && AreQuotes(quotes) && quote in quotes
    ensures Closing([quote] + BodyText(body) + [quote] + rest, Outside(depth), quotes)
         == Advance(|BodyText(body)| + 2, Closing(rest, Outside(depth), quotes))
  {
    var text := BodyText(body) + ([quote] + rest);
    ReadOne(quote, text, Outside(depth), quotes);
    BodyIsSkipped(body, depth, quote, rest, quotes);
    assert [quote] + BodyText(body) + [quote] + rest == [quote] + text;
  }

  lemma {:induction false} PieceIsSkipped(piece: Piece, depth: nat, rest: string, quotes: set<char>)
    requires IsPiece(piece, quotes) && AreQuotes(quotes) && depth >= 1
    ensures Closing(PieceText(piece) + rest, Outside(depth), quotes)
         == Advance(|PieceText(piece)|, Closing(rest, Outside(depth), quotes))
    decreases piece, 1
  {
    match piece
    case Plain(c) =>
      ReadOne(c, rest, Outside(depth), quotes);
    case Quoted(quote, body) =>
      QuotationIsSkipped(quote, body, depth, rest, quotes);
    case Block(pieces) =>
      var tail := ['}'] + rest;
      var body := PiecesText(pieces) + tail;
      PiecesAreSkipped(pieces, depth + 1, tail, quotes);
      ReadBlock(|PiecesText(pieces)|, body, tail, rest, depth, quotes);
      assert PieceText(piece) + rest == ['{'] + body;
  }

  lemma {:induction false} PiecesAreSkipped(pieces: seq<Piece>, depth: nat, rest: string, quotes: set<char>)
    requires ArePieces(pieces, quotes) && AreQuotes(quotes) && depth >= 1
    ensures Closing(PiecesText(pieces) + rest, Outside(depth), quotes)
         == Advance(|PiecesText(pieces)|, Closing(rest, Outside(depth), quotes))
    decreases pieces, 0
  {
    if pieces == [] {
      assert PiecesText(pieces) + rest == rest;
    } else {
      var after := PiecesText(pieces[1..]) + rest;
      assert PiecesText(pieces) + rest == PieceText(pieces[0]) + after;
      PieceIsSkipped(pieces[0], depth, after, quotes);
      PiecesAreSkipped(pieces[1..], depth, rest, quotes);
    }
  }

  // ----- and nothing else is

  lemma {:induction false} ReadBody(s: string, depth: nat, quote: char, quotes: set<char>)
    returns (body: seq<QuotedChar>, rest: string)
    requires AreQuotes(quotes) && quote in quotes
    requires Closing(s, Lexer(depth, Some(quote), false), quotes).Some?
    ensures IsBody(body, quote) && s == BodyText(body) + [quote] + rest
    decreases |s|
  {
    if s[0] == quote {
      body, rest := [], s[1..];
    } else if s[0] == '\\' {
      var tail;
      assert s[1..][1..] == s[2..];
      tail, rest := ReadBody(s[2..], depth, quote, quotes);
      body := [Escaped(s[1])] + tail;
      assert s == [s[0], s[1]] + s[2..] && body[1..] == tail;
    } else {
      var tail;
      tail, rest := ReadBody(s[1..], depth, quote, quotes);
      body := [Raw(s[0])] + tail;
      assert s == [s[0]] + s[1..] && body[1..] == tail;
    }
  }

  lemma {:induction false} ReadPiece(s: string, depth: nat, quotes: set<char>) returns (piece: Piece, rest: string)
    requires AreQuotes(quotes) && depth >= 1 && Closing(s, Outside(depth), quotes).Some? && s[0] != '}'
    ensures IsPiece(piece, quotes) && s == PieceText(piece) + rest
    decreases |s|, 0
  {
    assert s == [s[0]] + s[1..];
    if s[0] == '{' {
      var inner;
      inner, rest := ReadPieces(s[1..], depth + 1, quotes);
      piece := Block(inner);
    } else if s[0] in quotes {
      var body;
      body, rest := ReadBody(s[1..], depth, s[0], quotes);
      piece := Quoted(s[0], body);
    } else {
      piece, rest := Plain(s[0]), s[1..];
    }
  }

  /** The pieces up to the first unmatched brace. */
  lemma {:induction false} ReadPieces(s: string, depth: nat, quotes: set<char>) returns (pieces: seq<Piece>, rest: string)
    requires AreQuotes(quotes) && depth >= 1 && Closing(s, Outside(depth), quotes).Some?
    ensures ArePieces(pieces, quotes) && s == PiecesText(pieces) + "}" + rest
    decreases |s|, 1
  {
    if s[0] == '}' {
      pieces, rest := [], s[1..];
    } else {
      var first, after := ReadPiece(s, depth, quotes);
      PieceIsSkipped(first, depth, after, quotes);
      var others;
      others, rest := ReadPieces(after, depth, quotes);
      pieces := [first] + others;
      assert pieces[1..] == others;
    }
  }

  /** The text up to and including the brace that closes what was opened before it. */
  ghost predicate IsBlockRest(text: string, quotes: set<char>) {
    exists pieces :: ArePieces(pieces, quotes) && text == PiecesText(pieces) + "}"
  }

  lemma PiecesClose(pieces: seq<Piece>, rest: string, quotes: set<char>)
    requires ArePieces(pieces, quotes) && AreQuotes(quotes)
    ensures Closing(PiecesText(pieces) + "}" + rest, Outside(1), quotes) == Some(|PiecesText(pieces)| + 1)
  {
    PiecesAreSkipped(pieces, 1, "}" + rest, quotes);
    assert PiecesText(pieces) + "}" + rest == PiecesText(pieces) + ("}" + rest);
    assert ("}" + rest)[0] == '}';
  }

  /** The scanner cuts at n exactly when the first n characters are pieces and the closing brace. */
  lemma ClosingIsBlockRest(s: string, n: nat, quotes: set<char>)
    requires AreQuotes(quotes) && n <= |s|
    ensures Closing(s, Outside(1), quotes) == Some(n) <==> IsBlockRest(s[..n], quotes)
  {
    if Closing(s, Outside(1), quotes) == Some(n) {
      var pieces, rest := ReadPieces(s, 1, quotes);
      PiecesClose(pieces, rest, quotes);
      assert s[..n] == PiecesText(pieces) + "}";
    }
    if IsBlockRest(s[..n], quotes) {
      var pieces :| ArePieces(pieces, quotes) && s[..n] == PiecesText(pieces) + "}";
      PiecesClose(pieces, s[n..], quotes);
      assert s == s[..n] + s[n..];
    }
  }
}
