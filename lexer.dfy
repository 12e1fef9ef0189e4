/**
 * The lexer: a character scanner that turns the input text into tokens, followed by a second
 * pass that inserts IMPLICIT_MULTIPLY tokens between adjacent tokens that multiply by juxtaposition.
 *
 * `Scan` and `InsertImplicit` specify the two passes; the `Lexer` class keeps the scanner's
 * cursor and token list as fields, and its methods are proved to compute those functions.
 */
module Lexing {
  import opened Wrappers
  import opened Numerals
  import Seqs

  datatype TokenType =
    | Number
    | Variable
    | Plus
    | Minus
    | Multiply
    | ImplicitMultiply
    | Divide
    | Power
    | LParen
    | RParen
    | Function
    | Eof

  /** The Python `value` field: an int for numbers, a string for names and operators, None for EOF. */
  datatype TokenValue = IntVal(n: int) | StrVal(s: string) | NoVal

  datatype Token = Token(kind: TokenType, value: TokenValue, pos: nat)

  /** The two `ValueError`s the lexer raises. */
  datatype LexError =
    | UnexpectedChar(ch: char, pos: nat)
    | InvalidIdentifier(ident: string, pos: nat)

  /** The only multi-letter identifiers the lexer accepts. */
  const Functions: set<string> := {"sin", "cos", "tan", "ln", "sqrt"}

  // ---------------------------------------------------------------------------------------------
  // Character classes (ASCII)

  predicate IsLetter(c: char) {
    'a' <= c <= 'z' || 'A' <= c <= 'Z'
  }

  /** Python's `str.isspace` on ASCII: blank, \t \n \v \f \r and the separators 0x1C-0x1F. */
  predicate IsSpace(c: char) {
    c == ' ' || 9 <= c as int <= 13 || 28 <= c as int <= 31
  }

  /** The single-character operators and delimiters and the kind each one becomes. */
  function OperatorKind(c: char): Option<TokenType> {
    match c
    case '+' => Some(Plus)
    case '-' => Some(Minus)
    case '*' => Some(Multiply)
    case '/' => Some(Divide)
    case '^' => Some(Power)
    case '(' => Some(LParen)
    case ')' => Some(RParen)
    case _ => None
  }

  /** A character the scanner can consume at all. */
  predicate IsLegal(c: char) {
    IsDigit(c) || IsLetter(c) || IsSpace(c) || OperatorKind(c).Some?
  }

  // ---------------------------------------------------------------------------------------------
  // The scanning pass

  /** Where `_skip_whitespace` stops when started at `i`. */
  function SkipSpaces(s: string, i: nat): (j: nat)
    requires i <= |s|
    ensures i <= j <= |s|
    ensures forall k | i <= k < j :: IsSpace(s[k])
    ensures j == |s| || !IsSpace(s[j])
    decreases |s| - i
  {
    if i < |s| && IsSpace(s[i]) then SkipSpaces(s, i + 1) else i
  }

  /** The end of the maximal run of digits that starts at `i`. */
  function DigitRunEnd(s: string, i: nat): (j: nat)
    requires i <= |s|
    ensures i <= j <= |s|
    ensures forall k | i <= k < j :: IsDigit(s[k])
    ensures j == |s| || !IsDigit(s[j])
    decreases |s| - i
  {
    if i < |s| && IsDigit(s[i]) then DigitRunEnd(s, i + 1) else i
  }

  /** The end of the maximal run of letters that starts at `i`. */
  function LetterRunEnd(s: string, i: nat): (j: nat)
    requires i <= |s|
    ensures i <= j <= |s|
    ensures forall k | i <= k < j :: IsLetter(s[k])
    ensures j == |s| || !IsLetter(s[j])
    decreases |s| - i
  {
    if i < |s| && IsLetter(s[i]) then LetterRunEnd(s, i + 1) else i
  }

  /** The token a letter run becomes, or the invalid-identifier error. */
  function IdentifierToken(id: string, start: nat): Result<Token, LexError> {
    if id in Functions then Ok(Token(Function, StrVal(id), start))
    else if |id| == 1 then Ok(Token(Variable, StrVal(id), start))
    else Err(InvalidIdentifier(id, start))
  }

  /** The value each kind of token carries, as the scanner and the insertion pass produce it. */
  predicate WellFormedToken(t: Token) {
    match t.kind
    case Number => t.value.IntVal? && t.value.n >= 0
    case Variable => t.value.StrVal? && |t.value.s| == 1 && IsLetter(t.value.s[0])
    case Function => t.value.StrVal? && t.value.s in Functions
    case ImplicitMultiply => t.value == StrVal("*")
    case Eof => t.value == NoVal
    case _ => t.value.StrVal? && |t.value.s| == 1 && OperatorKind(t.value.s[0]) == Some(t.kind)
  }

  function Cons(t: Token, r: Result<seq<Token>, LexError>): Result<seq<Token>, LexError> {
    match r
    case Ok(ts) => Ok([t] + ts)
    case Err(e) => Err(e)
  }

  /**
   * The one token that starts at the non-blank position `j`, with the position after it, or the
   * error raised there: a digit run, a letter run, or a single operator character.
   */
  function TokenAt(s: string, j: nat): (r: Result<(Token, nat), LexError>)
    requires j < |s|
    ensures r.Ok? ==> j < r.value.1 <= |s| && r.value.0.pos == j
  {
    if IsDigit(s[j]) then
      var k := DigitRunEnd(s, j);
      Ok((Token(Number, IntVal(DecimalValue(s[j..k])), j), k))
    else if IsLetter(s[j]) then
      var k := LetterRunEnd(s, j);
      match IdentifierToken(s[j..k], j)
      case Ok(t) => Ok((t, k))
      case Err(e) => Err(e)
    else if OperatorKind(s[j]).Some? then
      Ok((Token(OperatorKind(s[j]).value, StrVal([s[j]]), j), j + 1))
    else
      Err(UnexpectedChar(s[j], j))
  }

  /** What `TokenAt` produces is a well-formed token other than EOF and an implicit multiplication. */
  lemma TokenAtWellFormed(s: string, j: nat)
    requires j < |s|
    ensures TokenAt(s, j).Ok? ==>
      var t := TokenAt(s, j).value.0;
      WellFormedToken(t) && t.kind !in {Eof, ImplicitMultiply}
  {
    if IsLetter(s[j]) {
      var k := LetterRunEnd(s, j);
      assert |s[j..k]| == 1 ==> IsLetter(s[j..k][0]);
    }
  }

  /** The token list `tokenize` builds from position `i` on, EOF token included, or the first error. */
  function Scan(s: string, i: nat): (r: Result<seq<Token>, LexError>)
    requires i <= |s|
    ensures r.Ok? ==> |r.value| > 0 && r.value[|r.value| - 1] == Token(Eof, NoVal, |s|)
    decreases |s| - i
  {
    var j := SkipSpaces(s, i);
    if j == |s| then Ok([Token(Eof, NoVal, |s|)])
    else
      match TokenAt(s, j)
      case Ok((t, k)) => Cons(t, Scan(s, k))
      case Err(e) => Err(e)
  }

  /** Leading whitespace does not change the scan. */
  lemma ScanAfterSpaces(s: string, i: nat)
    requires i <= |s|
    ensures Scan(s, i) == Scan(s, SkipSpaces(s, i))
  {
    var j := SkipSpaces(s, i);
    assert SkipSpaces(s, j) == j;
  }

  /** A token list as a successful scan leaves it: well-formed values, one EOF at the end of the text, no implicit multiplication. */
  predicate ScannedShape(ts: seq<Token>, n: nat) {
    && |ts| > 0
    && ts[|ts| - 1] == Token(Eof, NoVal, n)
    && (forall k | 0 <= k < |ts| - 1 :: ts[k].kind !in {Eof, ImplicitMultiply})
    && (forall k | 0 <= k < |ts| :: WellFormedToken(ts[k]))
  }

  /** Every successful scan has that shape. */
  lemma {:induction false} ScanShape(s: string, i: nat)
    requires i <= |s|
    ensures Scan(s, i).Ok? ==> ScannedShape(Scan(s, i).value, |s|)
    decreases |s| - i
  {
    var j := SkipSpaces(s, i);
    if j < |s| && TokenAt(s, j).Ok? {
      TokenAtWellFormed(s, j);
      ScanShape(s, TokenAt(s, j).value.1);
    }
  }

  // ---------------------------------------------------------------------------------------------
  // The implicit-multiplication pass

  /** The adjacency table: an IMPLICIT_MULTIPLY goes between `a` and `b` exactly when this holds. */
  predicate NeedsImplicit(a: TokenType, b: TokenType) {
    match a
    case Number => b in {Variable, Function, LParen}
    case Variable => b in {Variable, Function, LParen, Number}
    case RParen => b in {Variable, Function, LParen, Number}
    case _ => false
  }

  /** Python truthiness of a token value: 0, the empty string and None are false. */
  predicate Truthy(v: TokenValue) {
    match v
    case IntVal(n) => n != 0
    case StrVal(s) => |s| > 0
    case NoVal => false
  }

  /** Python `str()` of a token value. */
  function ValueText(v: TokenValue): string {
    match v
    case IntVal(n) => IntToString(n)
    case StrVal(s) => s
    case NoVal => "None"
  }

  /** The token inserted after `t`: value '*', placed `len(str(t.value))` after `t`, or one after it when the value is falsy. */
  function ImplicitAfter(t: Token): Token {
    Token(ImplicitMultiply, StrVal("*"), if Truthy(t.value) then t.pos + |ValueText(t.value)| else t.pos + 1)
  }

  /** What the pass puts after the first token of `ts`, given the token that follows it. */
  function Gap(ts: seq<Token>): seq<Token>
    requires |ts| > 0
  {
    if |ts| > 1 && NeedsImplicit(ts[0].kind, ts[1].kind) then [ImplicitAfter(ts[0])] else []
  }

  /** The token list the implicit-multiplication pass returns. */
  function InsertImplicit(ts: seq<Token>): (r: seq<Token>)
    ensures |r| >= |ts|
    ensures |ts| > 0 ==> |r| > 0 && r[|r| - 1] == ts[|ts| - 1]
  {
    if |ts| == 0 then [] else [ts[0]] + Gap(ts) + InsertImplicit(ts[1..])
  }

  /** The result of `tokenize(expression)`: both passes, or the scanner's error. */
  function Lex(s: string): (r: Result<seq<Token>, LexError>)
    ensures r.Ok? <==> Scan(s, 0).Ok?
    ensures r.Ok? ==> |r.value| > 0 && r.value[|r.value| - 1] == Token(Eof, NoVal, |s|)
    ensures r.Err? ==> r.error == Scan(s, 0).error
  {
    match Scan(s, 0)
    case Ok(ts) => Ok(InsertImplicit(ts))
    case Err(e) => Err(e)
  }

  // ---------------------------------------------------------------------------------------------
  // The scanner object

  class Lexer {
    const expression: string
    var pos: nat
    var tokens: seq<Token>

    ghost predicate Valid()
      reads this
    {
      pos <= |expression|
    }

    constructor (expression: string)
      ensures Valid()
      ensures this.expression == expression && pos == 0 && tokens == []
    {
      this.expression := expression;
      pos := 0;
      tokens := [];
    }

    method SkipWhitespace()
      requires Valid()
      modifies this`pos
      ensures Valid()
      ensures pos == SkipSpaces(expression, old(pos))
    {
      while pos < |expression| && IsSpace(expression[pos])
        invariant old(pos) <= pos <= |expression|
        invariant SkipSpaces(expression, pos) == SkipSpaces(expression, old(pos))
        decreases |expression| - pos
      {
        pos := pos + 1;
      }
    }

    /** Called only at a digit (otherwise `int('')` would raise). */
    method ReadNumber()
      requires Valid() && pos < |expression| && IsDigit(expression[pos])
      modifies this`pos, this`tokens
      ensures Valid()
      ensures pos == DigitRunEnd(expression, old(pos))
      ensures tokens == old(tokens) + [Token(Number, IntVal(DecimalValue(expression[old(pos)..pos])), old(pos))]
    {
      var start := pos;
      while pos < |expression| && IsDigit(expression[pos])
        invariant start <= pos <= |expression|
        invariant DigitRunEnd(expression, pos) == DigitRunEnd(expression, start)
        invariant tokens == old(tokens)
        decreases |expression| - pos
      {
        pos := pos + 1;
      }
      var value := DecimalValue(expression[start..pos]);
      tokens := tokens + [Token(Number, IntVal(value), start)];
    }

    /** Reads a letter run; `Some(error)` when it is neither a function name nor a single letter. */
    method ReadIdentifier() returns (err: Option<LexError>)
      requires Valid()
      modifies this`pos, this`tokens
      ensures Valid()
      ensures pos == LetterRunEnd(expression, old(pos))
      ensures match IdentifierToken(expression[old(pos)..pos], old(pos))
        case Ok(t) => err == None && tokens == old(tokens) + [t]
        case Err(e) => err == Some(e) && tokens == old(tokens)
    {
      var start := pos;
      while pos < |expression| && IsLetter(expression[pos])
        invariant start <= pos <= |expression|
        invariant LetterRunEnd(expression, pos) == LetterRunEnd(expression, start)
        invariant tokens == old(tokens)
        decreases |expression| - pos
      {
        pos := pos + 1;
      }
      var identifier := expression[start..pos];
      if identifier in Functions {
        tokens := tokens + [Token(Function, StrVal(identifier), start)];
        err := None;
      } else if |identifier| == 1 {
        tokens := tokens + [Token(Variable, StrVal(identifier), start)];
        err := None;
      } else {
        err := Some(InvalidIdentifier(identifier, start));
      }
    }

    /**
     * Scans from the cursor to the end of the input, then runs the insertion pass over the whole
     * token list. On success the list holds the scanned tokens after the earlier ones; on an
     * error the error is returned and nothing is promised about the abandoned fields.
     */
    method Tokenize() returns (r: Result<seq<Token>, LexError>)
      requires Valid()
      modifies this`pos, this`tokens
      ensures Valid()
      ensures match Scan(expression, old(pos))
        case Ok(ts) => tokens == old(tokens) + ts && pos == |expression| && r == Ok(InsertImplicit(tokens))
        case Err(e) => r == Err(e)
    {
      ghost var scanned: seq<Token> := [];
      PrependAllNil(Scan(expression, pos));
      while pos < |expression|
        invariant Valid()
        invariant tokens == old(tokens) + scanned
        invariant Scan(expression, old(pos)) == PrependAll(scanned, Scan(expression, pos))
        decreases |expression| - pos
      {
        ghost var before := pos;
        SkipWhitespace();
        ScanAfterSpaces(expression, before);
        if pos >= |expression| {
          break;
        }
        ghost var start := pos;
        assert SkipSpaces(expression, start) == start;
        var ch := expression[pos];
        if IsDigit(ch) {
          ReadNumber();
        } else if IsLetter(ch) {
          var err := ReadIdentifier();
          if err.Some? {
            return Err(err.value);
          }
        } else if OperatorKind(ch).Some? {
          tokens := tokens + [Token(OperatorKind(ch).value, StrVal([ch]), pos)];
          pos := pos + 1;
        } else {
          return Err(UnexpectedChar(ch, pos));
        }
        ghost var t := tokens[|tokens| - 1];
        assert TokenAt(expression, start) == Ok((t, pos));
        PrependAllSnoc(scanned, t, Scan(expression, pos));
        Seqs.AppendAssoc(old(tokens), scanned, [t]);
        scanned := scanned + [t];
      }
      PrependAllSnoc(scanned, Token(Eof, NoVal, pos), Ok([]));
      Seqs.AppendAssoc(old(tokens), scanned, [Token(Eof, NoVal, pos)]);
      tokens := tokens + [Token(Eof, NoVal, pos)];
      var withImplicit := HandleImplicitMultiplication();
      r := Ok(withImplicit);
    }

    /** The insertion pass over the current token list; it builds a new list and changes nothing. */
    method HandleImplicitMultiplication() returns (result: seq<Token>)
      ensures result == InsertImplicit(tokens)
    {
      var ts := tokens;
      result := [];
      for i := 0 to |ts|
        invariant result == InsertedBefore(ts, i)
      {
        var token := ts[i];
        GapAt(ts, i);
        result := result + [token];
        if i < |ts| - 1 {
          var next := ts[i + 1];
          var shouldInsert := false;
          if token.kind == Number {
            shouldInsert := next.kind in {Variable, Function, LParen};
          } else if token.kind == Variable {
            shouldInsert := next.kind in {Variable, Function, LParen, Number};
          } else if token.kind == RParen {
            shouldInsert := next.kind in {Variable, Function, LParen, Number};
          }
          assert shouldInsert == NeedsImplicit(token.kind, next.kind);
          if shouldInsert {
            result := result + [ImplicitAfter(token)];
          }
        }
      }
      InsertedBeforeAll(ts, |ts|);
    }
  }

  /** What the pass puts after the token at `i`, read off the token that follows it. */
  lemma GapAt(ts: seq<Token>, i: nat)
    requires i < |ts|
    ensures Gap(ts[i..]) == if i + 1 < |ts| && NeedsImplicit(ts[i].kind, ts[i + 1].kind) then [ImplicitAfter(ts[i])] else []
  {
    assert ts[i..][0] == ts[i];
    if i + 1 < |ts| {
      assert ts[i..][1] == ts[i + 1];
    }
  }

  /** The output of the pass for the first `i` input tokens, each followed by what `Gap` puts after it. */
  ghost function InsertedBefore(ts: seq<Token>, i: nat): seq<Token>
    requires i <= |ts|
  {
    if i == 0 then [] else InsertedBefore(ts, i - 1) + [ts[i - 1]] + Gap(ts[i - 1..])
  }

  /** The pass's output for the first `i` tokens followed by its output for the rest is the whole output. */
  lemma {:induction false} InsertedBeforeAll(ts: seq<Token>, i: nat)
    requires i <= |ts|
    ensures InsertedBefore(ts, i) + InsertImplicit(ts[i..]) == InsertImplicit(ts)
    decreases i
  {
    if i > 0 {
      InsertedBeforeAll(ts, i - 1);
      InsertImplicitStep(ts, i - 1);
      Seqs.Regroup(InsertedBefore(ts, i - 1), [ts[i - 1]], Gap(ts[i - 1..]), InsertImplicit(ts[i..]));
    }
  }

  lemma PrependAllNil(r: Result<seq<Token>, LexError>)
    ensures PrependAll([], r) == r
  {
    if r.Ok? {
      assert [] + r.value == r.value;
    }
  }

  lemma PrependAllSnoc(ts: seq<Token>, t: Token, r: Result<seq<Token>, LexError>)
    ensures PrependAll(ts + [t], r) == PrependAll(ts, Cons(t, r))
  {
    if r.Ok? {
      Seqs.AppendAssoc(ts, [t], r.value);
    }
  }

  /** One step of the pass: the output for `ts[i..]` starts with `ts[i]` and what goes after it. */
  lemma InsertImplicitStep(ts: seq<Token>, i: nat)
    requires i < |ts|
    ensures InsertImplicit(ts[i..]) == [ts[i]] + Gap(ts[i..]) + InsertImplicit(ts[i + 1..])
    ensures Gap(ts[i..]) == if i < |ts| - 1 && NeedsImplicit(ts[i].kind, ts[i + 1].kind) then [ImplicitAfter(ts[i])] else []
  {
    assert ts[i..][1..] == ts[i + 1..];
  }

  function PrependAll(ts: seq<Token>, r: Result<seq<Token>, LexError>): Result<seq<Token>, LexError> {
    match r
    case Ok(rest) => Ok(ts + rest)
    case Err(e) => Err(e)
  }

  /** `tokenize(expression)`: a fresh lexer over the text. */
  method Tokenize(expression: string) returns (r: Result<seq<Token>, LexError>)
    ensures r == Lex(expression)
  {
    var lexer := new Lexer(expression);
    r := lexer.Tokenize();
    if Scan(expression, 0).Ok? {
      assert lexer.tokens == Scan(expression, 0).value;
    }
  }
}
