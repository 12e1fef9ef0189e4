/**
 * What the lexer promises about its output: where each token comes from in the text, that
 * whitespace only separates, which inputs are rejected and why, and how the insertion pass
 * relates its output to the raw scan.
 */
module LexingFacts {
  import opened Wrappers
  import opened Numerals
  import opened Lexing
  import Seqs

  // ---------------------------------------------------------------------------------------------
  // The scanning pass

  /** Neither character continues a digit run or a letter run begun by the other. */
  predicate SeparateRuns(a: char, b: char) {
    !(IsDigit(a) && IsDigit(b)) && !(IsLetter(a) && IsLetter(b))
  }

  /** Scanning may start at `i` without cutting a number or a name in two. */
  predicate AtBoundary(s: string, i: nat) {
    i == 0 || i >= |s| || SeparateRuns(s[i - 1], s[i])
  }

  /**
   * How a scanned token sits in the text: a number is the whole maximal digit run at its
   * position, read in decimal; a name is the whole maximal letter run, a FUNCTION exactly when
   * it is one of the five function names and otherwise a single letter; an operator is the
   * one character at its position.
   */
  predicate MatchesText(s: string, t: Token) {
    && t.pos < |s|
    && match t.kind
      case Number =>
        var e := DigitRunEnd(s, t.pos);
        && t.pos < e
        && t.value == IntVal(DecimalValue(s[t.pos..e]))
        && (t.pos == 0 || !IsDigit(s[t.pos - 1]))
      case Variable =>
        var e := LetterRunEnd(s, t.pos);
        && e == t.pos + 1
        && t.value == StrVal(s[t.pos..e])
        && s[t.pos..e] !in Functions
        && (t.pos == 0 || !IsLetter(s[t.pos - 1]))
      case Function =>
        var e := LetterRunEnd(s, t.pos);
        && t.pos < e
        && t.value == StrVal(s[t.pos..e])
        && s[t.pos..e] in Functions
        && (t.pos == 0 || !IsLetter(s[t.pos - 1]))
      case ImplicitMultiply => false
      case Eof => false
      case _ => OperatorKind(s[t.pos]) == Some(t.kind) && t.value == StrVal([s[t.pos]])
  }

  /** The characters a token consumes are all ones the scanner accepts, and the run ends where the token says. */
  lemma TokenAtConsumesLegal(s: string, j: nat)
    requires j < |s|
    ensures TokenAt(s, j).Ok? ==> forall q | j <= q < TokenAt(s, j).value.1 :: IsLegal(s[q])
    ensures TokenAt(s, j).Ok? && TokenAt(s, j).value.1 < |s| ==> SeparateRuns(s[TokenAt(s, j).value.1 - 1], s[TokenAt(s, j).value.1])
  {
  }

  /** The token read at a position where no run is cut matches the text. */
  lemma TokenAtMatchesText(s: string, j: nat)
    requires j < |s| && AtBoundary(s, j)
    ensures TokenAt(s, j).Ok? ==> MatchesText(s, TokenAt(s, j).value.0)
  {
    if IsLetter(s[j]) {
      var k := LetterRunEnd(s, j);
      if s[j..k] !in Functions && |s[j..k]| == 1 {
        assert k == j + 1;
      }
    }
  }

  /** After leading whitespace the scan still starts at a boundary. */
  lemma SkipSpacesKeepsBoundary(s: string, i: nat)
    requires i <= |s| && AtBoundary(s, i)
    ensures AtBoundary(s, SkipSpaces(s, i))
  {
  }

  /**
   * A scan result read from the text starting at `i`: every token before the EOF matches the
   * text, and the positions strictly increase from `i` on.
   */
  predicate ReadFromText(s: string, i: nat, ts: seq<Token>) {
    && (forall k | 0 <= k < |ts| - 1 :: MatchesText(s, ts[k]))
    && (forall k | 0 <= k < |ts| :: i <= ts[k].pos)
    && (forall k | 0 <= k < |ts| - 1 :: ts[k].pos < ts[k + 1].pos)
  }

  /** Every successful scan started at a boundary is read from the text. */
  lemma {:induction false} ScanMatchesText(s: string, i: nat)
    requires i <= |s| && AtBoundary(s, i)
    ensures Scan(s, i).Ok? ==> ReadFromText(s, i, Scan(s, i).value)
    decreases |s| - i
  {
    var j := SkipSpaces(s, i);
    SkipSpacesKeepsBoundary(s, i);
    if j < |s| && TokenAt(s, j).Ok? {
      var (t, next) := TokenAt(s, j).value;
      TokenAtMatchesText(s, j);
      TokenAtConsumesLegal(s, j);
      ScanMatchesText(s, next);
      var rest := Scan(s, next);
      if rest.Ok? {
        var ts := Scan(s, i).value;
        assert ts == [t] + rest.value;
        assert |rest.value| > 0 by {
          ScanShape(s, next);
        }
        forall m | 0 <= m < |ts| - 1
          ensures MatchesText(s, ts[m]) && ts[m].pos < ts[m + 1].pos
        {
          if m > 0 {
            assert ts[m] == rest.value[m - 1];
            assert ts[m + 1] == rest.value[m];
          } else {
            assert ts[1] == rest.value[0];
          }
        }
        forall m | 0 <= m < |ts|
          ensures i <= ts[m].pos
        {
          if m > 0 {
            assert ts[m] == rest.value[m - 1];
          }
        }
      }
    }
  }

  /** A whitespace character never produces a token: skipping it leaves the scan unchanged. */
  lemma ScanSkipsSpace(s: string, i: nat)
    requires i < |s| && IsSpace(s[i])
    ensures Scan(s, i) == Scan(s, i + 1)
  {
    assert SkipSpaces(s, i) == SkipSpaces(s, i + 1);
  }

  /** A character the scanner cannot consume makes every scan that reaches it fail. */
  lemma {:induction false} IllegalCharFails(s: string, i: nat, p: nat)
    requires i <= p < |s| && !IsLegal(s[p])
    ensures Scan(s, i).Err?
    decreases |s| - i
  {
    var j := SkipSpaces(s, i);
    if j < |s| && TokenAt(s, j).Ok? {
      TokenAtConsumesLegal(s, j);
      IllegalCharFails(s, TokenAt(s, j).value.1, p);
    }
  }

  /**
   * The two errors the scanner raises: an unexpected character names a character the scanner
   * cannot consume and its position; an invalid identifier is a whole maximal letter run, at
   * least two letters long, that is not a function name.
   */
  predicate ErrorMatchesText(s: string, e: LexError) {
    match e
    case UnexpectedChar(c, p) => p < |s| && s[p] == c && !IsLegal(c)
    case InvalidIdentifier(id, p) =>
      && p < |s|
      && id == s[p..LetterRunEnd(s, p)]
      && |id| >= 2
      && id !in Functions
      && (p == 0 || !IsLetter(s[p - 1]))
  }

  lemma {:induction false} ScanErrorMatchesText(s: string, i: nat)
    requires i <= |s| && AtBoundary(s, i)
    ensures Scan(s, i).Err? ==> ErrorMatchesText(s, Scan(s, i).error)
    decreases |s| - i
  {
    var j := SkipSpaces(s, i);
    SkipSpacesKeepsBoundary(s, i);
    if j < |s| {
      if TokenAt(s, j).Ok? {
        TokenAtConsumesLegal(s, j);
        ScanErrorMatchesText(s, TokenAt(s, j).value.1);
      } else if IsLetter(s[j]) {
        var k := LetterRunEnd(s, j);
        assert |s[j..k]| >= 1;
      }
    }
  }

  // ---------------------------------------------------------------------------------------------
  // The implicit-multiplication pass

  predicate NoImplicit(ts: seq<Token>) {
    forall k | 0 <= k < |ts| :: ts[k].kind != ImplicitMultiply
  }

  /** The token list with every IMPLICIT_MULTIPLY token deleted. */
  function RemoveImplicit(r: seq<Token>): (ts: seq<Token>)
    ensures NoImplicit(ts)
  {
    if |r| == 0 then []
    else if r[0].kind == ImplicitMultiply then RemoveImplicit(r[1..])
    else [r[0]] + RemoveImplicit(r[1..])
  }

  lemma {:induction false} RemoveImplicitAppend(a: seq<Token>, b: seq<Token>)
    ensures RemoveImplicit(a + b) == RemoveImplicit(a) + RemoveImplicit(b)
    decreases |a|
  {
    if |a| > 0 {
      assert (a + b)[1..] == a[1..] + b;
      RemoveImplicitAppend(a[1..], b);
      if a[0].kind != ImplicitMultiply {
        Seqs.AppendAssoc([a[0]], RemoveImplicit(a[1..]), RemoveImplicit(b));
      }
    } else {
      assert a + b == b;
    }
  }

  /** The pass output starts with the first input token. */
  lemma InsertImplicitHead(ts: seq<Token>)
    requires |ts| > 0
    ensures InsertImplicit(ts)[0] == ts[0]
  {
  }

  /** The pass only adds tokens: deleting the inserted ones gives back its input. */
  lemma {:induction false} RemoveInserted(ts: seq<Token>)
    requires NoImplicit(ts)
    ensures RemoveImplicit(InsertImplicit(ts)) == ts
  {
    if |ts| > 0 {
      var g := Gap(ts);
      var rest := InsertImplicit(ts[1..]);
      RemoveInserted(ts[1..]);
      RemoveImplicitAppend([ts[0]] + g, rest);
      RemoveImplicitAppend([ts[0]], g);
      assert RemoveImplicit(g) == [];
      assert RemoveImplicit([ts[0]]) == [ts[0]];
      assert [ts[0]] + ts[1..] == ts;
    }
  }

  /**
   * The pass's verdict at output position `k`: an IMPLICIT_MULTIPLY at `k + 1` sits between two
   * input tokens whose kinds need one, carries '*' and its position comes from the token before;
   * two adjacent input tokens are never a pair that needs one.
   */
  predicate AdjacentOk(r: seq<Token>, k: nat)
    requires k + 1 < |r|
  {
    if r[k + 1].kind == ImplicitMultiply then
      && r[k].kind != ImplicitMultiply
      && k + 2 < |r|
      && r[k + 2].kind != ImplicitMultiply
      && NeedsImplicit(r[k].kind, r[k + 2].kind)
      && r[k + 1] == ImplicitAfter(r[k])
    else
      r[k].kind != ImplicitMultiply ==> !NeedsImplicit(r[k].kind, r[k + 1].kind)
  }

  /** IMPLICIT_MULTIPLY tokens stand exactly between the adjacent pairs of the table, and nowhere else. */
  predicate ProperlyInserted(r: seq<Token>) {
    && (|r| > 0 ==> r[0].kind != ImplicitMultiply)
    && forall k | 0 <= k < |r| - 1 :: AdjacentOk(r, k)
  }

  lemma AdjacentOkShift(p: seq<Token>, r: seq<Token>, k: nat)
    requires |p| <= k && k + 1 < |p| + |r|
    ensures AdjacentOk(p + r, k) <==> AdjacentOk(r, k - |p|)
  {
    var q := p + r;
    assert q[k] == r[k - |p|] && q[k + 1] == r[k + 1 - |p|];
    if k + 2 < |q| {
      assert q[k + 2] == r[k + 2 - |p|];
    }
  }

  lemma {:induction false} InsertImplicitProper(ts: seq<Token>)
    requires NoImplicit(ts)
    ensures ProperlyInserted(InsertImplicit(ts))
  {
    if |ts| > 1 {
      var g := Gap(ts);
      var rest := InsertImplicit(ts[1..]);
      var r := InsertImplicit(ts);
      InsertImplicitProper(ts[1..]);
      InsertImplicitHead(ts[1..]);
      assert r == ([ts[0]] + g) + rest;
      forall k | 0 <= k < |r| - 1
        ensures AdjacentOk(r, k)
      {
        if k >= |g| + 1 {
          AdjacentOkShift([ts[0]] + g, rest, k);
        } else if k == 0 && |g| == 0 {
          assert r[1] == rest[0];
        } else if k == 0 {
          assert r[1] == g[0] && r[2] == rest[0];
        } else {
          assert r[1] == g[0] && r[2] == rest[0];
        }
      }
    }
  }

  /** No EOF token before the last position. */
  predicate EofOnlyLast(ts: seq<Token>) {
    forall k | 0 <= k < |ts| - 1 :: ts[k].kind != Eof
  }

  lemma {:induction false} InsertImplicitKeepsEofLast(ts: seq<Token>)
    requires EofOnlyLast(ts)
    ensures EofOnlyLast(InsertImplicit(ts))
  {
    if |ts| > 1 {
      var g := Gap(ts);
      var rest := InsertImplicit(ts[1..]);
      var r := InsertImplicit(ts);
      InsertImplicitKeepsEofLast(ts[1..]);
      assert r == ([ts[0]] + g) + rest;
      forall k | 0 <= k < |r| - 1
        ensures r[k].kind != Eof
      {
        if k >= |g| + 1 {
          assert r[k] == rest[k - |g| - 1];
        }
      }
    }
  }

  lemma {:induction false} InsertImplicitKeepsWellFormed(ts: seq<Token>)
    requires forall k | 0 <= k < |ts| :: WellFormedToken(ts[k])
    ensures forall k | 0 <= k < |InsertImplicit(ts)| :: WellFormedToken(InsertImplicit(ts)[k])
  {
    if |ts| > 0 {
      var g := Gap(ts);
      var rest := InsertImplicit(ts[1..]);
      var r := InsertImplicit(ts);
      InsertImplicitKeepsWellFormed(ts[1..]);
      assert r == ([ts[0]] + g) + rest;
      forall k | 0 <= k < |r|
        ensures WellFormedToken(r[k])
      {
        if k >= |g| + 1 {
          assert r[k] == rest[k - |g| - 1];
        } else if k > 0 {
          assert r[k] == g[0];
        }
      }
    }
  }

  // ---------------------------------------------------------------------------------------------
  // Both passes

  /** `tokenize` fails exactly when the scan fails, with the scan's error, which the text shows. */
  lemma LexErrors(s: string)
    ensures Lex(s).Ok? <==> Scan(s, 0).Ok?
    ensures Lex(s).Err? ==> Lex(s).error == Scan(s, 0).error && ErrorMatchesText(s, Lex(s).error)
  {
    ScanErrorMatchesText(s, 0);
  }

  /**
   * A successful `tokenize` ends with its one EOF token, placed at the end of the text, and
   * every token carries a well-formed value.
   */
  lemma LexEndsWithEof(s: string)
    requires Lex(s).Ok?
    ensures |Lex(s).value| > 0 && Lex(s).value[|Lex(s).value| - 1] == Token(Eof, NoVal, |s|)
    ensures EofOnlyLast(Lex(s).value)
    ensures forall k | 0 <= k < |Lex(s).value| :: WellFormedToken(Lex(s).value[k])
  {
    var ts := Scan(s, 0).value;
    ScanShape(s, 0);
    assert EofOnlyLast(ts);
    InsertImplicitKeepsEofLast(ts);
    InsertImplicitKeepsWellFormed(ts);
  }

  /**
   * The IMPLICIT_MULTIPLY tokens of a successful `tokenize` stand exactly where the table puts
   * them, and deleting them gives the raw scan, whose tokens are read from the text in order.
   */
  lemma LexInsertsImplicit(s: string)
    requires Lex(s).Ok?
    ensures ProperlyInserted(Lex(s).value)
    ensures RemoveImplicit(Lex(s).value) == Scan(s, 0).value
    ensures ReadFromText(s, 0, Scan(s, 0).value)
  {
    var ts := Scan(s, 0).value;
    ScanShape(s, 0);
    ScanMatchesText(s, 0);
    assert NoImplicit(ts);
    InsertImplicitProper(ts);
    RemoveInserted(ts);
  }

  /** The kinds of a token list, positions and values dropped. */
  function Kinds(ts: seq<Token>): (r: seq<TokenType>)
    ensures |r| == |ts| && forall k | 0 <= k < |ts| :: r[k] == ts[k].kind
  {
    if |ts| == 0 then [] else [ts[0].kind] + Kinds(ts[1..])
  }

  /** The empty text gives just the EOF token, at position 0. */
  lemma LexEmpty()
    ensures Lex("") == Ok([Token(Eof, NoVal, 0)])
  {
    var eof := Token(Eof, NoVal, 0);
    assert SkipSpaces("", 0) == 0;
    assert Scan("", 0) == Ok([eof]);
    assert [eof][1..] == [];
    assert InsertImplicit([eof]) == [eof];
  }

  /** `3.14` fails on the `.` at position 1. */
  lemma LexRejectsDecimalPoint()
    ensures Lex("3.14") == Err(UnexpectedChar('.', 1))
  {
    var s := "3.14";
    assert SkipSpaces(s, 0) == 0 && DigitRunEnd(s, 0) == 1;
    assert SkipSpaces(s, 1) == 1;
    assert Scan(s, 1) == Err(UnexpectedChar('.', 1));
  }

  /** A letter run that is neither a function name nor one letter is rejected: `xy` is not `x*y`. */
  lemma LexRejectsLetterPair()
    ensures Lex("xy") == Err(InvalidIdentifier("xy", 0))
  {
    var s := "xy";
    assert SkipSpaces(s, 0) == 0 && LetterRunEnd(s, 0) == 2;
    assert s[0..2] == "xy";
    assert "xy" !in Functions;
  }

  /** One step of a scan: blanks up to `j`, the token `t` there, and the rest of the scan from `k`. */
  lemma ScanStep(s: string, i: nat, j: nat, t: Token, k: nat, rest: seq<Token>)
    requires i <= j < |s| && SkipSpaces(s, i) == j
    requires TokenAt(s, j) == Ok((t, k)) && Scan(s, k) == Ok(rest)
    ensures Scan(s, i) == Ok([t] + rest)
  {
  }

  /** The scan at the end of the text, after blanks. */
  lemma ScanEnd(s: string, i: nat)
    requires i <= |s| && SkipSpaces(s, i) == |s|
    ensures Scan(s, i) == Ok([Token(Eof, NoVal, |s|)])
  {
  }

  /** Two letters separated by a blank are two variables with an implicit multiplication between them. */
  lemma LexSeparatedLetters()
    ensures Lex("x y") == Ok([
      Token(Variable, StrVal("x"), 0), Token(ImplicitMultiply, StrVal("*"), 1),
      Token(Variable, StrVal("y"), 2), Token(Eof, NoVal, 3)])
  {
    var s := "x y";
    var x, y, eof := Token(Variable, StrVal("x"), 0), Token(Variable, StrVal("y"), 2), Token(Eof, NoVal, 3);
    assert SkipSpaces(s, 3) == 3;
    ScanEnd(s, 3);
    assert LetterRunEnd(s, 2) == 3 && s[2..3] == "y" && "y" !in Functions;
    assert TokenAt(s, 2) == Ok((y, 3));
    assert SkipSpaces(s, 1) == 2;
    ScanStep(s, 1, 2, y, 3, [eof]);
    assert LetterRunEnd(s, 0) == 1 && s[0..1] == "x" && "x" !in Functions;
    assert TokenAt(s, 0) == Ok((x, 1));
    assert SkipSpaces(s, 0) == 0;
    ScanStep(s, 0, 0, x, 1, [y] + [eof]);
    assert [x] + ([y] + [eof]) == [x, y, eof];
    assert [x, y, eof][1..] == [y, eof] && [y, eof][1..] == [eof];
    assert InsertImplicit([eof]) == [eof];
    assert InsertImplicit([y, eof]) == [y, eof];
    var star := Token(ImplicitMultiply, StrVal("*"), 1);
    assert Gap([x, y, eof]) == [star];
    assert InsertImplicit([x, y, eof]) == [x] + [star] + [y, eof];
    assert [x] + [star] + [y, eof] == [x, star, y, eof];
  }

  /** A number directly before a letter: `2x` is 2, an implicit multiplication at 1, and x. */
  lemma LexNumberBeforeLetter()
    ensures Lex("2x") == Ok([
      Token(Number, IntVal(2), 0), Token(ImplicitMultiply, StrVal("*"), 1),
      Token(Variable, StrVal("x"), 1), Token(Eof, NoVal, 2)])
  {
    var s := "2x";
    var two, x, eof := Token(Number, IntVal(2), 0), Token(Variable, StrVal("x"), 1), Token(Eof, NoVal, 2);
    assert SkipSpaces(s, 2) == 2;
    ScanEnd(s, 2);
    assert LetterRunEnd(s, 1) == 2 && s[1..2] == "x" && "x" !in Functions;
    assert TokenAt(s, 1) == Ok((x, 2));
    assert SkipSpaces(s, 1) == 1;
    ScanStep(s, 1, 1, x, 2, [eof]);
    assert DigitRunEnd(s, 0) == 1 && s[0..1] == "2";
    assert DecimalValue("2") == 2;
    assert TokenAt(s, 0) == Ok((two, 1));
    assert SkipSpaces(s, 0) == 0;
    ScanStep(s, 0, 0, two, 1, [x] + [eof]);
    assert [two] + ([x] + [eof]) == [two, x, eof];
    assert [two, x, eof][1..] == [x, eof] && [x, eof][1..] == [eof];
    assert IntToString(2) == "2";
    assert InsertImplicit([eof]) == [eof];
    assert InsertImplicit([x, eof]) == [x, eof];
    var star := Token(ImplicitMultiply, StrVal("*"), 1);
    assert Gap([two, x, eof]) == [star];
    assert InsertImplicit([two, x, eof]) == [two] + [star] + [x, eof];
    assert [two] + [star] + [x, eof] == [two, star, x, eof];
  }

  /** The tokens of `x`, `+` at `p`, `y` at `q`, and the end at `q + 1`. */
  function PlusTokens(p: nat, q: nat): seq<Token> {
    [Token(Variable, StrVal("x"), 0), Token(Plus, StrVal("+"), p), Token(Variable, StrVal("y"), q), Token(Eof, NoVal, q + 1)]
  }

  /** Blanks around an operator change positions but not kinds: `x+y`, `x + y` and `x  +  y` agree. */
  lemma LexBlanksAroundOperator()
    ensures Lex("x+y") == Ok(PlusTokens(1, 2))
    ensures Lex("x + y") == Ok(PlusTokens(2, 4))
    ensures Lex("x  +  y") == Ok(PlusTokens(3, 6))
    ensures Kinds(PlusTokens(1, 2)) == Kinds(PlusTokens(2, 4)) == Kinds(PlusTokens(3, 6)) == [Variable, Plus, Variable, Eof]
  {
    var s1, s2, s3 := "x+y", "x + y", "x  +  y";
    assert s1[0] == 'x' && s1[1] == '+' && s1[2] == 'y';
    PlusExample(s1, 1, 2);
    assert s2[0] == 'x' && s2[1] == ' ' && s2[2] == '+' && s2[3] == ' ' && s2[4] == 'y';
    PlusExample(s2, 2, 4);
    assert s3[0] == 'x' && s3[3] == '+' && s3[6] == 'y';
    forall k | 0 < k < 6 && k != 3
      ensures s3[k] == ' '
    {
      assert k == 1 || k == 2 || k == 4 || k == 5;
    }
    PlusExample(s3, 3, 6);
    PlusNoInsertion(1, 2);
    PlusNoInsertion(2, 4);
    PlusNoInsertion(3, 6);
  }

  /** `x`, blanks, `+` at `p`, blanks, `y` at `q` at the end. */
  lemma PlusExample(s: string, p: nat, q: nat)
    requires 0 < p < q && |s| == q + 1
    requires s[0] == 'x' && s[p] == '+' && s[q] == 'y'
    requires forall k | 0 < k < q && k != p :: s[k] == ' '
    ensures Lex(s) == Ok(PlusTokens(p, q))
  {
    PlusScan(s, p, q);
    PlusNoInsertion(p, q);
  }

  lemma PlusScan(s: string, p: nat, q: nat)
    requires 0 < p < q && |s| == q + 1
    requires s[0] == 'x' && s[p] == '+' && s[q] == 'y'
    requires forall k | 0 < k < q && k != p :: s[k] == ' '
    ensures Scan(s, 0) == Ok(PlusTokens(p, q))
  {
    var x, plus, y, eof := Token(Variable, StrVal("x"), 0), Token(Plus, StrVal("+"), p), Token(Variable, StrVal("y"), q), Token(Eof, NoVal, q + 1);
    assert SkipSpaces(s, q + 1) == q + 1;
    ScanEnd(s, q + 1);
    assert LetterRunEnd(s, q) == q + 1 && s[q..q + 1] == "y" && "y" !in Functions;
    assert TokenAt(s, q) == Ok((y, q + 1));
    SkipSpacesOver(s, p + 1, q);
    ScanStep(s, p + 1, q, y, q + 1, [eof]);
    assert [s[p]] == "+";
    assert TokenAt(s, p) == Ok((plus, p + 1));
    SkipSpacesOver(s, 1, p);
    ScanStep(s, 1, p, plus, p + 1, [y] + [eof]);
    assert LetterRunEnd(s, 0) == 1 && s[0..1] == "x" && "x" !in Functions;
    assert TokenAt(s, 0) == Ok((x, 1));
    assert SkipSpaces(s, 0) == 0;
    ScanStep(s, 0, 0, x, 1, [plus] + ([y] + [eof]));
    assert [x] + ([plus] + ([y] + [eof])) == [x, plus, y, eof];
  }

  lemma PlusNoInsertion(p: nat, q: nat)
    ensures InsertImplicit(PlusTokens(p, q)) == PlusTokens(p, q)
    ensures Kinds(PlusTokens(p, q)) == [Variable, Plus, Variable, Eof]
  {
    var ts := PlusTokens(p, q);
    var x, plus, y, eof := ts[0], ts[1], ts[2], ts[3];
    assert ts[1..] == [plus, y, eof] && [plus, y, eof][1..] == [y, eof] && [y, eof][1..] == [eof];
    assert InsertImplicit([eof]) == [eof];
    assert InsertImplicit([y, eof]) == [y, eof];
    assert InsertImplicit([plus, y, eof]) == [plus, y, eof];
    assert InsertImplicit(ts) == [x] + [plus, y, eof];
  }

  /** Skipping over a stretch of blanks ending at a non-blank. */
  lemma {:induction false} SkipSpacesOver(s: string, i: nat, j: nat)
    requires i <= j < |s| && !IsSpace(s[j])
    requires forall k | i <= k < j :: IsSpace(s[k])
    ensures SkipSpaces(s, i) == j
    decreases j - i
  {
    if i < j {
      SkipSpacesOver(s, i + 1, j);
    }
  }
}
