/** The expression evaluator of lab3/eval.c in its own form: a position in the text, one token of
    look-ahead, and an error flag. */
module Evaluator {
  import opened Wrappers
  import opened Expressions
  import opened Lexer

  class EvalState {
    const text: string
    const env: Env
    var p: nat
    var lastp: nat
    /** The peeked token with its text; Invalid when there is none. */
    var peekTok: Token
    var evalError: Option<Error>

    ghost predicate Valid()
      reads this
    {
      && p <= |text| && lastp <= |text|
      && (!peekTok.Invalid? ==> Lex(text[lastp..]) == Rest())
      && (peekTok.Eof? ==> Lex(text[p..]) == [])
    }

    /** The tokens still to come. */
    ghost function Rest(): seq<Token>
      requires p <= |text|
      reads this
    {
      if peekTok.Invalid? then Lex(text[p..])
      else if peekTok.Eof? then []
      else [peekTok] + Lex(text[p..])
    }

    constructor (s: string, e: Env)
      ensures text == s && env == e && Valid() && Rest() == Lex(s) && evalError == None && peekTok.Invalid?
    {
      text, env := s, e;
      p, lastp, peekTok, evalError := 0, 0, Invalid, None;
      new;
      assert text[0..] == text;
    }

    // -------------------------------------------------------------- tokens

    method SkipWhite()
      requires p <= |text|
      modifies this`p
      ensures p <= |text| && text[p..] == SkipBlanks(old(text[p..])) && Lex(text[p..]) == Lex(old(text[p..]))
    {
      while p < |text| && IsBlank(text[p])
        invariant p <= |text| && SkipBlanks(text[p..]) == SkipBlanks(old(text[p..]))
      {
        assert text[p..][1..] == text[p + 1..];
        p := p + 1;
      }
      SkipTwice(old(text[p..]));
    }

    static lemma {:induction false} SkipTwice(s: string)
      ensures SkipBlanks(SkipBlanks(s)) == SkipBlanks(s) && Lex(SkipBlanks(s)) == Lex(s)
    {
    }

    /** The rest of an identifier; `s` is the text from its first character on. */
    method ScanIdent(ghost s: string, start: nat)
      requires start < |text| && s == text[start..] && p == start + 1
      modifies this`p
      ensures start < p <= |text| && p - start == IdentEnd(s, 1) && text[start..p] == s[..p - start]
    {
      while p < |text| && (IsIdent(text[p]) || IsConst(text[p]))
        invariant start < p <= |text| && IdentEnd(s, p - start) == IdentEnd(s, 1)
      {
        p := p + 1;
      }
    }

    /** The rest of a numeric literal. */
    method ScanConst(ghost s: string, start: nat)
      requires start < |text| && s == text[start..] && p == start + 1
      modifies this`p
      ensures start < p <= |text| && p - start == ConstEnd(s, 1, '\0', false) && text[start..p] == s[..p - start]
    {
      hide Continues;
      var lastChar, allowHex := '\0', false;
      while p < |text| && Continues(text[p], lastChar, allowHex)
        invariant start < p <= |text| && ConstEnd(s, p - start, lastChar, allowHex) == ConstEnd(s, 1, '\0', false)
      {
        lastChar := Lower(text[p]);
        if lastChar == 'x' {
          allowHex := true;
        }
        p := p + 1;
      }
    }

    /** Scans the token at `p`. */
    method Scan() returns (tok: Token)
      requires p < |text| && !IsBlank(text[p])
      modifies this`p
      ensures p <= |text| && (tok, p - old(p)) == FirstToken(old(text[p..])) && !tok.Eof?
    {
      hide IdentEnd, ConstEnd;
      var start := p;
      var c := text[p];
      p := p + 1;
      if IsIdent(c) {
        ScanIdent(text[start..], start);
        tok := Ident(text[start..p]);
      } else if IsConst(c) {
        ScanConst(text[start..], start);
        tok := Const(text[start..p]);
      } else {
        tok := OpToken(c);
      }
    }

    /** get_next_token */
    method GetNextToken() returns (tok: Token)
      requires Valid()
      modifies this`p, this`peekTok
      ensures Valid() && peekTok.Invalid? && tok == Head(old(Rest()))
      ensures Rest() == if old(Rest()) == [] then [] else old(Rest())[1..]
    {
      if !peekTok.Invalid? {
        tok := peekTok;
        peekTok := Invalid;
        return;
      }
      SkipWhite();
      if p == |text| {
        return Eof;
      }
      ghost var s := text[p..];
      ghost var start := p;
      tok := Scan();
      assert s[p - start..] == text[p..];
    }

    /** peek_next_token */
    method PeekNextToken() returns (tok: Token)
      requires Valid()
      modifies this`p, this`lastp, this`peekTok
      ensures Valid() && peekTok == tok == Head(old(Rest())) && Rest() == Peeked(old(Rest()))
    {
      if peekTok.Invalid? {
        lastp := p;
        var t := GetNextToken();
        peekTok := t;
      }
      tok := peekTok;
    }

    // -------------------------------------------------------------- the grammar

    /** The evaluator has done what the parse function says of the tokens `ts`. */
    ghost predicate Did(o: Outcome, val: int)
      reads this
    {
      && Valid()
      && match o
         case Done(v, rest) => evalError == None && val == v && Rest() == rest
         case Failed(e) => evalError == Some(e)
    }

    method EvalFactor() returns (val: int)
      requires Valid() && evalError == None
      modifies this
      ensures Did(ParseFactor(env, old(Rest())), val)
      decreases |Rest()|, 0
    {
      hide Lex, Peeked;
      ghost var ts := Rest();
      PeekKeeps(ts);
      var tok := PeekNextToken();
      val := 0;
      match tok {
        case OParen =>
          tok := GetNextToken();
          val := EvalSum();
          if evalError != None {
            return 0;
          }
          PeekKeeps(Rest());
          tok := PeekNextToken();
          if !tok.CParen? {
            evalError := Some(UnmatchedParen);
            return 0;
          }
          tok := GetNextToken();
        case Minus =>
          tok := GetNextToken();
          val := EvalFactor();
          if evalError != None {
            return 0;
          }
          val := -val;
        case Ident(name) =>
          tok := GetNextToken();
          match env.ident(name) {
            case Some(v) => val := v;
            case None => evalError := Some(UndefinedVariable);
          }
        case Const(s) =>
          tok := GetNextToken();
          match env.literal(s) {
            case Some(v) => val := v;
            case None => evalError := Some(BadConstant);
          }
        case _ =>
          evalError := Some(NoTerm);
      }
    }

    /** A valid token is still there after a look at it. */
    lemma {:induction false} PeekKeeps(ts: seq<Token>)
      ensures !Head(ts).Invalid? ==> Peeked(ts) == ts
    {
    }

    method EvalTerm() returns (val: int)
      requires Valid() && evalError == None
      modifies this
      ensures Did(ParseTerm(env, old(Rest())), val)
      decreases |Rest()|, 1
    {
      hide Lex, Peeked, ParseFactor;
      val := EvalFactor();
      if evalError != None {
        return 0;
      }
      PeekKeeps(Rest());
      var tok := PeekNextToken();
      match tok {
        case Mult =>
          tok := GetNextToken();
          var val1 := EvalTerm();
          val := val * val1;
        case Div =>
          tok := GetNextToken();
          var val1 := EvalTerm();
          if evalError != None {
            return 0;
          }
          if val1 == 0 {
            evalError := Some(DivideByZero);
            return 0;
          }
          val := Quotient(val, val1);
        case _ =>
      }
    }

    method EvalSum() returns (val: int)
      requires Valid() && evalError == None
      modifies this
      ensures Did(ParseExpr(env, old(Rest())), val)
      decreases |Rest()|, 2
    {
      hide Lex, Peeked, ParseTerm;
      val := EvalTerm();
      if evalError != None {
        return 0;
      }
      PeekKeeps(Rest());
      var tok := PeekNextToken();
      match tok {
        case Plus =>
          tok := GetNextToken();
          var val1 := EvalSum();
          val := val + val1;
        case Minus =>
          tok := GetNextToken();
          var val1 := EvalSum();
          val := val - val1;
        case _ =>
      }
    }

    /** eval_expr, on a new state: the value or the error of the descent on the text's tokens, and where
        the unused text begins. */
    method EvalExpr() returns (val: int, endp: nat)
      requires Valid() && evalError == None && Rest() == Lex(text) && peekTok.Invalid?
      modifies this
      ensures Valid() && endp <= |text|
      ensures match ParseExpr(env, Lex(text))
              case Done(v, rest) => evalError == None && val == v && Lex(text[endp..]) == rest
              case Failed(e) => evalError == Some(e)
    {
      val := EvalSum();
      endp := if peekTok.Invalid? then p else lastp;
    }
  }

  /** The printed text of any tree, with any blanks, evaluates to the tree's value and is used up but for
      blanks at its end; or the first error of the tree is reported. */
  method EvaluatePrinted(e: Expr, gaps: seq<string>, env: Env) returns (error: Option<Error>, val: int, endp: nat)
    requires PlainExpr(e) && |gaps| == |ExprTokens(e)| + 1 && AllBlank(gaps)
    ensures match ExprValue(env, e)
            case Val(v) => error == None && val == v && endp <= |Text(ExprTokens(e), gaps)|
                           && Blank(Text(ExprTokens(e), gaps)[endp..])
            case Err(x) => error == Some(x)
  {
    ExprPrintable(e);
    LexReadsBack(ExprTokens(e), gaps);
    ExprParses(env, e, []);
    assert ExprTokens(e) + [] == ExprTokens(e);
    var es := new EvalState(Text(ExprTokens(e), gaps), env);
    val, endp := es.EvalExpr();
    error := es.evalError;
    if error == None {
      NoTokensIsBlank(es.text[endp..]);
    }
  }

  lemma {:induction false} NoTokensIsBlank(s: string)
    requires Lex(s) == []
    ensures Blank(s)
  {
    if s != [] {
      SkipsAll(s);
    }
  }

  lemma {:induction false} SkipsAll(s: string)
    requires SkipBlanks(s) == []
    ensures Blank(s)
  {
    if s != [] {
      SkipsAll(s[1..]);
      assert forall i | 0 < i < |s| :: s[i] == s[1..][i - 1];
    }
  }
}
