/** The parser of cero/syntax/parser.cc: it steps a token cursor, appends to the report list and catches its own
    parse errors. Every method is proved to do what the function of the same name in ParserSpec.dfy says. */
module Parsers {
  import opened Tokens
  import opened Ast
  import opened Grammar
  import opened TokenCursors
  import Spec = ParserSpec

  /** What a method returns that may throw a `ParseError`. */
  datatype Outcome<T> = Value(value: T) | ParseError {
    predicate IsFailure() {
      ParseError?
    }

    function PropagateFailure<U>(): Outcome<U>
      requires ParseError?
    {
      ParseError
    }

    function Extract(): T
      requires Value?
    {
      value
    }
  }

  /** A method that returned `r` and left the parser in state `s` did what the specification says. */
  ghost predicate Agrees<T>(r: Outcome<T>, s: Spec.State, spec: Spec.Result<T>) {
    && s == spec.state
    && r.Value? == spec.Done?
    && (r.Value? ==> r.value == spec.value)
  }

  class Parser {
    const cursor: TokenCursor
    var definitions: seq<Definition>
    var reports: seq<Spec.Report>
    ghost var caught: nat

    ghost predicate Valid()
      reads this, cursor
    {
      cursor.Valid()
    }

    ghost function State(): (s: Spec.State)
      requires Valid()
      reads this, cursor
      ensures Spec.Live(cursor.tokens, s)
    {
      Spec.State(cursor.pos, reports, caught)
    }

    constructor (tokens: seq<Token>)
      requires EndsInOnlyEndOfFile(tokens)
      ensures Valid() && fresh(cursor) && cursor.tokens == tokens
      ensures State() == Spec.START && definitions == []
    {
      cursor := new TokenCursor(tokens);
      definitions, reports, caught := [], [], 0;
    }

    // -------------------------------------------------------------- reporting

    method ReportExpected(message: Spec.Message)
      requires Valid()
      modifies this`reports
      ensures Valid() && State() == Spec.ReportExpected(cursor.tokens, old(State()), message)
    {
      reports := reports + [Spec.Report(message, cursor.Peek())];
    }

    method Expect(kind: TokenKind, message: Spec.Message) returns (r: Outcome<Spec.Unit>)
      requires Valid() && kind != EndOfFile
      modifies this`reports, cursor
      ensures Valid() && Agrees(r, State(), Spec.Expect(cursor.tokens, old(State()), kind, message))
    {
      hide Spec.ParseExpression, Spec.ParseHead, Spec.ParseTails, Spec.ParseTail, Spec.ParseList,
           Spec.ParseStatement, Spec.ParseBlock, Spec.RecoverAtStatementLevel, EndsInOnlyEndOfFile, Spec.Accounts,
           Spec.SignatureStep, NamesNotEmpty;
      var matched := cursor.Match(kind);
      if matched {
        r := Value(Spec.Unit);
      } else {
        ReportExpected(message);
        r := ParseError;
      }
    }

    // -------------------------------------------------------------- expressions

    method ParseExpression(p: Precedence) returns (r: Outcome<Expr>)
      requires Valid()
      modifies this, cursor
      ensures Valid() && definitions == old(definitions)
      ensures Agrees(r, State(), Spec.ParseExpression(cursor.tokens, old(State()), p))
      decreases |cursor.tokens| - cursor.pos, 3
    {
      hide Spec.ParseHead, Spec.ParseTail, Spec.ParseList, Spec.ParseStatement, Spec.ParseBlock,
           Spec.RecoverAtStatementLevel, EndsInOnlyEndOfFile, LookupTailRule, HeadRule, Spec.Accounts,
           Spec.SignatureStep, NamesNotEmpty;
      var head := HeadRule(cursor.PeekKind());
      if head == NoHead {
        ReportExpected(Spec.ExpectExpression);
        return ParseError;
      }
      var e :- ParseHead();
      ghost var s1, e1 := State(), e;
      var rule := NextTailRule();
      while p < rule.precedence
        invariant Valid() && old(cursor.pos) < cursor.pos && rule == Spec.NextTailRule(cursor.tokens, State())
        invariant definitions == old(definitions)
        invariant Spec.ParseTails(cursor.tokens, State(), p, e) == Spec.ParseTails(cursor.tokens, s1, p, e1)
        decreases |cursor.tokens| - cursor.pos
      {
        TablesAgree(cursor.PeekKind(), Spec.ShiftAhead(cursor.tokens, State()));
        e :- ParseTail(rule.tail, e);
        rule := NextTailRule();
      }
      return Value(e);
    }

    method NextTailRule() returns (rule: TailRule)
      requires Valid()
      ensures rule == Spec.NextTailRule(cursor.tokens, State())
    {
      var token := cursor.Peek();
      var ahead := cursor.PeekAhead();
      rule := LookupTailRule(token.kind, ahead.kind == RAngle && ahead.offset == token.offset + 1);
    }

    method ParseHead() returns (r: Outcome<Expr>)
      requires Valid() && IsHead(cursor.PeekKind())
      modifies this, cursor
      ensures Valid() && definitions == old(definitions)
      ensures Agrees(r, State(), Spec.ParseHead(cursor.tokens, old(State())))
      decreases |cursor.tokens| - cursor.pos, 2
    {
      match HeadRule(cursor.PeekKind())
      case IdentHead =>
        var token := cursor.Next();
        return Value(Ident(token.offset, token.length));
      case LiteralHead(kind) =>
        var token := cursor.Next();
        return Value(Literal(token.offset, kind, token.length));
      case BlockHead =>
        var e := OnPrefixLeftBrace();
        return Value(e);
      case ReturnHead =>
        r := OnKwReturn();
      case PrefixHead(op) =>
        r := OnPrefixOperator(op);
    }

    method OnPrefixLeftBrace() returns (e: Expr)
      requires Valid() && HeadRule(cursor.PeekKind()) == BlockHead
      modifies this, cursor
      ensures Valid() && definitions == old(definitions)
      ensures Spec.Done(e, State()) == Spec.ParseHead(cursor.tokens, old(State()))
      decreases |cursor.tokens| - cursor.pos, 1
    {
      hide Spec.ParseHead, Spec.ParseBlock, EndsInOnlyEndOfFile, HeadRule, Spec.Accounts;
      HeadPrintsBack(cursor.PeekKind());
      Spec.BlockHeadCases(cursor.tokens, State());
      var token := cursor.Next();
      assert State() == Spec.Advance(cursor.tokens, old(State()));
      var statements := ParseBlock();
      return Block(token.offset, statements);
    }

    method OnKwReturn() returns (r: Outcome<Expr>)
      requires Valid() && HeadRule(cursor.PeekKind()) == ReturnHead
      modifies this, cursor
      ensures Valid() && definitions == old(definitions)
      ensures Agrees(r, State(), Spec.ParseHead(cursor.tokens, old(State())))
      decreases |cursor.tokens| - cursor.pos, 1
    {
      hide Spec.ParseHead, Spec.ParseList, EndsInOnlyEndOfFile, HeadRule, Spec.Accounts;
      HeadPrintsBack(cursor.PeekKind());
      Spec.ReturnCases(cursor.tokens, State());
      var token := cursor.Next();
      assert State() == Spec.Advance(cursor.tokens, old(State()));
      var values := [];
      if HeadRule(cursor.PeekKind()) != NoHead {
        values :- ParseList();
      }
      return Value(Return(token.offset, values));
    }

    method OnPrefixOperator(op: UnaryOperator) returns (r: Outcome<Expr>)
      requires Valid() && HeadRule(cursor.PeekKind()) == PrefixHead(op)
      modifies this, cursor
      ensures Valid() && definitions == old(definitions)
      ensures Agrees(r, State(), Spec.ParseHead(cursor.tokens, old(State())))
      decreases |cursor.tokens| - cursor.pos, 1
    {
      hide Spec.ParseHead, Spec.ParseExpression, EndsInOnlyEndOfFile, HeadRule, Spec.Accounts;
      HeadPrintsBack(cursor.PeekKind());
      Spec.PrefixCases(cursor.tokens, State(), op);
      var token := cursor.Next();
      assert State() == Spec.Advance(cursor.tokens, old(State()));
      var operand :- ParseExpression(PREFIX);
      return Value(Unary(token.offset, op, operand));
    }

    method ParseTail(tail: Tail, left: Expr) returns (r: Outcome<Expr>)
      requires Valid() && tail != NoTail && tail == Spec.NextTailRule(cursor.tokens, State()).tail
      modifies this, cursor
      ensures Valid() && definitions == old(definitions)
      ensures Agrees(r, State(), Spec.ParseTail(cursor.tokens, old(State()), tail, left))
      decreases |cursor.tokens| - cursor.pos, 2
    {
      hide Spec.ParseExpression, Spec.ParseHead, Spec.ParseTails, Spec.ParseList, Spec.ParseStatement,
           Spec.ParseBlock, Spec.RecoverAtStatementLevel, EndsInOnlyEndOfFile, LookupTailRule, HeadRule,
           Spec.Accounts, Spec.SignatureStep, NamesNotEmpty;
      match tail
      case InfixTail(op) => r := OnBinaryOperator(op, left);
      case PostfixTail(op) =>
        cursor.Advance();
        return Value(Unary(left.offset, op, left));
      case CallTail => r := OnInfixLeftParen(left);
    }

    method OnBinaryOperator(op: BinaryOperator, left: Expr) returns (r: Outcome<Expr>)
      requires Valid() && Spec.NextTailRule(cursor.tokens, State()).tail == InfixTail(op)
      modifies this, cursor
      ensures Valid() && definitions == old(definitions)
      ensures Agrees(r, State(), Spec.ParseTail(cursor.tokens, old(State()), InfixTail(op), left))
      decreases |cursor.tokens| - cursor.pos, 1
    {
      hide Spec.ParseExpression, Spec.ParseHead, Spec.ParseTails, Spec.ParseList, Spec.ParseStatement,
           Spec.ParseBlock, Spec.RecoverAtStatementLevel, EndsInOnlyEndOfFile, Spec.NextTailRule, Spec.Accounts,
           Spec.SignatureStep, NamesNotEmpty;
      TailIsNoEnd(cursor.tokens, State());
      cursor.Advance();
      if op == Shr {
        cursor.Advance();
      }
      assert State() == Spec.OperatorEnd(cursor.tokens, old(State()), op);
      var right :- ParseExpression(AssociativityPrecedence(op));
      return Value(Binary(left.offset, op, left, right));
    }

    method OnInfixLeftParen(left: Expr) returns (r: Outcome<Expr>)
      requires Valid() && Spec.NextTailRule(cursor.tokens, State()).tail == CallTail
      modifies this, cursor
      ensures Valid() && definitions == old(definitions)
      ensures Agrees(r, State(), Spec.ParseTail(cursor.tokens, old(State()), CallTail, left))
      decreases |cursor.tokens| - cursor.pos, 1
    {
      hide Spec.ParseTail, Spec.ParseList, EndsInOnlyEndOfFile, Spec.NextTailRule, Spec.Accounts, Spec.Expect,
           LookupTailRule, HeadRule;
      TailIsNoEnd(cursor.tokens, State());
      Spec.CallCases(cursor.tokens, State(), left);
      cursor.Advance();
      ghost var s1 := State();
      assert s1 == Spec.Advance(cursor.tokens, old(State()));
      var args := [];
      var empty := cursor.Match(RParen);
      assert State() == if empty then Spec.Advance(cursor.tokens, s1) else s1;
      if !empty {
        args :- ParseClosedList();
      }
      return Value(Call(left.offset, left, args));
    }

    /** The arguments of a call that has some, and the closing parenthesis. */
    method ParseClosedList() returns (r: Outcome<seq<Expr>>)
      requires Valid()
      modifies this, cursor
      ensures Valid() && definitions == old(definitions)
      ensures var list := Spec.ParseList(cursor.tokens, old(State()));
              if list.Thrown? then r.ParseError? && State() == list.state
              else
                var closing := Spec.Expect(cursor.tokens, list.state, RParen, Spec.ExpectClosingParenInCall);
                && State() == closing.state && r.Value? == closing.Done?
                && (r.Value? ==> r.value == list.value)
      decreases |cursor.tokens| - cursor.pos, 5
    {
      hide Spec.ParseList, Spec.Expect, Spec.Accounts, EndsInOnlyEndOfFile;
      var args :- ParseList();
      var _ :- Expect(RParen, Spec.ExpectClosingParenInCall);
      return Value(args);
    }

    /** The do-while loops over return values and call arguments. */
    method ParseList() returns (r: Outcome<seq<Expr>>)
      requires Valid()
      modifies this, cursor
      ensures Valid() && definitions == old(definitions)
      ensures Agrees(r, State(), Spec.ParseList(cursor.tokens, old(State())))
      decreases |cursor.tokens| - cursor.pos, 4
    {
      hide Spec.ParseList, Spec.ParseExpression, EndsInOnlyEndOfFile, Spec.Accounts, ListSoFar;
      ghost var whole := Spec.ParseList(cursor.tokens, State());
      ghost var done, end := whole.Done?, whole.state;
      ghost var all := if done then whole.value else [];
      ListBegins(cursor.tokens, State());
      var es, more := [], true;
      while more
        invariant Valid() && old(cursor.pos) <= cursor.pos && definitions == old(definitions)
        invariant more ==> ListSoFar(cursor.tokens, State(), es, done, all, end)
        invariant !more ==> done && es == all && State() == end
        decreases |cursor.tokens| - cursor.pos, more
      {
        ListStep(cursor.tokens, State(), es, done, all, end);
        var e :- ParseExpression(STATEMENT);
        es := es + [e];
        more := cursor.Match(Comma);
      }
      return Value(es);
    }

    // -------------------------------------------------------------- statements

    method ParseStatement() returns (r: Outcome<Expr>)
      requires Valid()
      modifies this, cursor
      ensures Valid() && definitions == old(definitions)
      ensures Agrees(r, State(), Spec.ParseStatement(cursor.tokens, old(State())))
      decreases |cursor.tokens| - cursor.pos, 4
    {
      hide Spec.ParseExpression, Spec.ParseHead, Spec.ParseTails, Spec.ParseTail, Spec.ParseList, Spec.ParseBlock,
           Spec.RecoverAtStatementLevel, EndsInOnlyEndOfFile, LookupTailRule, Spec.Accounts, Spec.SignatureStep,
           NamesNotEmpty;
      if cursor.PeekKind() == LBrace {
        var block := OnPrefixLeftBrace();
        return Value(block);
      }
      var e :- ParseExpression(STATEMENT);
      var _ :- Expect(Semicolon, Spec.ExpectSemicolon);
      return Value(e);
    }

    method RecoverAtStatementLevel() returns (atEnd: bool)
      requires Valid()
      modifies cursor
      ensures Valid() && atEnd == Spec.RecoverAtStatementLevel(cursor.tokens, old(State())).0
      ensures State() == Spec.RecoverAtStatementLevel(cursor.tokens, old(State())).1
    {
      hide Spec.RecoverAtStatementLevel, EndsInOnlyEndOfFile;
      var kind := cursor.PeekKind();
      while kind != EndOfFile
        invariant Valid() && kind == cursor.PeekKind()
        invariant Spec.RecoverAtStatementLevel(cursor.tokens, State())
               == Spec.RecoverAtStatementLevel(cursor.tokens, old(State()))
        decreases |cursor.tokens| - cursor.pos
      {
        RecoveryStep(cursor.tokens, State());
        ghost var s := State();
        if kind == Semicolon {
          cursor.Advance();
          assert State() == Spec.Advance(cursor.tokens, s);
          return false;
        }
        if kind == RBrace {
          return false;
        }
        cursor.Advance();
        assert State() == Spec.Advance(cursor.tokens, s);
        kind := cursor.PeekKind();
      }
      RecoveryStep(cursor.tokens, State());
      return true;
    }

    method ParseBlock() returns (statements: seq<Expr>)
      requires Valid()
      modifies this, cursor
      ensures Valid() && definitions == old(definitions)
      ensures statements == Spec.ParseBlock(cursor.tokens, old(State())).0
      ensures State() == Spec.ParseBlock(cursor.tokens, old(State())).1
      decreases |cursor.tokens| - cursor.pos, 5
    {
      hide Spec.ParseExpression, Spec.ParseHead, Spec.ParseTails, Spec.ParseTail, Spec.ParseList,
           Spec.ParseStatement, Spec.ParseBlock, Spec.RecoverAtStatementLevel, EndsInOnlyEndOfFile, LookupTailRule,
           HeadRule, BlockSoFar, Spec.Accounts, Spec.SignatureStep, NamesNotEmpty;
      ghost var all, end := Spec.ParseBlock(cursor.tokens, State()).0, Spec.ParseBlock(cursor.tokens, State()).1;
      statements := [];
      BlockBegins(cursor.tokens, State(), all, end);
      BlockEnds(cursor.tokens, State(), statements, all, end);
      var closed := cursor.Match(RBrace);
      while !closed
        invariant Valid() && old(cursor.pos) <= cursor.pos && definitions == old(definitions)
        invariant closed ==> statements == all && State() == end
        invariant !closed ==> BlockSoFar(cursor.tokens, State(), statements, all, end)
        invariant !closed ==> cursor.PeekKind() != RBrace
        decreases |cursor.tokens| - cursor.pos, closed
      {
        BlockStep(cursor.tokens, State(), statements, all, end);
        var statement := ParseStatement();
        if statement.Value? {
          statements := statements + [statement.value];
        } else {
          caught := caught + 1;
          var atEnd := RecoverAtStatementLevel();
          if atEnd {
            break;
          }
        }
        BlockEnds(cursor.tokens, State(), statements, all, end);
        closed := cursor.Match(RBrace);
      }
    }

    // -------------------------------------------------------------- definitions

    method ExpectIdentifier(message: Spec.Message) returns (name: Name)
      requires Valid()
      modifies this`reports, cursor
      ensures Valid()
      ensures var token := old(cursor.Peek());
              if token.kind == Identifier then
                name == Name(token.offset, token.length) && State() == Spec.Advance(cursor.tokens, old(State()))
              else
                name == Name(0, 0) && State() == Spec.ReportExpected(cursor.tokens, old(State()), message)
    {
      hide EndsInOnlyEndOfFile, Spec.Accounts, Spec.SignatureStep, NamesNotEmpty;
      var token := cursor.Peek();
      var matched := cursor.Match(Identifier);
      if matched {
        return Name(token.offset, token.length);
      }
      ReportExpected(message);
      return Name(0, 0);
    }

    method ParseType(message: Spec.Message) returns (r: Outcome<Expr>)
      requires Valid()
      modifies this`reports, cursor
      ensures Valid() && Agrees(r, State(), Spec.ParseType(cursor.tokens, old(State()), message))
    {
      hide EndsInOnlyEndOfFile, Spec.Accounts, Spec.SignatureStep, NamesNotEmpty;
      if cursor.PeekKind() == Identifier {
        var token := cursor.Next();
        return Value(Ident(token.offset, token.length));
      }
      ReportExpected(message);
      return ParseError;
    }

    method ParseParameter() returns (r: Outcome<Parameter>)
      requires Valid()
      modifies this`reports, cursor
      ensures Valid() && Agrees(r, State(), Spec.ParseParameter(cursor.tokens, old(State())))
    {
      hide EndsInOnlyEndOfFile, NamesNotEmpty, Spec.Accounts, Spec.SignatureStep;
      var offset := cursor.PeekOffset();
      var typ :- ParseType(Spec.ExpectParameterType);
      var name := ExpectIdentifier(Spec.ExpectParameterName);
      if name.length == 0 {
        return ParseError;
      }
      return Value(Parameter(offset, typ, name));
    }

    method ParseParameters() returns (r: Outcome<seq<Parameter>>)
      requires Valid()
      modifies this`reports, cursor
      ensures Valid() && Agrees(r, State(), Spec.ParseParameters(cursor.tokens, old(State())))
    {
      hide EndsInOnlyEndOfFile, NamesNotEmpty, Spec.ParseParameterList, Spec.ParseParameter, Spec.Accounts,
           Spec.SignatureStep;
      var empty := cursor.Match(RParen);
      if empty {
        return Value([]);
      }
      var ps :- ParseParameterList();
      var _ :- Expect(RParen, Spec.ExpectParenAfterParameters);
      return Value(ps);
    }

    method ParseParameterList() returns (r: Outcome<seq<Parameter>>)
      requires Valid()
      modifies this`reports, cursor
      ensures Valid() && Agrees(r, State(), Spec.ParseParameterList(cursor.tokens, old(State())))
    {
      hide EndsInOnlyEndOfFile, NamesNotEmpty, Spec.ParseParameterList, Spec.ParseParameter, Spec.Accounts,
           Spec.SignatureStep, ParametersSoFar;
      ghost var whole := Spec.ParseParameterList(cursor.tokens, State());
      ghost var done, end := whole.Done?, whole.state;
      ghost var all := if done then whole.value else [];
      ParametersBegin(cursor.tokens, State());
      var ps, more := [], true;
      while more
        invariant Valid()
        invariant more ==> ParametersSoFar(cursor.tokens, State(), ps, done, all, end)
        invariant !more ==> done && ps == all && State() == end
        decreases |cursor.tokens| - cursor.pos, more
      {
        ParametersStep(cursor.tokens, State(), ps, done, all, end);
        var p :- ParseParameter();
        ghost var t := State();
        ps := ps + [p];
        more := cursor.Match(Comma);
        assert State() == if more then Spec.Advance(cursor.tokens, t) else t;
      }
      return Value(ps);
    }

    method ParseOutput() returns (r: Outcome<Output>)
      requires Valid()
      modifies this`reports, cursor
      ensures Valid() && Agrees(r, State(), Spec.ParseOutput(cursor.tokens, old(State())))
    {
      hide EndsInOnlyEndOfFile, NamesNotEmpty, Spec.Accounts, Spec.SignatureStep;
      var offset := cursor.PeekOffset();
      var typ :- ParseType(Spec.ExpectReturnType);
      return Value(Output(offset, typ));
    }

    method ParseOutputs() returns (r: Outcome<seq<Output>>)
      requires Valid()
      modifies this`reports, cursor
      ensures Valid() && Agrees(r, State(), Spec.ParseOutputs(cursor.tokens, old(State())))
    {
      hide EndsInOnlyEndOfFile, NamesNotEmpty, Spec.ParseOutputList, Spec.ParseOutput, Spec.Accounts,
           Spec.SignatureStep;
      var os := [];
      var arrow := cursor.Match(ThinArrow);
      if arrow {
        os :- ParseOutputList();
      }
      return Value(os);
    }

    method ParseOutputList() returns (r: Outcome<seq<Output>>)
      requires Valid()
      modifies this`reports, cursor
      ensures Valid() && Agrees(r, State(), Spec.ParseOutputList(cursor.tokens, old(State())))
    {
      hide EndsInOnlyEndOfFile, NamesNotEmpty, Spec.ParseOutputList, Spec.ParseOutput, Spec.Accounts,
           Spec.SignatureStep, OutputsSoFar;
      ghost var whole := Spec.ParseOutputList(cursor.tokens, State());
      ghost var done, end := whole.Done?, whole.state;
      ghost var all := if done then whole.value else [];
      OutputsBegin(cursor.tokens, State());
      var os, more := [], true;
      while more
        invariant Valid()
        invariant more ==> OutputsSoFar(cursor.tokens, State(), os, done, all, end)
        invariant !more ==> done && os == all && State() == end
        decreases |cursor.tokens| - cursor.pos, more
      {
        OutputsStep(cursor.tokens, State(), os, done, all, end);
        var o :- ParseOutput();
        ghost var t := State();
        os := os + [o];
        more := cursor.Match(Comma);
        assert State() == if more then Spec.Advance(cursor.tokens, t) else t;
      }
      return Value(os);
    }

    method ParseFunctionDefinition(offset: Offset, access: AccessModifier, name: Token) returns (r: Outcome<Definition>)
      requires Valid()
      modifies this, cursor
      ensures Valid() && definitions == old(definitions)
      ensures var spec := Spec.ParseSignature(cursor.tokens, old(State()));
              if spec.Thrown? then r.ParseError? && State() == spec.state
              else
                var block := Spec.ParseBlock(cursor.tokens, spec.state);
                && r == Value(Function(offset, access, Name(name.offset, name.length), spec.value.0, spec.value.1, block.0))
                && State() == block.1
    {
      hide EndsInOnlyEndOfFile, NamesNotEmpty, Spec.ParseParameters, Spec.ParseOutputs, Spec.ParseBlock,
           Spec.Accounts, Spec.SignatureStep;
      var _ :- Expect(LParen, Spec.ExpectParenAfterFunctionName);
      var parameters :- ParseParameters();
      var outputs :- ParseOutputs();
      var _ :- Expect(LBrace, Spec.ExpectBraceBeforeFunctionBody);
      var statements := ParseBlock();
      return Value(Function(offset, access, Name(name.offset, name.length), parameters, outputs, statements));
    }

    method ParseAccess() returns (access: AccessModifier)
      requires Valid()
      modifies cursor
      ensures Valid() && access == Spec.ParseAccess(cursor.tokens, old(State())).0
      ensures State() == Spec.ParseAccess(cursor.tokens, old(State())).1
    {
      hide EndsInOnlyEndOfFile;
      access := NoModifier;
      var matched := cursor.Match(KwPrivate);
      if matched {
        return Private;
      }
      matched := cursor.Match(KwPublic);
      if matched {
        return Public;
      }
    }

    method ParseDefinition() returns (r: Outcome<Definition>)
      requires Valid()
      modifies this, cursor
      ensures Valid() && definitions == old(definitions)
      ensures Agrees(r, State(), Spec.ParseDefinition(cursor.tokens, old(State())))
    {
      hide EndsInOnlyEndOfFile, NamesNotEmpty, Spec.ParseDefinition, Spec.ParseAccess, Spec.ParseSignature,
           Spec.ParseBlock, Spec.Accounts, Spec.SignatureStep;
      Spec.DefinitionCases(cursor.tokens, State());
      var offset := cursor.PeekOffset();
      var access := ParseAccess();
      var token := cursor.Peek();
      var matched := cursor.Match(Identifier);
      if matched {
        r := ParseFunctionDefinition(offset, access, token);
      } else {
        ReportExpected(Spec.ExpectFunctionStructOrEnum);
        return ParseError;
      }
    }

    method RecoverAtDefinitionLevel()
      requires Valid()
      modifies cursor
      ensures Valid() && State() == Spec.RecoverAtDefinitionLevel(cursor.tokens, old(State()))
    {
      hide EndsInOnlyEndOfFile, Spec.RecoverAtDefinitionLevel, Spec.IsRecoveryToken;
      SkippingStep(cursor.tokens, State());
      cursor.Advance();
      var kind := cursor.PeekKind();
      while !Spec.IsRecoveryToken(kind)
        invariant Valid() && kind == cursor.PeekKind()
        invariant Spec.RecoverAtDefinitionLevel(cursor.tokens, old(State()))
               == if Spec.IsRecoveryToken(kind) then State()
                  else Spec.RecoverAtDefinitionLevel(cursor.tokens, State())
        decreases |cursor.tokens| - cursor.pos
      {
        EndIsRecoveryToken();
        ghost var s := State();
        SkippingStep(cursor.tokens, s);
        cursor.Advance();
        assert State() == Spec.Advance(cursor.tokens, s);
        kind := cursor.PeekKind();
      }
    }

    /** Parses the whole token list. */
    method Run()
      requires Valid() && State() == Spec.START && definitions == []
      modifies this, cursor
      ensures Valid() && definitions == Spec.Run(cursor.tokens).0 && State() == Spec.Run(cursor.tokens).1
    {
      hide EndsInOnlyEndOfFile, NamesNotEmpty, Spec.ParseDefinition, Spec.ParseDefinitions,
           Spec.RecoverAtDefinitionLevel, Spec.IsRecoveryToken, Spec.SignatureStep, Spec.Accounts, DefinitionsSoFar;
      ghost var all, end := Spec.Run(cursor.tokens).0, Spec.Run(cursor.tokens).1;
      DefinitionsBegin(cursor.tokens, all, end);
      DefinitionsEnd(cursor.tokens, State(), [], all, end);
      var atEnd := cursor.Match(EndOfFile);
      while !atEnd
        invariant Valid()
        invariant atEnd ==> definitions == all && State() == end
        invariant !atEnd ==> cursor.PeekKind() != EndOfFile
        invariant !atEnd ==> DefinitionsSoFar(cursor.tokens, State(), definitions, all, end)
        decreases |cursor.tokens| - cursor.pos, !atEnd
      {
        DefinitionsStep(cursor.tokens, State(), definitions, all, end);
        var definition := ParseDefinition();
        if definition.Value? {
          definitions := definitions + [definition.value];
        } else {
          caught := caught + 1;
          RecoverAtDefinitionLevel();
        }
        assert DefinitionsSoFar(cursor.tokens, State(), definitions, all, end);
        DefinitionsEnd(cursor.tokens, State(), definitions, all, end);
        atEnd := cursor.Match(EndOfFile);
      }
    }
  }

  /** `es` was read, and reading on from `s` completes it to `all`, or throws if not `done`, in state `end`. */
  ghost predicate ListSoFar(tokens: seq<Token>, s: Spec.State, es: seq<Expr>, done: bool, all: seq<Expr>,
                            end: Spec.State)
    requires Spec.Live(tokens, s)
  {
    var rest := Spec.ParseList(tokens, s);
    && rest.state == end
    && rest.Done? == done
    && (done ==> es + rest.value == all)
  }

  lemma ListBegins(tokens: seq<Token>, s: Spec.State)
    requires Spec.Live(tokens, s)
    ensures var whole := Spec.ParseList(tokens, s);
            ListSoFar(tokens, s, [], whole.Done?, if whole.Done? then whole.value else [], whole.state)
  {
    hide EndsInOnlyEndOfFile, Spec.ParseList;
    var whole := Spec.ParseList(tokens, s);
    if whole.Done? {
      assert [] + whole.value == whole.value;
    }
  }

  /** One turn of the loop over a list. */
  lemma ListStep(tokens: seq<Token>, s: Spec.State, es: seq<Expr>, done: bool, all: seq<Expr>, end: Spec.State)
    requires Spec.Live(tokens, s) && ListSoFar(tokens, s, es, done, all, end)
    ensures var r := Spec.ParseExpression(tokens, s, STATEMENT);
            if r.Thrown? then !done && end == r.state
            else if Spec.Kind(tokens, r.state) == Comma then
              ListSoFar(tokens, Spec.Advance(tokens, r.state), es + [r.value], done, all, end)
            else done && end == r.state && all == es + [r.value]
  {
    hide Spec.ParseExpression, EndsInOnlyEndOfFile;
    var r := Spec.ParseExpression(tokens, s, STATEMENT);
    if r.Done? && Spec.Kind(tokens, r.state) == Comma {
      var rest := Spec.ParseList(tokens, Spec.Advance(tokens, r.state));
      if rest.Done? {
        assert es + ([r.value] + rest.value) == es + [r.value] + rest.value;
      }
    }
  }

  ghost predicate ParametersSoFar(tokens: seq<Token>, s: Spec.State, es: seq<Parameter>, done: bool,
                                  all: seq<Parameter>, end: Spec.State)
    requires Spec.Live(tokens, s)
  {
    var rest := Spec.ParseParameterList(tokens, s);
    && rest.state == end
    && rest.Done? == done
    && (done ==> es + rest.value == all)
  }

  lemma ParametersBegin(tokens: seq<Token>, s: Spec.State)
    requires Spec.Live(tokens, s)
    ensures var whole := Spec.ParseParameterList(tokens, s);
            ParametersSoFar(tokens, s, [], whole.Done?, if whole.Done? then whole.value else [], whole.state)
  {
    hide EndsInOnlyEndOfFile, Spec.ParseParameterList;
    var whole := Spec.ParseParameterList(tokens, s);
    if whole.Done? {
      assert [] + whole.value == whole.value;
    }
  }

  lemma ParametersStep(tokens: seq<Token>, s: Spec.State, es: seq<Parameter>, done: bool, all: seq<Parameter>,
                       end: Spec.State)
    requires Spec.Live(tokens, s) && ParametersSoFar(tokens, s, es, done, all, end)
    ensures var r := Spec.ParseParameter(tokens, s);
            if r.Thrown? then !done && end == r.state
            else if Spec.Kind(tokens, r.state) == Comma then
              ParametersSoFar(tokens, Spec.Advance(tokens, r.state), es + [r.value], done, all, end)
            else done && end == r.state && all == es + [r.value]
  {
    hide Spec.ParseParameter, Spec.ParseParameterList, EndsInOnlyEndOfFile, NamesNotEmpty;
    Spec.ParameterListCases(tokens, s);
    var r := Spec.ParseParameter(tokens, s);
    if r.Done? && Spec.Kind(tokens, r.state) == Comma {
      var rest := Spec.ParseParameterList(tokens, Spec.Advance(tokens, r.state));
      if rest.Done? {
        assert es + ([r.value] + rest.value) == es + [r.value] + rest.value;
      }
    }
  }

  ghost predicate OutputsSoFar(tokens: seq<Token>, s: Spec.State, es: seq<Output>, done: bool, all: seq<Output>,
                               end: Spec.State)
    requires Spec.Live(tokens, s)
  {
    var rest := Spec.ParseOutputList(tokens, s);
    && rest.state == end
    && rest.Done? == done
    && (done ==> es + rest.value == all)
  }

  lemma OutputsBegin(tokens: seq<Token>, s: Spec.State)
    requires Spec.Live(tokens, s)
    ensures var whole := Spec.ParseOutputList(tokens, s);
            OutputsSoFar(tokens, s, [], whole.Done?, if whole.Done? then whole.value else [], whole.state)
  {
    hide EndsInOnlyEndOfFile, Spec.ParseOutputList;
    var whole := Spec.ParseOutputList(tokens, s);
    if whole.Done? {
      assert [] + whole.value == whole.value;
    }
  }

  lemma OutputsStep(tokens: seq<Token>, s: Spec.State, es: seq<Output>, done: bool, all: seq<Output>, end: Spec.State)
    requires Spec.Live(tokens, s) && OutputsSoFar(tokens, s, es, done, all, end)
    ensures var r := Spec.ParseOutput(tokens, s);
            if r.Thrown? then !done && end == r.state
            else if Spec.Kind(tokens, r.state) == Comma then
              OutputsSoFar(tokens, Spec.Advance(tokens, r.state), es + [r.value], done, all, end)
            else done && end == r.state && all == es + [r.value]
  {
    hide Spec.ParseOutput, Spec.ParseOutputList, EndsInOnlyEndOfFile, NamesNotEmpty;
    Spec.OutputListCases(tokens, s);
    var r := Spec.ParseOutput(tokens, s);
    if r.Done? && Spec.Kind(tokens, r.state) == Comma {
      var rest := Spec.ParseOutputList(tokens, Spec.Advance(tokens, r.state));
      if rest.Done? {
        assert es + ([r.value] + rest.value) == es + [r.value] + rest.value;
      }
    }
  }

  ghost predicate DefinitionsSoFar(tokens: seq<Token>, s: Spec.State, ds: seq<Definition>,
                                   all: seq<Definition>, end: Spec.State)
    requires Spec.Live(tokens, s)
  {
    var rest := Spec.ParseDefinitions(tokens, s);
    ds + rest.0 == all && rest.1 == end
  }

  lemma DefinitionsBegin(tokens: seq<Token>, all: seq<Definition>, end: Spec.State)
    requires EndsInOnlyEndOfFile(tokens) && all == Spec.Run(tokens).0 && end == Spec.Run(tokens).1
    ensures DefinitionsSoFar(tokens, Spec.START, [], all, end)
  {
    hide EndsInOnlyEndOfFile, NamesNotEmpty, Spec.ParseDefinitions;
    assert [] + all == all;
  }

  lemma DefinitionsEnd(tokens: seq<Token>, s: Spec.State, ds: seq<Definition>, all: seq<Definition>, end: Spec.State)
    requires Spec.Live(tokens, s) && DefinitionsSoFar(tokens, s, ds, all, end)
    ensures Spec.Kind(tokens, s) == EndOfFile ==> ds == all && s == end
  {
    hide EndsInOnlyEndOfFile, NamesNotEmpty, Spec.ParseDefinition, Spec.RecoverAtDefinitionLevel;
  }

  /** One turn of the loop over definitions, with its handler. */
  lemma DefinitionsStep(tokens: seq<Token>, s: Spec.State, ds: seq<Definition>, all: seq<Definition>, end: Spec.State)
    requires Spec.Live(tokens, s) && DefinitionsSoFar(tokens, s, ds, all, end) && Spec.Kind(tokens, s) != EndOfFile
    ensures var r := Spec.ParseDefinition(tokens, s);
            if r.Done? then s.pos < r.state.pos && DefinitionsSoFar(tokens, r.state, ds + [r.value], all, end)
            else
              var s1 := r.state.(caught := r.state.caught + 1);
              var s2 := Spec.RecoverAtDefinitionLevel(tokens, s1);
              && s.pos < s2.pos
              && DefinitionsSoFar(tokens, s2, ds, all, end)
  {
    hide EndsInOnlyEndOfFile, NamesNotEmpty, Spec.ParseDefinition, Spec.RecoverAtDefinitionLevel;
    match Spec.ParseDefinition(tokens, s)
    case Done(d, s1) =>
      var rest := Spec.ParseDefinitions(tokens, s1).0;
      assert ds + ([d] + rest) == ds + [d] + rest;
    case Thrown(_) =>
  }

  ghost predicate BlockSoFar(tokens: seq<Token>, s: Spec.State, es: seq<Expr>, all: seq<Expr>, end: Spec.State)
    requires Spec.Live(tokens, s)
  {
    var rest := Spec.ParseBlock(tokens, s);
    es + rest.0 == all && rest.1 == end
  }

  lemma BlockBegins(tokens: seq<Token>, s: Spec.State, all: seq<Expr>, end: Spec.State)
    requires Spec.Live(tokens, s) && all == Spec.ParseBlock(tokens, s).0 && end == Spec.ParseBlock(tokens, s).1
    ensures BlockSoFar(tokens, s, [], all, end)
  {
    hide Spec.ParseBlock;
    assert [] + all == all;
  }

  lemma BlockEnds(tokens: seq<Token>, s: Spec.State, es: seq<Expr>, all: seq<Expr>, end: Spec.State)
    requires Spec.Live(tokens, s) && BlockSoFar(tokens, s, es, all, end)
    ensures Spec.Kind(tokens, s) == RBrace ==> es == all && Spec.Advance(tokens, s) == end
  {
    hide EndsInOnlyEndOfFile, Spec.ParseStatement, Spec.RecoverAtStatementLevel, Spec.Accounts;
  }

  /** One turn of the loop over statements, with its handler. */
  lemma BlockStep(tokens: seq<Token>, s: Spec.State, es: seq<Expr>, all: seq<Expr>, end: Spec.State)
    requires Spec.Live(tokens, s) && BlockSoFar(tokens, s, es, all, end) && Spec.Kind(tokens, s) != RBrace
    ensures var r := Spec.ParseStatement(tokens, s);
            if r.Done? then s.pos < r.state.pos && BlockSoFar(tokens, r.state, es + [r.value], all, end)
            else
              var s1 := r.state.(caught := r.state.caught + 1);
              var s2 := Spec.RecoverAtStatementLevel(tokens, s1).1;
              && s.pos <= s1.pos <= s2.pos
              && if Spec.RecoverAtStatementLevel(tokens, s1).0 then es == all && s2 == end
                 else (Spec.Kind(tokens, s2) == RBrace || s.pos < s2.pos) && BlockSoFar(tokens, s2, es, all, end)
  {
    hide EndsInOnlyEndOfFile, Spec.ParseStatement, Spec.RecoverAtStatementLevel, Spec.ParseExpression,
         Spec.ParseHead, Spec.ParseTails, Spec.ParseTail, Spec.ParseList;
    match Spec.ParseStatement(tokens, s)
    case Done(e, s1) =>
      var rest := Spec.ParseBlock(tokens, s1).0;
      assert es + ([e] + rest) == es + [e] + rest;
    case Thrown(_) =>
  }

  /** Recovery at definition level skips a token before it looks. */
  lemma SkippingStep(tokens: seq<Token>, s: Spec.State)
    requires Spec.Live(tokens, s)
    ensures var s1 := Spec.Advance(tokens, s);
            Spec.RecoverAtDefinitionLevel(tokens, s)
            == if Spec.IsRecoveryToken(Spec.Kind(tokens, s1)) then s1 else Spec.RecoverAtDefinitionLevel(tokens, s1)
  {
    hide EndsInOnlyEndOfFile, Spec.IsRecoveryToken;
  }

  lemma EndIsRecoveryToken()
    ensures Spec.IsRecoveryToken(EndOfFile)
  {
  }

  /** What recovery at statement level does at one token. */
  ghost predicate RecoveryDecides(tokens: seq<Token>, s: Spec.State)
    requires Spec.Live(tokens, s)
  {
    var kind, r := Spec.Kind(tokens, s), Spec.RecoverAtStatementLevel(tokens, s);
    if kind == EndOfFile then r == (true, s)
    else if kind == Semicolon then r == (false, Spec.Advance(tokens, s))
    else if kind == RBrace then r == (false, s)
    else r == Spec.RecoverAtStatementLevel(tokens, Spec.Advance(tokens, s))
  }

  lemma RecoveryStep(tokens: seq<Token>, s: Spec.State)
    requires Spec.Live(tokens, s)
    ensures RecoveryDecides(tokens, s)
  {
    hide EndsInOnlyEndOfFile;
  }

  /** A token with a tail rule is not the end of the file. */
  lemma TailIsNoEnd(tokens: seq<Token>, s: Spec.State)
    requires Spec.Live(tokens, s) && Spec.NextTailRule(tokens, s).tail != NoTail
    ensures Spec.Kind(tokens, s) != EndOfFile
  {
    hide EndsInOnlyEndOfFile, LookupTailRule;
    TablesAgree(Spec.Kind(tokens, s), Spec.ShiftAhead(tokens, s));
  }
}
