/** Whole programs: the parser accepts without an error exactly the printed programs, and gives back the program
    that was printed. */
module ParserPrograms {
  import opened Tokens
  import opened Ast
  import opened Grammar
  import opened ParserSpec
  import opened ParserSoundness
  import opened ParserCompleteness

  /** The token list is a spelling of the definitions, up to the end of the file. */
  ghost predicate Prints(ds: seq<Definition>, tokens: seq<Token>, i: nat) {
    Spelled(PrintProgram(ds), tokens, i) && i + |PrintProgram(ds)| == |tokens|
  }

  ghost predicate ShapedParameters(ps: seq<Parameter>) {
    forall k :: 0 <= k < |ps| ==> ShapedParameter(ps[k])
  }

  ghost predicate ShapedOutputs(os: seq<Output>) {
    forall k :: 0 <= k < |os| ==> ShapedOutput(os[k])
  }

  // ---------------------------------------------------------------- what is read is spelled

  lemma {:induction false} ParameterListSound(tokens: seq<Token>, s: State)
    requires Live(tokens, s)
    ensures var r := ParseParameterList(tokens, s);
            r.Done? ==>
              && r.value != [] && ShapedParameters(r.value)
              && SpelledBetween(PrintParameters(r.value), tokens, s, r.state)
    decreases |tokens| - s.pos
  {
    hide Spelled, EndsInOnlyEndOfFile, NamesNotEmpty;
    var r := ParseParameterList(tokens, s);
    var first := ParseParameter(tokens, s);
    if r.Done? {
      var p := first.value;
      var s1 := Advance(tokens, s);
      var typ, name := Text(Identifier, p.typ.offset, p.typ.length), Text(Identifier, p.name.offset, p.name.length);
      One(typ, tokens, s, s1);
      One(name, tokens, s1, first.state);
      if Kind(tokens, first.state) == Comma {
        var s2 := Advance(tokens, first.state);
        ParameterListSound(tokens, s2);
        var rest := ParseParameterList(tokens, s2);
        assert r.value[1..] == rest.value;
        One(Mark(Comma), tokens, first.state, s2);
        Join([Mark(Comma)], PrintParameters(rest.value), tokens, first.state, s2, r.state);
        Join([name], [Mark(Comma)] + PrintParameters(rest.value), tokens, s1, first.state, r.state);
        Join([typ], [name] + ([Mark(Comma)] + PrintParameters(rest.value)), tokens, s, s1, r.state);
      } else {
        Join([typ], [name], tokens, s, s1, r.state);
      }
    }
  }

  lemma {:induction false} OutputListSound(tokens: seq<Token>, s: State)
    requires Live(tokens, s)
    ensures var r := ParseOutputList(tokens, s);
            r.Done? ==>
              && r.value != [] && ShapedOutputs(r.value)
              && SpelledBetween(PrintOutputs(r.value), tokens, s, r.state)
    decreases |tokens| - s.pos
  {
    hide Spelled, EndsInOnlyEndOfFile, NamesNotEmpty;
    var r := ParseOutputList(tokens, s);
    var first := ParseOutput(tokens, s);
    if r.Done? {
      var typ := Text(Identifier, first.value.typ.offset, first.value.typ.length);
      One(typ, tokens, s, first.state);
      if Kind(tokens, first.state) == Comma {
        var s2 := Advance(tokens, first.state);
        OutputListSound(tokens, s2);
        var rest := ParseOutputList(tokens, s2);
        assert r.value[1..] == rest.value;
        One(Mark(Comma), tokens, first.state, s2);
        Join([Mark(Comma)], PrintOutputs(rest.value), tokens, first.state, s2, r.state);
        Join([typ], [Mark(Comma)] + PrintOutputs(rest.value), tokens, s, first.state, r.state);
      }
    }
  }

  function PrintSignature(ps: seq<Parameter>, os: seq<Output>): seq<Piece> {
    [Mark(LParen)] + (PrintParameters(ps) + ([Mark(RParen)] + (PrintArrow(os) + [Mark(LBrace)])))
  }

  lemma {:induction false} ParametersSound(tokens: seq<Token>, s: State)
    requires Live(tokens, s)
    ensures var r := ParseParameters(tokens, s);
            r.Done? ==>
              && ShapedParameters(r.value)
              && SpelledBetween(PrintParameters(r.value) + [Mark(RParen)], tokens, s, r.state)
  {
    hide Spelled, EndsInOnlyEndOfFile, NamesNotEmpty, ParseParameterList;
    var r := ParseParameters(tokens, s);
    if r.Done? {
      if Kind(tokens, s) == RParen {
        One(Mark(RParen), tokens, s, r.state);
        assert PrintParameters([]) + [Mark(RParen)] == [Mark(RParen)];
      } else {
        ParameterListSound(tokens, s);
        var list := ParseParameterList(tokens, s);
        One(Mark(RParen), tokens, list.state, r.state);
        Join(PrintParameters(list.value), [Mark(RParen)], tokens, s, list.state, r.state);
      }
    }
  }

  lemma {:induction false} OutputsSound(tokens: seq<Token>, s: State)
    requires Live(tokens, s)
    ensures var r := ParseOutputs(tokens, s);
            r.Done? ==> ShapedOutputs(r.value) && SpelledBetween(PrintArrow(r.value), tokens, s, r.state)
  {
    hide EndsInOnlyEndOfFile, NamesNotEmpty, ParseOutputList, PrintOutputs;
    var r := ParseOutputs(tokens, s);
    if r.Done? && Kind(tokens, s) == ThinArrow {
      var s1 := Advance(tokens, s);
      OutputListSound(tokens, s1);
      One(Mark(ThinArrow), tokens, s, s1);
      Join([Mark(ThinArrow)], PrintOutputs(r.value), tokens, s, s1, r.state);
    }
  }

  lemma {:induction false} SignatureSound(tokens: seq<Token>, s: State)
    requires Live(tokens, s)
    ensures var r := ParseSignature(tokens, s);
            r.Done? ==>
              && ShapedParameters(r.value.0) && ShapedOutputs(r.value.1)
              && SpelledBetween(PrintSignature(r.value.0, r.value.1), tokens, s, r.state)
  {
    hide Spelled, EndsInOnlyEndOfFile, NamesNotEmpty, ParseParameters, ParseOutputs, PrintParameters, PrintArrow,
         ShapedParameters, ShapedOutputs, PrintSignature;
    var r := ParseSignature(tokens, s);
    if r.Done? {
      var s1 := Advance(tokens, s);
      ParametersSound(tokens, s1);
      var ps := ParseParameters(tokens, s1);
      OutputsSound(tokens, ps.state);
      var os := ParseOutputs(tokens, ps.state);
      One(Mark(LParen), tokens, s, s1);
      One(Mark(LBrace), tokens, os.state, r.state);
      Join(PrintArrow(os.value), [Mark(LBrace)], tokens, ps.state, os.state, r.state);
      var end := PrintArrow(os.value) + [Mark(LBrace)];
      var start := PrintParameters(ps.value) + [Mark(RParen)];
      Join(start, end, tokens, s1, ps.state, r.state);
      Join([Mark(LParen)], start + end, tokens, s, s1, r.state);
      SignaturePieces(ps.value, os.value);
    }
  }

  lemma SignaturePieces(ps: seq<Parameter>, os: seq<Output>)
    ensures PrintSignature(ps, os)
            == [Mark(LParen)] + ((PrintParameters(ps) + [Mark(RParen)]) + (PrintArrow(os) + [Mark(LBrace)]))
  {
    hide PrintParameters, PrintArrow;
    var start, end := PrintParameters(ps), PrintArrow(os) + [Mark(LBrace)];
    assert start + [Mark(RParen)] + end == start + ([Mark(RParen)] + end);
  }

  lemma DefinitionPieces(d: Definition)
    ensures PrintDefinition(d)
            == PrintAccess(d) + (PrintName(d.name) + (PrintSignature(d.parameters, d.outputs) + PrintBlock(d.statements)))
  {
    hide PrintAccess, PrintName, PrintParameters, PrintArrow, PrintBlock;
    var body := PrintBlock(d.statements);
    var arrow := PrintArrow(d.outputs);
    var ps := PrintParameters(d.parameters);
    assert arrow + [Mark(LBrace)] + body == arrow + ([Mark(LBrace)] + body);
    assert [Mark(RParen)] + (arrow + [Mark(LBrace)]) + body == [Mark(RParen)] + (arrow + ([Mark(LBrace)] + body));
    assert ps + ([Mark(RParen)] + (arrow + [Mark(LBrace)])) + body
        == ps + ([Mark(RParen)] + (arrow + ([Mark(LBrace)] + body)));
    assert PrintSignature(d.parameters, d.outputs) + body
        == [Mark(LParen)] + (ps + ([Mark(RParen)] + (arrow + ([Mark(LBrace)] + body))));
  }

  lemma {:induction false} DefinitionSound(tokens: seq<Token>, s: State)
    requires Live(tokens, s)
    ensures var r := ParseDefinition(tokens, s);
            r.Done? ==>
              && ShapedDefinition(r.value)
              && (r.state.caught == s.caught ==> SpelledBetween(PrintDefinition(r.value), tokens, s, r.state))
  {
    hide EndsInOnlyEndOfFile, NamesNotEmpty, ParseSignature, ParseBlock, PrintSignature, PrintBlock, PrintDefinition,
         Spelled;
    var r := ParseDefinition(tokens, s);
    if r.Done? {
      var d := r.value;
      var (_, s1) := ParseAccess(tokens, s);
      var s2 := Advance(tokens, s1);
      SignatureSound(tokens, s2);
      var signature := ParseSignature(tokens, s2);
      BlockSound(tokens, signature.state);
      if r.state.caught == s.caught {
        AccessSpelled(tokens, s, d);
        One(Text(Identifier, d.name.offset, d.name.length), tokens, s1, s2);
        Join(PrintSignature(d.parameters, d.outputs), PrintBlock(d.statements), tokens, s2, signature.state, r.state);
        Join(PrintName(d.name), PrintSignature(d.parameters, d.outputs) + PrintBlock(d.statements), tokens, s1, s2,
             r.state);
        Join(PrintAccess(d), PrintName(d.name) + (PrintSignature(d.parameters, d.outputs) + PrintBlock(d.statements)),
             tokens, s, s1, r.state);
        DefinitionPieces(d);
      }
    }
  }

  lemma AccessSpelled(tokens: seq<Token>, s: State, d: Definition)
    requires Live(tokens, s) && d.access == ParseAccess(tokens, s).0 && d.offset == tokens[s.pos].offset
    ensures SpelledBetween(PrintAccess(d), tokens, s, ParseAccess(tokens, s).1)
  {
  }

  lemma {:induction false} DefinitionsSound(tokens: seq<Token>, s: State)
    requires Live(tokens, s)
    ensures var r := ParseDefinitions(tokens, s);
            && ShapedProgram(r.0)
            && (r.1.caught == s.caught ==> Prints(r.0, tokens, s.pos))
    decreases |tokens| - s.pos
  {
    hide NamesNotEmpty, EndsInOnlyEndOfFile, ParseDefinition, PrintDefinition, Spelled, ShapedDefinition,
         RecoverAtDefinitionLevel;
    var r := ParseDefinitions(tokens, s);
    if Kind(tokens, s) == EndOfFile {
      One(Mark(EndOfFile), tokens, s, s.(pos := s.pos + 1));
    } else {
      hide ParseDefinitions;
      DefinitionSound(tokens, s);
      match ParseDefinition(tokens, s)
      case Done(d, s1) =>
        DefinitionsGoOn(tokens, s, d, s1);
        DefinitionsMove(tokens, s1);
        DefinitionsSound(tokens, s1);
        var rest := ParseDefinitions(tokens, s1);
        assert r.0[1..] == rest.0;
        if r.1.caught == s.caught {
          Join(PrintDefinition(d), PrintProgram(rest.0), tokens, s, s1, s.(pos := |tokens|));
        }
      case Thrown(s1) =>
        DefinitionsRecover(tokens, s, s1);
        var s2 := RecoverAtDefinitionLevel(tokens, s1.(caught := s1.caught + 1));
        DefinitionsMove(tokens, s2);
        DefinitionsSound(tokens, s2);
    }
  }

  // ---------------------------------------------------------------- what is spelled is read

  lemma ParameterComplete(tokens: seq<Token>, s: State, p: Parameter)
    requires ShapedParameter(p) && Ahead(Print(p.typ) + PrintName(p.name), tokens, s)
    ensures ParseParameter(tokens, s) == Done(p, Past(s, Print(p.typ) + PrintName(p.name)))
  {
    hide Spelled, EndsInOnlyEndOfFile, NamesNotEmpty;
    var typ, name := Text(Identifier, p.typ.offset, p.typ.length), Text(Identifier, p.name.offset, p.name.length);
    assert Print(p.typ) == [typ];
    Split([typ], [name], tokens, s);
    First(typ, tokens, s);
    First(name, tokens, Past(s, [typ]));
  }

  lemma {:induction false} ParameterListComplete(tokens: seq<Token>, s: State, ps: seq<Parameter>)
    requires ps != [] && ShapedParameters(ps) && Ahead(PrintParameters(ps), tokens, s)
    requires Kind(tokens, Past(s, PrintParameters(ps))) != Comma
    ensures ParseParameterList(tokens, s) == Done(ps, Past(s, PrintParameters(ps)))
    decreases ps
  {
    hide Spelled, EndsInOnlyEndOfFile, NamesNotEmpty, SignatureStep, ParseParameter, ParseParameterList, Print,
         PrintName, ShapedParameter;
    ParameterListCases(tokens, s);
    var p := ps[0];
    var pieces := Print(p.typ) + PrintName(p.name);
    var s2 := Past(s, pieces);
    if |ps| == 1 {
      assert ps == [p];
      ParameterComplete(tokens, s, p);
    } else {
      var rest := PrintParameters(ps[1..]);
      assert PrintParameters(ps) == pieces + ([Mark(Comma)] + rest);
      Split(pieces, [Mark(Comma)] + rest, tokens, s);
      Split([Mark(Comma)], rest, tokens, s2);
      ParameterComplete(tokens, s, p);
      First(Mark(Comma), tokens, s2);
      ParameterListComplete(tokens, Past(s2, [Mark(Comma)]), ps[1..]);
      assert ps == [p] + ps[1..];
    }
  }

  lemma OutputComplete(tokens: seq<Token>, s: State, o: Output)
    requires ShapedOutput(o) && Ahead(Print(o.typ), tokens, s)
    ensures ParseOutput(tokens, s) == Done(o, Past(s, Print(o.typ)))
  {
    hide Spelled, EndsInOnlyEndOfFile, NamesNotEmpty, SignatureStep;
    var typ := Text(Identifier, o.typ.offset, o.typ.length);
    assert Print(o.typ) == [typ];
    First(typ, tokens, s);
  }

  lemma {:induction false} OutputListComplete(tokens: seq<Token>, s: State, os: seq<Output>)
    requires os != [] && ShapedOutputs(os) && Ahead(PrintOutputs(os), tokens, s)
    requires Kind(tokens, Past(s, PrintOutputs(os))) != Comma
    ensures ParseOutputList(tokens, s) == Done(os, Past(s, PrintOutputs(os)))
    decreases os
  {
    hide Spelled, EndsInOnlyEndOfFile, NamesNotEmpty, SignatureStep, ParseOutput, ParseOutputList, Print, ShapedOutput;
    var o := os[0];
    OutputListCases(tokens, s);
    if |os| == 1 {
      assert os == [o];
      OutputComplete(tokens, s, o);
    } else {
      OutputsSplit(tokens, s, os);
      OutputComplete(tokens, s, o);
      hide PrintOutputs;
      OutputListComplete(tokens, Advance(tokens, Past(s, Print(o.typ))), os[1..]);
      assert os == [o] + os[1..];
    }
  }

  lemma OutputsSplit(tokens: seq<Token>, s: State, os: seq<Output>)
    requires |os| > 1 && Ahead(PrintOutputs(os), tokens, s)
    ensures Ahead(Print(os[0].typ), tokens, s)
    ensures var t := Past(s, Print(os[0].typ));
            && Live(tokens, t) && Kind(tokens, t) == Comma
            && Ahead(PrintOutputs(os[1..]), tokens, Advance(tokens, t))
            && Past(Advance(tokens, t), PrintOutputs(os[1..])) == Past(s, PrintOutputs(os))
  {
    hide Spelled, EndsInOnlyEndOfFile, NamesNotEmpty, Print;
    var rest := PrintOutputs(os[1..]);
    var t := Past(s, Print(os[0].typ));
    Split(Print(os[0].typ), [Mark(Comma)] + rest, tokens, s);
    Split([Mark(Comma)], rest, tokens, t);
    First(Mark(Comma), tokens, t);
  }

  lemma {:induction false} ParametersComplete(tokens: seq<Token>, s: State, ps: seq<Parameter>)
    requires ShapedParameters(ps) && Ahead(PrintParameters(ps) + [Mark(RParen)], tokens, s)
    ensures ParseParameters(tokens, s) == Done(ps, Past(s, PrintParameters(ps) + [Mark(RParen)]))
  {
    hide EndsInOnlyEndOfFile, NamesNotEmpty, ParseParameterList, SignatureStep;
    Split(PrintParameters(ps), [Mark(RParen)], tokens, s);
    First(Mark(RParen), tokens, Past(s, PrintParameters(ps)));
    if ps != [] {
      assert Fits(PrintParameters(ps)[0], tokens, s.pos + 0);
      ParameterListComplete(tokens, s, ps);
    }
  }

  lemma {:induction false} OutputsComplete(tokens: seq<Token>, s: State, os: seq<Output>)
    requires ShapedOutputs(os) && Ahead(PrintArrow(os) + [Mark(LBrace)], tokens, s)
    ensures ParseOutputs(tokens, s) == Done(os, Past(s, PrintArrow(os)))
    ensures Ahead([Mark(LBrace)], tokens, Past(s, PrintArrow(os)))
  {
    hide Spelled, EndsInOnlyEndOfFile, NamesNotEmpty, ParseOutputList;
    Split(PrintArrow(os), [Mark(LBrace)], tokens, s);
    First(Mark(LBrace), tokens, Past(s, PrintArrow(os)));
    if os != [] {
      Split([Mark(ThinArrow)], PrintOutputs(os), tokens, s);
      First(Mark(ThinArrow), tokens, s);
      OutputListComplete(tokens, Advance(tokens, s), os);
    }
  }

  lemma {:induction false} SignatureComplete(tokens: seq<Token>, s: State, ps: seq<Parameter>, os: seq<Output>)
    requires ShapedParameters(ps) && ShapedOutputs(os) && Ahead(PrintSignature(ps, os), tokens, s)
    ensures ParseSignature(tokens, s) == Done((ps, os), Past(s, PrintSignature(ps, os)))
  {
    hide Spelled, EndsInOnlyEndOfFile, NamesNotEmpty, ParseParameters, ParseOutputs, PrintParameters, PrintArrow,
         ShapedParameters, ShapedOutputs, PrintSignature;
    var start, end := PrintParameters(ps) + [Mark(RParen)], PrintArrow(os) + [Mark(LBrace)];
    SignaturePieces(ps, os);
    Split([Mark(LParen)], start + end, tokens, s);
    First(Mark(LParen), tokens, s);
    var s1 := Advance(tokens, s);
    Split(start, end, tokens, s1);
    ParametersComplete(tokens, s1, ps);
    OutputsComplete(tokens, Past(s1, start), os);
    First(Mark(LBrace), tokens, Past(Past(s1, start), PrintArrow(os)));
  }

  lemma {:induction false} DefinitionComplete(tokens: seq<Token>, s: State, d: Definition)
    requires ShapedDefinition(d) && Ahead(PrintDefinition(d), tokens, s)
    ensures Kind(tokens, s) != EndOfFile
    ensures ParseDefinition(tokens, s) == Done(d, Past(s, PrintDefinition(d)))
  {
    hide Spelled, EndsInOnlyEndOfFile, NamesNotEmpty, ParseSignature, ParseBlock, PrintSignature, PrintBlock,
         PrintDefinition;
    DefinitionPieces(d);
    var name, signature, body := PrintName(d.name), PrintSignature(d.parameters, d.outputs), PrintBlock(d.statements);
    Split(PrintAccess(d), name + (signature + body), tokens, s);
    var s1 := Past(s, PrintAccess(d));
    Split(name, signature + body, tokens, s1);
    First(Text(Identifier, d.name.offset, d.name.length), tokens, s1);
    AccessComplete(tokens, s, d);
    var s2 := Past(s1, name);
    Split(signature, body, tokens, s2);
    SignatureComplete(tokens, s2, d.parameters, d.outputs);
    BlockComplete(tokens, Past(s2, signature), d.statements);
  }

  lemma AccessComplete(tokens: seq<Token>, s: State, d: Definition)
    requires ShapedDefinition(d) && Ahead(PrintAccess(d), tokens, s)
    requires tokens[s.pos + |PrintAccess(d)|].kind == Identifier
    requires tokens[s.pos + |PrintAccess(d)|].offset == d.name.offset
    ensures ParseAccess(tokens, s) == (d.access, Past(s, PrintAccess(d)))
    ensures tokens[s.pos].offset == d.offset && Kind(tokens, s) != EndOfFile
  {
    hide EndsInOnlyEndOfFile, Spelled, ShapedBlock, ShapedParameter, ShapedOutput;
    if d.access != NoModifier {
      First(PrintAccess(d)[0], tokens, s);
    }
  }

  lemma {:induction false} DefinitionsComplete(tokens: seq<Token>, s: State, ds: seq<Definition>)
    requires Live(tokens, s) && ShapedProgram(ds) && Prints(ds, tokens, s.pos)
    ensures ParseDefinitions(tokens, s) == (ds, s.(pos := |tokens| - 1))
    decreases ds
  {
    hide NamesNotEmpty, ParseDefinition, PrintDefinition, ShapedDefinition, RecoverAtDefinitionLevel,
         EndsInOnlyEndOfFile;
    if ds == [] {
      assert PrintProgram(ds) == [Mark(EndOfFile)];
      assert Fits(PrintProgram(ds)[0], tokens, s.pos + 0);
    } else {
      ProgramNotEmpty(ds[1..]);
      SpelledConcat(PrintDefinition(ds[0]), PrintProgram(ds[1..]), tokens, s.pos);
      DefinitionComplete(tokens, s, ds[0]);
      DefinitionsComplete(tokens, Past(s, PrintDefinition(ds[0])), ds[1..]);
      assert ds == [ds[0]] + ds[1..];
    }
  }

  lemma {:induction false} ProgramNotEmpty(ds: seq<Definition>)
    ensures PrintProgram(ds) != []
  {
    if ds != [] {
      ProgramNotEmpty(ds[1..]);
    }
  }

  // ---------------------------------------------------------------- main results

  /** Silent acceptance is lossless: a run that catches no error has read a spelling of the definitions it returns. */
  lemma {:induction false} AcceptedIsPrinted(tokens: seq<Token>)
    requires EndsInOnlyEndOfFile(tokens) && Run(tokens).1.caught == 0
    ensures ShapedProgram(Run(tokens).0) && Prints(Run(tokens).0, tokens, 0)
  {
    DefinitionsSound(tokens, START);
  }

  /** Every printed program parses back to itself with nothing reported. */
  lemma {:induction false} PrintedIsAccepted(tokens: seq<Token>, ds: seq<Definition>)
    requires EndsInOnlyEndOfFile(tokens) && ShapedProgram(ds) && Prints(ds, tokens, 0)
    ensures Run(tokens) == (ds, State(|tokens| - 1, [], 0))
  {
    DefinitionsComplete(tokens, START, ds);
  }

  /** The parser keeps quiet on exactly the printed programs, provided no identifier behind an identifier is empty. */
  lemma {:induction false} SilentExactlyOnPrograms(tokens: seq<Token>)
    requires EndsInOnlyEndOfFile(tokens) && NamesNotEmpty(tokens)
    ensures Run(tokens).1.reports == [] <==> exists ds :: ShapedProgram(ds) && Prints(ds, tokens, 0)
  {
    if Run(tokens).1.reports == [] {
      AcceptedIsPrinted(tokens);
    }
    forall ds | ShapedProgram(ds) && Prints(ds, tokens, 0)
      ensures Run(tokens).1.reports == []
    {
      PrintedIsAccepted(tokens, ds);
    }
  }

  /** Without that provision: nothing is caught on exactly the printed programs. */
  lemma {:induction false} NothingCaughtExactlyOnPrograms(tokens: seq<Token>)
    requires EndsInOnlyEndOfFile(tokens)
    ensures Run(tokens).1.caught == 0 <==> exists ds :: ShapedProgram(ds) && Prints(ds, tokens, 0)
  {
    hide Run, ShapedProgram, Prints;
    if Run(tokens).1.caught == 0 {
      AcceptedIsPrinted(tokens);
    }
    forall ds | ShapedProgram(ds) && Prints(ds, tokens, 0)
      ensures Run(tokens).1.caught == 0
    {
      PrintedIsAccepted(tokens, ds);
    }
  }

  /** No token list is a spelling of two programs of the language. */
  lemma {:induction false} Unambiguous(tokens: seq<Token>, ds: seq<Definition>, es: seq<Definition>)
    requires EndsInOnlyEndOfFile(tokens)
    requires ShapedProgram(ds) && Prints(ds, tokens, 0) && ShapedProgram(es) && Prints(es, tokens, 0)
    ensures ds == es
  {
    PrintedIsAccepted(tokens, ds);
    PrintedIsAccepted(tokens, es);
  }

  /** Whatever was read, every tree in the result is a tree of the language. */
  lemma {:induction false} ResultIsShaped(tokens: seq<Token>)
    requires EndsInOnlyEndOfFile(tokens)
    ensures ShapedProgram(Run(tokens).0)
  {
    DefinitionsSound(tokens, START);
  }

  /** A function name, a parenthesis, and a parameter whose name is an empty identifier token. */
  function NamelessParameter(): seq<Token> {
    [Token(Identifier, 0, 1), Token(LParen, 1, 0), Token(Identifier, 2, 1), Token(Identifier, 3, 0), Token(EndOfFile, 4, 0)]
  }

  lemma NamelessEnds()
    ensures EndsInOnlyEndOfFile(NamelessParameter())
  {
  }

  lemma NamelessTypeReads()
    ensures EndsInOnlyEndOfFile(NamelessParameter())
    ensures ParseType(NamelessParameter(), State(2, [], 0), ExpectParameterType) == Done(Ident(2, 1), State(3, [], 0))
  {
    hide NamesNotEmpty, SignatureStep, EndsInOnlyEndOfFile;
    NamelessEnds();
  }

  lemma NamelessParameterThrows()
    ensures EndsInOnlyEndOfFile(NamelessParameter())
    ensures ParseParameter(NamelessParameter(), State(2, [], 0)) == Thrown(State(4, [], 0))
  {
    hide NamesNotEmpty, SignatureStep, EndsInOnlyEndOfFile, ParseType;
    NamelessTypeReads();
  }

  lemma NamelessParametersThrow()
    ensures EndsInOnlyEndOfFile(NamelessParameter())
    ensures ParseParameters(NamelessParameter(), State(2, [], 0)) == Thrown(State(4, [], 0))
  {
    hide NamesNotEmpty, SignatureStep, ParseParameter;
    NamelessParameterThrows();
    assert ParseParameterList(NamelessParameter(), State(2, [], 0)) == Thrown(State(4, [], 0));
  }

  lemma NamelessSignatureThrows()
    ensures EndsInOnlyEndOfFile(NamelessParameter())
    ensures ParseSignature(NamelessParameter(), State(1, [], 0)) == Thrown(State(4, [], 0))
  {
    hide NamesNotEmpty, SignatureStep, ParseParameters, ParseOutputs;
    NamelessParametersThrow();
  }

  lemma NamelessDefinitionThrows()
    ensures EndsInOnlyEndOfFile(NamelessParameter())
    ensures ParseDefinition(NamelessParameter(), START) == Thrown(State(4, [], 0))
  {
    hide NamesNotEmpty, SignatureStep, ParseSignature, ParseBlock;
    NamelessSignatureThrows();
  }

  lemma NamelessRun()
    ensures EndsInOnlyEndOfFile(NamelessParameter())
    ensures Run(NamelessParameter()) == ([], State(4, [], 1))
  {
    hide ParseDefinition;
    NamelessDefinitionThrows();
    assert RecoverAtDefinitionLevel(NamelessParameter(), State(4, [], 1)) == State(4, [], 1);
  }

  /** Why the provision is there: an empty identifier token as a parameter name is thrown away without a word. */
  lemma EmptyNameIsDroppedSilently()
    ensures EndsInOnlyEndOfFile(NamelessParameter()) && Run(NamelessParameter()) == ([], State(4, [], 1))
    ensures !exists ds :: ShapedProgram(ds) && Prints(ds, NamelessParameter(), 0)
  {
    hide NamelessParameter, EndsInOnlyEndOfFile, Run, ShapedProgram, Prints;
    NamelessRun();
    forall ds | ShapedProgram(ds) ensures !Prints(ds, NamelessParameter(), 0) {
      if Prints(ds, NamelessParameter(), 0) {
        PrintedIsAccepted(NamelessParameter(), ds);
      }
    }
  }
}
