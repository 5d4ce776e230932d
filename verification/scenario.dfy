/** Concrete expansions: the enum of `examples/simple.rs`, the unit tests
    of `src/attrs.rs`, and one input per failure mode. */
module Scenario {
  import opened Wrappers
  import opened Syntax
  import opened Collections
  import opened Attrs
  import opened EnumDispatch

  const TestTrait := Path("TestTrait")

  /** `#[enum_dispatch(from)]` */
  const FromAttr := Attribute(EnumDispatchPath, List([Ident("from")]))

  /** `#[enum_dispatch(modifier = as_ref)]` */
  const AsRefAttr := Attribute(EnumDispatchPath, List([Ident("modifier"), Eq, Ident("as_ref")]))

  const VariantA := VariantDecl("A", Unnamed([Path("i32")]), [FromAttr])
  const VariantB := VariantDecl("B", Unnamed([Path("f32")]), [FromAttr])
  const VariantAny := VariantDecl("Any", Unnamed([Composite("Box<dyn TestTrait>")]), [AsRefAttr])

  /** `#[enum_dispatch(TestTrait)]` */
  const ContainerAttr := Attribute(EnumDispatchPath, List([Ident("TestTrait")]))

  /** `#[function(fn test(&self))]` */
  const TestFunctionAttr := Attribute(FunctionPath, List([FnKw, Ident("test"), Paren([Receiver(true, false)])]))

  /** `enum TestEnum { A(i32), B(f32), Any(Box<dyn TestTrait>) }` with its attributes. */
  const SimpleInput := DeriveInput("TestEnum", Enum([VariantA, VariantB, VariantAny]), [ContainerAttr, TestFunctionAttr])

  lemma SimpleVariants()
    ensures TryFromVariant(VariantA) == Success(ParsedVariant("A", Path("i32"), VariantAttribute(true, None)))
    ensures TryFromVariant(VariantB) == Success(ParsedVariant("B", Path("f32"), VariantAttribute(true, None)))
    ensures TryFromVariant(VariantAny) == Success(ParsedVariant("Any", Composite("Box<dyn TestTrait>"), VariantAttribute(false, Some(AsRef))))
  {
    VariantArgsAcceptRendered([FromFlag], false);
    assert Render([FromFlag], false) == [Ident("from")];
    VariantArgsAcceptRendered([SetModifier(AsRef)], false);
    assert Render([SetModifier(AsRef)], false) == [Ident("modifier"), Eq, Ident("as_ref")];
  }

  const ParsedA := ParsedVariant("A", Path("i32"), VariantAttribute(true, None))
  const ParsedB := ParsedVariant("B", Path("f32"), VariantAttribute(true, None))
  const ParsedAny := ParsedVariant("Any", Composite("Box<dyn TestTrait>"), VariantAttribute(false, Some(AsRef)))

  /** `fn test(&self)` once parsed. */
  const TestFunction := FunctionAttribute("test", Ref(false, Path("self")), [], None)

  lemma SimpleParsedVariants()
    ensures ParseVariants(SimpleInput.data.variants) == Success([ParsedA, ParsedB, ParsedAny])
  {
    SimpleVariants();
    var decls := SimpleInput.data.variants;
    assert decls[0] == VariantA && decls[1] == VariantB && decls[2] == VariantAny && |decls| == 3;
    var vr := CollectResults(decls, TryFromVariant);
    assert vr.Success?;
    assert |vr.value| == 3 && vr.value[0] == ParsedA && vr.value[1] == ParsedB && vr.value[2] == ParsedAny;
    assert vr.value == [ParsedA, ParsedB, ParsedAny];
  }

  lemma SimpleFunctionBodies()
    ensures FunctionBodies(SimpleInput) == [TestFunctionAttr.args]
  {
    FilterMapAppend([ContainerAttr], [TestFunctionAttr], FunctionAttrArgs);
    FilterMapSingle(ContainerAttr, FunctionAttrArgs);
    FilterMapSingle(TestFunctionAttr, FunctionAttrArgs);
    assert FunctionAttrArgs(ContainerAttr) == None by {
      assert EnumDispatchPath[0] != FunctionPath[0];
    }
    assert SimpleInput.attrs == [ContainerAttr] + [TestFunctionAttr];
  }

  lemma SimpleTestFunction()
    ensures ParseFunctionArgs(TestFunctionAttr.args) == Success(TestFunction)
  {
    var d := Declared("test", [Receiver(true, false)], None);
    DeclaredParsed(d, []);
    assert SignatureTokens(d) + [] == TestFunctionAttr.args.tokens;
    assert |d.params| - 1 == 0;
  }

  lemma SimpleFunctions()
    ensures ParseFunctions(SimpleInput) == Success([TestFunction])
  {
    SimpleFunctionBodies();
    SimpleTestFunction();
    var fr := CollectResults([TestFunctionAttr.args], ParseFunctionArgs);
    assert fr.Success? && |fr.value| == 1 && fr.value[0] == TestFunction;
    assert fr.value == [TestFunction];
  }

  lemma SimpleFromImpls()
    ensures FromImpls([ParsedA, ParsedB, ParsedAny], "TestEnum") ==
            [FromImpl(Path("i32"), "TestEnum", "A"), FromImpl(Path("f32"), "TestEnum", "B")]
  {
    var e := "TestEnum";
    assert [ParsedA, ParsedB, ParsedAny] == [ParsedA] + ([ParsedB] + [ParsedAny]);
    FromImplsAppend([ParsedA], [ParsedB] + [ParsedAny], e);
    FromImplsAppend([ParsedB], [ParsedAny], e);
    FromImplsSingle(ParsedA, e);
    FromImplsSingle(ParsedB, e);
    FromImplsSingle(ParsedAny, e);
  }

  lemma SimpleContainer()
    ensures ContainerOf(SimpleInput) == Success(TestTrait)
  {
  }

  lemma SimpleGenerate()
    ensures Generate(TestTrait, "TestEnum", [TestFunction], [ParsedA, ParsedB, ParsedAny]) ==
            Output(TestTrait, "TestEnum",
                   [ForwardingFn(TestFunction, [ParsedA, ParsedB, ParsedAny], TestTrait)],
                   FromImpls([ParsedA, ParsedB, ParsedAny], "TestEnum"))
  {
    var vs := [ParsedA, ParsedB, ParsedAny];
    var g := Generate(TestTrait, "TestEnum", [TestFunction], vs);
    assert g.fns == [ForwardingFn(TestFunction, vs, TestTrait)];
  }

  lemma SimpleExpandsToParts()
    ensures Expand(SimpleInput) == Success(Output(TestTrait, "TestEnum",
              [ForwardingFn(TestFunction, [ParsedA, ParsedB, ParsedAny], TestTrait)],
              FromImpls([ParsedA, ParsedB, ParsedAny], "TestEnum")))
  {
    SimpleParsedVariants();
    SimpleFunctions();
    SimpleContainer();
    ExpandFromParts(SimpleInput, TestTrait, [TestFunction], [ParsedA, ParsedB, ParsedAny]);
    SimpleGenerate();
  }

  lemma SimpleForwardingFn()
    ensures ForwardingFn(TestFunction, [ParsedA, ParsedB, ParsedAny], TestTrait) ==
              FnDecl(Signature("test", Ref(false, Path("self")), [], None),
                     [Arm("A", TestTrait, "test", Inner, []),
                      Arm("B", TestTrait, "test", Inner, []),
                      Arm("Any", TestTrait, "test", InnerAsRef, [])])
  {
    var d := ForwardingFn(TestFunction, [ParsedA, ParsedB, ParsedAny], TestTrait);
    assert RenderSignature(TestFunction).params == [];
    assert d.arms[0] == Arm("A", TestTrait, "test", Inner, []);
    assert d.arms[1] == Arm("B", TestTrait, "test", Inner, []);
    assert d.arms[2] == Arm("Any", TestTrait, "test", InnerAsRef, []);
  }

  /** The expansion of `examples/simple.rs`: `impl TestTrait for TestEnum`
      with one `test(&self)` whose arms call `TestTrait::test(inner)`,
      `TestTrait::test(inner)` and `TestTrait::test(inner.as_ref())`, then
      `From<i32>` and `From<f32>`. */
  lemma SimpleExpansion()
    ensures Expand(SimpleInput) == Success(Output(TestTrait, "TestEnum",
              [FnDecl(Signature("test", Ref(false, Path("self")), [], None),
                      [Arm("A", TestTrait, "test", Inner, []),
                       Arm("B", TestTrait, "test", Inner, []),
                       Arm("Any", TestTrait, "test", InnerAsRef, [])])],
              [FromImpl(Path("i32"), "TestEnum", "A"), FromImpl(Path("f32"), "TestEnum", "B")]))
  {
    SimpleExpandsToParts();
    SimpleForwardingFn();
    SimpleFromImpls();
  }

  // ---------------------------------------------------------------------
  // The unit tests of src/attrs.rs
  // ---------------------------------------------------------------------

  const U8 := Path("u8")

  /** `fn test(self, param1: u8, param2: u8) -> u8` */
  const TestWithReturn := Declared("test", [Receiver(false, false), Typed(PIdent("param1"), U8), Typed(PIdent("param2"), U8)], Some(U8))

  /** `fn test(&self, param: u8, param2: u8)` */
  const TestNoReturn := Declared("test", [Receiver(true, false), Typed(PIdent("param"), U8), Typed(PIdent("param2"), U8)], None)

  /** A receiver followed by two named `u8` parameters, as both tests write it. */
  lemma ReceiverAndTwoParams(name: string, recv: RawParam, n1: string, n2: string, ret: Option<Ty>)
    requires recv.Receiver?
    ensures ParseFunctionArgs(List(SignatureTokens(Declared(name, [recv, Typed(PIdent(n1), U8), Typed(PIdent(n2), U8)], ret)))) ==
              Success(FunctionAttribute(name, ParseParam(recv).value.ty, [FunctionParam(Some(n1), U8), FunctionParam(Some(n2), U8)], ret))
  {
    var d := Declared(name, [recv, Typed(PIdent(n1), U8), Typed(PIdent(n2), U8)], ret);
    DeclaredParsed(d, []);
    assert SignatureTokens(d) + [] == SignatureTokens(d);
    var rest := seq(|d.params| - 1, i requires 0 <= i < |d.params| - 1 => ParseParam(d.params[i + 1]).value);
    assert rest[0] == FunctionParam(Some(n1), U8) && rest[1] == FunctionParam(Some(n2), U8);
    assert rest == [FunctionParam(Some(n1), U8), FunctionParam(Some(n2), U8)];
  }

  lemma FunctionAttributeWithReturn()
    ensures ParseFunctionArgs(List(SignatureTokens(TestWithReturn))) ==
              Success(FunctionAttribute("test", Path("self"), [FunctionParam(Some("param1"), U8), FunctionParam(Some("param2"), U8)], Some(U8)))
  {
    ReceiverAndTwoParams("test", Receiver(false, false), "param1", "param2", Some(U8));
  }

  lemma FunctionAttributeNoReturn()
    ensures ParseFunctionArgs(List(SignatureTokens(TestNoReturn))) ==
              Success(FunctionAttribute("test", Ref(false, Path("self")), [FunctionParam(Some("param"), U8), FunctionParam(Some("param2"), U8)], None))
  {
    ReceiverAndTwoParams("test", Receiver(true, false), "param", "param2", None);
  }

  // ---------------------------------------------------------------------
  // Failure modes
  // ---------------------------------------------------------------------

  /** `fn test(param: u8)`: the first parameter is not a receiver. */
  lemma NoReceiverRejected()
    ensures ParseFunctionArgs(List(SignatureTokens(Declared("test", [Typed(PIdent("param"), U8)], None)))) == Failure(ExpectedSelfParam)
  {
    var d := Declared("test", [Typed(PIdent("param"), U8)], None);
    ParseDeclared(d, []);
    assert SignatureTokens(d) + [] == SignatureTokens(d);
  }

  lemma PairVariantRejected()
    ensures ParseVariants([VariantA, VariantDecl("Pair", Unnamed([U8, U8]), [])]) == Failure(UnnamedFieldsOnly("Pair"))
  {
    SimpleVariants();
    var vs := [VariantA, VariantDecl("Pair", Unnamed([U8, U8]), [])];
    assert TryFromVariant(vs[1]) == Failure(UnnamedFieldsOnly("Pair"));
    assert TryFromVariant(vs[0]).Success?;
  }

  /** A variant with two unnamed fields is rejected at that variant. */
  lemma TwoFieldVariantRejected()
    ensures Expand(SimpleInput.(data := Enum([VariantA, VariantDecl("Pair", Unnamed([U8, U8]), [])]))) ==
              Failure(UnnamedFieldsOnly("Pair"))
  {
    var input := SimpleInput.(data := Enum([VariantA, VariantDecl("Pair", Unnamed([U8, U8]), [])]));
    SimpleFunctions();
    SimpleContainer();
    assert ContainerOf(input) == ContainerOf(SimpleInput);
    assert ParseFunctions(input) == ParseFunctions(SimpleInput);
    PairVariantRejected();
    ExpandStages(input);
  }

  /** Without a container attribute nothing is emitted; the container is
      checked before the variants, so a malformed variant does not change the error. */
  lemma MissingContainerRejected()
    ensures Expand(DeriveInput("TestEnum", Enum([VariantA, VariantDecl("Empty", Unit, [])]), [TestFunctionAttr])) ==
              Failure(MissingContainer("TestEnum"))
  {
    var input := DeriveInput("TestEnum", Enum([VariantA, VariantDecl("Empty", Unit, [])]), [TestFunctionAttr]);
    assert TestFunctionAttr.path != EnumDispatchPath by {
      assert FunctionPath[0] != EnumDispatchPath[0];
    }
    assert FindAttr(input.attrs, EnumDispatchPath).None?;
    ExpandErrorPriority(input);
  }

  /** A bare `#[enum_dispatch]` on the enum has no type list: `parse_args`
      rejects it before any type is looked for. */
  lemma BareContainerRejected()
    ensures Expand(SimpleInput.(attrs := [Attribute(EnumDispatchPath, PathOnly), TestFunctionAttr])) ==
              Failure(ExpectedArgumentList)
  {
    var input := SimpleInput.(attrs := [Attribute(EnumDispatchPath, PathOnly), TestFunctionAttr]);
    assert FindAttr(input.attrs, EnumDispatchPath) == Some(input.attrs[0]);
    ExpandErrorPriority(input);
  }

  /** A bare `#[enum_dispatch]` on a variant is rejected rather than read
      as the default attribute. */
  lemma BareVariantAttributeRejected()
    ensures TryFromVariant(VariantDecl("A", Unnamed([Path("i32")]), [Attribute(EnumDispatchPath, PathOnly)])) ==
              Failure(ExpectedArgumentList)
  {
    var attrs := [Attribute(EnumDispatchPath, PathOnly)];
    assert FindAttr(attrs, EnumDispatchPath) == Some(attrs[0]);
  }

  /** A struct is rejected before anything else is looked at. */
  lemma StructRejected(attrs: seq<Attribute>)
    ensures Expand(DeriveInput("S", Struct, attrs)) == Failure(NotAnEnum("S"))
  {
  }

  // ---------------------------------------------------------------------
  // Variant attribute inputs
  // ---------------------------------------------------------------------

  /** `from, modifier = deref,`: both settings, trailing comma allowed. */
  lemma FromAndDeref()
    ensures ParseVariantArgs(List([Ident("from"), Comma, Ident("modifier"), Eq, Ident("deref"), Comma])) ==
              Success(VariantAttribute(true, Some(Deref)))
  {
    VariantArgsAcceptRendered([FromFlag, SetModifier(Deref)], true);
    assert Render([FromFlag, SetModifier(Deref)], true) == [Ident("from"), Comma, Ident("modifier"), Eq, Ident("deref"), Comma] by {
      assert [FromFlag, SetModifier(Deref)][1..] == [SetModifier(Deref)];
    }
    assert Fold(DefaultVariantAttribute, [FromFlag, SetModifier(Deref)]) == VariantAttribute(true, Some(Deref)) by {
      assert [FromFlag, SetModifier(Deref)][1..] == [SetModifier(Deref)];
    }
  }

  /** `modifier = as_ref, modifier = deref`: the repeated keyword is accepted and the later one wins. */
  lemma RepeatedModifierOverwrites()
    ensures ParseVariantArgs(List([Ident("modifier"), Eq, Ident("as_ref"), Comma, Ident("modifier"), Eq, Ident("deref")])) ==
              Success(VariantAttribute(false, Some(Deref)))
  {
    var items := [SetModifier(AsRef), SetModifier(Deref)];
    VariantArgsAcceptRendered(items, false);
    assert items[1..] == [SetModifier(Deref)];
    assert Render(items, false) == [Ident("modifier"), Eq, Ident("as_ref"), Comma, Ident("modifier"), Eq, Ident("deref")];
  }

  /** `from deref`: a keyword must be followed by a comma or the end. */
  lemma MissingCommaRejected()
    ensures ParseVariantArgs(List([Ident("from"), Ident("deref")])) == Failure(Expected(","))
  {
    MissingSeparatorFails([FromFlag], Ident("deref"), [], DefaultVariantAttribute);
    assert Render([FromFlag], false) + [Ident("deref")] + [] == [Ident("from"), Ident("deref")];
  }

  /** `from, TestTrait`: the loop stops at the unknown word and leaves it,
      and the leftover is then rejected. */
  lemma LeftoverRejected()
    ensures ParseVariantAttribute([Ident("from"), Comma, Ident("TestTrait")]) ==
              Success((VariantAttribute(true, None), [Ident("TestTrait")]))
    ensures ParseVariantArgs(List([Ident("from"), Comma, Ident("TestTrait")])) == Failure(UnexpectedToken)
  {
    ParseRendered([FromFlag], true, [Ident("TestTrait")], DefaultVariantAttribute);
    assert Render([FromFlag], true) + [Ident("TestTrait")] == [Ident("from"), Comma, Ident("TestTrait")];
  }

  /** `modifier = boxed`: only `as_ref` and `deref` are modifiers. */
  lemma UnknownModifierRejected()
    ensures ParseVariantArgs(List([Ident("modifier"), Eq, Ident("boxed")])) == Failure(ExpectedModifier)
  {
    var ts := [Ident("modifier"), Eq, Ident("boxed")];
    assert ts[2..] == [Ident("boxed")];
  }
}
