/** Variant analysis and code synthesis of `src/enum_dispatch.rs`. The
    generated code is an abstract tree: one trait impl whose functions match
    on the enum and forward to the trait, plus one `From` impl per variant
    flagged `from`. */
module EnumDispatch {
  import opened Wrappers
  import opened Syntax
  import opened Collections
  import opened Attrs

  /** The path of the container and variant attributes. */
  const EnumDispatchPath := "enum_dispatch"

  /** The path of the function-signature attributes. */
  const FunctionPath := "function"

  // ---------------------------------------------------------------------
  // Input: the derive input the host parser hands over
  // ---------------------------------------------------------------------

  /** The fields of a variant: `{ a: T }`, `(T, ...)` or none. */
  datatype Fields = Named(tys: seq<Ty>) | Unnamed(tys: seq<Ty>) | Unit

  datatype VariantDecl = VariantDecl(name: string, fields: Fields, attrs: seq<Attribute>)

  datatype Data = Enum(variants: seq<VariantDecl>) | Struct | Union

  datatype DeriveInput = DeriveInput(ident: string, data: Data, attrs: seq<Attribute>)

  /** The first attribute with the given path (`iter().find(...)`). */
  function FindAttr(attrs: seq<Attribute>, path: string): (r: Option<Attribute>)
    ensures r.None? <==> forall i :: 0 <= i < |attrs| ==> attrs[i].path != path
    ensures r.Some? ==> exists i :: 0 <= i < |attrs| && attrs[i] == r.value && r.value.path == path &&
                                    forall j :: 0 <= j < i ==> attrs[j].path != path
    decreases |attrs|
  {
    if |attrs| == 0 then None
    else if attrs[0].path == path then Some(attrs[0])
    else
      var r := FindAttr(attrs[1..], path);
      assert r.Some? ==> exists i :: 0 <= i < |attrs[1..]| && attrs[1..][i] == r.value && r.value.path == path &&
                                    forall j :: 0 <= j < i ==> attrs[1..][j].path != path;
      assert forall i :: 0 < i < |attrs| ==> attrs[i] == attrs[1..][i - 1];
      r
  }

  /** Only the first attribute with a path matters: appending another never changes the search. */
  lemma FindAttrIgnoresLater(attrs: seq<Attribute>, path: string, extra: Attribute)
    requires FindAttr(attrs, path).Some?
    ensures FindAttr(attrs + [extra], path) == FindAttr(attrs, path)
  {
    var i :| 0 <= i < |attrs| && attrs[i] == FindAttr(attrs, path).value && attrs[i].path == path &&
             forall j :: 0 <= j < i ==> attrs[j].path != path;
    assert (attrs + [extra])[i] == attrs[i];
    var r := FindAttr(attrs + [extra], path);
    assert r.Some?;
    var k :| 0 <= k < |attrs + [extra]| && (attrs + [extra])[k] == r.value && r.value.path == path &&
             forall j :: 0 <= j < k ==> (attrs + [extra])[j].path != path;
    assert (attrs + [extra])[i] == attrs[i];
  }

  // ---------------------------------------------------------------------
  // Variant analysis: `ParsedVariants::try_from`
  // ---------------------------------------------------------------------

  datatype ParsedVariant = ParsedVariant(name: string, payload: Ty, attributes: VariantAttribute)

  /** Whether a variant has the one shape the macro supports: exactly one unnamed field. */
  predicate HasSinglePayload(f: Fields) {
    f.Unnamed? && |f.tys| == 1
  }

  /** The variant's first `enum_dispatch` attribute, parsed; the default when it has none. */
  function VariantAttributeOf(attrs: seq<Attribute>): (r: Result<VariantAttribute, Error>)
    ensures FindAttr(attrs, EnumDispatchPath).None? ==> r == Success(DefaultVariantAttribute)
    ensures FindAttr(attrs, EnumDispatchPath).Some? ==> r == ParseVariantArgs(FindAttr(attrs, EnumDispatchPath).value.args)
  {
    match FindAttr(attrs, EnumDispatchPath)
    case None => Success(DefaultVariantAttribute)
    case Some(a) => ParseVariantArgs(a.args)
  }

  /** `ParsedVariants::try_from`: the shape is checked first, then the
      attribute is parsed; the payload is the single field's type. */
  function TryFromVariant(v: VariantDecl): (r: Result<ParsedVariant, Error>)
    ensures !HasSinglePayload(v.fields) ==> r == Failure(UnnamedFieldsOnly(v.name))
    ensures HasSinglePayload(v.fields) ==> (r.Success? <==> VariantAttributeOf(v.attrs).Success?)
    ensures HasSinglePayload(v.fields) && VariantAttributeOf(v.attrs).Failure? ==> r == Failure(VariantAttributeOf(v.attrs).error)
    ensures r.Success? ==> HasSinglePayload(v.fields) && r.value.name == v.name && r.value.payload == v.fields.tys[0]
    ensures r.Success? ==> r.value.attributes == VariantAttributeOf(v.attrs).value
  {
    match v.fields
    case Unnamed(tys) =>
      if |tys| != 1 then Failure(UnnamedFieldsOnly(v.name))
      else
        var attributes :- VariantAttributeOf(v.attrs);
        Success(ParsedVariant(v.name, tys[0], attributes))
    case _ => Failure(UnnamedFieldsOnly(v.name))
  }

  /** A variant with one unnamed field and no `enum_dispatch` attribute gets the defaults. */
  lemma UnannotatedVariant(v: VariantDecl)
    requires HasSinglePayload(v.fields)
    requires forall i :: 0 <= i < |v.attrs| ==> v.attrs[i].path != EnumDispatchPath
    ensures TryFromVariant(v) == Success(ParsedVariant(v.name, v.fields.tys[0], VariantAttribute(false, None)))
  {
  }

  /** A second `enum_dispatch` attribute on a variant, even an unparsable one, is ignored. */
  lemma VariantLaterAttributeIgnored(v: VariantDecl, extra: Attribute)
    requires FindAttr(v.attrs, EnumDispatchPath).Some?
    ensures TryFromVariant(v.(attrs := v.attrs + [extra])) == TryFromVariant(v)
  {
    FindAttrIgnoresLater(v.attrs, EnumDispatchPath, extra);
  }

  /** A single-field variant whose first `enum_dispatch` attribute spells a
      list of items is converted with that list's meaning. */
  lemma VariantRoundTrip(name: string, payload: Ty, items: seq<Item>, trailing: bool, later: seq<Attribute>)
    ensures TryFromVariant(VariantDecl(name, Unnamed([payload]), [Attribute(EnumDispatchPath, List(Render(items, trailing)))] + later)) ==
              Success(ParsedVariant(name, payload, Fold(DefaultVariantAttribute, items)))
  {
    var attrs := [Attribute(EnumDispatchPath, List(Render(items, trailing)))] + later;
    assert FindAttr(attrs, EnumDispatchPath) == Some(attrs[0]);
    VariantArgsAcceptRendered(items, trailing);
  }

  // ---------------------------------------------------------------------
  // Synthesis: `ParsedVariants::match_arm` and `expand`
  // ---------------------------------------------------------------------

  /** The argument an arm passes as the receiver of the forwarded call. */
  datatype SelfArg =
    | Inner         // `inner`
    | InnerAsRef    // `inner.as_ref()`
    | DerefInner    // `*inner`

  /** `Self::Variant(inner) => Trait::f(selfArg, args...)`. */
  datatype Arm = Arm(variant: string, traitTy: Ty, fnName: string, selfArg: SelfArg, args: seq<string>)

  /** A forwarding function: the rendered signature and a `match self` with its arms. */
  datatype FnDecl = FnDecl(sig: Signature, arms: seq<Arm>)

  /** `impl From<payload> for Enum { fn from(inner) -> Self { Self::variant(inner) } }`. */
  datatype FromImpl = FromImpl(payload: Ty, enumName: string, variant: string)

  /** `impl Trait for Enum { fns... }` followed by the `From` impls. */
  datatype Output = Output(traitTy: Ty, enumName: string, fns: seq<FnDecl>, froms: seq<FromImpl>)

  /** How a modifier adapts the bound payload: `as_ref` calls `as_ref()` on
      it, `deref` dereferences it, and without a modifier it is passed as is. */
  function SelfArgFor(m: Option<FnArgModifier>): (s: SelfArg)
    ensures s == Inner <==> m.None?
    ensures s == InnerAsRef <==> m == Some(AsRef)
    ensures s == DerefInner <==> m == Some(Deref)
  {
    match m
    case Some(AsRef) => InnerAsRef
    case Some(Deref) => DerefInner
    case None => Inner
  }

  /** The three modifier settings give three different receiver arguments. */
  lemma SelfArgForInjective(m1: Option<FnArgModifier>, m2: Option<FnArgModifier>)
    ensures SelfArgFor(m1) == SelfArgFor(m2) <==> m1 == m2
  {
  }

  /** The parameter names an arm forwards (`filter_map(|p| p.ident)`). */
  function ParamIdent(p: FunctionParam): Option<string> {
    p.ident
  }

  /** `ParsedVariants::match_arm`: the arm for variant `v` in function `f`
      calls `f` through the trait, with the payload adapted by the variant's
      modifier followed by the parameters the forwarding signature binds, by
      name and in order. */
  function MatchArm(v: ParsedVariant, f: FunctionAttribute, traitTy: Ty): (a: Arm)
    ensures a.variant == v.name && a.fnName == f.name && a.traitTy == traitTy
    ensures a.selfArg == SelfArgFor(v.attributes.modifier)
    ensures a.args == Names(RenderSignature(f).params)
    ensures |a.args| == |RenderSignature(f).params|
    ensures forall k :: 0 <= k < |a.args| ==> a.args[k] == RenderSignature(f).params[k].0
  {
    ArmArgsMatchSignature(f.params);
    Arm(v.name, traitTy, f.name, SelfArgFor(v.attributes.modifier), FilterMap(f.params, ParamIdent))
  }

  /** The names of a signature's bindings, in order. */
  function Names(bs: seq<(string, Ty)>): (r: seq<string>)
    ensures |r| == |bs|
    ensures forall k :: 0 <= k < |bs| ==> r[k] == bs[k].0
    decreases |bs|
  {
    if |bs| == 0 then [] else [bs[0].0] + Names(bs[1..])
  }

  /** The names collected for an arm are exactly the names the signature binds. */
  lemma {:induction false} ArmArgsMatchSignature(ps: seq<FunctionParam>)
    ensures FilterMap(ps, ParamIdent) == Names(FilterMap(ps, NamedBinding))
    decreases |ps|
  {
    if |ps| > 0 {
      var b' := FilterMap(ps[1..], NamedBinding);
      ArmArgsMatchSignature(ps[1..]);
      if ps[0].ident.Some? {
        var b := [(ps[0].ident.value, ps[0].ty)] + b';
        assert b[1..] == b';
        assert FilterMap(ps, NamedBinding) == b;
      }
    }
  }

  /** One forwarding function: the signature and one arm per variant, in declaration order. */
  function ForwardingFn(f: FunctionAttribute, vs: seq<ParsedVariant>, traitTy: Ty): (d: FnDecl)
    ensures d.sig == RenderSignature(f)
    ensures |d.arms| == |vs|
    ensures forall j :: 0 <= j < |vs| ==> d.arms[j] == MatchArm(vs[j], f, traitTy)
  {
    FnDecl(RenderSignature(f), seq(|vs|, j requires 0 <= j < |vs| => MatchArm(vs[j], f, traitTy)))
  }

  /** The `From` impl a variant contributes: one exactly when it is flagged
      `from`, converting its payload type into that variant of the enum. */
  function FromImplOf(v: ParsedVariant, enumName: string): (r: Option<FromImpl>)
    ensures r.Some? <==> v.attributes.from
    ensures r.Some? ==> r.value.payload == v.payload && r.value.enumName == enumName && r.value.variant == v.name
  {
    if v.attributes.from then Some(FromImpl(v.payload, enumName, v.name)) else None
  }

  /** `From` impls for exactly the variants flagged `from`, each from its
      payload type into its own variant. Their order is the variants' order
      (`FromImplsAppend`). */
  function FromImpls(vs: seq<ParsedVariant>, enumName: string): (r: seq<FromImpl>)
    ensures |r| <= |vs|
    ensures forall v :: v in vs && v.attributes.from ==> FromImpl(v.payload, enumName, v.name) in r
    ensures forall x :: x in r ==> exists v :: v in vs && v.attributes.from && x == FromImpl(v.payload, enumName, v.name)
    ensures (forall j :: 0 <= j < |vs| ==> !vs[j].attributes.from) ==> r == []
  {
    var f := v => FromImplOf(v, enumName);
    assert forall v :: v in vs && v.attributes.from ==> f(v) == Some(FromImpl(v.payload, enumName, v.name));
    FilterMap(vs, f)
  }

  /** The `From` impls are produced variant by variant, in declaration
      order: concatenating variant lists concatenates their impls, and a
      single variant contributes its impl exactly when it is flagged `from`. */
  lemma FromImplsAppend(a: seq<ParsedVariant>, b: seq<ParsedVariant>, enumName: string)
    ensures FromImpls(a + b, enumName) == FromImpls(a, enumName) + FromImpls(b, enumName)
  {
    FilterMapAppend(a, b, v => FromImplOf(v, enumName));
  }

  lemma FromImplsSingle(v: ParsedVariant, enumName: string)
    ensures FromImpls([v], enumName) == if v.attributes.from then [FromImpl(v.payload, enumName, v.name)] else []
  {
    FilterMapSingle(v, v => FromImplOf(v, enumName));
  }

  /** The container attribute: the first `enum_dispatch` attribute, whose
      delimited list must hold exactly one type. */
  function ContainerOf(input: DeriveInput): (r: Result<Ty, Error>)
    ensures FindAttr(input.attrs, EnumDispatchPath).None? ==> r == Failure(MissingContainer(input.ident))
    ensures FindAttr(input.attrs, EnumDispatchPath).Some? && !FindAttr(input.attrs, EnumDispatchPath).value.args.List? ==>
              r == Failure(ExpectedArgumentList)
    ensures r.Success? ==> FindAttr(input.attrs, EnumDispatchPath).value.args == List([TypeTok(r.value)]) ||
                           (r.value.Path? && FindAttr(input.attrs, EnumDispatchPath).value.args == List([Ident(r.value.name)]))
  {
    match FindAttr(input.attrs, EnumDispatchPath)
    case None => Failure(MissingContainer(input.ident))
    case Some(a) =>
      var ts :- ArgTokens(a.args);
      ParseArgs(ParseType(ts))
  }

  /** The container is exactly the type written in the first `enum_dispatch` attribute. */
  lemma ContainerRoundTrip(input: DeriveInput, t: Ty, later: seq<Attribute>)
    requires input.attrs == [Attribute(EnumDispatchPath, List([TypeTok(t)]))] + later
    ensures ContainerOf(input) == Success(t)
  {
    assert FindAttr(input.attrs, EnumDispatchPath) == Some(input.attrs[0]);
  }

  /** The arguments of the `function` attributes, in order. */
  function FunctionAttrArgs(a: Attribute): Option<AttrArgs> {
    if a.path == FunctionPath then Some(a.args) else None
  }

  function FunctionBodies(input: DeriveInput): seq<AttrArgs> {
    FilterMap(input.attrs, FunctionAttrArgs)
  }

  /** The function attributes, parsed in order: one signature per
      attribute, each with a `self` receiver; the first that does not parse
      is the error. */
  function ParseFunctions(input: DeriveInput): (r: Result<seq<FunctionAttribute>, Error>)
    ensures r.Success? <==> forall i :: 0 <= i < |FunctionBodies(input)| ==> ParseFunctionArgs(FunctionBodies(input)[i]).Success?
    ensures r.Success? ==> |r.value| == |FunctionBodies(input)|
    ensures r.Success? ==> forall i :: 0 <= i < |r.value| ==>
              ParseFunctionArgs(FunctionBodies(input)[i]) == Success(r.value[i]) && IsSelfParam(r.value[i].selfParam)
    ensures forall i :: 0 <= i < |FunctionBodies(input)| && ParseFunctionArgs(FunctionBodies(input)[i]).Failure? &&
                        (forall k :: 0 <= k < i ==> ParseFunctionArgs(FunctionBodies(input)[k]).Success?) ==>
              r == Failure(ParseFunctionArgs(FunctionBodies(input)[i]).error)
  {
    CollectResults(FunctionBodies(input), ParseFunctionArgs)
  }

  /** The variants, converted in order: each keeps its name and takes its
      single field as payload; the first that is not well formed is the error. */
  function ParseVariants(vs: seq<VariantDecl>): (r: Result<seq<ParsedVariant>, Error>)
    ensures r.Success? <==> forall j :: 0 <= j < |vs| ==> TryFromVariant(vs[j]).Success?
    ensures r.Success? ==> |r.value| == |vs|
    ensures r.Success? ==> forall j :: 0 <= j < |vs| ==>
              r.value[j].name == vs[j].name && HasSinglePayload(vs[j].fields) && r.value[j].payload == vs[j].fields.tys[0]
    ensures forall j :: 0 <= j < |vs| && TryFromVariant(vs[j]).Failure? && (forall k :: 0 <= k < j ==> TryFromVariant(vs[k]).Success?) ==>
              r == Failure(TryFromVariant(vs[j]).error)
  {
    CollectResults(vs, TryFromVariant)
  }

  /** The code emitted once every part has parsed: one forwarding function
      per function attribute, each with one arm per variant, and the `From`
      impls of the flagged variants. */
  function Generate(traitTy: Ty, enumName: string, fns: seq<FunctionAttribute>, vs: seq<ParsedVariant>): (out: Output)
    ensures out.traitTy == traitTy && out.enumName == enumName
    ensures |out.fns| == |fns|
    ensures forall i :: 0 <= i < |fns| ==> out.fns[i] == ForwardingFn(fns[i], vs, traitTy)
    ensures out.froms == FromImpls(vs, enumName)
  {
    Output(traitTy, enumName, seq(|fns|, i requires 0 <= i < |fns| => ForwardingFn(fns[i], vs, traitTy)),
           FromImpls(vs, enumName))
  }

  /** `expand`: checks, in this order, that the input is an enum, that its
      container attribute is present and parses, that every function
      attribute parses and that every variant is well formed; the first
      failure is the result and nothing is emitted with it. */
  function Expand(input: DeriveInput): (r: Result<Output, Error>)
    ensures r.Success? ==> input.data.Enum? && r.value.enumName == input.ident
    ensures r.Success? ==> |r.value.fns| == |FunctionBodies(input)|
    ensures r.Success? ==> forall i :: 0 <= i < |r.value.fns| ==> |r.value.fns[i].arms| == |input.data.variants|
    ensures r.Success? ==> forall i, j :: 0 <= i < |r.value.fns| && 0 <= j < |input.data.variants| ==>
              r.value.fns[i].arms[j].variant == input.data.variants[j].name
    ensures r.Success? ==> |r.value.froms| <= |input.data.variants|
  {
    if !input.data.Enum? then Failure(NotAnEnum(input.ident))
    else
      var traitTy :- ContainerOf(input);
      var fns :- ParseFunctions(input);
      var vs :- ParseVariants(input.data.variants);
      Success(Generate(traitTy, input.ident, fns, vs))
  }

  /** The parsed function attributes and variants `Expand` works from, when they all parse. */
  function ParsedFunctions(input: DeriveInput): seq<FunctionAttribute>
    requires forall i :: 0 <= i < |FunctionBodies(input)| ==> ParseFunctionArgs(FunctionBodies(input)[i]).Success?
  {
    seq(|FunctionBodies(input)|, i requires 0 <= i < |FunctionBodies(input)| => ParseFunctionArgs(FunctionBodies(input)[i]).value)
  }

  function ParsedVariants(vs: seq<VariantDecl>): seq<ParsedVariant>
    requires forall j :: 0 <= j < |vs| ==> TryFromVariant(vs[j]).Success?
  {
    seq(|vs|, j requires 0 <= j < |vs| => TryFromVariant(vs[j]).value)
  }

  /** The stages of `Expand`, one after the other. */
  lemma ExpandStages(input: DeriveInput)
    ensures Expand(input) ==
      if !input.data.Enum? then Failure(NotAnEnum(input.ident))
      else if ContainerOf(input).Failure? then Failure(ContainerOf(input).error)
      else if ParseFunctions(input).Failure? then Failure(ParseFunctions(input).error)
      else if ParseVariants(input.data.variants).Failure? then Failure(ParseVariants(input.data.variants).error)
      else Success(Generate(ContainerOf(input).value, input.ident, ParseFunctions(input).value,
                            ParseVariants(input.data.variants).value))
  {
  }

  /** Once every part has parsed, `Expand` emits what `Generate` makes of them. */
  lemma ExpandFromParts(input: DeriveInput, traitTy: Ty, fns: seq<FunctionAttribute>, vs: seq<ParsedVariant>)
    requires input.data.Enum? && ContainerOf(input) == Success(traitTy)
    requires ParseFunctions(input) == Success(fns) && ParseVariants(input.data.variants) == Success(vs)
    ensures Expand(input) == Success(Generate(traitTy, input.ident, fns, vs))
  {
    ExpandStages(input);
  }

  /** The errors of an expansion in priority order: not an enum; a missing
      or unparsable container attribute; the first function attribute that
      does not parse; the first variant that is not well formed. It
      succeeds exactly when none of these happens. */
  lemma ExpandErrorPriority(input: DeriveInput)
    ensures !input.data.Enum? ==> Expand(input) == Failure(NotAnEnum(input.ident))
    ensures input.data.Enum? && FindAttr(input.attrs, EnumDispatchPath).None? ==>
              Expand(input) == Failure(MissingContainer(input.ident))
    ensures input.data.Enum? && ContainerOf(input).Failure? ==> Expand(input) == Failure(ContainerOf(input).error)
    ensures input.data.Enum? && ContainerOf(input).Success? ==>
              forall i :: 0 <= i < |FunctionBodies(input)| && ParseFunctionArgs(FunctionBodies(input)[i]).Failure? &&
                          (forall k :: 0 <= k < i ==> ParseFunctionArgs(FunctionBodies(input)[k]).Success?) ==>
                Expand(input) == Failure(ParseFunctionArgs(FunctionBodies(input)[i]).error)
    ensures input.data.Enum? && ContainerOf(input).Success? &&
            (forall i :: 0 <= i < |FunctionBodies(input)| ==> ParseFunctionArgs(FunctionBodies(input)[i]).Success?) ==>
              forall j :: 0 <= j < |input.data.variants| && TryFromVariant(input.data.variants[j]).Failure? &&
                          (forall k :: 0 <= k < j ==> TryFromVariant(input.data.variants[k]).Success?) ==>
                Expand(input) == Failure(TryFromVariant(input.data.variants[j]).error)
    ensures Expand(input).Success? <==>
              input.data.Enum? && ContainerOf(input).Success? &&
              (forall i :: 0 <= i < |FunctionBodies(input)| ==> ParseFunctionArgs(FunctionBodies(input)[i]).Success?) &&
              (forall j :: 0 <= j < |input.data.variants| ==> TryFromVariant(input.data.variants[j]).Success?)
  {
    ExpandStages(input);
  }

  /** What a successful expansion emits: an impl of the container's trait
      whose i-th function forwards the i-th `function` attribute with one
      arm per variant in declaration order, and the `From` impls of the
      variants flagged `from`. */
  lemma ExpandOutput(input: DeriveInput)
    ensures Expand(input).Success? ==> input.data.Enum? && ContainerOf(input).Success?
    ensures Expand(input).Success? ==>
              forall i :: 0 <= i < |FunctionBodies(input)| ==> ParseFunctionArgs(FunctionBodies(input)[i]).Success?
    ensures Expand(input).Success? ==>
              forall j :: 0 <= j < |input.data.variants| ==> TryFromVariant(input.data.variants[j]).Success?
    ensures Expand(input).Success? ==>
              var out := Expand(input).value;
              var fs := ParsedFunctions(input);
              var vs := ParsedVariants(input.data.variants);
              && out.traitTy == ContainerOf(input).value
              && out.enumName == input.ident
              && |out.fns| == |fs|
              && (forall i :: 0 <= i < |fs| ==> out.fns[i] == ForwardingFn(fs[i], vs, out.traitTy))
              && out.froms == FromImpls(vs, input.ident)
  {
    ExpandStages(input);
    if Expand(input).Success? {
      ParsedFunctionsCollected(input);
      ParsedVariantsCollected(input.data.variants);
    }
  }

  lemma ParsedFunctionsCollected(input: DeriveInput)
    requires ParseFunctions(input).Success?
    ensures forall i :: 0 <= i < |FunctionBodies(input)| ==> ParseFunctionArgs(FunctionBodies(input)[i]).Success?
    ensures ParseFunctions(input).value == ParsedFunctions(input)
  {
  }

  lemma ParsedVariantsCollected(vs: seq<VariantDecl>)
    requires ParseVariants(vs).Success?
    ensures forall j :: 0 <= j < |vs| ==> TryFromVariant(vs[j]).Success?
    ensures ParseVariants(vs).value == ParsedVariants(vs)
  {
  }

  /** An `enum_dispatch` attribute is not a `function` attribute. */
  lemma FunctionBodiesSkipContainer(attrs: seq<Attribute>, args: AttrArgs)
    ensures FilterMap(attrs + [Attribute(EnumDispatchPath, args)], FunctionAttrArgs) == FilterMap(attrs, FunctionAttrArgs)
  {
    var extra := Attribute(EnumDispatchPath, args);
    assert FunctionAttrArgs(extra) == None by {
      assert EnumDispatchPath[0] != FunctionPath[0];
    }
    FilterMapAppend(attrs, [extra], FunctionAttrArgs);
    FilterMapSingle(extra, FunctionAttrArgs);
    assert FilterMap(attrs, FunctionAttrArgs) + [] == FilterMap(attrs, FunctionAttrArgs);
  }

  /** `Expand` reads the attributes only through the container and the function bodies. */
  lemma ExpandReadsParts(a: DeriveInput, b: DeriveInput)
    requires a.ident == b.ident && a.data == b.data
    requires ContainerOf(a) == ContainerOf(b) && FunctionBodies(a) == FunctionBodies(b)
    ensures Expand(a) == Expand(b)
  {
    assert ParseFunctions(a) == ParseFunctions(b);
  }

  /** Only the first `enum_dispatch` attribute on the enum is its container:
      appending another one, parsable or not, changes nothing. */
  lemma LaterContainerAttributeIgnored(input: DeriveInput, args: AttrArgs)
    requires FindAttr(input.attrs, EnumDispatchPath).Some?
    ensures Expand(input.(attrs := input.attrs + [Attribute(EnumDispatchPath, args)])) == Expand(input)
  {
    var extra := Attribute(EnumDispatchPath, args);
    var input' := input.(attrs := input.attrs + [extra]);
    FindAttrIgnoresLater(input.attrs, EnumDispatchPath, extra);
    FunctionBodiesSkipContainer(input.attrs, args);
    ExpandReadsParts(input', input);
  }
}
