# my-enum-dispatch, modelled in Dafny

`my-enum-dispatch` is a Rust derive macro. On an enum whose variants each
wrap one value implementing a trait, `#[derive(EnumDispatch)]` generates
`impl Trait for Enum`. Each trait function is forwarded to the wrapped value
with a `match self` arm per variant. It also generates `From<Payload>` impls
for the variants that ask for them. The macro reads three small attribute
grammars:

- `#[enum_dispatch(Trait)]` on the enum names the trait (the *container* attribute);
- `#[function(fn name(&self, x: T) -> R)]` on the enum declares one function to forward;
- `#[enum_dispatch(from, modifier = as_ref|deref)]` on a variant asks for a
  `From` impl and says how the payload is adapted before the call.

This project models the parsing of those grammars (`src/attrs.rs`), the
analysis of variants, and the synthesis done by `expand`
(`src/enum_dispatch.rs`). The modules are:

- `Wrappers`: `Option`, `Result`, and `MayPanic`. A `MayPanic` is a returned value or a panic.
- `Collections`: `FilterMap` (Rust's `filter`/`filter_map`) and
  `CollectResults` (`collect::<Result<Vec<_>>>`, where the first error wins).
- `Syntax`: what the host parser hands over — abstract tokens, types,
  parameters and attributes — plus the error values. It also holds the
  single-type grammar and the two rules `Attribute::parse_args` adds to a grammar:
  the attribute must carry an argument list, and no token may be left over.
- `Attrs`: the variant grammar, modifiers, parameters and receivers. It also
  covers the function-signature grammar and the forwarding signature
  (`FunctionAttribute::to_tokens`).
- `EnumDispatch`: `ParsedVariants::try_from`, `match_arm` and `expand`. The
  generated code is an abstract tree (`Output`) rather than a token stream.
- `Scenario`: the expansion of `examples/simple.rs`, the two unit tests of
  `src/attrs.rs`, and one input for each failure mode.

The variant grammar is characterised against an independent definition. The
definition is a printer (`Render`) for item lists with an optional trailing
comma, and a left fold (`Fold`) giving their meaning. The loop accepts
exactly the rendered lists: `ParseRendered` proves one direction and
`ParsedIsRendered` the other. The lemmas `FoldFrom` and `FoldModifier` state
what the fold means for each field.

`expand` checks errors in this order:
1. the input is not an enum;
2. the container attribute is missing or does not parse;
3. the first function attribute that does not parse;
4. the first variant that is not well formed.

The code checks the container before any variant, and the model follows
the code (`ExpandErrorPriority`, `Scenario.MissingContainerRejected`).

## Model

| member | source | states |
|---|---|---|
| Syntax.ParseType | src/enum_dispatch.rs:10-15 | a type is read from exactly one type token, and anything else is an "expected type" error |
| Syntax.ArgTokens | src/enum_dispatch.rs:96-100 | `parse_args` reads only an attribute with a delimited argument list; a bare `#[enum_dispatch]` or `#[enum_dispatch = ...]` is an "expected argument list" error |
| Syntax.ParseArgs | src/enum_dispatch.rs:96-100 | on a delimited argument list, `parse_args` succeeds iff the grammar succeeds and consumes everything; the grammar's error passes through, and leftover tokens are an "unexpected token" error |
| Collections.CollectResults | src/enum_dispatch.rs:107-116 | collecting succeeds iff every element converts; the values then correspond element by element; otherwise the error is the first failing element's error |
| Attrs.ParseModifier | src/attrs.rs:57-69 | succeeds exactly on `as_ref` or `deref`, consumes just that keyword and returns the matching modifier; anything else is the modifier error |
| Attrs.ParseItem | src/attrs.rs:33-40 | one `from` or `modifier = m` item is parsed back from its own tokens; `modifier` without `=` is an "expected =" error |
| Attrs.ParseVariantAttribute | src/attrs.rs:27-51 | empty input gives the default attribute; the loop stops at the first token that is not `from` or `modifier` and hands it back unconsumed |
| Attrs.ParseVariantItems | src/attrs.rs:31-48 | the loop returns at once, unchanged, on empty input or a non-keyword; whenever it succeeds, what it leaves unconsumed is empty or starts with a non-keyword, and is no longer than its input |
| Attrs.ParseRendered | src/attrs.rs:28-50 | any list of items, comma separated with an optional trailing comma and followed by a non-keyword, parses to the items' fold and returns the rest untouched |
| Attrs.ParsedIsRendered | src/attrs.rs:28-50 | conversely, every accepted input is a rendered item list followed by the returned remainder, and the attribute is that list's fold |
| Attrs.MissingSeparatorFails | src/attrs.rs:44-47 | after any item, a token other than a comma (before the end) is an "expected ," error |
| Attrs.FoldFrom | src/attrs.rs:33-35 | `from` is set iff some item is `from` (or it was already set); it is never cleared |
| Attrs.FoldModifier | src/attrs.rs:36-40 | the modifier is the one named by the last `modifier = ...` item; with none it stays as it was |
| Attrs.ParseVariantArgs | src/enum_dispatch.rs:73-78 | a variant's attribute without an argument list is rejected; an empty list gives the default attribute; a list starting with anything but `from` or `modifier` is an "unexpected token" error |
| Attrs.VariantArgsAcceptRendered | src/attrs.rs:27-51 | through `parse_args`, every rendered item list is accepted with its fold as the attribute |
| Attrs.VariantArgsOnlyRendered | src/attrs.rs:27-51 | through `parse_args`, only argument lists holding a rendered item list are accepted, and the attribute is their fold |
| Attrs.IsSelfParam | src/attrs.rs:182-199 | true exactly for the six types `self`, `Self`, `&self`, `&mut self`, `&Self`, `&mut Self`, given as an independent list |
| Attrs.ParseParam | src/attrs.rs:76-107 | a typed parameter keeps its type and is named iff its pattern is a plain identifier; a receiver becomes unnamed `self`, `&self` or `&mut self` according to its reference and mutability; a non-argument is an error |
| Attrs.ParseSignatureHead | src/attrs.rs:149-161 | `fn` and a name are required; the parameter list parses iff every entry does, entry by entry; a missing list is an empty list |
| Attrs.ParseSignatureTail | src/attrs.rs:163-172 | once a first parameter exists: it is rejected unless it is a `self` form; otherwise it becomes the receiver, the other parameters are kept in order, and a return type is read iff `->` follows, which then must be followed by a type |
| Attrs.ParseFunctionAttribute | src/attrs.rs:147-181 | on success the name is the identifier after `fn`, the receiver is a `self` form taken from the first declared parameter, the other parameters follow in order, and a return type is present iff `->` follows; an empty or missing list is a missing-receiver error |
| Attrs.ParseFunctionAttributeAsWritten | src/attrs.rs:159-163 | the code as written panics exactly where the corrected parser reports a missing receiver, and otherwise agrees with it |
| Attrs.EmptyParameterListPanics | src/attrs.rs:151-163 | `fn name` and `fn name()` make the code as written panic |
| Attrs.ParseDeclared | src/attrs.rs:147-181 | for a written signature: no parameters is a missing-receiver error; any unparsable parameter is that error; otherwise a non-`self` first parameter is rejected, and the result is the written name, receiver, remaining parameters and return type |
| Attrs.ParseFunctionArgs | src/enum_dispatch.rs:107-111 | a `function` attribute without an argument list is rejected; otherwise it is accepted iff its list is exactly one signature, whose receiver is then a `self` form; the signature's error passes through and leftover tokens are an "unexpected token" error |
| Attrs.RenderSignature | src/attrs.rs:117-145 | the forwarding signature keeps name, receiver and return type, and binds exactly the named parameters with their types |
| Attrs.NamedParamsAppend | src/attrs.rs:126-133 | the signature's bindings are computed parameter by parameter in declared order; an unnamed parameter contributes nothing |
| Attrs.AllNamedParamsKept | src/attrs.rs:126-133 | when every parameter is named, the signature binds all of them in order |
| EnumDispatch.FindAttr | src/enum_dispatch.rs:96-98 | finds the first attribute with the path, and finds nothing iff none has it |
| EnumDispatch.FindAttrIgnoresLater | src/enum_dispatch.rs:73-75 | appending an attribute after a match never changes what is found |
| EnumDispatch.VariantAttributeOf | src/enum_dispatch.rs:73-78 | without an `enum_dispatch` attribute a variant gets the default; otherwise the first such attribute is parsed |
| EnumDispatch.TryFromVariant | src/enum_dispatch.rs:47-85 | any shape but one unnamed field is rejected first; then the result succeeds iff the attribute parses, with the variant's name, its single field's type as payload, and the parsed attribute |
| EnumDispatch.UnannotatedVariant | src/enum_dispatch.rs:73-78 | a single-field variant without an `enum_dispatch` attribute gets `from = false` and no modifier |
| EnumDispatch.VariantLaterAttributeIgnored | src/enum_dispatch.rs:73-78 | a second `enum_dispatch` attribute on a variant, even an unparsable one, changes nothing |
| EnumDispatch.VariantRoundTrip | src/enum_dispatch.rs:47-85 | a single-field variant whose first `enum_dispatch` attribute spells any item list is accepted, with its payload type and the meaning of those items |
| EnumDispatch.SelfArgFor | src/enum_dispatch.rs:35-39 | the receiver argument is `inner.as_ref()` iff the modifier is `as_ref`, `*inner` iff it is `deref`, and plain `inner` iff there is no modifier |
| EnumDispatch.SelfArgForInjective | src/enum_dispatch.rs:35-39 | the three modifier settings give three different receiver arguments |
| EnumDispatch.MatchArm | src/enum_dispatch.rs:24-45 | the arm for a variant calls the function through the trait, passes the payload adapted by the variant's modifier, then passes, in order, exactly the names the forwarding signature binds |
| EnumDispatch.ArmArgsMatchSignature | src/enum_dispatch.rs:31-34 | the sequence of names an arm forwards equals the sequence of names the forwarding signature binds |
| EnumDispatch.ForwardingFn | src/enum_dispatch.rs:118-129 | a forwarding function has the rendered signature and one arm per variant, in declaration order |
| EnumDispatch.FromImplOf | src/enum_dispatch.rs:133-144 | a variant contributes a `From` impl iff it is flagged `from`, and that impl converts its payload type into that variant of the enum |
| EnumDispatch.FromImpls | src/enum_dispatch.rs:131-145 | there is a `From` impl for every variant flagged `from`, each from its payload into that variant of the enum, and for no other |
| EnumDispatch.FromImplsAppend | src/enum_dispatch.rs:131-145 | `From` impls come variant by variant, in declaration order |
| EnumDispatch.FromImplsSingle | src/enum_dispatch.rs:133-144 | one variant contributes its impl iff it is flagged `from` |
| EnumDispatch.ContainerOf | src/enum_dispatch.rs:96-106 | a missing container is the missing-container error; a first `enum_dispatch` attribute without an argument list is rejected; a parsed container is the single type written in that attribute's list |
| EnumDispatch.ContainerRoundTrip | src/enum_dispatch.rs:96-106 | a container attribute holding any single type yields exactly that type, whatever attributes follow |
| EnumDispatch.ParseFunctions | src/enum_dispatch.rs:107-111 | the function attributes parse iff each one does; the results then correspond one to one, in order, each with a `self` receiver; otherwise the error is the first failing attribute's error |
| EnumDispatch.ParseVariants | src/enum_dispatch.rs:112-116 | the variants convert iff each one does; each result then keeps its variant's name and takes its single field's type; otherwise the error is the first failing variant's error |
| EnumDispatch.Generate | src/enum_dispatch.rs:117-151 | the output names the trait and the enum, has one forwarding function per function attribute in order, and has the `From` impls of the parsed variants |
| EnumDispatch.Expand | src/enum_dispatch.rs:86-154 | a successful expansion is of an enum and has one function per function attribute; each function has one arm per variant, with the arms naming the variants in order; there are no more `From` impls than variants |
| EnumDispatch.ExpandErrorPriority | src/enum_dispatch.rs:86-116 | errors in priority order: not an enum, missing or bad container, the first bad function attribute, the first bad variant; success iff none of them occurs |
| EnumDispatch.ExpandOutput | src/enum_dispatch.rs:107-151 | a successful expansion is the container's trait impl forwarding each parsed function over the parsed variants, plus their `From` impls |
| EnumDispatch.LaterContainerAttributeIgnored | src/enum_dispatch.rs:96-106 | appending another container attribute, parsable or not, leaves the expansion unchanged |
| Scenario.SimpleExpansion | examples/simple.rs:16-26 | the example enum expands to `impl TestTrait for TestEnum`, whose `test(&self)` has arms `inner`, `inner`, `inner.as_ref()`, plus `From<i32>` and `From<f32>` |
| Scenario.FunctionAttributeWithReturn | src/attrs.rs:208-221 | `fn test(self, param1: u8, param2: u8) -> u8` parses with name `test`, two parameters and a return type |
| Scenario.FunctionAttributeNoReturn | src/attrs.rs:222-234 | `fn test(&self, param: u8, param2: u8)` parses with name `test`, two parameters and no return type |
| Scenario.NoReceiverRejected | src/attrs.rs:163-166 | `fn test(param: u8)` is rejected because its first parameter is not a `self` form |
| Scenario.TwoFieldVariantRejected | src/enum_dispatch.rs:56-72 | a variant with two unnamed fields fails the whole expansion with the unnamed-fields error |
| Scenario.MissingContainerRejected | src/enum_dispatch.rs:96-106 | without a container attribute the expansion fails, even when a variant is malformed |
| Scenario.BareContainerRejected | src/enum_dispatch.rs:96-100 | a bare `#[enum_dispatch]` on the enum fails the expansion with the argument-list error |
| Scenario.BareVariantAttributeRejected | src/enum_dispatch.rs:73-78 | a bare `#[enum_dispatch]` on a variant is rejected rather than read as the default |
| Scenario.StructRejected | src/enum_dispatch.rs:90-95 | a struct is rejected whatever its attributes |
| Scenario.FromAndDeref | src/attrs.rs:28-50 | `from, modifier = deref,` sets both, with the trailing comma allowed |
| Scenario.RepeatedModifierOverwrites | src/attrs.rs:36-40 | a repeated `modifier` is accepted and the later one wins |
| Scenario.MissingCommaRejected | src/attrs.rs:44-47 | `from deref` is an "expected ," error |
| Scenario.LeftoverRejected | src/attrs.rs:41-43 | `from, TestTrait`: the loop stops at `TestTrait`, and `parse_args` rejects the leftover |
| Scenario.UnknownModifierRejected | src/attrs.rs:57-69 | `modifier = boxed` is the modifier error |

## Left out

- `src/lib.rs` is not part of this model. It is the proc-macro entry point and turns an error into a compile error.
- Spans and error message text are left out: each error is a value of `Syntax.Error` naming the item it is reported on.
- The generated code is an abstract tree, not a token stream. `quote!` layout is not modelled, including the trailing comma `#self_param, #(#params),*` produces when no parameters are named.
- syn's general parsing is left out. An attribute's arguments are a token list, or mark it as bare or as `= value`; the delimiter of a list is not kept, since `parse_args` does not check it. A type is one token (`Path` for a single identifier, otherwise pre-parsed). A parenthesised parameter list arrives already split into entries. `FnArg::parse` becomes the three `RawParam` cases. Lifetimes and generic arguments are not represented.
- Attrs.ParseParam: the receiver forms without a reference (`self`, `mut self`, `self: Box<Self>`) all become `self`, in the model as in the code; the written form is not kept.
- The `ContainerAttribute` declared in `src/attrs.rs:11-20` is never used by the macro; the one in `src/enum_dispatch.rs` is modelled as `ContainerOf`.
- Collections.FilterMap and Attrs.RenderSignature state membership as sets. The order is stated by `Collections.FilterMapAppend`, `Attrs.NamedParamsAppend` and `EnumDispatch.FromImplsAppend`.
- Downstream type checking of the generated code (whether the payload implements the trait, whether `as_ref`/`*` type-check) is done by the Rust compiler and is not modelled.

## Findings

| source | as written | input that shows it | evidently intended | confidence | as-written member | corrected member |
|---|---|---|---|---|---|---|
| src/attrs.rs:151-163 | `params.remove(0)` runs before any check that a parameter exists, so an empty or absent parameter list panics inside the macro | `#[function(fn test())]` or `#[function(fn test)]` | reject the signature with a "missing receiver" error, as for a non-`self` first parameter | not executed | Attrs.ParseFunctionAttributeAsWritten | Attrs.ParseFunctionAttribute |
