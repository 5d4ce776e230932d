/** The attribute mini-grammars of `src/attrs.rs`: the variant attribute
    (`from`, `modifier = as_ref|deref`), the function-signature attribute
    (`fn name(receiver, params...) [-> T]`) with receiver normalisation, and
    the forwarding signature rendered from a parsed function attribute. */
module Attrs {
  import opened Wrappers
  import opened Syntax
  import opened Collections

  // ---------------------------------------------------------------------
  // Variant attribute: `#[enum_dispatch(from, modifier = as_ref)]`
  // ---------------------------------------------------------------------

  /** How a variant's payload is adapted before it becomes the receiver of the forwarded call. */
  datatype FnArgModifier = AsRef | Deref

  datatype VariantAttribute = VariantAttribute(from: bool, modifier: Option<FnArgModifier>)

  /** The attribute of a variant that carries none (`#[derive(Default)]`). */
  const DefaultVariantAttribute := VariantAttribute(false, None)

  /** The keyword spelling each modifier. */
  function ModifierToken(m: FnArgModifier): Token {
    match m
    case AsRef => Ident("as_ref")
    case Deref => Ident("deref")
  }

  /** The two keywords the variant grammar's lookahead recognises. */
  predicate IsKeyword(t: Token) {
    t == Ident("from") || t == Ident("modifier")
  }

  /** One item of a variant attribute, the unit the grammar repeats. */
  datatype Item = FromFlag | SetModifier(m: FnArgModifier)

  /** The tokens that spell one item. */
  function ItemTokens(i: Item): seq<Token> {
    match i
    case FromFlag => [Ident("from")]
    case SetModifier(m) => [Ident("modifier"), Eq, ModifierToken(m)]
  }

  /** Items separated by commas, with an optional trailing comma: the
      inputs the variant grammar accepts in full. */
  function Render(items: seq<Item>, trailing: bool): seq<Token>
    decreases |items|
  {
    if |items| == 0 then []
    else if |items| == 1 then ItemTokens(items[0]) + (if trailing then [Comma] else [])
    else ItemTokens(items[0]) + [Comma] + Render(items[1..], trailing)
  }

  /** The effect of one item on the attribute parsed so far: a later item overwrites. */
  function Apply(a: VariantAttribute, i: Item): VariantAttribute {
    match i
    case FromFlag => a.(from := true)
    case SetModifier(m) => a.(modifier := Some(m))
  }

  /** The attribute a sequence of items denotes, applied left to right. */
  function Fold(a: VariantAttribute, items: seq<Item>): VariantAttribute
    decreases |items|
  {
    if |items| == 0 then a else Fold(Apply(a, items[0]), items[1..])
  }

  /** `FnArgModifier::parse`: exactly `as_ref` or `deref`, by one-token lookahead. */
  function ParseModifier(ts: seq<Token>): (r: Result<(FnArgModifier, seq<Token>), Error>)
    ensures r.Success? <==> |ts| > 0 && (ts[0] == ModifierToken(AsRef) || ts[0] == ModifierToken(Deref))
    ensures r.Success? ==> ts == [ModifierToken(r.value.0)] + r.value.1
    ensures r.Failure? ==> r.error == ExpectedModifier
  {
    if |ts| > 0 && ts[0] == Ident("as_ref") then Success((AsRef, ts[1..]))
    else if |ts| > 0 && ts[0] == Ident("deref") then Success((Deref, ts[1..]))
    else Failure(ExpectedModifier)
  }

  /** One pass of the loop body up to the separator, once the lookahead
      has seen a keyword. */
  function ParseItem(ts: seq<Token>): (r: Result<(Item, seq<Token>), Error>)
    requires |ts| > 0 && IsKeyword(ts[0])
    ensures r.Success? ==> ts == ItemTokens(r.value.0) + r.value.1
    ensures ts[0] == Ident("modifier") && (|ts| < 2 || ts[1] != Eq) ==> r == Failure(Expected("="))
  {
    if ts[0] == Ident("from") then Success((FromFlag, ts[1..]))
    else if |ts| < 2 || ts[1] != Eq then Failure(Expected("="))
    else match ParseModifier(ts[2..])
      case Failure(e) => Failure(e)
      case Success((m, rest)) => Success((SetModifier(m), rest))
  }

  /** The loop of `VariantAttribute::parse`, continuing from the attribute
      `acc` built so far. It returns the attribute and the tokens it did not
      consume: the loop stops without error at a token it does not recognise. */
  function ParseVariantItems(ts: seq<Token>, acc: VariantAttribute): (r: Result<(VariantAttribute, seq<Token>), Error>)
    ensures r.Success? ==> |r.value.1| <= |ts|
    ensures r.Success? ==> r.value.1 == [] || !IsKeyword(r.value.1[0])
    ensures |ts| == 0 || !IsKeyword(ts[0]) ==> r == Success((acc, ts))
    decreases |ts|
  {
    if |ts| == 0 || !IsKeyword(ts[0]) then Success((acc, ts))
    else match ParseItem(ts)
      case Failure(e) => Failure(e)
      case Success((item, rest)) =>
        assert |rest| < |ts| by { assert ts == ItemTokens(item) + rest; }
        if |rest| == 0 then Success((Apply(acc, item), rest))
        else if rest[0] == Comma then ParseVariantItems(rest[1..], Apply(acc, item))
        else Failure(Expected(","))
  }

  /** `VariantAttribute::parse`. */
  function ParseVariantAttribute(ts: seq<Token>): (r: Result<(VariantAttribute, seq<Token>), Error>)
    ensures ts == [] ==> r == Success((DefaultVariantAttribute, []))
    ensures r.Success? ==> |r.value.1| <= |ts|
    ensures r.Success? ==> r.value.1 == [] || !IsKeyword(r.value.1[0])
  {
    ParseVariantItems(ts, DefaultVariantAttribute)
  }

  lemma ParseItemTokens(item: Item, rest: seq<Token>)
    ensures IsKeyword((ItemTokens(item) + rest)[0])
    ensures ParseItem(ItemTokens(item) + rest) == Success((item, rest))
  {
    var ts := ItemTokens(item) + rest;
    match item
    case FromFlag =>
      assert ts[1..] == rest;
    case SetModifier(m) =>
      assert ts[2..] == [ModifierToken(m)] + rest;
  }

  /** One turn of the loop over a recognised item: end of input, a comma
      and another turn, or an error. */
  lemma ParseItemsStep(item: Item, after: seq<Token>, acc: VariantAttribute)
    ensures ParseVariantItems(ItemTokens(item) + after, acc) ==
              if |after| == 0 then Success((Apply(acc, item), after))
              else if after[0] == Comma then ParseVariantItems(after[1..], Apply(acc, item))
              else Failure(Expected(","))
  {
    ParseItemTokens(item, after);
  }

  /** With no recognised item ahead, the loop stops at once. */
  lemma ParseNoItems(rest: seq<Token>, acc: VariantAttribute)
    requires rest == [] || !IsKeyword(rest[0])
    ensures ParseVariantItems(rest, acc) == Success((acc, rest))
  {
  }

  lemma ParseLastItem(item: Item, trailing: bool, rest: seq<Token>, acc: VariantAttribute)
    requires rest == [] || !IsKeyword(rest[0])
    requires !trailing ==> rest == []
    ensures ParseVariantItems(Render([item], trailing) + rest, acc) == Success((Apply(acc, item), rest))
  {
    if trailing {
      assert Render([item], trailing) + rest == ItemTokens(item) + ([Comma] + rest);
      ParseItemsStep(item, [Comma] + rest, acc);
      assert ([Comma] + rest)[1..] == rest;
      ParseNoItems(rest, Apply(acc, item));
    } else {
      assert Render([item], trailing) + rest == ItemTokens(item) + [];
      ParseItemsStep(item, [], acc);
    }
  }

  /** Rendered items followed by input the loop does not recognise parse
      back to the items' meaning, and the remainder is returned untouched.
      Without a trailing comma nothing may follow the last item. */
  lemma {:induction false} ParseRendered(items: seq<Item>, trailing: bool, rest: seq<Token>, acc: VariantAttribute)
    requires rest == [] || !IsKeyword(rest[0])
    requires |items| > 0 && !trailing ==> rest == []
    ensures ParseVariantItems(Render(items, trailing) + rest, acc) == Success((Fold(acc, items), rest))
    decreases |items|
  {
    if |items| == 0 {
      assert Render(items, trailing) + rest == rest;
      ParseNoItems(rest, acc);
    } else if |items| == 1 {
      assert items == [items[0]];
      assert Fold(Apply(acc, items[0]), items[1..]) == Apply(acc, items[0]);
      ParseLastItem(items[0], trailing, rest, acc);
    } else {
      var item := items[0];
      var tail := Render(items[1..], trailing) + rest;
      var after := [Comma] + tail;
      assert Render(items, trailing) + rest == ItemTokens(item) + after;
      ParseItemsStep(item, after, acc);
      assert after[1..] == tail;
      ParseRendered(items[1..], trailing, rest, Apply(acc, item));
    }
  }

  /** A successful loop over input that starts with a keyword began with one item. */
  lemma FirstItem(ts: seq<Token>, acc: VariantAttribute) returns (item: Item, after: seq<Token>)
    requires ParseVariantItems(ts, acc).Success?
    requires |ts| > 0 && IsKeyword(ts[0])
    ensures ts == ItemTokens(item) + after
  {
    item, after := ParseItem(ts).value.0, ParseItem(ts).value.1;
  }

  /** Conversely, whatever the loop accepts is rendered items followed by
      the remainder it returns, and the attribute is the items' meaning. */
  lemma {:induction false} ParsedIsRendered(ts: seq<Token>, acc: VariantAttribute) returns (items: seq<Item>, trailing: bool)
    requires ParseVariantItems(ts, acc).Success?
    ensures ts == Render(items, trailing) + ParseVariantItems(ts, acc).value.1
    ensures ParseVariantItems(ts, acc).value.0 == Fold(acc, items)
    decreases |ts|, 2
  {
    if |ts| == 0 || !IsKeyword(ts[0]) {
      items, trailing := [], false;
      assert Render(items, trailing) == [];
      assert Fold(acc, items) == acc;
    } else {
      var item, after := FirstItem(ts, acc);
      items, trailing := ParsedAfterItem(item, after, acc);
    }
  }

  /** The inductive step of `ParsedIsRendered`: one item, then either the
      end of input or a comma and the rest of the loop. */
  lemma {:induction false} ParsedAfterItem(item: Item, after: seq<Token>, acc: VariantAttribute) returns (items: seq<Item>, trailing: bool)
    requires ParseVariantItems(ItemTokens(item) + after, acc).Success?
    ensures ItemTokens(item) + after == Render(items, trailing) + ParseVariantItems(ItemTokens(item) + after, acc).value.1
    ensures ParseVariantItems(ItemTokens(item) + after, acc).value.0 == Fold(acc, items)
    decreases |ItemTokens(item) + after|, 1
  {
    if |after| == 0 {
      items, trailing := ParsedLastItem(item, after, acc);
    } else {
      items, trailing := ParsedAfterComma(item, after, acc);
    }
  }

  lemma ParsedLastItem(item: Item, after: seq<Token>, acc: VariantAttribute) returns (items: seq<Item>, trailing: bool)
    requires |after| == 0
    ensures ItemTokens(item) + after == Render(items, trailing) + ParseVariantItems(ItemTokens(item) + after, acc).value.1
    ensures ParseVariantItems(ItemTokens(item) + after, acc).value.0 == Fold(acc, items)
  {
    var acc' := Apply(acc, item);
    ParseItemsStep(item, after, acc);
    items, trailing := [item], false;
    assert Fold(acc', items[1..]) == acc';
  }

  lemma {:induction false} ParsedAfterComma(item: Item, after: seq<Token>, acc: VariantAttribute) returns (items: seq<Item>, trailing: bool)
    requires ParseVariantItems(ItemTokens(item) + after, acc).Success?
    requires |after| > 0
    ensures ItemTokens(item) + after == Render(items, trailing) + ParseVariantItems(ItemTokens(item) + after, acc).value.1
    ensures ParseVariantItems(ItemTokens(item) + after, acc).value.0 == Fold(acc, items)
    decreases |ItemTokens(item) + after|, 0
  {
    var acc' := Apply(acc, item);
    var tail := after[1..];
    assert after[0] == Comma && ParseVariantItems(ItemTokens(item) + after, acc) == ParseVariantItems(tail, acc') by {
      ParseItemsStep(item, after, acc);
    }
    var more, t := ParsedIsRendered(tail, acc');
    assert after == [Comma] + tail;
    items, trailing := JoinAfterComma(item, more, t, ParseVariantItems(tail, acc').value.1, acc);
  }

  /** An item, a comma and a rendered list are one longer rendered list. */
  lemma JoinAfterComma(item: Item, more: seq<Item>, t: bool, rest: seq<Token>, acc: VariantAttribute)
    returns (items: seq<Item>, trailing: bool)
    ensures ItemTokens(item) + ([Comma] + (Render(more, t) + rest)) == Render(items, trailing) + rest
    ensures Fold(acc, items) == Fold(Apply(acc, item), more)
  {
    items, trailing := PrependItem(item, more, t, acc);
    var head, r := ItemTokens(item), Render(more, t);
    assert [Comma] + (r + rest) == [Comma] + r + rest;
    ConcatAssoc(head, [Comma], r, rest);
  }

  /** Rendering one more item in front of a rendered list. */
  lemma PrependItem(item: Item, more: seq<Item>, t: bool, acc: VariantAttribute) returns (items: seq<Item>, trailing: bool)
    ensures Render(items, trailing) == ItemTokens(item) + [Comma] + Render(more, t)
    ensures Fold(acc, items) == Fold(Apply(acc, item), more)
  {
    if |more| == 0 {
      items, trailing := [item], true;
      assert items[1..] == more;
    } else {
      items, trailing := [item] + more, t;
      assert items[1..] == more;
    }
  }

  /** After an item, anything but the end of input or a comma is an error. */
  lemma {:induction false} MissingSeparatorFails(items: seq<Item>, t: Token, rest: seq<Token>, acc: VariantAttribute)
    requires |items| > 0 && t != Comma
    ensures ParseVariantItems(Render(items, false) + [t] + rest, acc) == Failure(Expected(","))
    decreases |items|
  {
    var item := items[0];
    if |items| == 1 {
      assert Render(items, false) + [t] + rest == ItemTokens(item) + ([t] + rest);
      ParseItemsStep(item, [t] + rest, acc);
    } else {
      var after := [Comma] + (Render(items[1..], false) + [t] + rest);
      assert Render(items, false) + [t] + rest == ItemTokens(item) + after;
      ParseItemsStep(item, after, acc);
      assert after[1..] == Render(items[1..], false) + [t] + rest;
      MissingSeparatorFails(items[1..], t, rest, Apply(acc, item));
    }
  }

  /** `from` anywhere sets the flag, and it is never cleared. */
  lemma {:induction false} FoldFrom(acc: VariantAttribute, items: seq<Item>)
    ensures Fold(acc, items).from <==> acc.from || FromFlag in items
    decreases |items|
  {
    if |items| > 0 {
      FoldFrom(Apply(acc, items[0]), items[1..]);
      assert items == [items[0]] + items[1..];
    }
  }

  /** The modifier the last `modifier = ...` item names, if any. */
  function LastModifier(items: seq<Item>): Option<FnArgModifier>
    decreases |items|
  {
    if |items| == 0 then None
    else if items[|items| - 1].SetModifier? then Some(items[|items| - 1].m)
    else LastModifier(items[..|items| - 1])
  }

  /** Applying items left to right: one more item acts on the result of the others. */
  lemma {:induction false} FoldSnoc(acc: VariantAttribute, items: seq<Item>, i: Item)
    ensures Fold(acc, items + [i]) == Apply(Fold(acc, items), i)
    decreases |items|
  {
    if |items| == 0 {
      assert ([] + [i])[1..] == [];
    } else {
      assert (items + [i])[1..] == items[1..] + [i];
      FoldSnoc(Apply(acc, items[0]), items[1..], i);
    }
  }

  /** The last `modifier = ...` wins; with none, the modifier is unchanged. */
  lemma {:induction false} FoldModifier(acc: VariantAttribute, items: seq<Item>)
    ensures Fold(acc, items).modifier == if LastModifier(items).Some? then LastModifier(items) else acc.modifier
    decreases |items|
  {
    if |items| > 0 {
      var init, last := items[..|items| - 1], items[|items| - 1];
      assert items == init + [last];
      FoldSnoc(acc, init, last);
      FoldModifier(acc, init);
    }
  }

  /** `Attribute::parse_args::<VariantAttribute>`: only a delimited list is
      parsed, an empty one is the default attribute, and a list the loop
      stops in is an error. The lists it accepts are exactly the rendered
      item lists (`VariantArgsAcceptRendered`, `VariantArgsOnlyRendered`). */
  function ParseVariantArgs(args: AttrArgs): (r: Result<VariantAttribute, Error>)
    ensures !args.List? ==> r == Failure(ExpectedArgumentList)
    ensures args == List([]) ==> r == Success(DefaultVariantAttribute)
    ensures args.List? && args.tokens != [] && !IsKeyword(args.tokens[0]) ==> r == Failure(UnexpectedToken)
  {
    var ts :- ArgTokens(args);
    ParseArgs(ParseVariantAttribute(ts))
  }

  lemma VariantArgsAcceptRendered(items: seq<Item>, trailing: bool)
    ensures ParseVariantArgs(List(Render(items, trailing))) == Success(Fold(DefaultVariantAttribute, items))
  {
    ParseRendered(items, trailing, [], DefaultVariantAttribute);
    assert Render(items, trailing) + [] == Render(items, trailing);
  }

  lemma VariantArgsOnlyRendered(args: AttrArgs) returns (items: seq<Item>, trailing: bool)
    requires ParseVariantArgs(args).Success?
    ensures args == List(Render(items, trailing))
    ensures ParseVariantArgs(args).value == Fold(DefaultVariantAttribute, items)
  {
    var ts := args.tokens;
    items, trailing := ParsedIsRendered(ts, DefaultVariantAttribute);
    assert ts == Render(items, trailing) + [];
  }

  // ---------------------------------------------------------------------
  // Function parameters and receivers
  // ---------------------------------------------------------------------

  datatype FunctionParam = FunctionParam(ident: Option<string>, ty: Ty)

  /** The `self` path receivers are normalised onto. */
  const SelfTy := Path("self")

  /** The six types `is_self_param` recognises, listed independently. */
  const SelfTypes: set<Ty> :=
    {Path("self"), Path("Self"),
     Ref(false, Path("self")), Ref(true, Path("self")),
     Ref(false, Path("Self")), Ref(true, Path("Self"))}

  /** `is_self_param`: the path `self` or `Self`, or a reference to one of them. */
  predicate IsSelfParam(ty: Ty)
    ensures IsSelfParam(ty) <==> ty in SelfTypes
  {
    match ty
    case Ref(_, Path(n)) => n == "self" || n == "Self"
    case Path(n) => n == "self" || n == "Self"
    case _ => false
  }

  /** `FunctionParam::parse`. A typed parameter keeps its type and is named
      exactly when its pattern is a plain identifier; a receiver becomes an
      unnamed `self`, `&self` or `&mut self`. */
  function ParseParam(p: RawParam): (r: Result<FunctionParam, Error>)
    ensures r.Failure? <==> p.Unparsable?
    ensures p.Typed? ==> r.Success? && r.value.ty == p.ty
    ensures p.Typed? ==> (r.value.ident.Some? <==> p.pat.PIdent?)
    ensures p.Typed? && p.pat.PIdent? ==> r.value.ident == Some(p.pat.name)
    ensures p.Receiver? ==> r.Success? && r.value.ident.None? && IsSelfParam(r.value.ty)
    ensures p.Receiver? ==> (r.value.ty.Ref? <==> p.isRef)
    ensures p.Receiver? && p.isRef ==> r.value.ty == Ref(p.isMut, SelfTy)
    ensures p.Receiver? && !p.isRef ==> r.value.ty == SelfTy
  {
    match p
    case Unparsable => Failure(UnparsableParam)
    case Typed(pat, ty) =>
      var ident := match pat case PIdent(name) => Some(name) case POther => None;
      Success(FunctionParam(ident, ty))
    case Receiver(isRef, isMut) =>
      if !isRef then Success(FunctionParam(None, SelfTy))
      else if isMut && isRef then Success(FunctionParam(None, Ref(true, SelfTy)))
      else Success(FunctionParam(None, Ref(false, SelfTy)))
  }

  // ---------------------------------------------------------------------
  // Function attribute: `#[function(fn name(&self, x: u8) -> u8)]`
  // ---------------------------------------------------------------------

  datatype FunctionAttribute = FunctionAttribute(
    name: string,
    selfParam: Ty,
    params: seq<FunctionParam>,
    returnType: Option<Ty>)

  /** The parameter list after `fn name`, empty when no parenthesised list follows. */
  function DeclaredParams(ts: seq<Token>): seq<RawParam> {
    if |ts| > 2 && ts[2].Paren? then ts[2].params else []
  }

  /** The tokens after `fn name` and its parameter list, if any. */
  function AfterParams(ts: seq<Token>): seq<Token> {
    if |ts| > 2 && ts[2].Paren? then ts[3..] else if |ts| >= 2 then ts[2..] else []
  }

  /** `fn`, the name and the parsed parameter list, up to the point where
      the source removes the first parameter. */
  function ParseSignatureHead(ts: seq<Token>): (r: Result<(string, seq<FunctionParam>, seq<Token>), Error>)
    ensures r.Success? ==> |ts| >= 2 && ts[0] == FnKw && ts[1] == Ident(r.value.0)
    ensures r.Success? ==> r.value.2 == AfterParams(ts)
    ensures r.Success? ==> |r.value.1| == |DeclaredParams(ts)|
    ensures r.Success? ==> forall i :: 0 <= i < |r.value.1| ==> ParseParam(DeclaredParams(ts)[i]) == Success(r.value.1[i])
    ensures |ts| >= 2 && ts[0] == FnKw && ts[1].Ident? ==>
              (r.Success? <==> forall i :: 0 <= i < |DeclaredParams(ts)| ==> !DeclaredParams(ts)[i].Unparsable?)
    ensures r.Failure? ==> r.error != MissingReceiver
  {
    if |ts| == 0 || ts[0] != FnKw then Failure(Expected("fn"))
    else if |ts| < 2 || !ts[1].Ident? then Failure(Expected("identifier"))
    else
      var params :- CollectResults(DeclaredParams(ts), ParseParam);
      Success((ts[1].name, params, AfterParams(ts)))
  }

  /** Everything after the first parameter is removed: the `self` check,
      then the optional `-> T`. */
  function ParseSignatureTail(name: string, params: seq<FunctionParam>, rest: seq<Token>)
    : (r: Result<(FunctionAttribute, seq<Token>), Error>)
    requires |params| > 0
    ensures r.Success? <==> IsSelfParam(params[0].ty) && (|rest| > 0 && rest[0] == RArrow ==> |rest| > 1 && StartsType(rest[1]))
    ensures !IsSelfParam(params[0].ty) ==> r == Failure(ExpectedSelfParam)
    ensures r.Failure? ==> r.error == ExpectedSelfParam || r.error == Expected("type")
    ensures r.Success? ==> r.value.0.name == name && r.value.0.selfParam == params[0].ty && r.value.0.params == params[1..]
    ensures r.Success? ==> (r.value.0.returnType.Some? <==> |rest| > 0 && rest[0] == RArrow)
    ensures r.Success? && r.value.0.returnType.Some? ==> r.value.0.returnType.value == TypeOf(rest[1]) && r.value.1 == rest[2..]
    ensures r.Success? && r.value.0.returnType.None? ==> r.value.1 == rest
  {
    if !IsSelfParam(params[0].ty) then Failure(ExpectedSelfParam)
    else if |rest| > 0 && rest[0] == RArrow then
      var ret :- ParseType(rest[1..]);
      Success((FunctionAttribute(name, params[0].ty, params[1..], Some(ret.0)), ret.1))
    else Success((FunctionAttribute(name, params[0].ty, params[1..], None), rest))
  }

  /** `FunctionAttribute::parse`, with an empty or missing parameter list
      reported as `MissingReceiver` where the source panics (see
      `ParseFunctionAttributeAsWritten`). The first declared parameter
      becomes the receiver and the others, in order, the parameters. */
  function ParseFunctionAttribute(ts: seq<Token>): (r: Result<(FunctionAttribute, seq<Token>), Error>)
    ensures r.Success? ==> |ts| >= 2 && ts[0] == FnKw && ts[1] == Ident(r.value.0.name)
    ensures r.Success? ==> IsSelfParam(r.value.0.selfParam)
    ensures r.Success? ==> |r.value.0.params| + 1 == |DeclaredParams(ts)|
    ensures r.Success? ==> ParseParam(DeclaredParams(ts)[0]).Success? && ParseParam(DeclaredParams(ts)[0]).value.ty == r.value.0.selfParam
    ensures r.Success? ==> forall i :: 0 <= i < |r.value.0.params| ==>
              ParseParam(DeclaredParams(ts)[i + 1]) == Success(r.value.0.params[i])
    ensures r.Success? ==> (r.value.0.returnType.Some? <==> AfterParams(ts) != [] && AfterParams(ts)[0] == RArrow)
    ensures |ts| >= 2 && ts[0] == FnKw && ts[1].Ident? && DeclaredParams(ts) == [] ==> r == Failure(MissingReceiver)
  {
    var head :- ParseSignatureHead(ts);
    var (name, params, rest) := head;
    if |params| == 0 then Failure(MissingReceiver)
    else ParseSignatureTail(name, params, rest)
  }

  /** `FunctionAttribute::parse` as written: `params.remove(0)` panics on an
      empty parameter list, which is also what a missing list becomes. */
  function ParseFunctionAttributeAsWritten(ts: seq<Token>): (r: MayPanic<Result<(FunctionAttribute, seq<Token>), Error>>)
    ensures r.Panicked? <==> ParseFunctionAttribute(ts) == Failure(MissingReceiver)
    ensures r.Returned? ==> r.value == ParseFunctionAttribute(ts)
  {
    match ParseSignatureHead(ts)
    case Failure(e) => Returned(Failure(e))
    case Success((name, params, rest)) =>
      if |params| == 0 then Panicked
      else Returned(ParseSignatureTail(name, params, rest))
  }

  /** A signature attribute with no parameter list at all makes the source panic. */
  lemma EmptyParameterListPanics(name: string)
    ensures ParseFunctionAttributeAsWritten([FnKw, Ident(name)]) == Panicked
    ensures ParseFunctionAttributeAsWritten([FnKw, Ident(name), Paren([])]) == Panicked
    ensures ParseFunctionAttribute([FnKw, Ident(name)]) == Failure(MissingReceiver)
    ensures ParseFunctionAttribute([FnKw, Ident(name), Paren([])]) == Failure(MissingReceiver)
  {
  }

  /** A signature as its author writes it, before parsing. */
  datatype Declared = Declared(name: string, params: seq<RawParam>, returnType: Option<Ty>)

  function SignatureTokens(d: Declared): seq<Token> {
    [FnKw, Ident(d.name), Paren(d.params)] + (if d.returnType.Some? then [RArrow, TypeTok(d.returnType.value)] else [])
  }

  /** Where the parts of a written signature end up in its tokens. */
  lemma SignatureShape(d: Declared, rest: seq<Token>)
    ensures |SignatureTokens(d) + rest| >= 3
    ensures (SignatureTokens(d) + rest)[0] == FnKw && (SignatureTokens(d) + rest)[1] == Ident(d.name)
    ensures DeclaredParams(SignatureTokens(d) + rest) == d.params
    ensures AfterParams(SignatureTokens(d) + rest) ==
              (if d.returnType.Some? then [RArrow, TypeTok(d.returnType.value)] else []) + rest
  {
    var ts := SignatureTokens(d) + rest;
    assert ts[2] == Paren(d.params);
    if d.returnType.Some? {
      assert ts[3..] == [RArrow, TypeTok(d.returnType.value)] + rest;
    } else {
      assert ts[3..] == rest;
    }
  }

  /** A written signature without parameters has no receiver. */
  lemma DeclaredWithoutParams(d: Declared, rest: seq<Token>)
    requires d.params == []
    ensures ParseFunctionAttribute(SignatureTokens(d) + rest) == Failure(MissingReceiver)
  {
    SignatureShape(d, rest);
  }

  /** One unparsable parameter anywhere fails the whole signature. */
  lemma DeclaredUnparsable(d: Declared, rest: seq<Token>, i: nat)
    requires i < |d.params| && d.params[i].Unparsable?
    ensures ParseFunctionAttribute(SignatureTokens(d) + rest) == Failure(UnparsableParam)
  {
    var ts := SignatureTokens(d) + rest;
    SignatureShape(d, rest);
    var head := ParseSignatureHead(ts);
    assert head.Failure?;
    var c := CollectResults(DeclaredParams(ts), ParseParam);
    assert c.Failure? && head == Failure(c.error);
    var j :| 0 <= j < |d.params| && ParseParam(d.params[j]) == Failure(c.error);
  }

  /** The receiver check and the optional return type, once every parameter parsed. */
  lemma DeclaredTail(d: Declared, rest: seq<Token>, params: seq<FunctionParam>)
    requires d.returnType.None? ==> rest == [] || rest[0] != RArrow
    requires |params| > 0
    ensures ParseSignatureTail(d.name, params,
              (if d.returnType.Some? then [RArrow, TypeTok(d.returnType.value)] else []) + rest) ==
            if !IsSelfParam(params[0].ty) then Failure(ExpectedSelfParam)
            else Success((FunctionAttribute(d.name, params[0].ty, params[1..], d.returnType), rest))
  {
    if d.returnType.Some? {
      var after := [RArrow, TypeTok(d.returnType.value)] + rest;
      assert after[1..] == [TypeTok(d.returnType.value)] + rest;
    } else {
      assert [] + rest == rest;
    }
  }

  /** A written signature whose parameters all parse. */
  lemma DeclaredParsed(d: Declared, rest: seq<Token>)
    requires d.returnType.None? ==> rest == [] || rest[0] != RArrow
    requires forall i :: 0 <= i < |d.params| ==> !d.params[i].Unparsable?
    requires d.params != []
    ensures var first := ParseParam(d.params[0]).value.ty;
            ParseFunctionAttribute(SignatureTokens(d) + rest) ==
              if !IsSelfParam(first) then Failure(ExpectedSelfParam)
              else Success((FunctionAttribute(d.name, first,
                                              seq(|d.params| - 1, i requires 0 <= i < |d.params| - 1 => ParseParam(d.params[i + 1]).value),
                                              d.returnType), rest))
  {
    var ts := SignatureTokens(d) + rest;
    SignatureShape(d, rest);
    var head := ParseSignatureHead(ts);
    assert head.Success?;
    var params := head.value.1;
    assert params[1..] == seq(|d.params| - 1, i requires 0 <= i < |d.params| - 1 => ParseParam(d.params[i + 1]).value);
    assert params[0] == ParseParam(d.params[0]).value;
    DeclaredTail(d, rest, params);
    assert ParseFunctionAttribute(ts) == ParseSignatureTail(d.name, params, AfterParams(ts));
  }

  /** Parsing a written signature: its errors in the order the source checks
      them, and otherwise the receiver from the first parameter, the rest of
      the parameters in order, and the return type exactly when one is written. */
  lemma ParseDeclared(d: Declared, rest: seq<Token>)
    requires d.returnType.None? ==> rest == [] || rest[0] != RArrow
    ensures d.params == [] ==> ParseFunctionAttribute(SignatureTokens(d) + rest) == Failure(MissingReceiver)
    ensures (exists i :: 0 <= i < |d.params| && d.params[i].Unparsable?) ==>
              ParseFunctionAttribute(SignatureTokens(d) + rest) == Failure(UnparsableParam)
    ensures (forall i :: 0 <= i < |d.params| ==> !d.params[i].Unparsable?) && d.params != [] ==>
              var first := ParseParam(d.params[0]).value.ty;
              ParseFunctionAttribute(SignatureTokens(d) + rest) ==
                if !IsSelfParam(first) then Failure(ExpectedSelfParam)
                else Success((FunctionAttribute(d.name, first,
                                                seq(|d.params| - 1, i requires 0 <= i < |d.params| - 1 => ParseParam(d.params[i + 1]).value),
                                                d.returnType), rest))
  {
    if d.params == [] {
      DeclaredWithoutParams(d, rest);
    } else if i :| 0 <= i < |d.params| && d.params[i].Unparsable? {
      DeclaredUnparsable(d, rest, i);
    } else {
      DeclaredParsed(d, rest);
    }
  }

  /** `Attribute::parse_args::<FunctionAttribute>`: only a delimited list is
      parsed, it must hold one signature and nothing after it, and the
      receiver of an accepted signature is one of the `self` forms. */
  function ParseFunctionArgs(args: AttrArgs): (r: Result<FunctionAttribute, Error>)
    ensures !args.List? ==> r == Failure(ExpectedArgumentList)
    ensures r.Success? <==> args.List? && ParseFunctionAttribute(args.tokens).Success? && ParseFunctionAttribute(args.tokens).value.1 == []
    ensures r.Success? ==> ParseFunctionAttribute(args.tokens).value.0 == r.value && IsSelfParam(r.value.selfParam)
    ensures args.List? && ParseFunctionAttribute(args.tokens).Failure? ==> r == Failure(ParseFunctionAttribute(args.tokens).error)
    ensures args.List? && ParseFunctionAttribute(args.tokens).Success? && ParseFunctionAttribute(args.tokens).value.1 != [] ==>
              r == Failure(UnexpectedToken)
  {
    var ts :- ArgTokens(args);
    ParseArgs(ParseFunctionAttribute(ts))
  }

  // ---------------------------------------------------------------------
  // The forwarding signature: `FunctionAttribute::to_tokens`
  // ---------------------------------------------------------------------

  datatype Signature = Signature(name: string, selfParam: Ty, params: seq<(string, Ty)>, returnType: Option<Ty>)

  /** The binding a parameter contributes to a forwarding signature, if it has a name. */
  function NamedBinding(p: FunctionParam): Option<(string, Ty)> {
    if p.ident.Some? then Some((p.ident.value, p.ty)) else None
  }

  /** The forwarding signature keeps the name, the receiver and the return
      type, and lists exactly the named parameters with their types. Their
      order is the declared order (`NamedParamsAppend`). */
  function RenderSignature(f: FunctionAttribute): (s: Signature)
    ensures s.name == f.name && s.selfParam == f.selfParam && s.returnType == f.returnType
    ensures |s.params| <= |f.params|
    ensures forall b :: b in s.params <==> exists p :: p in f.params && p.ident == Some(b.0) && p.ty == b.1
  {
    var params := FilterMap(f.params, NamedBinding);
    assert forall p :: p in f.params && p.ident.Some? ==> NamedBinding(p).Some?;
    Signature(f.name, f.selfParam, params, f.returnType)
  }

  /** The signature's parameters are built piecewise over the declared
      ones, which fixes their order: an unnamed parameter contributes
      nothing, a named one its binding. */
  lemma NamedParamsAppend(f: FunctionAttribute, a: seq<FunctionParam>, b: seq<FunctionParam>)
    ensures RenderSignature(f.(params := a + b)).params ==
            RenderSignature(f.(params := a)).params + RenderSignature(f.(params := b)).params
    ensures forall p: FunctionParam :: RenderSignature(f.(params := [p])).params ==
              (if p.ident.Some? then [(p.ident.value, p.ty)] else [])
  {
    FilterMapAppend(a, b, NamedBinding);
    forall p: FunctionParam
      ensures RenderSignature(f.(params := [p])).params == (if p.ident.Some? then [(p.ident.value, p.ty)] else [])
    {
      FilterMapSingle(p, NamedBinding);
    }
  }

  /** When every parameter is named, the signature lists all of them in order. */
  lemma AllNamedParamsKept(f: FunctionAttribute)
    requires forall i :: 0 <= i < |f.params| ==> f.params[i].ident.Some?
    ensures |RenderSignature(f).params| == |f.params|
    ensures forall i :: 0 <= i < |f.params| ==> RenderSignature(f).params[i] == (f.params[i].ident.value, f.params[i].ty)
  {
    FilterMapAllSome(f.params, NamedBinding);
  }
}
