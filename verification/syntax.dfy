/** The abstract syntax the macro receives from the host parser. Rust types,
    patterns and function arguments are opaque values here: only the
    distinctions the macro inspects are kept. Attribute bodies are sequences of
    abstract tokens; a parenthesised parameter list arrives already split into
    parameters, and a complex type arrives as one pre-parsed token. */
module Syntax {
  import opened Wrappers

  /** A Rust type, as far as the macro looks into it. */
  datatype Ty =
    | Path(name: string)           // a path of one identifier: `i32`, `self`, `Self`, `TestTrait`
    | Ref(isMut: bool, elem: Ty)   // `&T` or `&mut T`
    | Composite(text: string)      // any other type: generic or multi-segment paths, tuples, ...

  /** The pattern of a typed parameter: a plain binding, or anything else (`_`, tuples, ...). */
  datatype Pat = PIdent(name: string) | POther

  /** One entry of a parenthesised parameter list, as the host parser splits it. */
  datatype RawParam =
    | Receiver(isRef: bool, isMut: bool)   // `self`, `mut self`, `&self`, `&mut self`, `self: T`
    | Typed(pat: Pat, ty: Ty)              // `pat: ty`
    | Unparsable                           // an entry that is not a function argument

  datatype Token =
    | Ident(name: string)            // identifiers, including the custom keywords `from`, `modifier`, ...
    | FnKw                           // `fn`
    | Eq                             // `=`
    | Comma                          // `,`
    | RArrow                         // `->`
    | Paren(params: seq<RawParam>)   // a parenthesised parameter list
    | TypeTok(ty: Ty)                // a type spanning several tokens, pre-parsed
    | Other                          // any other token

  /** What follows an attribute's path: a delimited list `#[path(tokens)]`,
      nothing `#[path]`, or a value `#[path = value]`. */
  datatype AttrArgs = List(tokens: seq<Token>) | PathOnly | NameValue

  /** An attribute on the enum or on one of its variants. */
  datatype Attribute = Attribute(path: string, args: AttrArgs)

  /** Every way an expansion can fail; the variants carry the name of the
      item the error is reported on, standing for its span. */
  datatype Error =
    | Expected(what: string)          // a required token is missing: "fn", "identifier", "=", ",", "type"
    | ExpectedModifier                // the token after `modifier =` is neither `as_ref` nor `deref`
    | UnparsableParam                 // a parameter-list entry is not a function argument
    | MissingReceiver                 // the parameter list is empty or absent
    | ExpectedSelfParam               // the first parameter is not a `self` form
    | UnexpectedToken                 // tokens left over after an attribute's grammar finished
    | ExpectedArgumentList            // `parse_args` on an attribute without a delimited list
    | NotAnEnum(enumName: string)
    | MissingContainer(enumName: string)
    | UnnamedFieldsOnly(variant: string)

  /** Whether `t` can begin a type. */
  predicate StartsType(t: Token) {
    t.Ident? || t.TypeTok?
  }

  /** The type a single type-starting token denotes. */
  function TypeOf(t: Token): Ty
    requires StartsType(t)
  {
    if t.Ident? then Path(t.name) else t.ty
  }

  /** Parses one type from the front of `ts`, returning it with the rest. */
  function ParseType(ts: seq<Token>): (r: Result<(Ty, seq<Token>), Error>)
    ensures r.Success? <==> |ts| > 0 && StartsType(ts[0])
    ensures r.Success? ==> ts == [ts[0]] + r.value.1 && r.value.0 == TypeOf(ts[0])
    ensures r.Failure? ==> r.error == Expected("type")
  {
    if |ts| > 0 && ts[0].Ident? then Success((Path(ts[0].name), ts[1..]))
    else if |ts| > 0 && ts[0].TypeTok? then Success((ts[0].ty, ts[1..]))
    else Failure(Expected("type"))
  }

  /** The tokens `Attribute::parse_args` hands to a grammar: only an
      attribute with a delimited list has any; `#[path]` and `#[path = value]`
      are rejected before a grammar runs. */
  function ArgTokens(args: AttrArgs): (r: Result<seq<Token>, Error>)
    ensures r.Success? <==> args.List?
    ensures r.Success? ==> r.value == args.tokens
    ensures r.Failure? ==> r.error == ExpectedArgumentList
  {
    if args.List? then Success(args.tokens) else Failure(ExpectedArgumentList)
  }

  /** What `Attribute::parse_args` adds to a grammar run on a list's tokens:
      the grammar's errors propagate, and tokens it leaves unconsumed are an error. */
  function ParseArgs<T>(parsed: Result<(T, seq<Token>), Error>): (r: Result<T, Error>)
    ensures r.Success? <==> parsed.Success? && parsed.value.1 == []
    ensures r.Success? ==> r.value == parsed.value.0
    ensures parsed.Failure? ==> r == Failure(parsed.error)
    ensures parsed.Success? && parsed.value.1 != [] ==> r == Failure(UnexpectedToken)
  {
    match parsed
    case Failure(e) => Failure(e)
    case Success((value, rest)) => if rest == [] then Success(value) else Failure(UnexpectedToken)
  }
}
