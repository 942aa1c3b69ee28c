/** JavaScript expressions as the constancy rules see them, and what they can evaluate to
    (ECMA-262 section 13).  Opaque parts evaluate to anything, each occurrence freely. */
module JsExpr {
  import opened Options

  datatype Number = NaN | Infinity(negative: bool) | NegativeZero | Finite(r: real)

  datatype Value =
    | Undefined | Null
    | Bool(b: bool) | Num(n: Number) | Big(i: int) | Str(s: string)
    | Arr(items: seq<Value>)                     // of an array literal, a hole being undefined
    | Obj(id: nat, callable: bool)

  predicate IsNullish(v: Value) { v.Undefined? || v.Null? }

  predicate IsPrimitive(v: Value) { !v.Arr? && !v.Obj? }

  /** ToBoolean, section 7.1.2. */
  predicate IsTruthy(v: Value) {
    match v
    case Undefined => false
    case Null => false
    case Bool(b) => b
    case Num(n) => n.Infinity? || (n.Finite? && n.r != 0.0)
    case Big(i) => i != 0
    case Str(s) => s != ""
    case Arr(_) => true
    case Obj(_, _) => true
  }

  function TypeName(v: Value): string {
    match v
    case Undefined => "undefined"
    case Null => "object"
    case Bool(_) => "boolean"
    case Num(_) => "number"
    case Big(_) => "bigint"
    case Str(_) => "string"
    case Arr(_) => "object"
    case Obj(_, callable) => if callable then "function" else "object"
  }

  datatype PrefixOp = Not | Plus | Minus | Tilde | Increment | Decrement

  datatype LogicalOp = And | Or | Coalesce       // `&&`, `||`, `??`

  datatype AssignOp = Plain | AndAssign | OrAssign | CoalesceAssign | Compound(symbol: string)

  datatype BinaryOp = Add | Other(symbol: string)

  datatype Expr =
    | True | False | NullLiteral
    | Numeric(text: string) | BigInt(text: string)
    | StringLiteral(text: string) | PlainTemplate(text: string)
    | ArrayLiteral(elements: seq<Element>)
    | Fresh                                      // object, function, class, regexp literal
    | New
    | Parenthesized(inner: Expr)
    | Identifier(name: string)
    | Void(operand: Expr) | TypeOf(operand: Expr) | Delete(operand: Expr)
    | Prefix(prefixOp: PrefixOp, operand: Expr) | Postfix(operand: Expr)
    | Comma(first: Expr, second: Expr)
    | Logical(logicalOp: LogicalOp, left: Expr, right: Expr)
    | Assign(assignOp: AssignOp, target: Expr, source: Expr)
    | Binary(op: BinaryOp, left: Expr, right: Expr)
    | Template(head: string, spans: seq<Span>)
    | Call(callee: Expr, args: seq<Expr>)
    | Opaque                                     // member access, await, JSX, ...

  datatype Span = Span(e: Expr, tail: string)

  datatype Element = Hole | Item(e: Expr) | Spread(e: Expr)

  /** The parts of the language the rules do not compute: literal values and the arithmetic
      of primitives.  An operation that throws has no value. */
  datatype Host = Host(
    numeric: string -> Number,
    bigint: string -> int,
    unary: (PrefixOp, Value) -> Option<Value>,
    binary: (BinaryOp, Value, Value) -> Option<Value>,
    text: Value -> string)                       // ToString of a primitive
  {
    ghost predicate Valid() {
      && (forall op, a :: unary(op, a).Some? ==> unary(op, a).value.Num? || unary(op, a).value.Big?)
      && (forall op, a, b :: binary(op, a, b).Some? ==>
            IsPrimitive(binary(op, a, b).value) && !IsNullish(binary(op, a, b).value))
      && (forall a, b :: binary(Add, a, b).Some? ==>
            if a.Str? || b.Str? then binary(Add, a, b).value == Str(text(a) + text(b))
            else binary(Add, a, b).value.Num? || binary(Add, a, b).value.Big?)
      && (forall a :: IsPrimitive(a) ==> if a.Str? then text(a) == a.s else text(a) != "")
    }
  }

  /** A binary operator applied to values; an object operand may run user code. */
  ghost predicate Operates(h: Host, op: BinaryOp, a: Value, b: Value, v: Value) {
    if IsPrimitive(a) && IsPrimitive(b) then h.binary(op, a, b) == Some(v)
    else if op.Add? && !a.Obj? && !b.Obj? then exists p, q :: Coerces(h, a, p) && Coerces(h, b, q) && h.binary(op, p, q) == Some(v)
    else IsPrimitive(v) && !IsNullish(v)
  }

  /** ToPrimitive, section 7.1.1, of a primitive or an array. */
  ghost predicate Coerces(h: Host, a: Value, p: Value) {
    if a.Arr? then p.Str? && Joins(h, a.items, p.s) else p == a
  }

  predicate IsNumeric(v: Value) { v.Num? || v.Big? }

  /** ToString, section 7.1.17; an object's text is anything. */
  ghost predicate Stringifies(h: Host, v: Value, s: string)
    decreases v, 0
  {
    if v.Arr? then Joins(h, v.items, s) else v.Obj? || s == h.text(v)
  }

  /** Array.prototype.join, section 23.1.3.18. */
  ghost predicate Joins(h: Host, items: seq<Value>, s: string)
    decreases items, 0
  {
    if items == [] then s == ""
    else if |items| == 1 then JoinsItem(h, items[0], s)
    else exists t, rest :: JoinsItem(h, items[0], t) && Joins(h, items[1..], rest) && s == t + "," + rest
  }

  ghost predicate JoinsItem(h: Host, v: Value, s: string)
    decreases v, 1
  {
    if IsNullish(v) then s == "" else Stringifies(h, v, s)
  }

  /** The left value decides a short-circuiting operator by itself. */
  predicate Decides(op: LogicalOp, a: Value) {
    match op
    case And => !IsTruthy(a)
    case Or => IsTruthy(a)
    case Coalesce => !IsNullish(a)
  }

  /** `e` can evaluate to `v`. */
  ghost predicate Evaluates(h: Host, e: Expr, v: Value)
    decreases e
  {
    match e
    case True => v == Bool(true)
    case False => v == Bool(false)
    case NullLiteral => v == Null
    case Numeric(text) => v == Num(h.numeric(text))
    case BigInt(text) => v == Big(h.bigint(text))
    case StringLiteral(text) => v == Str(text)
    case PlainTemplate(text) => v == Str(text)
    case ArrayLiteral(elements) => v.Arr? && Lists(h, elements, v.items)
    case Fresh => v.Obj?
    case New => v.Obj?
    case Parenthesized(inner) => Evaluates(h, inner, v)
    case Identifier(name) => if name == "undefined" then v == Undefined else if name == "NaN" then v == Num(NaN) else true
    case Void(_) => v == Undefined
    case TypeOf(operand) => exists w :: Evaluates(h, operand, w) && v == Str(TypeName(w))
    case Delete(_) => v.Bool?
    case Prefix(op, operand) =>
      if op.Increment? || op.Decrement? then IsNumeric(v)
      else exists w :: Evaluates(h, operand, w) &&
             if op.Not? then v == Bool(!IsTruthy(w))
             else if !IsPrimitive(w) then IsNumeric(v)
             else h.unary(op, w) == Some(v)
    case Postfix(_) => IsNumeric(v)
    case Comma(_, second) => Evaluates(h, second, v)
    case Logical(op, left, right) =>
      exists a :: Evaluates(h, left, a) && if Decides(op, a) then v == a else Evaluates(h, right, v)
    case Assign(op, _, source) =>
      // The target may hold any value before.
      (match op
       case Plain => Evaluates(h, source, v)
       case AndAssign => !IsTruthy(v) || Evaluates(h, source, v)
       case OrAssign => IsTruthy(v) || Evaluates(h, source, v)
       case CoalesceAssign => !IsNullish(v) || Evaluates(h, source, v)
       case Compound(_) => IsPrimitive(v) && !IsNullish(v))
    case Binary(op, left, right) =>
      exists a, b :: Evaluates(h, left, a) && Evaluates(h, right, b) && Operates(h, op, a, b, v)
    case Template(head, spans) => v.Str? && exists s :: SpansEvaluate(h, spans, s) && v.s == head + s
    case Call(callee, args) =>
      if callee == Identifier("Boolean") then
        if args == [] then v == Bool(false)
        else exists w :: Evaluates(h, args[0], w) && v == Bool(IsTruthy(w))
      else if callee == Identifier("String") then v.Str?
      else if callee == Identifier("Number") then v.Num?
      else true
    case Opaque => true
  }

  ghost predicate SpansEvaluate(h: Host, spans: seq<Span>, s: string)
    decreases spans
  {
    if spans == [] then s == ""
    else exists w, x, rest ::
      Evaluates(h, spans[0].e, w) && Stringifies(h, w, x) && SpansEvaluate(h, spans[1..], rest) &&
      s == x + spans[0].tail + rest
  }

  ghost predicate Lists(h: Host, elements: seq<Element>, items: seq<Value>)
    decreases elements
  {
    if elements == [] then items == []
    else
      match elements[0]
      case Hole => items != [] && items[0] == Undefined && Lists(h, elements[1..], items[1..])
      case Item(e) =>
        assert e < elements[0];
        items != [] && Evaluates(h, e, items[0]) && Lists(h, elements[1..], items[1..])
      case Spread(e) =>
        assert e < elements[0];
        exists w, front, back ::
          Evaluates(h, e, w) && Iterates(w, front) && Lists(h, elements[1..], back) && items == front + back
  }

  /** What iterating a value yields: known of an array only. */
  predicate Iterates(w: Value, items: seq<Value>) { w.Arr? ==> items == w.items }
}
