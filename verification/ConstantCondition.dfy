/** internal/rules/noconstantcondition/rule.go: which tests can never flip. */
module ConstantCondition {
  import opened JsExpr
  import opened TruthSorts
  import opened Options

  predicate IsObviouslyConstant(e: Expr)
    decreases e, 1
  {
    match e
    case True => true
    case False => true
    case NullLiteral => true
    case Numeric(_) => true
    case BigInt(_) => true
    case StringLiteral(_) => true
    case PlainTemplate(_) => true
    case ArrayLiteral(_) => true
    case Fresh => true
    case New => true
    case Parenthesized(inner) => IsObviouslyConstant(inner)
    case Identifier(name) => name == "undefined"
    case Void(_) => true
    case TypeOf(_) => true
    case Prefix(op, operand) =>
      if op.Not? then IsObviouslyConstant(operand)
      else !op.Increment? && !op.Decrement? && IsPrimitiveConstant(operand)
    case Comma(_, second) => IsObviouslyConstant(second)
    case Logical(op, left, right) =>
      (match op
       case And => IsConstantFalsy(left) || IsConstantFalsy(right)
       case Or => IsConstantTruthy(left) || IsConstantTruthy(right)
       case Coalesce => IsConstantNonNullish(left)) ||
      (IsObviouslyConstant(left) && IsObviouslyConstant(right))
    case Assign(op, _, source) =>
      (match op
       case Plain => IsObviouslyConstant(source)
       case OrAssign => IsConstantTruthy(source)
       case AndAssign => IsConstantFalsy(source)
       case _ => false)
    case Binary(op, left, right) =>
      || (op.Add? && IsPrimitiveConstant(left) && IsCoercibleArrayLiteral(right))
      || (op.Add? && IsPrimitiveConstant(right) && IsCoercibleArrayLiteral(left))
      || (IsPrimitiveConstant(left) && IsPrimitiveConstant(right))
    case Template(head, spans) => HasTruthyPart(head, spans)
    case Call(callee, args) =>
      callee == Identifier("Boolean") && (args == [] || IsConstantTruthy(args[0]) || IsConstantFalsy(args[0]))
    case _ => false
  }

  /** Some text of the template is not empty, or some span always contributes text. */
  predicate HasTruthyPart(head: string, spans: seq<Span>)
    decreases spans, 0
  {
    head != "" || exists s :: s in spans && (s.tail != "" || IsPrimitiveConstantTruthy(s.e))
  }

  /** The template case as the source runs it: visit every part, set a flag. */
  method FindTruthyPart(head: string, spans: seq<Span>) returns (hasTruthyPart: bool)
    ensures hasTruthyPart <==> HasTruthyPart(head, spans)
  {
    hasTruthyPart := head != "";
    for i := 0 to |spans|
      invariant hasTruthyPart <==>
                head != "" || exists j :: 0 <= j < i && (spans[j].tail != "" || IsPrimitiveConstantTruthy(spans[j].e))
    {
      if spans[i].tail != "" {
        hasTruthyPart := true;
      }
      if IsPrimitiveConstantTruthy(spans[i].e) {
        hasTruthyPart := true;
      }
    }
  }

  predicate IsConstantTruthy(e: Expr)
    decreases e, 0
  {
    match e
    case Parenthesized(inner) => IsConstantTruthy(inner)
    case True => true
    case ArrayLiteral(_) => true
    case Fresh => true
    case New => true
    case TypeOf(_) => true
    case StringLiteral(text) => text != ""
    case PlainTemplate(text) => text != ""
    case Numeric(text) => text != "" && text != "0" && text != "0.0" && text != ".0"
    case BigInt(text) => text != "" && text != "0n"
    case Prefix(op, operand) => op.Not? && IsConstantFalsy(operand)
    case Comma(_, second) => IsConstantTruthy(second)
    case Logical(op, left, right) =>
      (match op
       case And => IsConstantTruthy(left) && IsConstantTruthy(right)
       case Or => IsConstantTruthy(left) || IsConstantTruthy(right)
       case Coalesce => IsConstantTruthy(left) || (IsConstantNullish(left) && IsConstantTruthy(right)))
    case Assign(op, _, source) => (op.OrAssign? || op.Plain?) && IsConstantTruthy(source)
    case _ => false
  }

  predicate IsConstantFalsy(e: Expr)
    decreases e, 0
  {
    match e
    case Parenthesized(inner) => IsConstantFalsy(inner)
    case False => true
    case NullLiteral => true
    case StringLiteral(text) => text == ""
    case PlainTemplate(text) => text == ""
    case Numeric(text) => text == "0" || text == "0.0" || text == ".0"
    case BigInt(text) => text == "0n"
    case Identifier(name) => name == "undefined"
    case Void(_) => true
    case Prefix(op, operand) => op.Not? && IsConstantTruthy(operand)
    case Comma(_, second) => IsConstantFalsy(second)
    case Logical(op, left, right) =>
      (match op
       case And => IsConstantFalsy(left) || IsConstantFalsy(right)
       case Or => IsConstantFalsy(left) && IsConstantFalsy(right)
       case Coalesce => IsConstantNullish(left) && IsConstantFalsy(right))
    case Assign(op, _, source) => (op.AndAssign? || op.Plain?) && IsConstantFalsy(source)
    case _ => false
  }

  predicate IsConstantNullish(e: Expr) {
    match e
    case Parenthesized(inner) => IsConstantNullish(inner)
    case NullLiteral => true
    case Void(_) => true
    case Identifier(name) => name == "undefined"
    case _ => false
  }

  predicate IsConstantNonNullish(e: Expr) {
    match e
    case Parenthesized(inner) => IsConstantNonNullish(inner)
    case True => true
    case False => true
    case Numeric(_) => true
    case BigInt(_) => true
    case StringLiteral(_) => true
    case PlainTemplate(_) => true
    case ArrayLiteral(_) => true
    case Fresh => true
    case New => true
    case _ => false
  }

  predicate IsPrimitiveConstant(e: Expr)
    decreases e, 0
  {
    match e
    case True => true
    case False => true
    case NullLiteral => true
    case Numeric(_) => true
    case BigInt(_) => true
    case StringLiteral(_) => true
    case PlainTemplate(_) => true
    case Void(_) => true
    case TypeOf(operand) => IsPrimitiveConstant(operand)
    case Parenthesized(inner) => IsPrimitiveConstant(inner)
    case Identifier(name) => name == "undefined"
    case Prefix(op, operand) =>
      if op.Not? then IsConstantTruthy(operand) || IsConstantFalsy(operand) || IsPrimitiveConstant(operand)
      else !op.Increment? && !op.Decrement? && IsPrimitiveConstant(operand)
    case Logical(op, left, right) =>
      if op.And? && IsConstantFalsy(left) then IsPrimitiveConstant(left)
      else if op.And? && IsConstantTruthy(left) then IsPrimitiveConstant(right)
      else if op.Or? && IsConstantTruthy(left) then IsPrimitiveConstant(left)
      else if op.Or? && IsConstantFalsy(left) then IsPrimitiveConstant(right)
      else IsPrimitiveConstant(left) && IsPrimitiveConstant(right)
    case Binary(_, left, right) => IsPrimitiveConstant(left) && IsPrimitiveConstant(right)
    case _ => false
  }

  predicate IsPrimitiveConstantTruthy(e: Expr)
    decreases e, 1
  {
    match e
    case Parenthesized(inner) => IsPrimitiveConstantTruthy(inner)
    case True => true
    case False => true
    case NullLiteral => true
    case StringLiteral(text) => text != ""
    case PlainTemplate(text) => text != ""
    case Numeric(_) => true
    case BigInt(_) => true
    case Binary(op, left, right) => op.Add? && IsPrimitiveConstantTruthy(left) && IsPrimitiveConstantTruthy(right)
    case ArrayLiteral(elements) => IsCoercibleArrayLiteral(e) && CoercionIsTruthy(elements)
    case Template(head, spans) => HasTruthyPart(head, spans)
    case _ => false
  }

  /** Its text is known: no element depends on anything. */
  predicate IsCoercibleArrayLiteral(e: Expr)
    decreases e
  {
    match e
    case Parenthesized(inner) => IsCoercibleArrayLiteral(inner)
    case ArrayLiteral(elements) => forall x :: x in elements ==> IsCoercibleElement(x)
    case _ => false
  }

  predicate IsCoercibleElement(x: Element)
    decreases x
  {
    match x
    case Hole => true
    case Item(e) => IsPrimitiveConstant(e) || IsCoercibleArrayLiteral(e)
    case Spread(e) => IsCoercibleArrayLiteral(e)
  }

  /** Some element is taken to have text, or there are two, with a comma between them. */
  predicate CoercionIsTruthy(elements: seq<Element>)
    decreases elements, 0
  {
    (exists x :: x in elements && HasText(x)) || Count(elements) >= 2
  }

  predicate HasText(x: Element)
    decreases x, 0
  {
    match x
    case Hole => false
    case Item(e) => IsPrimitiveConstantTruthy(e)
    case Spread(e) => e.ArrayLiteral? && exists y :: y in e.elements && y.Item? && IsPrimitiveConstantTruthy(y.e)
  }

  /** The source's count of elements: of a spread array literal, those written in it. */
  function Count(elements: seq<Element>): nat {
    if elements == [] then 0 else Counted(elements[0]) + Count(elements[1..])
  }

  function Counted(x: Element): nat {
    if !x.Spread? then 1 else if x.e.ArrayLiteral? then |x.e.elements| else 0
  }

  lemma CountNext(elements: seq<Element>, i: nat)
    requires i < |elements|
    ensures Count(elements[..i + 1]) == Count(elements[..i]) + Counted(elements[i])
  {
    if i == 0 {
      assert elements[..1][1..] == [];
    } else {
      CountNext(elements[1..], i - 1);
      assert elements[..i + 1][1..] == elements[1..][..i] && elements[..i][1..] == elements[1..][..i - 1];
    }
  }

  /** The array case as the source runs it, with a flag and a counter. */
  method ArrayCoercionIsTruthy(elements: seq<Element>) returns (truthy: bool)
    ensures truthy <==> CoercionIsTruthy(elements)
  {
    var count := 0;
    var hasNonEmpty := false;
    for i := 0 to |elements|
      invariant count == Count(elements[..i])
      invariant hasNonEmpty <==> exists k :: 0 <= k < i && HasText(elements[k])
    {
      CountNext(elements, i);
      match elements[i]
      case Hole => count := count + 1;
      case Item(e) =>
        count := count + 1;
        if IsPrimitiveConstantTruthy(e) {
          hasNonEmpty := true;
        }
      case Spread(e) =>
        if e.ArrayLiteral? {
          for j := 0 to |e.elements|
            invariant count == Count(elements[..i]) + j
            invariant hasNonEmpty <==>
                      (exists k :: 0 <= k < i && HasText(elements[k])) ||
                      exists k :: 0 <= k < j && e.elements[k].Item? && IsPrimitiveConstantTruthy(e.elements[k].e)
          {
            count := count + 1;
            if e.elements[j].Item? && IsPrimitiveConstantTruthy(e.elements[j].e) {
              hasNonEmpty := true;
            }
          }
        }
    }
    assert elements[..|elements|] == elements;
    if hasNonEmpty {
      return true;
    }
    return count >= 2;
  }

  // ----- The fragment -----

  /** Every zero is spelled the way the rule spells it. */
  ghost predicate Spelled(h: Host, e: Expr)
    decreases e
  {
    match e
    case Numeric(text) => text == "" || (IsTruthy(Num(h.numeric(text))) <==> text != "0" && text != "0.0" && text != ".0")
    case BigInt(text) => text == "" || (h.bigint(text) != 0 <==> text != "0n")
    case Parenthesized(inner) => Spelled(h, inner)
    case TypeOf(operand) => Spelled(h, operand)
    case Prefix(_, operand) => Spelled(h, operand)
    case Comma(_, second) => Spelled(h, second)
    case Logical(_, left, right) => Spelled(h, left) && Spelled(h, right)
    case Assign(_, _, source) => Spelled(h, source)
    case Binary(_, left, right) => Spelled(h, left) && Spelled(h, right)
    case Template(_, spans) => forall s :: s in spans ==> Spelled(h, s.e)
    case ArrayLiteral(elements) => forall x :: x in elements ==> x.Hole? || Spelled(h, x.e)
    case Call(_, args) => forall a :: a in args ==> Spelled(h, a)
    case _ => true
  }

  // ----- Soundness -----

  lemma {:induction false} TruthySound(h: Host, e: Expr, v: Value)
    requires Spelled(h, e) && Evaluates(h, e, v)
    ensures IsConstantTruthy(e) ==> IsTruthy(v)
    ensures IsConstantFalsy(e) ==> !IsTruthy(v)
    decreases e
  {
    match e
    case Parenthesized(inner) => TruthySound(h, inner, v);
    case TypeOf(_) => 
    case Prefix(op, operand) =>
      if op.Not? {
        var w :| Evaluates(h, operand, w) && v == Bool(!IsTruthy(w));
        TruthySound(h, operand, w);
      }
    case Comma(_, second) => TruthySound(h, second, v);
    case Logical(op, left, right) =>
      var a := LeftValue(h, e, v);
      TruthySound(h, left, a);
      NullishSound(h, left, a);
      if !Decides(op, a) {
        TruthySound(h, right, v);
      }
    case Assign(_, _, source) =>
      if Evaluates(h, source, v) {
        TruthySound(h, source, v);
      }
    case _ =>
  }

  lemma {:induction false} NullishSound(h: Host, e: Expr, v: Value)
    requires Evaluates(h, e, v)
    ensures IsConstantNullish(e) ==> IsNullish(v)
    ensures IsConstantNonNullish(e) ==> !IsNullish(v)
  {
    if e.Parenthesized? {
      NullishSound(h, e.inner, v);
    }
  }

  /** A primitive constant has one value. */
  lemma {:induction false} PrimitiveSound(h: Host, e: Expr, v: Value, w: Value)
    requires h.Valid() && Spelled(h, e) && IsPrimitiveConstant(e) && Evaluates(h, e, v) && Evaluates(h, e, w)
    ensures v == w && IsPrimitive(v)
    decreases e
  {
    match e
    case Parenthesized(inner) => PrimitiveSound(h, inner, v, w);
    case TypeOf(operand) =>
      var a :| Evaluates(h, operand, a) && v == Str(TypeName(a));
      var b :| Evaluates(h, operand, b) && w == Str(TypeName(b));
      PrimitiveSound(h, operand, a, b);
    case Prefix(_, _) => PrefixSound(h, e, v, w);
    case Logical(_, _, _) => LogicalSound(h, e, v, w);
    case Binary(_, _, _) => ArithmeticSound(h, e, v, w);
    case _ =>
  }

  lemma {:induction false} ArithmeticSound(h: Host, e: Expr, v: Value, w: Value)
    requires h.Valid() && Spelled(h, e) && e.Binary? && IsPrimitiveConstant(e) && Evaluates(h, e, v) && Evaluates(h, e, w)
    ensures v == w && IsPrimitive(v)
    decreases e, 0
  {
    var a, b :| Evaluates(h, e.left, a) && Evaluates(h, e.right, b) && Operates(h, e.op, a, b, v);
    var c, d :| Evaluates(h, e.left, c) && Evaluates(h, e.right, d) && Operates(h, e.op, c, d, w);
    PrimitiveSound(h, e.left, a, c);
    PrimitiveSound(h, e.right, b, d);
  }

  lemma {:induction false} PrefixSound(h: Host, e: Expr, v: Value, w: Value)
    requires h.Valid() && Spelled(h, e) && e.Prefix? && IsPrimitiveConstant(e) && Evaluates(h, e, v) && Evaluates(h, e, w)
    ensures v == w && IsPrimitive(v)
    decreases e, 0
  {
    if e.prefixOp.Not? {
      var a :| Evaluates(h, e.operand, a) && v == Bool(!IsTruthy(a));
      var b :| Evaluates(h, e.operand, b) && w == Bool(!IsTruthy(b));
      TruthySound(h, e.operand, a);
      TruthySound(h, e.operand, b);
      if !IsConstantTruthy(e.operand) && !IsConstantFalsy(e.operand) {
        PrimitiveSound(h, e.operand, a, b);
      }
    } else {
      var a :| Evaluates(h, e.operand, a) && if !IsPrimitive(a) then IsNumeric(v) else h.unary(e.prefixOp, a) == Some(v);
      var b :| Evaluates(h, e.operand, b) && if !IsPrimitive(b) then IsNumeric(w) else h.unary(e.prefixOp, b) == Some(w);
      PrimitiveSound(h, e.operand, a, b);
    }
  }

  lemma {:induction false} LogicalSound(h: Host, e: Expr, v: Value, w: Value)
    requires h.Valid() && Spelled(h, e) && e.Logical? && IsPrimitiveConstant(e) && Evaluates(h, e, v) && Evaluates(h, e, w)
    ensures v == w && IsPrimitive(v)
    decreases e, 0
  {
    var a := LeftValue(h, e, v);
    var b := LeftValue(h, e, w);
    TruthySound(h, e.left, a);
    TruthySound(h, e.left, b);
    if IsPrimitiveConstant(e.left) {
      PrimitiveSound(h, e.left, a, b);
    }
    if IsPrimitiveConstant(e.right) && Evaluates(h, e.right, v) && Evaluates(h, e.right, w) {
      PrimitiveSound(h, e.right, v, w);
    }
  }
}
