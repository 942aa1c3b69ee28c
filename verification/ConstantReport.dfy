/** internal/rules/noconstantcondition/rule.go: when a report is right. */
module ConstantReport {
  import opened JsExpr
  import opened TruthSorts
  import opened ConstantCondition
  import opened ValueText
  import opened ConstantText

  /** `left ?? right` does not bring a falsy left value and a truthy right one together. */
  ghost predicate Clear(h: Host, left: Expr, right: Expr) {
    !(Nullish in Sorts(h, left) && Falsy in Sorts(h, left) && Truthy in Sorts(h, right))
  }

  /** No `??` whose two constant operands the verdict rests on is unclear, and no template it takes to have text is hollow. */
  ghost predicate Settled(h: Host, e: Expr)
    decreases e
  {
    match e
    case Parenthesized(inner) => Settled(h, inner)
    case Prefix(op, operand) => op.Not? ==> Settled(h, operand)
    case Comma(_, second) => Settled(h, second)
    case Assign(op, _, source) => op.Plain? ==> Settled(h, source)
    case Logical(op, left, right) =>
      || IsConstantTruthy(e) || IsConstantFalsy(e)
      || (op.Coalesce? && IsConstantNonNullish(left))
      || (Settled(h, left) && Settled(h, right) && (op.Coalesce? ==> Clear(h, left, right)))
    case Template(head, spans) => HasTruthyPart(head, spans) ==> !Hollow(h, e)
    case _ => true
  }

  /** A test the rule reports has one truthiness. */
  lemma {:induction false} ObviouslyConstantSound(h: Host, e: Expr, v: Value, w: Value)
    requires h.Valid() && Spelled(h, e) && Settled(h, e) && IsObviouslyConstant(e) && Evaluates(h, e, v) && Evaluates(h, e, w)
    ensures IsTruthy(v) == IsTruthy(w)
    decreases e, 3
  {
    if e.Parenthesized? {
      ObviouslyConstantSound(h, e.inner, v, w);
    } else if e.Prefix? {
      PrefixConstantSound(h, e, v, w);
    } else if e.Comma? {
      ObviouslyConstantSound(h, e.second, v, w);
    } else if e.Logical? {
      ShortCircuitSound(h, e, v, w);
    } else if e.Assign? {
      AssignSound(h, e, v, w);
    } else if e.Template? {
      TemplateConstantSound(h, e, v, w);
    } else {
      LeafConstantSound(h, e, v, w);
    }
  }

  lemma LeafConstantSound(h: Host, e: Expr, v: Value, w: Value)
    requires h.Valid() && Spelled(h, e) && IsObviouslyConstant(e) && Evaluates(h, e, v) && Evaluates(h, e, w)
    requires !e.Parenthesized? && !e.Prefix? && !e.Comma? && !e.Logical? && !e.Assign? && !e.Template?
    ensures IsTruthy(v) == IsTruthy(w)
  {
    if e.Binary? {
      BinaryConstantSound(h, e, v, w);
    } else if e.Call? {
      BooleanCallSound(h, e, v, w);
    } else {
      LiteralSound(h, e, v, w);
    }
  }

  lemma LiteralSound(h: Host, e: Expr, v: Value, w: Value)
    requires IsObviouslyConstant(e) && Evaluates(h, e, v) && Evaluates(h, e, w)
    requires !e.Parenthesized? && !e.Prefix? && !e.Comma? && !e.Logical? && !e.Assign?
    requires !e.Binary? && !e.Template? && !e.Call?
    ensures IsTruthy(v) == IsTruthy(w)
  {
  }

  lemma TemplateConstantSound(h: Host, e: Expr, v: Value, w: Value)
    requires h.Valid() && Spelled(h, e) && Settled(h, e) && e.Template? && IsObviouslyConstant(e)
    requires Evaluates(h, e, v) && Evaluates(h, e, w)
    ensures IsTruthy(v) == IsTruthy(w)
  {
    TemplateSound(h, e, v);
    TemplateSound(h, e, w);
  }

  lemma BinaryConstantSound(h: Host, e: Expr, v: Value, w: Value)
    requires h.Valid() && Spelled(h, e) && e.Binary? && IsObviouslyConstant(e) && Evaluates(h, e, v) && Evaluates(h, e, w)
    ensures v == w
  {
    if IsPrimitiveConstant(e.left) && IsPrimitiveConstant(e.right) {
      ArithmeticSound(h, e, v, w);
    } else {
      var a, b :| Evaluates(h, e.left, a) && Evaluates(h, e.right, b) && Operates(h, e.op, a, b, v);
      var c, d :| Evaluates(h, e.left, c) && Evaluates(h, e.right, d) && Operates(h, e.op, c, d, w);
      ItemExact(h, e.left, a);
      ItemExact(h, e.right, b);
      CoercibleFixed(h, e.left, a, c);
      CoercibleFixed(h, e.right, b, d);
      AddFixed(h, a, b, v, w);
    }
  }

  lemma AddFixed(h: Host, a: Value, b: Value, v: Value, w: Value)
    requires IsPlain(a) && IsPlain(b) && Operates(h, Add, a, b, v) && Operates(h, Add, a, b, w)
    ensures v == w
  {
    var p, q := AddCoerces(h, a, b, v);
    var r, t := AddCoerces(h, a, b, w);
    CoercedFixed(h, a, p, r);
    CoercedFixed(h, b, q, t);
  }

  lemma CoercedFixed(h: Host, a: Value, p: Value, q: Value)
    requires IsPlain(a) && Coerces(h, a, p) && Coerces(h, a, q)
    ensures p == q
  {
    if a.Arr? {
      JoinFixed(h, a.items, p.s, q.s);
    }
  }

  lemma {:induction false} PrefixConstantSound(h: Host, e: Expr, v: Value, w: Value)
    requires h.Valid() && Spelled(h, e) && Settled(h, e) && e.Prefix? && IsObviouslyConstant(e) && Evaluates(h, e, v) && Evaluates(h, e, w)
    ensures IsTruthy(v) == IsTruthy(w)
    decreases e, 0
  {
    if e.prefixOp.Not? {
      var a :| Evaluates(h, e.operand, a) && v == Bool(!IsTruthy(a));
      var b :| Evaluates(h, e.operand, b) && w == Bool(!IsTruthy(b));
      ObviouslyConstantSound(h, e.operand, a, b);
    } else {
      PrefixSound(h, e, v, w);
    }
  }

  lemma BooleanCallSound(h: Host, e: Expr, v: Value, w: Value)
    requires Spelled(h, e) && e.Call? && IsObviouslyConstant(e) && Evaluates(h, e, v) && Evaluates(h, e, w)
    ensures IsTruthy(v) == IsTruthy(w)
  {
    if e.args != [] {
      var a :| Evaluates(h, e.args[0], a) && v == Bool(IsTruthy(a));
      var b :| Evaluates(h, e.args[0], b) && w == Bool(IsTruthy(b));
      TruthySound(h, e.args[0], a);
      TruthySound(h, e.args[0], b);
    }
  }

  lemma {:induction false} AssignSound(h: Host, e: Expr, v: Value, w: Value)
    requires h.Valid() && Spelled(h, e) && Settled(h, e) && e.Assign? && IsObviouslyConstant(e) && Evaluates(h, e, v) && Evaluates(h, e, w)
    ensures IsTruthy(v) == IsTruthy(w)
    decreases e, 0
  {
    if e.assignOp.Plain? {
      ObviouslyConstantSound(h, e.source, v, w);
    } else {
      TruthySound(h, e, v);
      TruthySound(h, e, w);
    }
  }

  lemma {:induction false} ShortCircuitSound(h: Host, e: Expr, v: Value, w: Value)
    requires h.Valid() && Spelled(h, e) && Settled(h, e) && e.Logical? && IsObviouslyConstant(e)
    requires Evaluates(h, e, v) && Evaluates(h, e, w)
    ensures IsTruthy(v) == IsTruthy(w)
    decreases e, 2
  {
    if IsConstantTruthy(e) || IsConstantFalsy(e) {
      TruthySound(h, e, v);
      TruthySound(h, e, w);
    } else if e.logicalOp.Coalesce? && IsConstantNonNullish(e.left) {
      assert Spelled(h, e.left);
      LeftSound(h, e, v, w);
    } else {
      var a := LeftValue(h, e, v);
      var b := LeftValue(h, e, w);
      OperandsSettled(h, e);
      OperandsSound(h, e, a, b, v, w);
    }
  }

  lemma OperandsSettled(h: Host, e: Expr)
    requires Spelled(h, e) && Settled(h, e) && e.Logical? && IsObviouslyConstant(e)
    requires !IsConstantTruthy(e) && !IsConstantFalsy(e) && !(e.logicalOp.Coalesce? && IsConstantNonNullish(e.left))
    ensures Spelled(h, e.left) && Settled(h, e.left) && IsObviouslyConstant(e.left)
    ensures Spelled(h, e.right) && Settled(h, e.right) && IsObviouslyConstant(e.right)
    ensures e.logicalOp.Coalesce? ==> Clear(h, e.left, e.right)
  {
  }

  lemma {:induction false} LeftSound(h: Host, e: Expr, v: Value, w: Value)
    requires h.Valid() && e.Logical? && e.logicalOp.Coalesce? && Spelled(h, e.left) && IsConstantNonNullish(e.left)
    requires Evaluates(h, e, v) && Evaluates(h, e, w)
    ensures IsTruthy(v) == IsTruthy(w)
    decreases e, 1
  {
    LeftKept(h, e, v);
    LeftKept(h, e, w);
    NonNullishSettled(h, e.left);
    ObviouslyConstantSound(h, e.left, v, w);
  }

  lemma LeftKept(h: Host, e: Expr, v: Value)
    requires e.Logical? && e.logicalOp.Coalesce? && IsConstantNonNullish(e.left) && Evaluates(h, e, v)
    ensures Evaluates(h, e.left, v)
  {
    var a := LeftValue(h, e, v);
    NullishSound(h, e.left, a);
  }

  /** What both operands being settled and constant says of two runs that go on from `a` and `b`. */
  lemma {:induction false} OperandsSound(h: Host, e: Expr, a: Value, b: Value, v: Value, w: Value)
    requires h.Valid() && e.Logical? && (e.logicalOp.Coalesce? ==> Clear(h, e.left, e.right))
    requires Spelled(h, e.left) && Settled(h, e.left) && IsObviouslyConstant(e.left)
    requires Spelled(h, e.right) && Settled(h, e.right) && IsObviouslyConstant(e.right)
    requires Evaluates(h, e.left, a) && if Decides(e.logicalOp, a) then v == a else Evaluates(h, e.right, v)
    requires Evaluates(h, e.left, b) && if Decides(e.logicalOp, b) then w == b else Evaluates(h, e.right, w)
    ensures IsTruthy(v) == IsTruthy(w)
    decreases e, 0
  {
    ObviouslyConstantSound(h, e.left, a, b);
    if !Decides(e.logicalOp, a) && !Decides(e.logicalOp, b) {
      ObviouslyConstantSound(h, e.right, v, w);
    } else if e.logicalOp.Coalesce? {
      MixedSound(h, e.left, e.right, a, b, v, w);
      MixedSound(h, e.left, e.right, b, a, w, v);
    }
  }

  /** The right value of a clear `??` is falsy if the left operand has a falsy value to yield. */
  lemma MixedSound(h: Host, left: Expr, right: Expr, a: Value, b: Value, v: Value, w: Value)
    requires Clear(h, left, right) && Evaluates(h, left, a) && Evaluates(h, left, b)
    requires IsNullish(a) ==> Evaluates(h, right, v)
    requires !IsNullish(b) ==> w == b
    requires IsTruthy(a) == IsTruthy(b)
    ensures IsNullish(a) && !IsNullish(b) ==> IsTruthy(v) == IsTruthy(w)
  {
    if IsNullish(a) && !IsNullish(b) {
      SortsCover(h, left, a);
      SortsCover(h, left, b);
      SortsCover(h, right, v);
    }
  }

  lemma {:induction false} NonNullishSettled(h: Host, e: Expr)
    requires IsConstantNonNullish(e)
    ensures IsObviouslyConstant(e) && Settled(h, e)
  {
    if e.Parenthesized? {
      NonNullishSettled(h, e.inner);
    }
  }

  // ----- The `??` that is not clear -----

  /** A reported `??` of two operands that are rightly constant can go either way exactly when
      it is not clear. */
  lemma CoalesceExact(h: Host, left: Expr, right: Expr)
    requires h.Valid() && Spelled(h, left) && Settled(h, left)
    requires Spelled(h, right) && Settled(h, right)
    requires IsObviouslyConstant(Logical(Coalesce, left, right))
    ensures Flips(h, Logical(Coalesce, left, right)) <==> !Clear(h, left, right)
  {
    var e := Logical(Coalesce, left, right);
    FlipsExact(h, e);
    if Clear(h, left, right) && Flips(h, e) {
      var v, w :| Evaluates(h, e, v) && Evaluates(h, e, w) && IsTruthy(v) && !IsTruthy(w);
      assert Settled(h, e);
      ObviouslyConstantSound(h, e, v, w);
    }
    UnclearMixes(h, left, right);
  }

  lemma UnclearMixes(h: Host, left: Expr, right: Expr)
    ensures !Clear(h, left, right) ==> Mixed(Sorts(h, Logical(Coalesce, left, right)))
  {
    if !Clear(h, left, right) {
      var e, l := Logical(Coalesce, left, right), Sorts(h, left);
      assert Deciding(Coalesce) == {Falsy, Truthy} && !(l <= {Falsy, Truthy});
      assert Sorts(h, e) == l * {Falsy, Truthy} + Sorts(h, right);
      assert Falsy in Sorts(h, e);
    }
  }

  /** What a reader can see makes a `??` clear. */
  lemma {:induction false} ClearBySight(h: Host, left: Expr, right: Expr)
    requires h.Valid() && Spelled(h, left) && Spelled(h, right)
    requires || IsConstantNonNullish(left) || IsConstantNullish(left) || IsPrimitiveConstant(left)
             || IsConstantTruthy(left) || IsConstantFalsy(right)
    ensures Clear(h, left, right)
  {
    if !Clear(h, left, right) {
      var a := SortsShown(h, left, Nullish);
      var b := SortsShown(h, left, Falsy);
      var c := SortsShown(h, right, Truthy);
      NullishSound(h, left, a);
      NullishSound(h, left, b);
      TruthySound(h, left, a);
      TruthySound(h, right, c);
      if IsPrimitiveConstant(left) {
        PrimitiveSound(h, left, a, b);
      }
    }
  }

  /** `(x && null) ?? true` is reported, yet it is falsy or truthy depending on `x`. */
  lemma CoalesceIsUnsound(h: Host, x: string)
    requires x != "undefined" && x != "NaN"
    ensures var e := Logical(Coalesce, Logical(And, Identifier(x), NullLiteral), True);
            IsObviouslyConstant(e) && Flips(h, e)
  {
    var left := Logical(And, Identifier(x), NullLiteral);
    var l := Sorts(h, left);
    assert Sorts(h, Identifier(x)) == {Nullish, Falsy, Truthy} && Sorts(h, NullLiteral) == {Nullish};
    assert Nullish in l && Falsy in l;
    UnclearMixes(h, left, True);
    FlipsExact(h, Logical(Coalesce, left, True));
    CoalesceIsReported(x);
  }

  lemma CoalesceIsReported(x: string)
    ensures IsObviouslyConstant(Logical(Coalesce, Logical(And, Identifier(x), NullLiteral), True))
  {
    assert IsConstantFalsy(NullLiteral);
    assert IsObviouslyConstant(Logical(And, Identifier(x), NullLiteral)) && IsObviouslyConstant(True);
  }

  // ----- What is reported -----

  /** Literals, identifiers, and what parentheses, `!`, `void`, `typeof`, comma, `&&`, `||`, `=`, `&&=`
      and `||=` make of them. */
  predicate IsBasic(e: Expr)
    decreases e
  {
    match e
    case True => true
    case False => true
    case NullLiteral => true
    case Numeric(text) => text != ""
    case BigInt(text) => text != ""
    case StringLiteral(_) => true
    case PlainTemplate(_) => true
    case ArrayLiteral(elements) => forall x :: x in elements ==> x.Hole? || IsBasic(x.e)
    case Fresh => true
    case New => true
    case Parenthesized(inner) => IsBasic(inner)
    case Identifier(name) => name != "NaN"
    case Void(_) => true
    case TypeOf(operand) => IsBasic(operand)
    case Prefix(op, operand) => op.Not? && IsBasic(operand)
    case Comma(_, second) => IsBasic(second)
    case Logical(op, left, right) => !op.Coalesce? && IsBasic(left) && IsBasic(right)
    case Assign(op, _, source) => (op.Plain? || op.AndAssign? || op.OrAssign?) && IsBasic(source)
    case _ => false
  }

  lemma {:induction false} BasicHasValue(h: Host, e: Expr)
    requires IsBasic(e)
    ensures Sorts(h, e) != {}
    decreases e, 1
  {
    match e
    case ArrayLiteral(elements) => BasicElements(h, elements);
    case Parenthesized(inner) => BasicHasValue(h, inner);
    case TypeOf(operand) => BasicHasValue(h, operand);
    case Prefix(_, operand) => BasicHasValue(h, operand);
    case Comma(_, second) => BasicHasValue(h, second);
    case Logical(op, left, right) =>
      BasicHasValue(h, left);
      BasicHasValue(h, right);
      KeptOrGoesOn(Sorts(h, left), Sorts(h, right), op);
    case Assign(_, _, source) => BasicHasValue(h, source);
    case _ =>
  }

  lemma KeptOrGoesOn(l: set<Sort>, r: set<Sort>, op: LogicalOp)
    requires l != {} && r != {}
    ensures l * Deciding(op) + (if l <= Deciding(op) then {} else r) != {}
  {
    if l <= Deciding(op) {
      assert l * Deciding(op) == l;
    }
  }

  lemma {:induction false} BasicElements(h: Host, elements: seq<Element>)
    requires forall x :: x in elements ==> x.Hole? || IsBasic(x.e)
    ensures AllHaveValues(h, elements)
    decreases elements, 0
  {
    if elements != [] {
      BasicElements(h, elements[1..]);
      match elements[0]
      case Hole =>
      case Item(e) =>
        assert e < elements[0];
        BasicHasValue(h, e);
      case Spread(e) =>
        assert e < elements[0];
        BasicHasValue(h, e);
    }
  }

  /** What is always truthy, or always falsy, is seen to be so. */
  lemma {:induction false} TruthIsSeen(h: Host, e: Expr)
    requires IsBasic(e) && Spelled(h, e)
    ensures Sorts(h, e) <= {Truthy} ==> IsConstantTruthy(e)
    ensures Truthy !in Sorts(h, e) ==> IsConstantFalsy(e)
    decreases e, 1
  {
    BasicHasValue(h, e);
    match e
    case Parenthesized(inner) => TruthIsSeen(h, inner);
    case TypeOf(operand) => BasicHasValue(h, operand);
    case Prefix(_, operand) =>
      BasicHasValue(h, operand);
      TruthIsSeen(h, operand);
    case Comma(_, second) => TruthIsSeen(h, second);
    case Logical(_, _, _) => LogicalIsSeen(h, e);
    case Assign(_, _, source) => TruthIsSeen(h, source);
    case _ =>
  }

  lemma {:induction false} LogicalIsSeen(h: Host, e: Expr)
    requires e.Logical? && IsBasic(e) && Spelled(h, e)
    ensures Sorts(h, e) <= {Truthy} ==> IsConstantTruthy(e)
    ensures Truthy !in Sorts(h, e) ==> IsConstantFalsy(e)
    decreases e, 0
  {
    TruthIsSeen(h, e.left);
    TruthIsSeen(h, e.right);
    BasicHasValue(h, e.left);
    LogicalSorts(Sorts(h, e.left), Sorts(h, e.right), e.logicalOp);
  }

  /** What the sorts of a whole `&&` or `||` say of its operands. */
  lemma LogicalSorts(l: set<Sort>, r: set<Sort>, op: LogicalOp)
    requires l != {} && !op.Coalesce?
    ensures var s := l * Deciding(op) + if l <= Deciding(op) then {} else r;
            if op.And? then
              (s <= {Truthy} ==> l <= {Truthy} && r <= {Truthy}) && (Truthy !in s ==> Truthy !in l || Truthy !in r)
            else
              (s <= {Truthy} ==> l <= {Truthy} || r <= {Truthy}) && (Truthy !in s ==> Truthy !in l && Truthy !in r)
  {
    var s := l * Deciding(op) + if l <= Deciding(op) then {} else r;
    assert forall x :: x in l && x in Deciding(op) ==> x in s;
    var x :| x in l;
    if op.And? && s <= {Truthy} {
      forall y | y in l ensures y == Truthy {
        assert y in Deciding(op) ==> y in s;
      }
      assert x == Truthy && !(l <= Deciding(op));
    }
  }

  /** A seen truth value is reported. */
  lemma {:induction false} SeenIsReported(e: Expr)
    requires IsBasic(e) && (IsConstantTruthy(e) || IsConstantFalsy(e))
    ensures IsObviouslyConstant(e)
    decreases e
  {
    match e
    case Parenthesized(inner) => SeenIsReported(inner);
    case Prefix(_, operand) => SeenIsReported(operand);
    case Comma(_, second) => SeenIsReported(second);
    case Logical(op, left, right) =>
      if op.And? && IsConstantTruthy(e) {
        SeenIsReported(left);
        SeenIsReported(right);
      } else if op.Or? && IsConstantFalsy(e) {
        SeenIsReported(left);
        SeenIsReported(right);
      }
    case Assign(op, _, source) =>
      if op.Plain? {
        SeenIsReported(source);
      }
    case _ =>
  }

  lemma {:induction false} BasicIsSettled(h: Host, e: Expr)
    requires IsBasic(e)
    ensures Settled(h, e)
    decreases e
  {
    match e
    case Parenthesized(inner) => BasicIsSettled(h, inner);
    case Prefix(_, operand) => BasicIsSettled(h, operand);
    case Comma(_, second) => BasicIsSettled(h, second);
    case Logical(_, left, right) =>
      BasicIsSettled(h, left);
      BasicIsSettled(h, right);
    case Assign(_, _, source) => BasicIsSettled(h, source);
    case _ =>
  }

  /** On such expressions the rule reports exactly the tests that cannot go either way. */
  lemma {:induction false} BasicReportExact(h: Host, e: Expr)
    requires h.Valid() && IsBasic(e) && Spelled(h, e)
    ensures IsObviouslyConstant(e) <==> !Flips(h, e)
  {
    FlipsExact(h, e);
    if IsObviouslyConstant(e) && Flips(h, e) {
      var v, w :| Evaluates(h, e, v) && Evaluates(h, e, w) && IsTruthy(v) && !IsTruthy(w);
      BasicIsSettled(h, e);
      ObviouslyConstantSound(h, e, v, w);
    }
    if !Flips(h, e) {
      TruthIsSeen(h, e);
      SeenIsReported(e);
    }
  }

  /** And its helpers tell exactly which way they go. */
  lemma {:induction false} BasicTruthExact(h: Host, e: Expr)
    requires IsBasic(e) && Spelled(h, e)
    ensures IsConstantTruthy(e) <==> Sorts(h, e) == {Truthy}
    ensures IsConstantFalsy(e) <==> Truthy !in Sorts(h, e)
  {
    BasicHasValue(h, e);
    TruthIsSeen(h, e);
    var s :| s in Sorts(h, e);
    if Sorts(h, e) <= {Truthy} {
      assert Sorts(h, e) == {Truthy} by { assert s == Truthy; }
    }
    forall t | t in Sorts(h, e) ensures (IsConstantTruthy(e) ==> t == Truthy) && (IsConstantFalsy(e) ==> t != Truthy) {
      var v := SortsShown(h, e, t);
      TruthySound(h, e, v);
    }
  }

  /** Literals and `undefined` under any operators that compute with primitives. */
  predicate IsArithmetic(e: Expr)
    decreases e
  {
    match e
    case True => true
    case False => true
    case NullLiteral => true
    case Numeric(_) => true
    case BigInt(_) => true
    case StringLiteral(_) => true
    case PlainTemplate(_) => true
    case Identifier(name) => name == "undefined"
    case Void(_) => true
    case TypeOf(operand) => IsArithmetic(operand)
    case Parenthesized(inner) => IsArithmetic(inner)
    case Prefix(op, operand) => !op.Increment? && !op.Decrement? && IsArithmetic(operand)
    case Binary(_, left, right) => IsArithmetic(left) && IsArithmetic(right)
    case Logical(_, left, right) => IsArithmetic(left) && IsArithmetic(right)
    case _ => false
  }

  /** Constant arithmetic is reported. */
  lemma {:induction false} ArithmeticReported(e: Expr)
    requires IsArithmetic(e)
    ensures IsPrimitiveConstant(e) && IsObviouslyConstant(e)
    decreases e
  {
    match e
    case TypeOf(operand) => ArithmeticReported(operand);
    case Parenthesized(inner) => ArithmeticReported(inner);
    case Prefix(_, operand) => ArithmeticReported(operand);
    case Binary(_, left, right) =>
      ArithmeticReported(left);
      ArithmeticReported(right);
    case Logical(_, left, right) =>
      ArithmeticReported(left);
      ArithmeticReported(right);
    case _ =>
  }

  /** Of array literals, however nested or spread, that hold nothing but such and holes. */
  predicate IsListed(e: Expr)
    decreases e
  {
    match e
    case Parenthesized(inner) => IsListed(inner)
    case ArrayLiteral(elements) => forall x :: x in elements ==> x.Hole? || (x.Item? && IsArithmetic(x.e)) || IsListed(x.e)
    case _ => false
  }

  /** So is adding one of these to constant arithmetic, on either side. */
  lemma {:induction false} ListReported(list: Expr, e: Expr)
    requires IsListed(list) && IsArithmetic(e)
    ensures IsObviouslyConstant(Binary(Add, e, list)) && IsObviouslyConstant(Binary(Add, list, e))
  {
    ListIsSeen(list);
    ArithmeticReported(e);
  }

  lemma {:induction false} ListIsSeen(e: Expr)
    requires IsListed(e)
    ensures IsCoercibleArrayLiteral(e)
    decreases e
  {
    match e
    case Parenthesized(inner) => ListIsSeen(inner);
    case ArrayLiteral(elements) =>
      forall x | x in elements ensures IsCoercibleElement(x) {
        if x.Item? && IsArithmetic(x.e) {
          ArithmeticReported(x.e);
        } else if !x.Hole? {
          assert x.e < x;
          ListIsSeen(x.e);
        }
      }
  }

  /** A literal with some text, or made of such: a sum of two, a list with one or with a comma. */
  predicate IsPrinted(e: Expr)
    decreases e
  {
    match e
    case True => true
    case False => true
    case NullLiteral => true
    case Numeric(_) => true
    case BigInt(_) => true
    case StringLiteral(text) => text != ""
    case PlainTemplate(text) => text != ""
    case Parenthesized(inner) => IsPrinted(inner)
    case Binary(op, left, right) => op.Add? && IsPrinted(left) && IsPrinted(right)
    case ArrayLiteral(elements) =>
      IsListed(e) && ((|elements| >= 2 && forall x :: x in elements ==> !x.Spread?) ||
                      exists x :: x in elements && x.Item? && IsPrinted(x.e))
    case _ => false
  }

  /** So is a template with text of its own, or of a literal. */
  lemma TextReported(head: string, spans: seq<Span>)
    requires head != "" || exists s :: s in spans && (s.tail != "" || IsPrinted(s.e))
    ensures IsObviouslyConstant(Template(head, spans))
  {
    if head == "" {
      var s :| s in spans && (s.tail != "" || IsPrinted(s.e));
      PrintedIsSeen(s.e);
      assert s.tail != "" || IsPrimitiveConstantTruthy(s.e);
    }
  }

  lemma {:induction false} PrintedIsSeen(e: Expr)
    ensures IsPrinted(e) ==> IsPrimitiveConstantTruthy(e)
    decreases e
  {
    match e
    case Parenthesized(inner) => PrintedIsSeen(inner);
    case Binary(_, left, right) =>
      PrintedIsSeen(left);
      PrintedIsSeen(right);
    case ArrayLiteral(elements) =>
      if IsPrinted(e) {
        ListIsSeen(e);
        if x :| x in elements && x.Item? && IsPrinted(x.e) {
          assert x.e < x;
          PrintedIsSeen(x.e);
        } else {
          CountAll(elements);
        }
      }
    case _ =>
  }

  lemma {:induction false} CountAll(elements: seq<Element>)
    requires forall x :: x in elements ==> !x.Spread?
    ensures Count(elements) == |elements|
  {
    if elements != [] {
      CountAll(elements[1..]);
    }
  }

  /** A literal or an identifier, in parentheses or not. */
  predicate IsOnePiece(e: Expr) {
    match e
    case Parenthesized(inner) => IsOnePiece(inner)
    case TypeOf(_) => false
    case Prefix(_, _) => false
    case Comma(_, _) => false
    case Logical(_, _, _) => false
    case Assign(_, _, _) => false
    case _ => IsBasic(e)
  }

  lemma {:induction false} PieceIsBasic(h: Host, e: Expr)
    requires IsOnePiece(e)
    ensures IsBasic(e)
    ensures IsConstantNullish(e) <==> Sorts(h, e) == {Nullish}
    ensures IsConstantNonNullish(e) <==> Nullish !in Sorts(h, e)
    ensures Nullish in Sorts(h, e) ==> Sorts(h, e) == {Nullish} || Sorts(h, e) == {Nullish, Falsy, Truthy}
  {
    match e
    case Parenthesized(inner) => PieceIsBasic(h, inner);
    case ArrayLiteral(elements) => BasicElements(h, elements);
    case _ =>
  }

  /** Behind such a left operand `??` is reported exactly when it cannot go either way, and seen to be
      truthy exactly when it always is; but `false ?? x` is not seen to be falsy. */
  lemma {:induction false} CoalesceReportExact(h: Host, left: Expr, right: Expr)
    requires h.Valid() && IsOnePiece(left) && IsBasic(right) && Spelled(h, left) && Spelled(h, right)
    ensures var e := Logical(Coalesce, left, right);
            && (IsObviouslyConstant(e) <==> !Flips(h, e))
            && (IsConstantTruthy(e) <==> Sorts(h, e) == {Truthy})
            && (IsConstantFalsy(e) <==> Sorts(h, left) == {Nullish} && Truthy !in Sorts(h, right))
  {
    var e := Logical(Coalesce, left, right);
    PieceIsBasic(h, left);
    CoalesceTruth(h, left, right);
    FlipsExact(h, e);
    if Sorts(h, left) == {Nullish, Falsy, Truthy} {
      PieceNotConstant(h, left);
    } else if IsObviouslyConstant(e) && Flips(h, e) {
      var v, w :| Evaluates(h, e, v) && Evaluates(h, e, w) && IsTruthy(v) && !IsTruthy(w);
      BasicIsSettled(h, left);
      BasicIsSettled(h, right);
      ObviouslyConstantSound(h, e, v, w);
    }
    if !Flips(h, e) && Sorts(h, left) == {Nullish} {
      TruthIsSeen(h, right);
      SeenIsReported(left);
      SeenIsReported(right);
    }
  }

  lemma CoalesceTruth(h: Host, left: Expr, right: Expr)
    requires IsOnePiece(left) && IsBasic(right) && Spelled(h, left) && Spelled(h, right)
    ensures var e, l, r := Logical(Coalesce, left, right), Sorts(h, left), Sorts(h, right);
            && (IsConstantTruthy(e) <==> Sorts(h, e) == {Truthy})
            && (IsConstantFalsy(e) <==> l == {Nullish} && Truthy !in r)
            && (if l == {Nullish} then Sorts(h, e) == r else if Nullish in l then Falsy in Sorts(h, e) && Truthy in Sorts(h, e)
                else Sorts(h, e) == l)
            && (l == {Nullish} ==> IsConstantFalsy(left))
  {
    var l, r := Sorts(h, left), Sorts(h, right);
    PieceIsBasic(h, left);
    CoalesceSorts(l, r);
    BasicTruthExact(h, left);
    BasicTruthExact(h, right);
    CoalesceReads(left, right, l, r, Sorts(h, Logical(Coalesce, left, right)));
  }

  lemma CoalesceReads(left: Expr, right: Expr, l: set<Sort>, r: set<Sort>, s: set<Sort>)
    requires (IsConstantNullish(left) <==> l == {Nullish}) && (IsConstantTruthy(left) <==> l == {Truthy})
    requires (IsConstantTruthy(right) <==> r == {Truthy}) && (IsConstantFalsy(right) <==> Truthy !in r)
    requires if l == {Nullish} then s == r else if Nullish in l then Falsy in s && Truthy in s else s == l
    ensures IsConstantTruthy(Logical(Coalesce, left, right)) <==> s == {Truthy}
    ensures IsConstantFalsy(Logical(Coalesce, left, right)) <==> l == {Nullish} && Truthy !in r
  {
    assert s == {Truthy} ==> Falsy !in s;
  }

  lemma {:induction false} PieceNotConstant(h: Host, e: Expr)
    requires IsOnePiece(e) && Sorts(h, e) == {Nullish, Falsy, Truthy}
    ensures !IsObviouslyConstant(e)
  {
    match e
    case Parenthesized(inner) => PieceNotConstant(h, inner);
    case _ =>
  }

  lemma CoalesceSorts(l: set<Sort>, r: set<Sort>)
    requires Nullish in l ==> l == {Nullish} || l == {Nullish, Falsy, Truthy}
    ensures var s := l * Deciding(Coalesce) + if l <= Deciding(Coalesce) then {} else r;
            if l == {Nullish} then s == r
            else if Nullish in l then Falsy in s && Truthy in s
            else s == l
  {
    assert forall x :: x in l && x != Nullish ==> x in Deciding(Coalesce);
    if Nullish !in l {
      assert l * Deciding(Coalesce) == l && l <= Deciding(Coalesce);
    }
  }

  /** A test by `Boolean` is reported when its argument cannot go either way. */
  lemma {:induction false} BooleanReported(h: Host, e: Expr)
    requires IsBasic(e) && Spelled(h, e) && !Flips(h, e)
    ensures IsObviouslyConstant(Call(Identifier("Boolean"), [e]))
  {
    FlipsExact(h, e);
    TruthIsSeen(h, e);
  }
}
