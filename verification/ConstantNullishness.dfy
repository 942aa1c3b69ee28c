/** internal/rules/noconstantbinaryexpression/rule.go: operands whose nullishness is fixed. */
module ConstantNullishness {
  import opened JsExpr
  import opened TruthSorts

  function Unwrap(e: Expr): (r: Expr)
    ensures !r.Parenthesized? && (r == e || r < e)
  {
    if e.Parenthesized? then Unwrap(e.inner) else e
  }

  predicate IsStaticallyNullish(e: Expr)
    decreases e
  {
    match e
    case Parenthesized(inner) => IsStaticallyNullish(inner)
    case NullLiteral => true
    case Void(_) => true
    case Identifier(name) => name == "undefined"
    case Comma(_, second) => IsStaticallyNullish(Unwrap(second))
    case Assign(op, _, source) => op.Plain? && IsStaticallyNullish(Unwrap(source))
    case _ => false
  }

  predicate HasConstantNullishness(e: Expr)
    decreases e
  {
    match e
    case Identifier(name) => name == "undefined" || name == "NaN"
    case Parenthesized(inner) => HasConstantNullishness(inner)
    case Comma(_, second) => HasConstantNullishness(Unwrap(second))
    case Logical(op, _, right) =>
      op.Coalesce? && HasConstantNullishness(Unwrap(right)) && !IsStaticallyNullish(Unwrap(right))
    case Assign(op, _, source) => op.Plain? ==> HasConstantNullishness(Unwrap(source))
    case Call(callee, _) =>
      callee == Identifier("Boolean") || callee == Identifier("String") || callee == Identifier("Number")
    case Opaque => false
    case _ => true                               // literals, unary and arithmetic operators
  }

  /** `&&=`, `||=` and `??=` do not decide the value of `e`. */
  predicate NoLogicalAssign(e: Expr) {
    match e
    case Parenthesized(inner) => NoLogicalAssign(inner)
    case Comma(_, second) => NoLogicalAssign(second)
    case Logical(_, _, right) => NoLogicalAssign(right)
    case Assign(op, _, source) => (op.Plain? || op.Compound?) && NoLogicalAssign(source)
    case _ => true
  }

  lemma {:induction false} UnwrapSame(h: Host, e: Expr, v: Value)
    ensures Evaluates(h, e, v) ==> Evaluates(h, Unwrap(e), v)
    ensures NoLogicalAssign(e) ==> NoLogicalAssign(Unwrap(e))
  {
    if e.Parenthesized? {
      UnwrapSame(h, e.inner, v);
    }
  }

  /** The verdict is right in every evaluation: always nullish, or never. */
  lemma {:induction false} NullishnessSound(h: Host, e: Expr, v: Value)
    requires h.Valid() && NoLogicalAssign(e) && HasConstantNullishness(e) && Evaluates(h, e, v)
    ensures IsNullish(v) <==> IsStaticallyNullish(e)
    decreases e
  {
    if e.Parenthesized? {
      NullishnessSound(h, e.inner, v);
    } else if e.Comma? {
      UnwrapSame(h, e.second, v);
      NullishnessSound(h, Unwrap(e.second), v);
    } else if e.Assign? {
      if e.assignOp.Plain? {
        UnwrapSame(h, e.source, v);
        NullishnessSound(h, Unwrap(e.source), v);
      }
    } else if e.Logical? {
      if Evaluates(h, e.right, v) {
        UnwrapSame(h, e.right, v);
        NullishnessSound(h, Unwrap(e.right), v);
      }
    } else if e.Prefix? {
      PrefixNotNullish(h, e, v);
    } else if e.Binary? {
      BinaryNotNullish(h, e, v);
    }
  }

  lemma PrefixNotNullish(h: Host, e: Expr, v: Value)
    requires h.Valid() && e.Prefix? && Evaluates(h, e, v)
    ensures !IsNullish(v)
  {
  }

  lemma BinaryNotNullish(h: Host, e: Expr, v: Value)
    requires h.Valid() && e.Binary? && Evaluates(h, e, v)
    ensures !IsNullish(v)
  {
  }

  /** In every evaluation the value is nullish just when the verdict says so. */
  ghost predicate Right(h: Host, e: Expr) { forall v :: Evaluates(h, e, v) ==> (IsNullish(v) <==> IsStaticallyNullish(e)) }

  /** The verdict, on any expression, is right exactly when the sorts of its values say so. */
  lemma RightExact(h: Host, e: Expr)
    ensures Right(h, e) <==> if IsStaticallyNullish(e) then Sorts(h, e) <= {Nullish} else Nullish !in Sorts(h, e)
  {
    forall s | s in Sorts(h, e) ensures exists v :: Evaluates(h, e, v) && SortOf(v) == s {
      var v := SortsShown(h, e, s);
    }
    forall v | Evaluates(h, e, v) ensures SortOf(v) in Sorts(h, e) {
      SortsCover(h, e, v);
    }
  }

  /** A logical assignment is judged never nullish whatever its parts; that is right exactly
      when it is `||=` or `??=` with a source that is never nullish. */
  lemma LogicalAssignExact(h: Host, e: Expr)
    requires e.Assign? && !e.assignOp.Plain? && !e.assignOp.Compound?
    ensures HasConstantNullishness(e) && !IsStaticallyNullish(e)
    ensures Right(h, e) <==> !e.assignOp.AndAssign? && Nullish !in Sorts(h, e.source)
  {
    RightExact(h, e);
  }

  /** `(x &&= 1)` is judged never nullish, and is undefined when `x` is. */
  lemma AndAssignIsUnsound(h: Host, x: string)
    ensures var e := Parenthesized(Assign(AndAssign, Identifier(x), Numeric("1")));
            HasConstantNullishness(e) && !IsStaticallyNullish(e) && Evaluates(h, e, Undefined)
  {
    var inner := Assign(AndAssign, Identifier(x), Numeric("1"));
    assert HasConstantNullishness(inner) && !IsStaticallyNullish(inner) && Evaluates(h, inner, Undefined);
  }

  /** `x ||= null` is judged never nullish, and is null when `x` is falsy. */
  lemma OrAssignIsUnsound(h: Host, x: string)
    ensures var e := Assign(OrAssign, Identifier(x), NullLiteral);
            HasConstantNullishness(e) && !IsStaticallyNullish(e) && Evaluates(h, e, Null)
  {
    assert Evaluates(h, NullLiteral, Null);
  }

  /** Not decided by `&&`, `||`, `??` or a logical assignment, nor opaque. */
  predicate IsDirect(e: Expr) {
    match e
    case Parenthesized(inner) => IsDirect(inner)
    case Comma(_, second) => IsDirect(second)
    case Assign(op, _, source) => op.Compound? || (op.Plain? && IsDirect(source))
    case Logical(_, _, _) => false
    case Call(callee, _) => callee == Identifier("Boolean") || callee == Identifier("String") || callee == Identifier("Number")
    case Opaque => false
    case _ => true
  }

  lemma {:induction false} UnwrapDirect(h: Host, e: Expr)
    requires IsDirect(e)
    ensures IsDirect(Unwrap(e)) && Sorts(h, Unwrap(e)) == Sorts(h, e)
  {
    if e.Parenthesized? {
      UnwrapDirect(h, e.inner);
    }
  }

  /** Of such an expression the verdict is given whenever its nullishness is fixed. */
  lemma {:induction false} FixedIsSeen(h: Host, e: Expr)
    requires IsDirect(e) && (Sorts(h, e) <= {Nullish} || Nullish !in Sorts(h, e))
    ensures HasConstantNullishness(e)
    decreases e
  {
    match e
    case Parenthesized(inner) => FixedIsSeen(h, inner);
    case Comma(_, second) =>
      UnwrapDirect(h, second);
      FixedIsSeen(h, Unwrap(second));
    case Assign(op, _, source) =>
      if op.Plain? {
        UnwrapDirect(h, source);
        FixedIsSeen(h, Unwrap(source));
      }
    case _ =>
  }

  lemma {:induction false} StaticallyNullish(h: Host, e: Expr)
    requires IsStaticallyNullish(e)
    ensures Sorts(h, e) == {Nullish}
    decreases e
  {
    match e
    case Parenthesized(inner) => StaticallyNullish(h, inner);
    case Comma(_, second) =>
      UnwrapSorts(h, second);
      StaticallyNullish(h, Unwrap(second));
    case Assign(_, _, source) =>
      UnwrapSorts(h, source);
      StaticallyNullish(h, Unwrap(source));
    case _ =>
  }

  lemma {:induction false} UnwrapSorts(h: Host, e: Expr)
    ensures Sorts(h, Unwrap(e)) == Sorts(h, e)
  {
    if e.Parenthesized? {
      UnwrapSorts(h, e.inner);
    }
  }

  /** And of a `??` whose left side may be nullish whenever its value never is. */
  lemma {:induction false} FixedCoalesceIsSeen(h: Host, left: Expr, right: Expr)
    requires IsDirect(right) && Nullish in Sorts(h, left) && Nullish !in Sorts(h, Logical(Coalesce, left, right))
    requires Sorts(h, right) != {}
    ensures HasConstantNullishness(Logical(Coalesce, left, right))
  {
    assert Nullish !in Sorts(h, right);
    UnwrapDirect(h, right);
    FixedIsSeen(h, Unwrap(right));
    if IsStaticallyNullish(Unwrap(right)) {
      StaticallyNullish(h, Unwrap(right));
    }
  }
}
