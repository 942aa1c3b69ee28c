/** How the values of an expression fall into nullish, falsy and truthy ones. */
module TruthSorts {
  import opened JsExpr

  datatype Sort = Nullish | Falsy | Truthy       // falsy but not nullish

  function SortOf(v: Value): Sort { if IsNullish(v) then Nullish else if IsTruthy(v) then Truthy else Falsy }

  /** The sorts of the values of `e`. */
  ghost function Seen(h: Host, e: Expr): set<Sort> { set s: Sort | Shows(h, e, s) }

  ghost predicate Shows(h: Host, e: Expr, s: Sort) { exists v :: Evaluates(h, e, v) && SortOf(v) == s }

  /** The sorts of left values that decide the operator. */
  function Deciding(op: LogicalOp): set<Sort> {
    match op
    case And => {Nullish, Falsy}
    case Or => {Truthy}
    case Coalesce => {Falsy, Truthy}
  }

  function Negated(sorts: set<Sort>): set<Sort> {
    (if Truthy in sorts then {Falsy} else {}) + (if sorts <= {Truthy} then {} else {Truthy})
  }

  function Truth(sorts: set<Sort>): set<Sort> { Negated(Negated(sorts)) }

  /** The sorts of values, from those of the parts; only what arithmetic and templates yield,
      which is the host's business, is taken as it comes. */
  ghost function Sorts(h: Host, e: Expr): set<Sort>
    decreases e
  {
    match e
    case True => {Truthy}
    case False => {Falsy}
    case NullLiteral => {Nullish}
    case Numeric(text) => {SortOf(Num(h.numeric(text)))}
    case BigInt(text) => {SortOf(Big(h.bigint(text)))}
    case StringLiteral(text) => {SortOf(Str(text))}
    case PlainTemplate(text) => {SortOf(Str(text))}
    case ArrayLiteral(elements) => if AllHaveValues(h, elements) then {Truthy} else {}
    case Fresh => {Truthy}
    case New => {Truthy}
    case Parenthesized(inner) => Sorts(h, inner)
    case Identifier(name) =>
      if name == "undefined" then {Nullish} else if name == "NaN" then {Falsy} else {Nullish, Falsy, Truthy}
    case Void(_) => {Nullish}
    case TypeOf(operand) => if Sorts(h, operand) == {} then {} else {Truthy}
    case Delete(_) => {Falsy, Truthy}
    case Prefix(op, operand) =>
      if op.Not? then Negated(Sorts(h, operand))
      else if op.Increment? || op.Decrement? then {Falsy, Truthy}
      else Seen(h, e)
    case Postfix(_) => {Falsy, Truthy}
    case Comma(_, second) => Sorts(h, second)
    case Logical(op, left, right) =>
      var l := Sorts(h, left);
      l * Deciding(op) + if l <= Deciding(op) then {} else Sorts(h, right)
    case Assign(op, _, source) =>
      (match op
       case Plain => Sorts(h, source)
       case AndAssign => {Nullish, Falsy} + Sorts(h, source)
       case OrAssign => {Truthy} + Sorts(h, source)
       case CoalesceAssign => {Falsy, Truthy} + Sorts(h, source)
       case Compound(_) => {Falsy, Truthy})
    case Binary(_, _, _) => Seen(h, e)
    case Template(_, _) => Seen(h, e)
    case Call(callee, args) =>
      if callee == Identifier("Boolean") then if args == [] then {Falsy} else Truth(Sorts(h, args[0]))
      else if callee == Identifier("String") || callee == Identifier("Number") then {Falsy, Truthy}
      else {Nullish, Falsy, Truthy}
    case Opaque => {Nullish, Falsy, Truthy}
  }

  /** The left value that a short-circuiting operator looked at. */
  lemma LeftValue(h: Host, e: Expr, v: Value) returns (a: Value)
    requires e.Logical? && Evaluates(h, e, v)
    ensures Evaluates(h, e.left, a)
    ensures if Decides(e.logicalOp, a) then v == a else Evaluates(h, e.right, v)
  {
    a :| Evaluates(h, e.left, a) && if Decides(e.logicalOp, a) then v == a else Evaluates(h, e.right, v);
  }

  ghost predicate AllHaveValues(h: Host, elements: seq<Element>)
    decreases elements
  {
    elements == [] || (HasValue(h, elements[0]) && AllHaveValues(h, elements[1..]))
  }

  ghost predicate HasValue(h: Host, x: Element)
    decreases x
  {
    match x
    case Hole => true
    case Item(e) => Sorts(h, e) != {}
    case Spread(e) => Sorts(h, e) != {}
  }

  /** Every value is of a computed sort. */
  lemma {:induction false} SortsCover(h: Host, e: Expr, v: Value)
    requires Evaluates(h, e, v)
    ensures SortOf(v) in Sorts(h, e)
    decreases e, 1
  {
    match e
    case Parenthesized(inner) => SortsCover(h, inner, v);
    case TypeOf(_) => OperandCover(h, e, v);
    case Prefix(_, _) => OperandCover(h, e, v);
    case Comma(_, second) => SortsCover(h, second, v);
    case Logical(_, _, _) => LogicalCover(h, e, v);
    case Assign(_, _, source) =>
      if Evaluates(h, source, v) {
        SortsCover(h, source, v);
      }
    case Call(_, _) => OperandCover(h, e, v);
    case ArrayLiteral(elements) => ElementsCover(h, elements, v.items);
    case _ => LeafCover(h, e, v);
  }

  lemma LeafCover(h: Host, e: Expr, v: Value)
    requires Evaluates(h, e, v)
    requires !e.Parenthesized? && !e.TypeOf? && !e.Prefix? && !e.Comma? && !e.Logical? && !e.Assign? && !e.Call?
    requires !e.ArrayLiteral?
    ensures SortOf(v) in Sorts(h, e)
  {
    if e.Binary? || e.Template? {
      assert Shows(h, e, SortOf(v));
    }
  }

  lemma {:induction false} ElementsCover(h: Host, elements: seq<Element>, items: seq<Value>)
    requires Lists(h, elements, items)
    ensures AllHaveValues(h, elements)
    decreases elements, 0
  {
    if elements != [] {
      match elements[0]
      case Hole => ElementsCover(h, elements[1..], items[1..]);
      case Item(e) =>
        assert e < elements[0];
        SortsCover(h, e, items[0]);
        ElementsCover(h, elements[1..], items[1..]);
      case Spread(e) =>
        assert e < elements[0];
        var w, front, back :| Evaluates(h, e, w) && Iterates(w, front) && Lists(h, elements[1..], back) && items == front + back;
        SortsCover(h, e, w);
        ElementsCover(h, elements[1..], back);
    }
  }

  lemma {:induction false} OperandCover(h: Host, e: Expr, v: Value)
    requires (e.TypeOf? || e.Prefix? || e.Call?) && Evaluates(h, e, v)
    ensures SortOf(v) in Sorts(h, e)
    decreases e, 0
  {
    if e.TypeOf? {
      var w :| Evaluates(h, e.operand, w) && v == Str(TypeName(w));
      SortsCover(h, e.operand, w);
    } else if e.Prefix? && e.prefixOp.Not? {
      var w :| Evaluates(h, e.operand, w) && v == Bool(!IsTruthy(w));
      SortsCover(h, e.operand, w);
    } else if e.Prefix? {
      assert Shows(h, e, SortOf(v));
    } else if TestsArgument(e) {
      var w :| Evaluates(h, e.args[0], w) && v == Bool(IsTruthy(w));
      SortsCover(h, e.args[0], w);
    }
  }

  /** `Boolean` of something */
  predicate TestsArgument(e: Expr) { e.Call? && e.callee == Identifier("Boolean") && e.args != [] }

  lemma {:induction false} LogicalCover(h: Host, e: Expr, v: Value)
    requires e.Logical? && Evaluates(h, e, v)
    ensures SortOf(v) in Sorts(h, e)
    decreases e, 0
  {
    var a := LeftValue(h, e, v);
    SortsCover(h, e.left, a);
    DecidesBySort(e.logicalOp, a);
    if !Decides(e.logicalOp, a) {
      SortsCover(h, e.right, v);
    }
  }

  lemma DecidesBySort(op: LogicalOp, a: Value)
    ensures Decides(op, a) <==> SortOf(a) in Deciding(op)
  {
  }

  /** Every computed sort has a value. */
  lemma {:induction false} SortsShown(h: Host, e: Expr, s: Sort) returns (v: Value)
    requires s in Sorts(h, e)
    ensures Evaluates(h, e, v) && SortOf(v) == s
    decreases e, 1
  {
    match e
    case Parenthesized(inner) => v := SortsShown(h, inner, s);
    case TypeOf(_) => v := OperandShown(h, e, s);
    case Prefix(_, _) => v := OperandShown(h, e, s);
    case Comma(_, second) => v := SortsShown(h, second, s);
    case Logical(_, _, _) => v := LogicalShown(h, e, s);
    case Assign(op, _, source) =>
      if s in Sorts(h, source) && !op.Compound? {
        v := SortsShown(h, source, s);
      } else {
        v := Any(s);
      }
    case Call(_, _) => v := OperandShown(h, e, s);
    case ArrayLiteral(elements) =>
      var items := ElementsShown(h, elements);
      v := Arr(items);
    case _ => v := LeafShown(h, e, s);
  }

  lemma {:induction false} ElementsShown(h: Host, elements: seq<Element>) returns (items: seq<Value>)
    requires AllHaveValues(h, elements)
    ensures Lists(h, elements, items)
    decreases elements, 0
  {
    if elements == [] {
      items := [];
    } else {
      var rest := ElementsShown(h, elements[1..]);
      match elements[0]
      case Hole =>
        items := [Undefined] + rest;
        assert items[1..] == rest;
      case Item(e) =>
        assert e < elements[0];
        var s :| s in Sorts(h, e);
        var v := SortsShown(h, e, s);
        items := [v] + rest;
        assert items[1..] == rest;
      case Spread(e) =>
        assert e < elements[0];
        var s :| s in Sorts(h, e);
        var w := SortsShown(h, e, s);
        var front := if w.Arr? then w.items else [];
        items := front + rest;
        assert Iterates(w, front);
    }
  }

  lemma {:induction false} OperandShown(h: Host, e: Expr, s: Sort) returns (v: Value)
    requires (e.TypeOf? || e.Prefix? || e.Call?) && s in Sorts(h, e)
    ensures Evaluates(h, e, v) && SortOf(v) == s
    decreases e, 0
  {
    if e.TypeOf? {
      var t :| t in Sorts(h, e.operand);
      var w := SortsShown(h, e.operand, t);
      v := Str(TypeName(w));
    } else if e.Prefix? && e.prefixOp.Not? {
      var t :| t in Sorts(h, e.operand) && (t == Truthy <==> s == Falsy);
      var w := SortsShown(h, e.operand, t);
      v := Bool(!IsTruthy(w));
    } else if e.Prefix? && !e.prefixOp.Increment? && !e.prefixOp.Decrement? {
      v :| Evaluates(h, e, v) && SortOf(v) == s;
    } else if TestsArgument(e) {
      var t :| t in Sorts(h, e.args[0]) && (t == Truthy <==> s == Truthy);
      var w := SortsShown(h, e.args[0], t);
      v := Bool(IsTruthy(w));
    } else if e.Call? && e.callee == Identifier("String") {
      v := Str(if s == Truthy then "a" else "");
    } else if e.Prefix? || e.callee == Identifier("Number") {
      v := Num(Finite(if s == Truthy then 1.0 else 0.0));
    } else {
      v := Any(s);
    }
  }

  function Any(s: Sort): (v: Value)
    ensures SortOf(v) == s
  {
    match s
    case Nullish => Null
    case Falsy => Bool(false)
    case Truthy => Bool(true)
  }

  lemma {:induction false} LogicalShown(h: Host, e: Expr, s: Sort) returns (v: Value)
    requires e.Logical? && s in Sorts(h, e)
    ensures Evaluates(h, e, v) && SortOf(v) == s
    decreases e, 0
  {
    var l := Sorts(h, e.left);
    if s in l && s in Deciding(e.logicalOp) {
      v := SortsShown(h, e.left, s);
      LogicalYields(h, e, v, v);
    } else {
      var t :| t in l && t !in Deciding(e.logicalOp);
      var a := SortsShown(h, e.left, t);
      v := SortsShown(h, e.right, s);
      LogicalYields(h, e, a, v);
    }
  }

  lemma LogicalYields(h: Host, e: Expr, a: Value, v: Value)
    requires e.Logical? && Evaluates(h, e.left, a)
    requires if Decides(e.logicalOp, a) then v == a else Evaluates(h, e.right, v)
    ensures Evaluates(h, e, v)
  {
  }

  lemma LeafShown(h: Host, e: Expr, s: Sort) returns (v: Value)
    requires s in Sorts(h, e)
    requires !e.Parenthesized? && !e.TypeOf? && !e.Prefix? && !e.Comma? && !e.Logical? && !e.Assign? && !e.Call?
    requires !e.ArrayLiteral?
    ensures Evaluates(h, e, v) && SortOf(v) == s
  {
    match e
    case Numeric(text) => v := Num(h.numeric(text));
    case BigInt(text) => v := Big(h.bigint(text));
    case StringLiteral(text) => v := Str(text);
    case PlainTemplate(text) => v := Str(text);
    case Fresh => v := Obj(0, false);
    case New => v := Obj(0, false);
    case Identifier(name) => v := if name == "undefined" then Undefined else if name == "NaN" then Num(NaN) else Any(s);
    case Void(_) => v := Undefined;
    case Postfix(_) => v := Num(Finite(if s == Truthy then 1.0 else 0.0));
    case Binary(_, _, _) => v :| Evaluates(h, e, v) && SortOf(v) == s;
    case Template(_, _) => v :| Evaluates(h, e, v) && SortOf(v) == s;
    case _ => v := Any(s);
  }

  /** The computed sorts are those of the values, for every expression. */
  lemma {:induction false} SortsExact(h: Host, e: Expr)
    ensures Sorts(h, e) == Seen(h, e)
  {
    forall s | s in Seen(h, e) ensures s in Sorts(h, e) {
      var v :| Evaluates(h, e, v) && SortOf(v) == s;
      SortsCover(h, e, v);
    }
    forall s | s in Sorts(h, e) ensures s in Seen(h, e) {
      var v := SortsShown(h, e, s);
    }
  }

  /** `e` can go either way as a test. */
  ghost predicate Flips(h: Host, e: Expr) {
    exists v, w :: Evaluates(h, e, v) && Evaluates(h, e, w) && IsTruthy(v) && !IsTruthy(w)
  }

  predicate Mixed(sorts: set<Sort>) { Truthy in sorts && !(sorts <= {Truthy}) }

  /** A test can go either way exactly when its sorts are mixed. */
  lemma FlipsExact(h: Host, e: Expr)
    ensures Flips(h, e) <==> Mixed(Sorts(h, e))
  {
    if Flips(h, e) {
      var v, w :| Evaluates(h, e, v) && Evaluates(h, e, w) && IsTruthy(v) && !IsTruthy(w);
      SortsCover(h, e, v);
      SortsCover(h, e, w);
    }
    if Mixed(Sorts(h, e)) {
      var s :| s in Sorts(h, e) && s != Truthy;
      var v := SortsShown(h, e, Truthy);
      var w := SortsShown(h, e, s);
    }
  }
}
