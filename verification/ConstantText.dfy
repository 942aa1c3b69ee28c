/** internal/rules/noconstantcondition/rule.go: the texts of array literals and templates. */
module ConstantText {
  import opened JsExpr
  import opened TruthSorts
  import opened ConstantCondition
  import opened ValueText
  import opened Options

  // ----- Array literals -----

  /** How many elements there are once every spread literal is spread. */
  function Width(elements: seq<Element>): nat
    decreases elements
  {
    if elements == [] then 0
    else
      (match elements[0]
       case Hole => 1
       case Item(_) => 1
       case Spread(e) => assert e < elements[0]; SpreadWidth(e)) + Width(elements[1..])
  }

  function SpreadWidth(e: Expr): nat
    decreases e
  {
    if e.Parenthesized? then SpreadWidth(e.inner) else if e.ArrayLiteral? then Width(e.elements) else 0
  }

  /** An element that adds no text: a constant that is nullish or the empty string, or an array
      literal of at most one element, and that without text. */
  ghost predicate Textless(h: Host, e: Expr)
    decreases e
  {
    match e
    case Parenthesized(inner) => Textless(h, inner)
    case ArrayLiteral(elements) => Width(elements) <= 1 && AllTextless(h, elements)
    case _ => exists v :: Evaluates(h, e, v) && IsBlank(v)
  }

  ghost predicate AllTextless(h: Host, elements: seq<Element>)
    decreases elements
  {
    elements == [] || (TextlessElement(h, elements[0]) && AllTextless(h, elements[1..]))
  }

  ghost predicate TextlessElement(h: Host, x: Element)
    decreases x
  {
    match x
    case Hole => true
    case Item(e) => Textless(h, e)
    case Spread(e) => TextlessSpread(h, e)
  }

  ghost predicate TextlessSpread(h: Host, e: Expr)
    decreases e
  {
    if e.Parenthesized? then TextlessSpread(h, e.inner) else e.ArrayLiteral? ==> AllTextless(h, e.elements)
  }

  /** A coercible array literal holds no object, and has no text exactly when it is textless. */
  lemma {:induction false} CoercibleExact(h: Host, e: Expr, v: Value)
    requires h.Valid() && Spelled(h, e) && IsCoercibleArrayLiteral(e) && Evaluates(h, e, v)
    ensures v.Arr? && IsPlain(v) && (IsBlank(v) <==> Textless(h, e))
    ensures |v.items| == SpreadWidth(e) && (AllBlank(v.items) <==> TextlessSpread(h, e))
    decreases e
  {
    if e.Parenthesized? {
      CoercibleExact(h, e.inner, v);
    } else {
      ElementsExact(h, e.elements, v.items);
    }
  }

  lemma {:induction false} ItemExact(h: Host, e: Expr, v: Value)
    requires h.Valid() && Spelled(h, e) && (IsPrimitiveConstant(e) || IsCoercibleArrayLiteral(e)) && Evaluates(h, e, v)
    ensures IsPlain(v) && (IsBlank(v) <==> Textless(h, e))
    decreases e
  {
    if e.Parenthesized? {
      ItemExact(h, e.inner, v);
    } else if e.ArrayLiteral? {
      ElementsExact(h, e.elements, v.items);
    } else {
      ConstantExact(h, e, v);
    }
  }

  lemma ConstantExact(h: Host, e: Expr, v: Value)
    requires h.Valid() && Spelled(h, e) && IsPrimitiveConstant(e) && !e.Parenthesized? && !e.ArrayLiteral? && Evaluates(h, e, v)
    ensures IsPlain(v) && (IsBlank(v) <==> Textless(h, e))
  {
    PrimitiveSound(h, e, v, v);
    assert Textless(h, e) <==> exists w :: Evaluates(h, e, w) && IsBlank(w);
    forall w | Evaluates(h, e, w) ensures w == v {
      PrimitiveSound(h, e, v, w);
    }
  }

  ghost predicate Known(h: Host, elements: seq<Element>) {
    forall x :: x in elements ==> IsCoercibleElement(x) && (x.Hole? || Spelled(h, x.e))
  }

  lemma {:induction false} ElementsExact(h: Host, elements: seq<Element>, items: seq<Value>)
    requires h.Valid() && Known(h, elements) && Lists(h, elements, items)
    ensures AllPlain(items) && |items| == Width(elements) && (AllBlank(items) <==> AllTextless(h, elements))
    decreases elements
  {
    if elements != [] {
      match elements[0]
      case Hole =>
        ElementsExact(h, elements[1..], items[1..]);
      case Item(e) =>
        assert e < elements[0];
        ItemExact(h, e, items[0]);
        ElementsExact(h, elements[1..], items[1..]);
      case Spread(e) =>
        assert e < elements[0];
        var w, front, back :| Evaluates(h, e, w) && Iterates(w, front) && Lists(h, elements[1..], back) && items == front + back;
        CoercibleExact(h, e, w);
        ElementsExact(h, elements[1..], back);
        PlainAppend(front, back);
    }
  }

  /** A coercible array literal has one value, and so one text. */
  lemma {:induction false} CoercibleFixed(h: Host, e: Expr, v: Value, w: Value)
    requires h.Valid() && Spelled(h, e) && (IsPrimitiveConstant(e) || IsCoercibleArrayLiteral(e))
    requires Evaluates(h, e, v) && Evaluates(h, e, w)
    ensures v == w
    decreases e
  {
    if e.Parenthesized? {
      CoercibleFixed(h, e.inner, v, w);
    } else if e.ArrayLiteral? {
      ElementsFixed(h, e.elements, v.items, w.items);
    } else {
      PrimitiveSound(h, e, v, w);
    }
  }

  lemma {:induction false} ElementsFixed(h: Host, elements: seq<Element>, v: seq<Value>, w: seq<Value>)
    requires h.Valid() && Known(h, elements) && Lists(h, elements, v) && Lists(h, elements, w)
    ensures v == w
    decreases elements
  {
    if elements != [] {
      match elements[0]
      case Hole =>
        ElementsFixed(h, elements[1..], v[1..], w[1..]);
        assert v == [v[0]] + v[1..] && w == [w[0]] + w[1..];
      case Item(e) =>
        assert e < elements[0];
        CoercibleFixed(h, e, v[0], w[0]);
        ElementsFixed(h, elements[1..], v[1..], w[1..]);
        assert v == [v[0]] + v[1..] && w == [w[0]] + w[1..];
      case Spread(e) =>
        assert e < elements[0];
        var a, v0, v1 :| Evaluates(h, e, a) && Iterates(a, v0) && Lists(h, elements[1..], v1) && v == v0 + v1;
        var b, w0, w1 :| Evaluates(h, e, b) && Iterates(b, w0) && Lists(h, elements[1..], w1) && w == w0 + w1;
        CoercibleFixed(h, e, a, b);
        CoercibleExact(h, e, a);
        ElementsFixed(h, elements[1..], v1, w1);
    }
  }

  // ----- Spans -----

  /** A span that is taken to have text, but only for an array literal that has none. */
  ghost predicate Hollow(h: Host, e: Expr)
    decreases e
  {
    match e
    case Parenthesized(inner) => Hollow(h, inner)
    case Binary(_, left, right) => Hollow(h, left) && Hollow(h, right)
    case ArrayLiteral(_) => Textless(h, e)
    case Template(head, spans) => head == "" && forall s :: s in spans ==> HollowSpan(h, s)
    case _ => false
  }

  ghost predicate HollowSpan(h: Host, s: Span)
    decreases s
  {
    s.tail == "" && (IsPrimitiveConstantTruthy(s.e) ==> Hollow(h, s.e))
  }

  /** No template decides its text. */
  predicate NoTemplate(e: Expr) {
    match e
    case Parenthesized(inner) => NoTemplate(inner)
    case Binary(_, left, right) => NoTemplate(left) && NoTemplate(right)
    case Template(_, _) => false
    case _ => true
  }

  lemma {:induction false} SpanPlain(h: Host, e: Expr, v: Value)
    requires h.Valid() && Spelled(h, e) && IsPrimitiveConstantTruthy(e) && Evaluates(h, e, v)
    ensures IsPlain(v) && !v.Undefined?
  {
    if e.Parenthesized? {
      SpanPlain(h, e.inner, v);
    } else if e.ArrayLiteral? {
      CoercibleExact(h, e, v);
    } else if e.Binary? {
      var a, b :| Evaluates(h, e.left, a) && Evaluates(h, e.right, b) && Operates(h, e.op, a, b, v);
      OperatesPlain(h, e.op, a, b, v);
    }
  }

  lemma OperatesPlain(h: Host, op: BinaryOp, a: Value, b: Value, v: Value)
    requires h.Valid() && Operates(h, op, a, b, v)
    ensures IsPrimitive(v) && !IsNullish(v)
  {
  }

  /** Addition adds what its operands are coerced to. */
  lemma AddCoerces(h: Host, a: Value, b: Value, v: Value) returns (p: Value, q: Value)
    requires Operates(h, Add, a, b, v) && IsPlain(a) && IsPlain(b)
    ensures Coerces(h, a, p) && Coerces(h, b, q) && h.binary(Add, p, q) == Some(v)
  {
    if IsPrimitive(a) && IsPrimitive(b) {
      p, q := a, b;
    } else {
      p, q :| Coerces(h, a, p) && Coerces(h, b, q) && h.binary(Add, p, q) == Some(v);
    }
  }

  lemma CoercedText(h: Host, a: Value, p: Value)
    requires h.Valid() && IsPlain(a) && Coerces(h, a, p)
    ensures IsPrimitive(p) && Stringifies(h, a, h.text(p))
  {
  }

  /** A span taken to have text has some unless it is hollow; a hollow one without templates
      has none. */
  lemma {:induction false} SpanExact(h: Host, e: Expr, v: Value, s: string)
    requires h.Valid() && Spelled(h, e) && IsPrimitiveConstantTruthy(e) && Evaluates(h, e, v) && Stringifies(h, v, s)
    ensures s == "" ==> Hollow(h, e)
    ensures Hollow(h, e) && NoTemplate(e) ==> s == ""
    decreases e, 1
  {
    match e
    case Parenthesized(inner) => SpanExact(h, inner, v, s);
    case Binary(_, _, _) => AddExact(h, e, v, s);
    case ArrayLiteral(_) =>
      CoercibleExact(h, e, v);
      BlankExact(h, v, s);
    case Template(_, _) =>
      if !Hollow(h, e) {
        TemplateSound(h, e, v);
      }
    case _ =>
  }

  lemma {:induction false} AddExact(h: Host, e: Expr, v: Value, s: string)
    requires h.Valid() && Spelled(h, e) && e.Binary? && IsPrimitiveConstantTruthy(e) && Evaluates(h, e, v) && Stringifies(h, v, s)
    ensures s == "" ==> Hollow(h, e)
    ensures Hollow(h, e) && NoTemplate(e) ==> s == ""
    decreases e, 0
  {
    var a, b :| Evaluates(h, e.left, a) && Evaluates(h, e.right, b) && Operates(h, Add, a, b, v);
    SpanPlain(h, e.left, a);
    SpanPlain(h, e.right, b);
    var p, q := AddCoerces(h, a, b, v);
    CoercedText(h, a, p);
    CoercedText(h, b, q);
    SpanExact(h, e.left, a, h.text(p));
    SpanExact(h, e.right, b, h.text(q));
    SumText(h, p, q, v);
    assert s == h.text(v);
  }

  lemma SumText(h: Host, p: Value, q: Value, v: Value)
    requires h.Valid() && IsPrimitive(p) && IsPrimitive(q) && h.binary(Add, p, q) == Some(v)
    ensures IsPrimitive(v) && (h.text(v) == "" <==> h.text(p) == "" && h.text(q) == "")
  {
    assert h.binary(Add, p, q).Some?;
  }

  // ----- Templates -----

  /** A template with a truthy part has text unless it is hollow. */
  lemma {:induction false} TemplateSound(h: Host, e: Expr, v: Value)
    requires h.Valid() && Spelled(h, e) && e.Template? && !Hollow(h, e) && Evaluates(h, e, v)
    ensures v.Str? && v.s != ""
    decreases e, 0
  {
    var s :| SpansEvaluate(h, e.spans, s) && v.s == e.head + s;
    if e.head == "" {
      SpansSound(h, e.spans, s);
    }
  }

  lemma {:induction false} SpansSound(h: Host, spans: seq<Span>, s: string)
    requires h.Valid() && (forall x :: x in spans ==> Spelled(h, x.e)) && SpansEvaluate(h, spans, s)
    requires exists x :: x in spans && !HollowSpan(h, x)
    ensures s != ""
    decreases spans, 0
  {
    var w, x, rest :| Evaluates(h, spans[0].e, w) && Stringifies(h, w, x) && SpansEvaluate(h, spans[1..], rest) &&
                      s == x + spans[0].tail + rest;
    if HollowSpan(h, spans[0]) {
      SpansSound(h, spans[1..], rest);
    } else if spans[0].tail == "" {
      SpanExact(h, spans[0].e, w, x);
    }
  }

  /** `e` has a value with no text, or one with text. */
  ghost predicate CanShow(h: Host, e: Expr, blank: bool) {
    exists v, s :: Evaluates(h, e, v) && Stringifies(h, v, s) && (s == "" <==> blank)
  }

  lemma SpanYields(h: Host, spans: seq<Span>, v: Value, x: string, rest: string)
    requires spans != [] && Evaluates(h, spans[0].e, v) && Stringifies(h, v, x) && SpansEvaluate(h, spans[1..], rest)
    ensures SpansEvaluate(h, spans, x + spans[0].tail + rest)
  {
  }

  ghost predicate CanBeBlank(h: Host, spans: seq<Span>) {
    forall s :: s in spans ==> s.tail == "" && CanShow(h, s.e, true)
  }

  lemma {:induction false} BlankSpans(h: Host, spans: seq<Span>)
    ensures SpansEvaluate(h, spans, "") <==> CanBeBlank(h, spans)
  {
    if spans != [] {
      BlankSpans(h, spans[1..]);
      assert spans == [spans[0]] + spans[1..];
      if SpansEvaluate(h, spans, "") {
        var w, x, rest :| Evaluates(h, spans[0].e, w) && Stringifies(h, w, x) && SpansEvaluate(h, spans[1..], rest) &&
                          "" == x + spans[0].tail + rest;
        assert CanShow(h, spans[0].e, true);
      }
      if CanBeBlank(h, spans) {
        var v, x :| Evaluates(h, spans[0].e, v) && Stringifies(h, v, x) && (x == "" <==> true);
        SpanYields(h, spans, v, x, "");
      }
    }
  }

  lemma {:induction false} FilledSpans(h: Host, spans: seq<Span>, s: string)
    requires SpansEvaluate(h, spans, s) && CanBeBlank(h, spans) && s != ""
    ensures exists x :: x in spans && CanShow(h, x.e, false)
  {
    var w, x, rest :| Evaluates(h, spans[0].e, w) && Stringifies(h, w, x) && SpansEvaluate(h, spans[1..], rest) &&
                      s == x + spans[0].tail + rest;
    if x != "" {
      assert CanShow(h, spans[0].e, false);
    } else {
      FilledSpans(h, spans[1..], rest);
    }
  }

  lemma {:induction false} FillSpans(h: Host, spans: seq<Span>, i: nat) returns (s: string)
    requires CanBeBlank(h, spans) && i < |spans| && CanShow(h, spans[i].e, false)
    ensures SpansEvaluate(h, spans, s) && s != ""
  {
    var rest := "";
    if i > 0 {
      rest := FillSpans(h, spans[1..], i - 1);
    } else {
      BlankSpans(h, spans[1..]);
    }
    var v, x :| Evaluates(h, spans[0].e, v) && Stringifies(h, v, x) && (x == "" <==> i > 0);
    SpanYields(h, spans, v, x, rest);
    s := x + spans[0].tail + rest;
  }

  lemma TemplateYields(h: Host, head: string, spans: seq<Span>, s: string)
    requires SpansEvaluate(h, spans, s)
    ensures Evaluates(h, Template(head, spans), Str(head + s))
  {
  }

  lemma TemplateText(h: Host, head: string, spans: seq<Span>, v: Value) returns (s: string)
    requires Evaluates(h, Template(head, spans), v)
    ensures SpansEvaluate(h, spans, s) && v == Str(head + s)
  {
    s :| SpansEvaluate(h, spans, s) && v.s == head + s;
  }

  /** The template has no text of its own, every span can be without text, and some span can
      have some. */
  ghost predicate Wavers(h: Host, head: string, spans: seq<Span>) {
    head == "" && CanBeBlank(h, spans) && exists s :: s in spans && CanShow(h, s.e, false)
  }

  /** A template can go either way exactly when it wavers. */
  lemma TemplateExact(h: Host, head: string, spans: seq<Span>)
    ensures Flips(h, Template(head, spans)) <==> Wavers(h, head, spans)
  {
    if Flips(h, Template(head, spans)) {
      FlipWavers(h, head, spans);
    }
    if Wavers(h, head, spans) {
      WaveringFlips(h, spans);
    }
  }

  lemma FlipWavers(h: Host, head: string, spans: seq<Span>)
    requires Flips(h, Template(head, spans))
    ensures Wavers(h, head, spans)
  {
    var v, w :| Evaluates(h, Template(head, spans), v) && Evaluates(h, Template(head, spans), w) && IsTruthy(v) && !IsTruthy(w);
    var s := TemplateText(h, head, spans, v);
    var t := TemplateText(h, head, spans, w);
    assert t == "" && head == "";
    BlankSpans(h, spans);
    FilledSpans(h, spans, s);
  }

  lemma WaveringFlips(h: Host, spans: seq<Span>)
    requires Wavers(h, "", spans)
    ensures Flips(h, Template("", spans))
  {
    var x :| x in spans && CanShow(h, x.e, false);
    var i :| 0 <= i < |spans| && spans[i] == x;
    var s := FillSpans(h, spans, i);
    BlankSpans(h, spans);
    BothTexts(h, spans, s);
  }

  lemma BothTexts(h: Host, spans: seq<Span>, s: string)
    requires SpansEvaluate(h, spans, s) && SpansEvaluate(h, spans, "") && s != ""
    ensures Flips(h, Template("", spans))
  {
    assert "" + s == s;
    TemplateYields(h, "", spans, s);
    TemplateYields(h, "", spans, "");
    assert IsTruthy(Str(s)) && !IsTruthy(Str(""));
  }

  /** A template taken to have text wavers only if it is hollow: every span taken to have text
      rests on an array literal that has none. */
  lemma {:induction false} WaveringIsHollow(h: Host, head: string, spans: seq<Span>)
    requires h.Valid() && Spelled(h, Template(head, spans)) && Wavers(h, head, spans)
    ensures Hollow(h, Template(head, spans))
  {
    TemplateExact(h, head, spans);
    var v :| Evaluates(h, Template(head, spans), v) && !IsTruthy(v);
    if !Hollow(h, Template(head, spans)) {
      TemplateSound(h, Template(head, spans), v);
    }
  }

  /** What the verdict on a span does not pin down. */
  predicate IsOpen(e: Expr) { !IsPrimitiveConstantTruthy(e) || !NoTemplate(e) }

  /** A template, reported or not, can go either way exactly when it is hollow, every span can be
      without text, and some span that the verdict does not pin down can have some. */
  lemma {:induction false} HollowExact(h: Host, head: string, spans: seq<Span>)
    requires h.Valid() && Spelled(h, Template(head, spans))
    ensures Flips(h, Template(head, spans)) <==>
            Hollow(h, Template(head, spans)) && CanBeBlank(h, spans) &&
            exists s :: s in spans && IsOpen(s.e) && CanShow(h, s.e, false)
  {
    TemplateExact(h, head, spans);
    if Wavers(h, head, spans) {
      WaveringIsHollow(h, head, spans);
      var s :| s in spans && CanShow(h, s.e, false);
      assert HollowSpan(h, s);
      if !IsOpen(s.e) {
        var v, x :| Evaluates(h, s.e, v) && Stringifies(h, v, x) && (x == "" <==> false);
        SpanExact(h, s.e, v, x);
      }
    }
  }

  // ----- A hollow span -----

  /** `${[null]}${x}` is reported, for the `null`, yet its text is that of `x` alone. */
  lemma NullElementIsUnsound(h: Host, x: string)
    requires h.Valid() && x != "undefined" && x != "NaN"
    ensures var e := Template("", [Span(ArrayLiteral([Item(NullLiteral)]), ""), Span(Identifier(x), "")]);
            IsObviouslyConstant(e) && Flips(h, e)
  {
    NullElementHasText();
    NullElementShows(h);
    BlankSpanFlips(h, ArrayLiteral([Item(NullLiteral)]), x);
  }

  lemma NullElementHasText()
    ensures IsPrimitiveConstantTruthy(ArrayLiteral([Item(NullLiteral)]))
  {
    assert HasText(Item(NullLiteral)) && IsCoercibleArrayLiteral(ArrayLiteral([Item(NullLiteral)]));
  }

  lemma NullElementShows(h: Host)
    ensures CanShow(h, ArrayLiteral([Item(NullLiteral)]), true)
  {
    var elements := [Item(NullLiteral)];
    assert elements[1..] == [] && [Null][1..] == [];
    assert Lists(h, elements, [Null]);
    assert Evaluates(h, ArrayLiteral(elements), Arr([Null])) && Stringifies(h, Arr([Null]), "");
  }

  /** `[...[...[], ...[]]]` */
  function EmptySpreads(): Expr {
    ArrayLiteral([Spread(ArrayLiteral([Spread(ArrayLiteral([])), Spread(ArrayLiteral([]))]))])
  }

  /** Its inner spreads are counted as two elements, so a template with it is reported, though
      its text is that of `x` alone. */
  lemma SpreadCountIsUnsound(h: Host, x: string)
    requires h.Valid() && x != "undefined" && x != "NaN"
    ensures var e := Template("", [Span(EmptySpreads(), ""), Span(Identifier(x), "")]);
            IsObviouslyConstant(e) && Flips(h, e)
  {
    EmptySpreadsShow(h);
    SpreadCountHasText();
    BlankSpanFlips(h, EmptySpreads(), x);
  }

  lemma SpreadCountHasText()
    ensures IsPrimitiveConstantTruthy(EmptySpreads())
  {
    var empty := ArrayLiteral([]);
    var inner := ArrayLiteral([Spread(empty), Spread(empty)]);
    assert IsCoercibleArrayLiteral(empty) && IsCoercibleArrayLiteral(inner);
    assert Counted(Spread(inner)) == 2 && Count([Spread(inner)]) >= 2;
  }

  lemma EmptySpreadsShow(h: Host)
    ensures CanShow(h, EmptySpreads(), true)
  {
    var inner := ArrayLiteral([Spread(ArrayLiteral([])), Spread(ArrayLiteral([]))]);
    SpreadsOfEmpty(h, ArrayLiteral([]));
    SpreadOfEmpty(h, inner, []);
    assert [Spread(inner)] + [] == [Spread(inner)];
    assert Stringifies(h, Arr([]), "");
  }

  lemma SpreadsOfEmpty(h: Host, e: Expr)
    requires Evaluates(h, e, Arr([]))
    ensures Evaluates(h, ArrayLiteral([Spread(e), Spread(e)]), Arr([]))
  {
    SpreadOfEmpty(h, e, []);
    assert [Spread(e)] + [] == [Spread(e)];
    SpreadOfEmpty(h, e, [Spread(e)]);
    assert [Spread(e)] + [Spread(e)] == [Spread(e), Spread(e)];
  }

  lemma SpreadOfEmpty(h: Host, e: Expr, rest: seq<Element>)
    requires Evaluates(h, e, Arr([])) && Lists(h, rest, [])
    ensures Evaluates(h, ArrayLiteral([Spread(e)] + rest), Arr([])) && Lists(h, [Spread(e)] + rest, [])
  {
    var elements := [Spread(e)] + rest;
    var none: seq<Value> := [];
    assert elements[1..] == rest && Iterates(Arr(none), none) && none == none + none;
    assert Lists(h, elements, none);
  }

  lemma BlankSpanFlips(h: Host, e: Expr, x: string)
    requires h.Valid() && x != "undefined" && x != "NaN" && CanShow(h, e, true)
    ensures Flips(h, Template("", [Span(e, ""), Span(Identifier(x), "")]))
  {
    var spans := [Span(e, ""), Span(Identifier(x), "")];
    assert Evaluates(h, Identifier(x), Str("")) && Stringifies(h, Str(""), "");
    assert Evaluates(h, Identifier(x), Str("a")) && Stringifies(h, Str("a"), "a");
    assert CanShow(h, Identifier(x), true) && CanShow(h, Identifier(x), false);
    assert spans[1] in spans;
    TemplateExact(h, "", spans);
  }
}
