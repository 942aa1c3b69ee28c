/** Canonical strings of syntax trees, and why equal strings mean equal trees. */
module Canonical {
  import opened Text

  /** The node kinds the rules name; every kind has its own number. */
  datatype Kind =
    | ParenthesizedExpression | BinaryExpression | AmpersandAmpersandToken | BarBarToken
    | Identifier | PrivateIdentifier | StringLiteral | NumericLiteral | BigIntLiteral
    | NoSubstitutionTemplateLiteral | TemplateHead | TemplateMiddle | TemplateTail | RegularExpressionLiteral
    | OtherKind(n: nat)

  function Code(k: Kind): nat {
    match k
    case ParenthesizedExpression => 0
    case BinaryExpression => 1
    case AmpersandAmpersandToken => 2
    case BarBarToken => 3
    case Identifier => 4
    case PrivateIdentifier => 5
    case StringLiteral => 6
    case NumericLiteral => 7
    case BigIntLiteral => 8
    case NoSubstitutionTemplateLiteral => 9
    case TemplateHead => 10
    case TemplateMiddle => 11
    case TemplateTail => 12
    case RegularExpressionLiteral => 13
    case OtherKind(n) => 14 + n
  }

  predicate IsTextLeaf(k: Kind) { 4 <= Code(k) <= 13 }

  /** The leaves whose text tells one expression from another. */
  predicate HoldsText(k: Kind) {
    || k == Identifier || k == PrivateIdentifier
    || k == StringLiteral || k == NumericLiteral || k == BigIntLiteral || k == RegularExpressionLiteral
    || k == NoSubstitutionTemplateLiteral || k == TemplateHead || k == TemplateMiddle || k == TemplateTail
  }

  /** A node: its kind, its own text if it is a leaf, all else that it holds besides its
      children, and its children in order.  What else there is depends on the kind: the operator
      of a unary expression, the keyword of a declaration list (its `var`, `let` or `const`), the
      token of a heritage clause, a template's raw text, which of its optional parts are there. */
  datatype Node = Node(kind: Kind, text: string, extra: string, children: seq<Node>)

  /** As the parser builds them: a parenthesized expression holds an expression, a binary
      expression has a left side, an operator token and a right side. */
  predicate WellFormed(n: Node) {
    && (n.kind.ParenthesizedExpression? ==> |n.children| == 1)
    && (n.kind.BinaryExpression? ==> |n.children| == 3)
    && forall c :: c in n.children ==> WellFormed(c)
  }

  function Leaf(kind: Kind, text: string): (r: Node)
    ensures WellFormed(r) || kind.ParenthesizedExpression? || kind.BinaryExpression?
  {
    Node(kind, text, "", [])
  }

  /** `keyword x = value;`, the kinds being numbered from `n`. */
  function Declares(n: nat, keyword: string, value: string): (r: Node)
    ensures WellFormed(r)
  {
    var declaration := Node(OtherKind(n), "", "", [Leaf(Identifier, "x"), Leaf(NumericLiteral, value)]);
    assert WellFormed(declaration);
    var list := Node(OtherKind(n + 2), "", keyword, [declaration]);
    assert WellFormed(list);
    Node(OtherKind(n + 1), "", "", [list])
  }

  function BlockOf(n: nat, stmts: seq<Node>): (r: Node)
    ensures (forall x :: x in stmts ==> WellFormed(x)) ==> WellFormed(r)
  {
    Node(OtherKind(n + 3), "", "", stmts)
  }

  /** `var x = 1; { keyword x = 0; } return x;` */
  function Body(n: nat, keyword: string): (r: Node)
    ensures WellFormed(r)
  {
    var inner := BlockOf(n, [Declares(n, keyword, "0")]);
    var result := Node(OtherKind(n + 4), "", "", [Leaf(Identifier, "x")]);
    assert WellFormed(inner) && WellFormed(result);
    BlockOf(n, [Declares(n, "var", "1"), inner, result])
  }

  /** A call of a function with that body: 0 if the keyword is `var`, and 1 if it is `let`. */
  function CallOf(n: nat, keyword: string): (r: Node)
    ensures WellFormed(r)
  {
    var called := Node(OtherKind(n + 6), "", "", [Body(n, keyword)]);
    assert WellFormed(called);
    Node(OtherKind(n + 5), "", "", [called])
  }

  // ----- Shapes: what a canonical string records -----

  datatype Shape =
    | Plain(kind: Kind, text: string, children: seq<Shape>)
    | Logical(op: Kind, left: Shape, right: Shape)

  predicate ShapeOk(s: Shape) {
    match s
    case Plain(kind, text, children) =>
      (!IsTextLeaf(kind) ==> text == "") && forall c :: c in children ==> ShapeOk(c)
    case Logical(_, left, right) => ShapeOk(left) && ShapeOk(right)
  }

  /** The canonical text of a shape, with `k` after it. */
  function Render(isPrint: char -> bool, s: Shape, k: string): string
    decreases s
  {
    match s
    case Plain(kind, text, children) =>
      Itoa(Code(kind)) + TextPart(isPrint, kind, text, "(" + RenderAll(isPrint, children, ")" + k))
    case Logical(op, left, right) =>
      Itoa(Code(BinaryExpression)) +
      (":" + (Itoa(Code(op)) + ("(" + Render(isPrint, left, "," + Render(isPrint, right, ")" + k)))))
  }

  function TextPart(isPrint: char -> bool, kind: Kind, text: string, k: string): string {
    if IsTextLeaf(kind) then ":" + (Quote(isPrint, text) + k) else k
  }

  function RenderAll(isPrint: char -> bool, ss: seq<Shape>, k: string): string
    decreases ss
  {
    if ss == [] then k
    else Render(isPrint, ss[0], if |ss| == 1 then k else "," + RenderAll(isPrint, ss[1..], k))
  }

  // ----- Unique readability -----

  function KindOf(s: Shape): Kind { if s.Plain? then s.kind else BinaryExpression }

  /** What follows the leading kind number. */
  function Tail(isPrint: char -> bool, s: Shape, k: string): (t: string)
    ensures t != "" && !IsDigit(t[0])
  {
    match s
    case Plain(kind, text, children) => TextPart(isPrint, kind, text, "(" + RenderAll(isPrint, children, ")" + k))
    case Logical(op, left, right) =>
      ":" + (Itoa(Code(op)) + ("(" + Render(isPrint, left, "," + Render(isPrint, right, ")" + k))))
  }

  lemma RenderSplits(isPrint: char -> bool, s: Shape, k: string)
    ensures Render(isPrint, s, k) == Itoa(Code(KindOf(s))) + Tail(isPrint, s, k)
    ensures Render(isPrint, s, k) != "" && IsDigit(Render(isPrint, s, k)[0])
  {
  }

  lemma CodeInjective(a: Kind, b: Kind)
    requires Code(a) == Code(b)
    ensures a == b
  {
  }

  lemma Uncons(c: char, s: string, d: char, t: string)
    requires [c] + s == [d] + t
    ensures c == d && s == t
  {
    assert ([c] + s)[0] == c && ([d] + t)[0] == d;
    assert ([c] + s)[1..] == s && ([d] + t)[1..] == t;
  }

  /** No rendering runs into another: equal texts are equal shapes and equal rests. */
  lemma {:induction false} RenderReadable(isPrint: char -> bool, a: Shape, x: string, b: Shape, y: string)
    requires ShapeOk(a) && ShapeOk(b) && Render(isPrint, a, x) == Render(isPrint, b, y)
    ensures a == b && x == y
    decreases a, 1
  {
    RenderSplits(isPrint, a, x);
    RenderSplits(isPrint, b, y);
    ItoaReadable(Code(KindOf(a)), Tail(isPrint, a, x), Code(KindOf(b)), Tail(isPrint, b, y));
    CodeInjective(KindOf(a), KindOf(b));
    if KindOf(a) == BinaryExpression {
      TailStart(isPrint, a, x);
      TailStart(isPrint, b, y);
    }
    if a.Plain? {
      PlainReadable(isPrint, a, x, b, y);
    } else {
      LogicalReadable(isPrint, a, x, b, y);
    }
  }

  lemma TailStart(isPrint: char -> bool, s: Shape, k: string)
    requires KindOf(s) == BinaryExpression
    ensures Tail(isPrint, s, k)[0] == if s.Plain? then '(' else ':'
  {
  }

  lemma {:induction false} PlainReadable(isPrint: char -> bool, a: Shape, x: string, b: Shape, y: string)
    requires ShapeOk(a) && ShapeOk(b) && a.Plain? && b.Plain? && a.kind == b.kind
    requires Tail(isPrint, a, x) == Tail(isPrint, b, y)
    ensures a == b && x == y
    decreases a, 0
  {
    var c, d := RenderAll(isPrint, a.children, ")" + x), RenderAll(isPrint, b.children, ")" + y);
    if IsTextLeaf(a.kind) {
      Uncons(':', Quote(isPrint, a.text) + ("(" + c), ':', Quote(isPrint, b.text) + ("(" + d));
      QuoteReadable(isPrint, a.text, "(" + c, b.text, "(" + d);
    }
    Uncons('(', c, '(', d);
    RenderAllReadable(isPrint, a.children, x, b.children, y);
  }

  lemma {:induction false} LogicalReadable(isPrint: char -> bool, a: Shape, x: string, b: Shape, y: string)
    requires ShapeOk(a) && ShapeOk(b) && a.Logical? && b.Logical?
    requires Tail(isPrint, a, x) == Tail(isPrint, b, y)
    ensures a == b && x == y
    decreases a, 0
  {
    var c, d := Render(isPrint, a.right, ")" + x), Render(isPrint, b.right, ")" + y);
    var l, r := Render(isPrint, a.left, "," + c), Render(isPrint, b.left, "," + d);
    Uncons(':', Itoa(Code(a.op)) + ("(" + l), ':', Itoa(Code(b.op)) + ("(" + r));
    ItoaReadable(Code(a.op), "(" + l, Code(b.op), "(" + r);
    CodeInjective(a.op, b.op);
    Uncons('(', l, '(', r);
    RenderReadable(isPrint, a.left, "," + c, b.left, "," + d);
    Uncons(',', c, ',', d);
    RenderReadable(isPrint, a.right, ")" + x, b.right, ")" + y);
    Uncons(')', x, ')', y);
  }

  lemma {:induction false} RenderAllReadable(isPrint: char -> bool, a: seq<Shape>, x: string, b: seq<Shape>, y: string)
    requires (forall s :: s in a ==> ShapeOk(s)) && (forall s :: s in b ==> ShapeOk(s))
    requires RenderAll(isPrint, a, ")" + x) == RenderAll(isPrint, b, ")" + y)
    ensures a == b && x == y
    decreases a, 0
  {
    RenderAllStart(isPrint, a, x);
    RenderAllStart(isPrint, b, y);
    if a == [] || b == [] {
      Uncons(')', x, ')', y);
    } else {
      var c, d := RestOf(isPrint, a, x), RestOf(isPrint, b, y);
      RenderReadable(isPrint, a[0], c, b[0], d);
      RestStart(isPrint, a, x);
      RestStart(isPrint, b, y);
      if |a| == 1 {
        Uncons(')', x, ')', y);
      } else {
        Uncons(',', RenderAll(isPrint, a[1..], ")" + x), ',', RenderAll(isPrint, b[1..], ")" + y));
        RenderAllReadable(isPrint, a[1..], x, b[1..], y);
      }
    }
  }

  /** What follows the first child. */
  function RestOf(isPrint: char -> bool, ss: seq<Shape>, x: string): string
    requires ss != []
  {
    if |ss| == 1 then ")" + x else "," + RenderAll(isPrint, ss[1..], ")" + x)
  }

  lemma RestStart(isPrint: char -> bool, ss: seq<Shape>, x: string)
    requires ss != []
    ensures RestOf(isPrint, ss, x)[0] == if |ss| == 1 then ')' else ','
  {
  }

  lemma RenderAllStart(isPrint: char -> bool, ss: seq<Shape>, x: string)
    ensures var t := RenderAll(isPrint, ss, ")" + x);
            if ss == [] then t == ")" + x
            else t == Render(isPrint, ss[0], RestOf(isPrint, ss, x)) && t[0] != ')'
  {
    if ss != [] {
      RenderSplits(isPrint, ss[0], RestOf(isPrint, ss, x));
    }
  }

  /** What is rendered after a shape is just appended. */
  lemma {:induction false} RenderAppends(isPrint: char -> bool, s: Shape, k: string)
    ensures Render(isPrint, s, k) == Render(isPrint, s, "") + k
    decreases s, 1
  {
    if s.Plain? {
      PlainAppends(isPrint, s, k);
    } else {
      LogicalAppends(isPrint, s, k);
    }
  }

  lemma {:induction false} PlainAppends(isPrint: char -> bool, s: Shape, k: string)
    requires s.Plain?
    ensures Render(isPrint, s, k) == Render(isPrint, s, "") + k
    decreases s, 0
  {
    var c := RenderAll(isPrint, s.children, "");
    RenderAllAppends(isPrint, s.children, ")" + k);
    RenderAllAppends(isPrint, s.children, ")");
    Enclose("(", c, ")", k);
    TextPartAppends(isPrint, s.kind, s.text, "(" + (c + ")"), k);
    Associate(Itoa(Code(s.kind)), TextPart(isPrint, s.kind, s.text, "(" + (c + ")")), k);
    assert ")" + "" == ")";
  }

  lemma {:induction false} LogicalAppends(isPrint: char -> bool, s: Shape, k: string)
    requires s.Logical?
    ensures Render(isPrint, s, k) == Render(isPrint, s, "") + k
    decreases s, 0
  {
    var l, r, op := Render(isPrint, s.left, ""), Render(isPrint, s.right, ""), Itoa(Code(s.op));
    RenderAppends(isPrint, s.right, ")" + k);
    RenderAppends(isPrint, s.right, ")");
    Enclose(",", r, ")", k);
    RenderAppends(isPrint, s.left, ("," + (r + ")")) + k);
    RenderAppends(isPrint, s.left, "," + (r + ")"));
    Enclose("(", l, "," + (r + ")"), k);
    Enclose(":", op, "(" + (l + ("," + (r + ")"))), k);
    Associate(Itoa(Code(BinaryExpression)), ":" + (op + ("(" + (l + ("," + (r + ")"))))), k);
    assert ")" + "" == ")";
  }

  lemma Associate(l: string, r: string, k: string)
    ensures l + (r + k) == (l + r) + k
  {
  }

  lemma Enclose(open: string, s: string, close: string, k: string)
    ensures open + (s + (close + k)) == (open + (s + close)) + k
  {
  }

  lemma TextPartAppends(isPrint: char -> bool, kind: Kind, text: string, s: string, k: string)
    ensures TextPart(isPrint, kind, text, s + k) == TextPart(isPrint, kind, text, s) + k
  {
    Associate(Quote(isPrint, text), s, k);
    Associate(":", Quote(isPrint, text) + s, k);
  }

  lemma {:induction false} RenderAllAppends(isPrint: char -> bool, ss: seq<Shape>, k: string)
    ensures RenderAll(isPrint, ss, k) == RenderAll(isPrint, ss, "") + k
    decreases ss, 0
  {
    if |ss| == 1 {
      RenderAppends(isPrint, ss[0], k);
    } else if |ss| > 1 {
      var c := RenderAll(isPrint, ss[1..], "");
      RenderAllAppends(isPrint, ss[1..], k);
      Associate(",", c, k);
      RenderAppends(isPrint, ss[0], ("," + c) + k);
      RenderAppends(isPrint, ss[0], "," + c);
      Associate(Render(isPrint, ss[0], ""), "," + c, k);
    }
  }

  // ----- Writing children into a builder -----

  /** The builder, holding `sb` before, after the first `i` children. */
  function Written(isPrint: char -> bool, sb: string, ss: seq<Shape>, i: nat): string
    requires i <= |ss|
  {
    if i == 0 then sb
    else
      var before := Written(isPrint, sb, ss, i - 1);
      (if i == 1 then before else before + ",") + Render(isPrint, ss[i - 1], "")
  }

  /** What is still to be written after the first `i` children. */
  function Unwritten(isPrint: char -> bool, ss: seq<Shape>, i: nat, k: string): string
    requires i <= |ss|
  {
    if i == |ss| then k
    else if i == 0 then RenderAll(isPrint, ss, k)
    else "," + RenderAll(isPrint, ss[i..], k)
  }

  lemma {:induction false} WrittenSoFar(isPrint: char -> bool, sb: string, ss: seq<Shape>, i: nat, k: string)
    requires i <= |ss|
    ensures Written(isPrint, sb, ss, i) + Unwritten(isPrint, ss, i, k) == sb + RenderAll(isPrint, ss, k)
  {
    if i > 0 {
      WrittenSoFar(isPrint, sb, ss, i - 1, k);
      var before, c, rest := Written(isPrint, sb, ss, i - 1), Render(isPrint, ss[i - 1], ""), Unwritten(isPrint, ss, i, k);
      UnwrittenStep(isPrint, ss, i - 1, k);
      Associate(before, c, rest);
      Associate(before, ",", c + rest);
      Associate(before + ",", c, rest);
    }
  }

  lemma UnwrittenStep(isPrint: char -> bool, ss: seq<Shape>, i: nat, k: string)
    requires i < |ss|
    ensures var c := Render(isPrint, ss[i], "") + Unwritten(isPrint, ss, i + 1, k);
            Unwritten(isPrint, ss, i, k) == if i == 0 then c else "," + c
  {
    RenderAppends(isPrint, ss[i], Unwritten(isPrint, ss, i + 1, k));
    assert ss[i..][1..] == ss[i + 1..] && ss[0..] == ss;
  }

  lemma AllWritten(isPrint: char -> bool, sb: string, ss: seq<Shape>, k: string)
    ensures Written(isPrint, sb, ss, |ss|) + k == sb + RenderAll(isPrint, ss, k)
  {
    WrittenSoFar(isPrint, sb, ss, |ss|, k);
  }

  lemma HeadWritten(isPrint: char -> bool, s: Shape, head: string)
    requires s.Plain?
    requires var kind := Itoa(Code(s.kind));
             head == (if IsTextLeaf(s.kind) then (kind + ":") + Quote(isPrint, s.text) else kind) + "("
    ensures Render(isPrint, s, "") == head + RenderAll(isPrint, s.children, ")")
  {
    var kind, text, rest := Itoa(Code(s.kind)), Quote(isPrint, s.text), RenderAll(isPrint, s.children, ")");
    assert ")" + "" == ")";
    Associate(kind, "(", rest);
    Associate(kind, ":", text + ("(" + rest));
    Associate(kind + ":", text, "(" + rest);
    Associate((kind + ":") + text, "(", rest);
  }
}
