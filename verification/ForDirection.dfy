/** internal/rules/fordirection/rule.go: for loops whose counter moves away from the bound. */
module ForDirection {
  import opened Options

  datatype Node =
    | Identifier(name: string)
    | NumericLiteral(text: string)
    | BigIntLiteral(text: string)
    | Prefix(op: string, operand: Node)
    | Postfix(op: string, operand: Node)
    | Binary(op: string, left: Node, right: Node)
    | Parenthesized(inner: Node)
    | Block
    | OtherNode(n: nat)

  /** A for statement; its body is a statement, so no identifier, literal or operator expression. */
  datatype For = For(init: Option<Node>, condition: Option<Node>, incrementor: Option<Node>, body: Node)

  predicate IsStatement(n: Node) { n.Block? || n.OtherNode? }

  datatype Direction = NoDirection | Forward | Backward

  datatype Sign = Unknown | Positive | Negative

  // ----- The rule -----

  function StripParens(n: Node): (r: Node)
    ensures !r.Parenthesized?
  {
    if n.Parenthesized? then StripParens(n.inner) else n
  }

  function Present(n: Option<Node>): seq<Node> { if n.Some? then [n.value] else [] }

  function Children(loop: For): seq<Node> {
    Present(loop.init) + Present(loop.condition) + Present(loop.incrementor) + [loop.body]
  }

  /** The third child, unless it is a block. */
  function Update(loop: For): Option<Node> {
    var children := Children(loop);
    if |children| > 2 && !children[2].Block? then Some(children[2]) else None
  }

  predicate IsOrderComparison(op: string) { op == "<" || op == "<=" || op == ">" || op == ">=" }

  /** The identifier side of the comparison, the left one first, and whether it is the left. */
  function ExtractCounter(left: Node, right: Node): Option<(string, bool)> {
    if left.Identifier? then Some((left.name, true))
    else if right.Identifier? then Some((right.name, false))
    else None
  }

  function ExpectedDirection(op: string, counterLeft: bool): Direction {
    if op == "<" || op == "<=" then (if counterLeft then Forward else Backward)
    else if op == ">" || op == ">=" then (if counterLeft then Backward else Forward)
    else NoDirection
  }

  function NumericSign(n: Node): Sign
    decreases n
  {
    match n
    case Parenthesized(inner) => NumericSign(inner)
    case NumericLiteral(text) => if text == "0" || text == "" then Unknown else Positive
    case BigIntLiteral(text) => if text == "0n" then Unknown else Positive
    case Prefix(op, operand) =>
      if op == "-" then
        match NumericSign(operand)
        case Positive => Negative
        case Negative => Positive
        case Unknown => Unknown
      else if op == "+" then NumericSign(operand)
      else Unknown
    case _ => Unknown
  }

  predicate IdentifierMatches(n: Node, name: string) { n.Identifier? && n.name == name }

  function StepDirection(op: string): Direction {
    if op == "++" then Forward else if op == "--" then Backward else NoDirection
  }

  function UpdateDirection(update: Node, counter: string): Direction {
    var u := StripParens(update);
    match u
    case Postfix(op, operand) => if IdentifierMatches(StripParens(operand), counter) then StepDirection(op) else NoDirection
    case Prefix(op, operand) => if IdentifierMatches(StripParens(operand), counter) then StepDirection(op) else NoDirection
    case Binary(op, left, right) =>
      if !IdentifierMatches(StripParens(left), counter) then NoDirection
      else
        var sign := NumericSign(right);
        if sign.Unknown? then NoDirection
        else if op == "+=" then (if sign.Positive? then Forward else Backward)
        else if op == "-=" then (if sign.Positive? then Backward else Forward)
        else NoDirection
    case _ => NoDirection
  }

  /** The rule understands the test and the update: both name a direction for the same counter. */
  predicate Understood(loop: For) {
    loop.condition.Some? && Update(loop).Some? &&
    var test := StripParens(loop.condition.value);
    test.Binary? && IsOrderComparison(test.op) &&
    var counter := ExtractCounter(StripParens(test.left), StripParens(test.right));
    counter.Some? && !UpdateDirection(Update(loop).value, counter.value.0).NoDirection?
  }

  predicate Reported(loop: For) {
    Understood(loop) &&
    var test := StripParens(loop.condition.value);
    var counter := ExtractCounter(StripParens(test.left), StripParens(test.right)).value;
    UpdateDirection(Update(loop).value, counter.0) != ExpectedDirection(test.op, counter.1)
  }

  // ----- What the loop does -----

  /** What literals are worth. */
  datatype Literals = Literals(number: string -> real, bigint: string -> real)

  /** No literal is negative, and zero is spelled as the rule expects. */
  ghost predicate Sane(lits: Literals) {
    (forall t :: lits.number(t) > 0.0 || (lits.number(t) == 0.0 && (t == "0" || t == ""))) &&
    (forall t :: lits.bigint(t) > 0.0 || (lits.bigint(t) == 0.0 && t == "0n"))
  }

  function Value(lits: Literals, n: Node): real
    decreases n
  {
    match n
    case Parenthesized(inner) => Value(lits, inner)
    case NumericLiteral(text) => lits.number(text)
    case BigIntLiteral(text) => lits.bigint(text)
    case Prefix(op, operand) => if op == "-" then 0.0 - Value(lits, operand) else Value(lits, operand)
    case _ => 0.0
  }

  /** The variable that the update assigns to. */
  function Target(update: Node): Option<string> {
    var u := StripParens(update);
    var target := match u
      case Postfix(_, operand) => StripParens(operand)
      case Prefix(_, operand) => StripParens(operand)
      case Binary(_, left, _) => StripParens(left)
      case _ => u;
    if target.Identifier? && u != target then Some(target.name) else None
  }

  /** What running the update once adds to a variable. */
  function Gain(lits: Literals, update: Node, name: string): real {
    if Target(update) != Some(name) then 0.0
    else
      match StripParens(update)
      case Postfix(op, _) => if op == "++" then 1.0 else -1.0
      case Prefix(op, _) => if op == "++" then 1.0 else -1.0
      case Binary(op, _, right) => if op == "+=" then Value(lits, right) else 0.0 - Value(lits, right)
      case _ => 0.0
  }

  predicate Compare(op: string, a: real, b: real)
    requires IsOrderComparison(op)
  {
    if op == "<" then a < b else if op == "<=" then a <= b else if op == ">" then a > b else a >= b
  }

  /** The test, when the counter is worth `x` and the other side `bound`. */
  predicate TestHolds(loop: For, x: real, bound: real)
    requires Understood(loop)
  {
    var test := StripParens(loop.condition.value);
    var counter := ExtractCounter(StripParens(test.left), StripParens(test.right)).value;
    if counter.1 then Compare(test.op, x, bound) else Compare(test.op, bound, x)
  }

  /** What a round adds to the variable that the test looks at. */
  function RoundGain(lits: Literals, loop: For): real
    requires Understood(loop)
  {
    var test := StripParens(loop.condition.value);
    Gain(lits, Update(loop).value, ExtractCounter(StripParens(test.left), StripParens(test.right)).value.0)
  }

  /** The counter after `n` rounds that leave it to the update. */
  function CounterAfter(lits: Literals, loop: For, x: real, n: nat): real
    requires Understood(loop)
  {
    if n == 0 then x else CounterAfter(lits, loop, x, n - 1) + RoundGain(lits, loop)
  }

  // ----- Which loops are understood -----

  /** `name++`, `name--` before or behind, or `name += k` or `name -= k` with `k` of a known sign. */
  predicate Steps(update: Node, name: string) {
    Target(update) == Some(name) &&
    match StripParens(update)
    case Postfix(op, _) => op == "++" || op == "--"
    case Prefix(op, _) => op == "++" || op == "--"
    case Binary(op, _, right) => (op == "+=" || op == "-=") && !NumericSign(right).Unknown?
    case _ => false
  }

  /** The name on the left of the test, or else on its right. */
  function Tested(test: Node): Option<string>
    requires test.Binary?
  {
    var left, right := StripParens(test.left), StripParens(test.right);
    if left.Identifier? then Some(left.name) else if right.Identifier? then Some(right.name) else None
  }

  /** The rule understands a loop exactly when it compares a name and the update steps that name. */
  lemma UnderstoodExact(loop: For)
    ensures Understood(loop) <==>
            loop.condition.Some? && Update(loop).Some? &&
            var test := StripParens(loop.condition.value);
            && test.Binary? && (test.op == "<" || test.op == "<=" || test.op == ">" || test.op == ">=")
            && Tested(test).Some? && Steps(Update(loop).value, Tested(test).value)
  {
  }

  // ----- The report is right -----

  lemma {:induction false} SignRight(lits: Literals, n: Node)
    requires Sane(lits)
    ensures NumericSign(n).Positive? ==> Value(lits, n) > 0.0
    ensures NumericSign(n).Negative? ==> Value(lits, n) < 0.0
    decreases n
  {
    match n
    case Parenthesized(inner) => SignRight(lits, inner);
    case Prefix(_, operand) => SignRight(lits, operand);
    case NumericLiteral(text) => assert lits.number(text) == lits.number(text);
    case BigIntLiteral(text) => assert lits.bigint(text) == lits.bigint(text);
    case _ =>
  }

  /** A literal, with signs and parentheses around it. */
  predicate IsSigned(n: Node)
    decreases n
  {
    match n
    case Parenthesized(inner) => IsSigned(inner)
    case NumericLiteral(_) => true
    case BigIntLiteral(_) => true
    case Prefix(op, operand) => (op == "+" || op == "-") && IsSigned(operand)
    case _ => false
  }

  /** Of such a node the sign is known, unless it is worth nothing. */
  lemma {:induction false} SignExact(lits: Literals, n: Node)
    requires Sane(lits) && lits.number("0") == 0.0 && lits.number("") == 0.0 && lits.bigint("0n") == 0.0 && IsSigned(n)
    ensures NumericSign(n).Positive? <==> Value(lits, n) > 0.0
    ensures NumericSign(n).Negative? <==> Value(lits, n) < 0.0
    decreases n
  {
    match n
    case Parenthesized(inner) => SignExact(lits, inner);
    case Prefix(_, operand) => SignExact(lits, operand);
    case NumericLiteral(text) => assert lits.number(text) == lits.number(text);
    case BigIntLiteral(text) => assert lits.bigint(text) == lits.bigint(text);
  }

  lemma DirectionRight(lits: Literals, update: Node, counter: string)
    requires Sane(lits)
    ensures UpdateDirection(update, counter).Forward? ==> Gain(lits, update, counter) > 0.0
    ensures UpdateDirection(update, counter).Backward? ==> Gain(lits, update, counter) < 0.0
  {
    var u := StripParens(update);
    if u.Binary? {
      SignRight(lits, u.right);
    }
  }

  /** Moving on keeps the test true when the rule reports, and works against it when it does not. */
  lemma GainAgainstTest(lits: Literals, loop: For)
    requires Sane(lits) && Understood(loop)
    ensures var test := StripParens(loop.condition.value);
            var counter := ExtractCounter(StripParens(test.left), StripParens(test.right)).value;
            var below := ExpectedDirection(test.op, counter.1).Forward?;
            var gain := RoundGain(lits, loop);
            if Reported(loop) == below then gain < 0.0 else gain > 0.0
  {
    var test := StripParens(loop.condition.value);
    var counter := ExtractCounter(StripParens(test.left), StripParens(test.right)).value;
    DirectionRight(lits, Update(loop).value, counter.0);
  }

  /** A reported loop whose test holds once never leaves by its test. */
  lemma {:induction false} ReportedNeverExits(lits: Literals, loop: For, x: real, bound: real, n: nat)
    requires Sane(lits) && Reported(loop) && TestHolds(loop, x, bound)
    ensures TestHolds(loop, CounterAfter(lits, loop, x, n), bound)
  {
    if n > 0 {
      ReportedNeverExits(lits, loop, x, bound, n - 1);
      GainAgainstTest(lits, loop);
    }
  }

  lemma {:induction false} CounterMoves(lits: Literals, loop: For, x: real, n: nat)
    requires Understood(loop)
    ensures CounterAfter(lits, loop, x, n) == x + n as real * RoundGain(lits, loop)
  {
    if n > 0 {
      CounterMoves(lits, loop, x, n - 1);
    }
  }

  /** Steps of one sign get past any distance. */
  lemma Archimedes(step: real, distance: real) returns (n: nat)
    requires step > 0.0
    ensures n as real * step > distance
  {
    if distance < 0.0 {
      n := 0;
    } else {
      n := (distance / step).Floor + 1;
      assert n as real > distance / step;
      Scale(n as real, distance / step, step);
      assert distance / step * step == distance;
    }
  }

  lemma Scale(a: real, b: real, c: real)
    requires a > b && c > 0.0
    ensures a * c > b * c
  {
  }

  /** A loop the rule understands and does not report leaves by its test, from wherever it starts. */
  lemma {:induction false} UnreportedExits(lits: Literals, loop: For, x: real, bound: real) returns (n: nat)
    requires Sane(lits) && Understood(loop) && !Reported(loop)
    ensures !TestHolds(loop, CounterAfter(lits, loop, x, n), bound)
  {
    var gain := RoundGain(lits, loop);
    GainAgainstTest(lits, loop);
    if gain > 0.0 {
      n := Archimedes(gain, bound - x);
      CounterMoves(lits, loop, x, n);
    } else {
      n := Archimedes(0.0 - gain, x - bound);
      CounterMoves(lits, loop, x, n);
      assert n as real * (0.0 - gain) == 0.0 - n as real * gain;
    }
  }

  ghost predicate NeverExits(lits: Literals, loop: For, x: real, bound: real)
    requires Understood(loop)
  {
    forall n: nat :: TestHolds(loop, CounterAfter(lits, loop, x, n), bound)
  }

  /** Where the rule understands a loop, it reports it exactly when entering means staying. */
  lemma {:induction false} ReportExact(lits: Literals, loop: For, x: real, bound: real)
    requires Sane(lits) && Understood(loop) && TestHolds(loop, x, bound)
    ensures Reported(loop) <==> NeverExits(lits, loop, x, bound)
  {
    if Reported(loop) {
      forall n: nat ensures TestHolds(loop, CounterAfter(lits, loop, x, n), bound) {
        ReportedNeverExits(lits, loop, x, bound, n);
      }
    } else {
      var n := UnreportedExits(lits, loop, x, bound);
    }
  }

  /** The third child is the incrementor whenever the rule reports: with a part of the header
      missing it is a statement or nothing. */
  lemma ReportedHasWholeHeader(loop: For)
    requires Reported(loop) && IsStatement(loop.body)
    ensures loop.init.Some? && loop.incrementor.Some? && Update(loop) == loop.incrementor
  {
    assert IsStatement(loop.body) ==> UpdateDirection(loop.body, "").NoDirection?;
  }
}
