/** internal/rules/nodupeelseif/rule.go: else-if branches that earlier conditions cover. */
module DupeElseIf {
  import opened Text
  import opened Canonical

  predicate IsLogicalToken(k: Kind) { k.AmpersandAmpersandToken? || k.BarBarToken? }

  /** A binary expression with this operator. */
  predicate IsBinary(n: Node, op: Kind) {
    n.kind.BinaryExpression? && |n.children| == 3 && n.children[1].kind == op
  }

  predicate IsLogicalNode(n: Node) {
    n.kind.BinaryExpression? && |n.children| == 3 && IsLogicalToken(n.children[1].kind)
  }

  // ----- Canonical strings: parentheses stay, `&&` and `||` commute -----

  function Normal(isPrint: char -> bool, n: Node): Shape
    decreases n
  {
    if IsLogicalNode(n) then
      var left := Normal(isPrint, n.children[0]);
      var right := Normal(isPrint, n.children[2]);
      if Less(Render(isPrint, right, ""), Render(isPrint, left, "")) then Logical(n.children[1].kind, right, left)
      else Logical(n.children[1].kind, left, right)
    else Plain(n.kind, if IsTextLeaf(n.kind) then n.text else "", AllNormal(isPrint, n.children))
  }

  function AllNormal(isPrint: char -> bool, ns: seq<Node>): (ss: seq<Shape>)
    ensures |ss| == |ns| && forall i :: 0 <= i < |ns| ==> ss[i] == Normal(isPrint, ns[i])
    decreases ns
  {
    if ns == [] then [] else [Normal(isPrint, ns[0])] + AllNormal(isPrint, ns[1..])
  }

  lemma {:induction false} NormalOk(isPrint: char -> bool, n: Node)
    ensures ShapeOk(Normal(isPrint, n))
    decreases n
  {
    forall i | 0 <= i < |n.children| ensures ShapeOk(Normal(isPrint, n.children[i])) {
      NormalOk(isPrint, n.children[i]);
    }
  }

  function Canonicalize(isPrint: char -> bool, n: Node): string {
    Render(isPrint, Normal(isPrint, n), "")
  }

  method BuildCanonical(isPrint: char -> bool, n: Node) returns (sb: string)
    ensures sb == Canonicalize(isPrint, n)
    decreases n, 1
  {
    if !IsLogicalNode(n) {
      sb := BuildPlain(isPrint, n);
      return;
    }
    var left := BuildCanonical(isPrint, n.children[0]);
    var right := BuildCanonical(isPrint, n.children[2]);
    if Less(right, left) {
      left, right := right, left;
    }
    sb := Itoa(Code(BinaryExpression)) + ":" + Itoa(Code(n.children[1].kind)) + "(" + left + "," + right + ")";
    LogicalWritten(isPrint, Normal(isPrint, n), sb);
  }

  method BuildPlain(isPrint: char -> bool, n: Node) returns (sb: string)
    requires !IsLogicalNode(n)
    ensures sb == Canonicalize(isPrint, n)
    decreases n, 0
  {
    ghost var ss := AllNormal(isPrint, n.children);
    sb := Itoa(Code(n.kind));
    if IsTextLeaf(n.kind) {
      sb := sb + ":";
      sb := sb + Quote(isPrint, n.text);
    }
    sb := sb + "(";
    ghost var head := sb;
    var first := true;
    for i := 0 to |n.children|
      invariant first <==> i == 0
      invariant sb == Written(isPrint, head, ss, i)
    {
      if !first {
        sb := sb + ",";
      }
      first := false;
      var c := BuildCanonical(isPrint, n.children[i]);
      sb := sb + c;
    }
    sb := sb + ")";
    AllWritten(isPrint, head, ss, ")");
    HeadWritten(isPrint, Normal(isPrint, n), head);
  }

  lemma LogicalWritten(isPrint: char -> bool, s: Shape, sb: string)
    requires s.Logical?
    requires sb == Itoa(Code(BinaryExpression)) + ":" + Itoa(Code(s.op)) + "(" +
                   Render(isPrint, s.left, "") + "," + Render(isPrint, s.right, "") + ")"
    ensures sb == Render(isPrint, s, "")
  {
    var kind, op, l, r := Itoa(Code(BinaryExpression)), Itoa(Code(s.op)), Render(isPrint, s.left, ""), Render(isPrint, s.right, "");
    assert ")" + "" == ")";
    RenderAppends(isPrint, s.right, ")");
    RenderAppends(isPrint, s.left, "," + (r + ")"));
    Associate(kind, ":", op + ("(" + (l + ("," + (r + ")")))));
    Associate(kind + ":", op, "(" + (l + ("," + (r + ")"))));
    Associate(kind + ":" + op, "(", l + ("," + (r + ")")));
    Associate(kind + ":" + op + "(", l, "," + (r + ")"));
    Associate(kind + ":" + op + "(" + l, ",", r + ")");
    Associate(kind + ":" + op + "(" + l + ",", r, ")");
  }

  // ----- What equal strings mean -----

  /** The same expression, up to swapping the sides of `&&` and `||`. */
  predicate Same(a: Node, b: Node)
    decreases a
  {
    a.kind == b.kind && a.text == b.text && a.extra == b.extra && IsLogicalNode(a) == IsLogicalNode(b) &&
    if IsLogicalNode(a) then
      a.children[1] == b.children[1] &&
      var al, ar, bl, br := a.children[0], a.children[2], b.children[0], b.children[2];
      (Same(al, bl) && Same(ar, br)) || (Same(al, br) && Same(ar, bl))
    else AllSame(a.children, b.children)
  }

  predicate AllSame(as_: seq<Node>, bs: seq<Node>)
    decreases as_
  {
    if as_ == [] || bs == [] then as_ == bs else Same(as_[0], bs[0]) && AllSame(as_[1..], bs[1..])
  }

  /** The tree without what the strings omit: the text of leaves whose kind is not listed, and
      all that nodes hold besides text and children. */
  function Forget(n: Node): (r: Node)
    ensures IsLogicalNode(r) == IsLogicalNode(n) && r.kind == n.kind
    decreases n
  {
    if IsLogicalNode(n) then
      var token := Node(n.children[1].kind, "", "", []);
      Node(n.kind, "", "", [Forget(n.children[0]), token, Forget(n.children[2])])
    else Node(n.kind, if IsTextLeaf(n.kind) then n.text else "", "", ForgetAll(n.children))
  }

  function ForgetAll(ns: seq<Node>): (r: seq<Node>)
    ensures |r| == |ns| && forall i :: 0 <= i < |ns| ==> r[i] == Forget(ns[i])
    decreases ns
  {
    if ns == [] then [] else [Forget(ns[0])] + ForgetAll(ns[1..])
  }

  /** Equal strings mean the same expression once what they omit is forgotten. */
  lemma {:induction false} CanonicalizeExact(isPrint: char -> bool, a: Node, b: Node)
    ensures Canonicalize(isPrint, a) == Canonicalize(isPrint, b) <==> Same(Forget(a), Forget(b))
  {
    NormalOk(isPrint, a);
    NormalOk(isPrint, b);
    if Canonicalize(isPrint, a) == Canonicalize(isPrint, b) {
      RenderReadable(isPrint, Normal(isPrint, a), "", Normal(isPrint, b), "");
    }
    NormalExact(isPrint, a, b);
  }

  lemma {:induction false} NormalExact(isPrint: char -> bool, a: Node, b: Node)
    ensures Normal(isPrint, a) == Normal(isPrint, b) <==> Same(Forget(a), Forget(b))
    decreases a, 1
  {
    if IsLogicalNode(a) && IsLogicalNode(b) {
      NormalExact(isPrint, a.children[0], b.children[0]);
      NormalExact(isPrint, a.children[2], b.children[2]);
      NormalExact(isPrint, a.children[0], b.children[2]);
      NormalExact(isPrint, a.children[2], b.children[0]);
      SortedPair(isPrint, a, b);
    } else if !IsLogicalNode(a) && !IsLogicalNode(b) {
      PlainExact(isPrint, a, b);
    }
  }

  lemma {:induction false} PlainExact(isPrint: char -> bool, a: Node, b: Node)
    requires !IsLogicalNode(a) && !IsLogicalNode(b)
    ensures Normal(isPrint, a) == Normal(isPrint, b) <==> Same(Forget(a), Forget(b))
    decreases a, 0
  {
    AllNormalExact(isPrint, a.children, b.children);
  }

  lemma {:induction false} AllNormalExact(isPrint: char -> bool, as_: seq<Node>, bs: seq<Node>)
    ensures AllNormal(isPrint, as_) == AllNormal(isPrint, bs) <==> AllSame(ForgetAll(as_), ForgetAll(bs))
    decreases as_, 0
  {
    if as_ != [] && bs != [] {
      NormalExact(isPrint, as_[0], bs[0]);
      AllNormalExact(isPrint, as_[1..], bs[1..]);
      SplitFirst(Normal(isPrint, as_[0]), AllNormal(isPrint, as_[1..]), Normal(isPrint, bs[0]), AllNormal(isPrint, bs[1..]));
      DropFirst(Forget(as_[0]), ForgetAll(as_[1..]));
      DropFirst(Forget(bs[0]), ForgetAll(bs[1..]));
    }
  }

  lemma SplitFirst<T>(x: T, xs: seq<T>, y: T, ys: seq<T>)
    ensures [x] + xs == [y] + ys <==> x == y && xs == ys
  {
    if [x] + xs == [y] + ys {
      assert ([x] + xs)[0] == x && ([y] + ys)[0] == y;
      assert ([x] + xs)[1..] == xs && ([y] + ys)[1..] == ys;
    }
  }

  lemma DropFirst<T>(x: T, xs: seq<T>)
    ensures ([x] + xs)[0] == x && ([x] + xs)[1..] == xs
  {
  }

  /** Sorting the two sides makes exactly the swap invisible. */
  lemma SortedPair(isPrint: char -> bool, a: Node, b: Node)
    requires IsLogicalNode(a) && IsLogicalNode(b)
    ensures Normal(isPrint, a) == Normal(isPrint, b) <==>
            a.children[1].kind == b.children[1].kind &&
            var al, ar := Normal(isPrint, a.children[0]), Normal(isPrint, a.children[2]);
            var bl, br := Normal(isPrint, b.children[0]), Normal(isPrint, b.children[2]);
            (al == bl && ar == br) || (al == br && ar == bl)
  {
    var al, ar := Normal(isPrint, a.children[0]), Normal(isPrint, a.children[2]);
    var bl, br := Normal(isPrint, b.children[0]), Normal(isPrint, b.children[2]);
    LessTotal(Render(isPrint, al, ""), Render(isPrint, ar, ""));
    LessTotal(Render(isPrint, bl, ""), Render(isPrint, br, ""));
    if Render(isPrint, al, "") == Render(isPrint, ar, "") {
      NormalOk(isPrint, a.children[0]);
      NormalOk(isPrint, a.children[2]);
      RenderReadable(isPrint, al, "", ar, "");
    }
  }

  lemma StringsAreNormals(isPrint: char -> bool, a: Node, b: Node)
    ensures Canonicalize(isPrint, a) == Canonicalize(isPrint, b) <==> Normal(isPrint, a) == Normal(isPrint, b)
  {
    NormalOk(isPrint, a);
    NormalOk(isPrint, b);
    if Canonicalize(isPrint, a) == Canonicalize(isPrint, b) {
      RenderReadable(isPrint, Normal(isPrint, a), "", Normal(isPrint, b), "");
    }
  }

  function Operation(op: Kind, left: Node, right: Node): Node { Node(BinaryExpression, "", "", [left, Leaf(op, ""), right]) }

  /** Swapping the sides of an operator goes unnoticed exactly for `&&` and `||`, and between sides
      that look alike. */
  lemma SwapExact(isPrint: char -> bool, op: Kind, a: Node, b: Node)
    ensures Canonicalize(isPrint, Operation(op, a, b)) == Canonicalize(isPrint, Operation(op, b, a)) <==>
            op == AmpersandAmpersandToken || op == BarBarToken || Canonicalize(isPrint, a) == Canonicalize(isPrint, b)
  {
    var x, y := Operation(op, a, b), Operation(op, b, a);
    StringsAreNormals(isPrint, x, y);
    StringsAreNormals(isPrint, a, b);
    if op == AmpersandAmpersandToken || op == BarBarToken {
      SortedPair(isPrint, x, y);
    } else {
      var xs, ys := AllNormal(isPrint, x.children), AllNormal(isPrint, y.children);
      assert xs[0] == Normal(isPrint, a) && ys[0] == Normal(isPrint, b);
      if Normal(isPrint, a) == Normal(isPrint, b) {
        assert xs == ys;
      }
    }
  }

  /** Parentheses inside a term are part of it. */
  lemma {:induction false} ParensTold(isPrint: char -> bool, n: Node)
    ensures Canonicalize(isPrint, Node(ParenthesizedExpression, "", "", [n])) != Canonicalize(isPrint, n)
  {
    StringsAreNormals(isPrint, Node(ParenthesizedExpression, "", "", [n]), n);
    var outer := Node(ParenthesizedExpression, "", "", [n]);
    assert AllNormal(isPrint, outer.children)[0] == Normal(isPrint, n);
    assert Normal(isPrint, outer) == Plain(ParenthesizedExpression, "", AllNormal(isPrint, outer.children));
  }

  // ----- Splitting conditions -----

  /** The source reads the one child of a parenthesized expression. */
  function Unparen(n: Node): (r: Node)
    requires WellFormed(n)
    ensures WellFormed(r) && !r.kind.ParenthesizedExpression? && (r == n || r < n)
    decreases n
  {
    if n.kind.ParenthesizedExpression? then Unparen(n.children[0]) else n
  }

  function SplitByLogical(n: Node, op: Kind): (r: seq<Node>)
    requires WellFormed(n)
    ensures r != [] && forall x :: x in r ==> WellFormed(x)
    decreases n
  {
    var u := Unparen(n);
    if IsBinary(u, op) then SplitByLogical(u.children[0], op) + SplitByLogical(u.children[2], op) else [u]
  }

  /** The operands are what stands between the operators, out of its parentheses. */
  lemma {:induction false} OperandsExact(n: Node, op: Kind)
    requires WellFormed(n)
    ensures forall x :: x in SplitByLogical(n, op) ==> x.kind != ParenthesizedExpression && !IsBinary(x, op)
    decreases n
  {
    var u := Unparen(n);
    if IsBinary(u, op) {
      OperandsExact(u.children[0], op);
      OperandsExact(u.children[2], op);
    }
  }

  type Term = string
  type Conjunction = seq<Term>

  function Terms(isPrint: char -> bool, n: Node): Conjunction
    requires WellFormed(n)
  {
    CanonicalizeAll(isPrint, SplitByLogical(n, AmpersandAmpersandToken))
  }

  function CanonicalizeAll(isPrint: char -> bool, ns: seq<Node>): (r: seq<Term>)
    ensures |r| == |ns|
  {
    if ns == [] then [] else [Canonicalize(isPrint, ns[0])] + CanonicalizeAll(isPrint, ns[1..])
  }

  lemma {:induction false} CanonicalizeAt(isPrint: char -> bool, ns: seq<Node>, i: nat)
    requires i < |ns|
    ensures CanonicalizeAll(isPrint, ns)[i] == Canonicalize(isPrint, ns[i])
    decreases i
  {
    if i > 0 {
      CanonicalizeAt(isPrint, ns[1..], i - 1);
    }
  }

  /** A condition as an OR of ANDs of terms. */
  function Row(isPrint: char -> bool, n: Node): seq<Conjunction>
    requires WellFormed(n)
  {
    AllTerms(isPrint, SplitByLogical(n, BarBarToken))
  }

  function AllTerms(isPrint: char -> bool, ns: seq<Node>): (r: seq<Conjunction>)
    requires AllWellFormed(ns)
    ensures |r| == |ns|
  {
    if ns == [] then [] else [Terms(isPrint, ns[0])] + AllTerms(isPrint, ns[1..])
  }

  lemma {:induction false} TermsAt(isPrint: char -> bool, ns: seq<Node>, i: nat)
    requires AllWellFormed(ns) && i < |ns|
    ensures AllTerms(isPrint, ns)[i] == Terms(isPrint, ns[i])
    decreases i
  {
    if i > 0 {
      TermsAt(isPrint, ns[1..], i - 1);
    }
  }

  predicate IsSubset(a: Conjunction, b: Conjunction) { forall x :: x in a ==> x in b }

  predicate Covered(c: Conjunction, parentRow: seq<Conjunction>) { exists p :: p in parentRow && IsSubset(p, c) }

  function Uncovered(row: seq<Conjunction>, parentRow: seq<Conjunction>): seq<Conjunction> {
    if row == [] then []
    else
      var last := |row| - 1;
      Uncovered(row[..last], parentRow) + (if Covered(row[last], parentRow) then [] else [row[last]])
  }

  // ----- The rule as the source runs it -----

  method CheckSubset(a: Conjunction, b: Conjunction) returns (subset: bool)
    ensures subset <==> IsSubset(a, b)
  {
    for i := 0 to |a|
      invariant forall k :: 0 <= k < i ==> a[k] in b
    {
      var found := false;
      for j := 0 to |b|
        invariant !found && a[i] !in b[..j]
      {
        if a[i] == b[j] {
          found := true;
          break;
        }
      }
      if !found {
        assert b[..|b|] == b;
        return false;
      }
    }
    return true;
  }

  function TakeMore<T>(ghost all: seq<T>, soFar: seq<T>, x: T): (r: seq<T>)
    requires |soFar| < |all| && soFar == all[..|soFar|] && x == all[|soFar|]
    ensures r == all[..|soFar| + 1]
  {
    soFar + [x]
  }

  method CanonicalizeEach(isPrint: char -> bool, ands: seq<Node>) returns (canon: Conjunction)
    ensures canon == CanonicalizeAll(isPrint, ands)
  {
    canon := [];
    ghost var all := CanonicalizeAll(isPrint, ands);
    for k := 0 to |ands|
      invariant canon == all[..k]
    {
      var c := BuildCanonical(isPrint, ands[k]);
      CanonicalizeAt(isPrint, ands, k);
      canon := TakeMore(all, canon, c);
    }
  }

  method BuildTerms(isPrint: char -> bool, n: Node) returns (canon: Conjunction)
    requires WellFormed(n)
    ensures canon == Terms(isPrint, n)
  {
    var ands := SplitByLogical(n, AmpersandAmpersandToken);
    canon := CanonicalizeEach(isPrint, ands);
  }

  method TermsOfEach(isPrint: char -> bool, ors: seq<Node>) returns (row: seq<Conjunction>)
    requires AllWellFormed(ors)
    ensures row == AllTerms(isPrint, ors)
  {
    row := [];
    ghost var all := AllTerms(isPrint, ors);
    for j := 0 to |ors|
      invariant row == all[..j]
    {
      var c := BuildTerms(isPrint, ors[j]);
      TermsAt(isPrint, ors, j);
      row := TakeMore(all, row, c);
    }
  }

  method BuildRow(isPrint: char -> bool, n: Node) returns (row: seq<Conjunction>)
    requires WellFormed(n)
    ensures row == Row(isPrint, n)
  {
    row := TermsOfEach(isPrint, SplitByLogical(n, BarBarToken));
  }

  method CheckCovered(orOperand: Conjunction, parentRow: seq<Conjunction>) returns (covered: bool)
    ensures covered <==> Covered(orOperand, parentRow)
  {
    for p := 0 to |parentRow|
      invariant forall q :: 0 <= q < p ==> !IsSubset(parentRow[q], orOperand)
    {
      covered := CheckSubset(parentRow[p], orOperand);
      if covered {
        return;
      }
    }
    return false;
  }

  // ----- The whole chain -----

  /** The test, and, when it is an AND, each of its sides as a condition of its own. */
  function Conditions(test: Node): (r: seq<Node>)
    requires WellFormed(test)
    ensures r != [] && forall c :: c in r ==> WellFormed(c)
  {
    [test] + if IsBinary(Unparen(test), AmpersandAmpersandToken) then SplitByLogical(test, AmpersandAmpersandToken) else []
  }

  predicate AllWellFormed(ns: seq<Node>) { forall n :: n in ns ==> WellFormed(n) }

  /** What the first `k` of the parent rows leave of `row`. */
  function Survivors(row: seq<Conjunction>, parentRows: seq<seq<Conjunction>>, k: nat): seq<Conjunction>
    requires k <= |parentRows|
  {
    if k == 0 then row else Uncovered(Survivors(row, parentRows, k - 1), parentRows[k - 1])
  }

  function AllRows(isPrint: char -> bool, ns: seq<Node>): (r: seq<seq<Conjunction>>)
    requires AllWellFormed(ns)
    ensures |r| == |ns| && forall i :: 0 <= i < |ns| ==> r[i] == Row(isPrint, ns[i])
  {
    if ns == [] then [] else [Row(isPrint, ns[0])] + AllRows(isPrint, ns[1..])
  }

  lemma RowNonempty(isPrint: char -> bool, n: Node)
    requires WellFormed(n)
    ensures Row(isPrint, n) != []
  {
    assert |Row(isPrint, n)| == |SplitByLogical(n, BarBarToken)|;
  }

  /** Every OR-operand of some row is covered by a parent row. */
  predicate SomeRowDies(rows: seq<seq<Conjunction>>, parentRows: seq<seq<Conjunction>>) {
    exists i :: 0 <= i < |rows| && Survivors(rows[i], parentRows, |parentRows|) == []
  }

  /** Some condition of the test has every OR-operand covered by an earlier test. */
  predicate IsDead(isPrint: char -> bool, test: Node, ancestors: seq<Node>)
    requires WellFormed(test) && AllWellFormed(ancestors)
  {
    SomeRowDies(AllRows(isPrint, Conditions(test)), AllRows(isPrint, ancestors))
  }

  /** An empty row stays empty. */
  lemma {:induction false} DeadStaysDead(row: seq<Conjunction>, parentRows: seq<seq<Conjunction>>, k: nat, m: nat)
    requires k <= m <= |parentRows|
    requires Survivors(row, parentRows, k) == []
    ensures Survivors(row, parentRows, m) == []
    decreases m
  {
    if k < m {
      DeadStaysDead(row, parentRows, k, m - 1);
    }
  }

  /** A Go slice of a row: its first `len` cells. */
  datatype Slice = Slice(cells: array<Conjunction>, len: nat)

  ghost predicate ValidRows(list: seq<Slice>) {
    (forall i {:trigger list[i]} :: 0 <= i < |list| ==> list[i].len <= list[i].cells.Length) &&
    (forall i, j {:trigger list[i], list[j]} :: 0 <= i < j < |list| ==> list[i].cells != list[j].cells)
  }

  ghost function Arrays(list: seq<Slice>): set<object> { set i | 0 <= i < |list| :: list[i].cells }

  ghost function Contents(s: Slice): seq<Conjunction>
    requires s.len <= s.cells.Length
    reads s.cells
  {
    s.cells[..s.len]
  }

  /** Drops the covered operands in place. */
  method FilterRow(row: Slice, parentRow: seq<Conjunction>) returns (filtered: Slice)
    requires row.len <= row.cells.Length
    modifies row.cells
    ensures filtered.cells == row.cells && filtered.len <= row.len
    ensures Contents(filtered) == Uncovered(old(Contents(row)), parentRow)
  {
    var cells := row.cells;
    ghost var was := cells[..];
    var kept := 0;
    for k := 0 to row.len
      invariant kept <= k
      invariant cells[..kept] == Uncovered(was[..k], parentRow)
      invariant forall j {:trigger cells[j]} :: k <= j < cells.Length ==> cells[j] == was[j]
    {
      var orOperand := cells[k];
      assert was[..k + 1][..k] == was[..k];
      var covered := CheckCovered(orOperand, parentRow);
      if !covered {
        cells[kept] := orOperand;
        kept := kept + 1;
      }
    }
    assert was[..row.len] == old(Contents(row));
    return Slice(cells, kept);
  }

  /** Filters every row by one ancestor. */
  method FilterAll(list: seq<Slice>, parentRow: seq<Conjunction>) returns (out: seq<Slice>)
    requires ValidRows(list)
    modifies Arrays(list)
    ensures |out| == |list| && ValidRows(out)
    ensures forall i {:trigger out[i]} :: 0 <= i < |list| ==> out[i].cells == list[i].cells
    ensures forall i {:trigger out[i]} :: 0 <= i < |list| ==>
              Contents(out[i]) == Uncovered(old(Contents(list[i])), parentRow)
  {
    out := list;
    for i := 0 to |list|
      invariant |out| == |list| && ValidRows(out)
      invariant forall j {:trigger out[j]} :: 0 <= j < |list| ==> out[j].cells == list[j].cells
      invariant forall j {:trigger out[j]} :: 0 <= j < i ==>
                  Contents(out[j]) == Uncovered(old(Contents(list[j])), parentRow)
      invariant forall j {:trigger out[j]} :: i <= j < |list| ==>
                  out[j] == list[j] && Contents(out[j]) == old(Contents(list[j]))
    {
      assert out[i] == list[i];
      var filtered := FilterRow(out[i], parentRow);
      out := out[i := filtered];
    }
  }

  method AllocateRow(row: seq<Conjunction>) returns (slice: Slice)
    ensures fresh(slice.cells) && slice.len == slice.cells.Length && Contents(slice) == row
  {
    var cells := new Conjunction[|row|](k requires 0 <= k < |row| => row[k]);
    return Slice(cells, |row|);
  }

  ghost predicate Holds(list: seq<Slice>, rows: seq<seq<Conjunction>>)
    reads Arrays(list)
  {
    |list| <= |rows| && ValidRows(list) &&
    forall i {:trigger list[i]} :: 0 <= i < |list| ==> Contents(list[i]) == rows[i]
  }

  method Append(list: seq<Slice>, row: seq<Conjunction>, ghost rows: seq<seq<Conjunction>>) returns (longer: seq<Slice>)
    requires Holds(list, rows) && |list| < |rows| && row == rows[|list|]
    ensures Holds(longer, rows) && |longer| == |list| + 1
    ensures fresh(Arrays(longer) - Arrays(list))
  {
    var slice := AllocateRow(row);
    longer := list + [slice];
    forall i {:trigger longer[i]} | 0 <= i < |list| ensures longer[i] == list[i] && longer[i].cells in Arrays(list) {
      assert list[i].cells in Arrays(list);
    }
    assert longer[|list|] == slice && slice.cells !in Arrays(list);
    assert Arrays(longer) <= Arrays(list) + {slice.cells};
    forall i {:trigger longer[i]} | 0 <= i < |longer| ensures Contents(longer[i]) == rows[i] {
      if i < |list| {
        assert Contents(list[i]) == rows[i];
      }
    }
  }

  /** One fresh row for each condition. */
  method BuildRows(isPrint: char -> bool, conditions: seq<Node>) returns (list: seq<Slice>)
    requires AllWellFormed(conditions)
    ensures fresh(Arrays(list)) && ValidRows(list) && AllContents(list) == AllRows(isPrint, conditions)
  {
    list := [];
    ghost var rows := AllRows(isPrint, conditions);
    for i := 0 to |conditions|
      invariant |list| == i && fresh(Arrays(list)) && Holds(list, rows)
    {
      var row := BuildRow(isPrint, conditions[i]);
      list := Append(list, row, rows);
    }
    assert AllContents(list) == rows;
  }

  method AnyEmpty(list: seq<Slice>) returns (found: bool, at: nat)
    ensures found ==> at < |list| && list[at].len == 0
    ensures !found ==> forall i {:trigger list[i]} :: 0 <= i < |list| ==> list[i].len > 0
  {
    at := 0;
    for i := 0 to |list|
      invariant forall j {:trigger list[j]} :: 0 <= j < i ==> list[j].len > 0
    {
      if list[i].len == 0 {
        return true, i;
      }
    }
    return false, 0;
  }

  ghost predicate Tracks(list: seq<Slice>, rows: seq<seq<Conjunction>>, parentRows: seq<seq<Conjunction>>, k: nat)
    requires k <= |parentRows|
    reads Arrays(list)
  {
    |list| == |rows| && ValidRows(list) &&
    forall i {:trigger list[i]} {:trigger rows[i]} :: 0 <= i < |list| ==>
      Contents(list[i]) == Survivors(rows[i], parentRows, k)
  }

  method FilterByOne(list: seq<Slice>, parentRow: seq<Conjunction>, ghost rows: seq<seq<Conjunction>>,
                     ghost parentRows: seq<seq<Conjunction>>, ghost p: nat) returns (out: seq<Slice>)
    requires p < |parentRows| && parentRow == parentRows[p] && Tracks(list, rows, parentRows, p)
    modifies Arrays(list)
    ensures Arrays(out) == Arrays(list) && Tracks(out, rows, parentRows, p + 1)
  {
    out := FilterAll(list, parentRow);
    SameArrays(out, list);
  }

  /** Filters by the ancestors one after another until some row is empty. */
  method FilterByAncestors(isPrint: char -> bool, rows: seq<Slice>, ancestors: seq<Node>) returns (reported: bool)
    requires AllWellFormed(ancestors) && ValidRows(rows)
    requires forall i {:trigger rows[i]} :: 0 <= i < |rows| ==> rows[i].len > 0
    modifies Arrays(rows)
    ensures reported <==> SomeRowDies(old(AllContents(rows)), AllRows(isPrint, ancestors))
  {
    ghost var was := AllContents(rows);
    ghost var parentRows := AllRows(isPrint, ancestors);
    var list := rows;
    for p := 0 to |ancestors|
      invariant Arrays(list) == Arrays(rows) && Tracks(list, was, parentRows, p)
      invariant forall i {:trigger list[i]} :: 0 <= i < |list| ==> list[i].len > 0
    {
      var parentRow := BuildRow(isPrint, ancestors[p]);
      list := FilterByOne(list, parentRow, was, parentRows, p);
      var found, at := AnyEmpty(list);
      if found {
        DiesAt(list, was, parentRows, p + 1, at);
        return true;
      }
    }
    NoneDies(list, was, parentRows);
    return false;
  }

  lemma DiesAt(list: seq<Slice>, rows: seq<seq<Conjunction>>, parentRows: seq<seq<Conjunction>>, k: nat, at: nat)
    requires k <= |parentRows| && Tracks(list, rows, parentRows, k)
    requires at < |list| && list[at].len == 0
    ensures SomeRowDies(rows, parentRows)
  {
    assert Contents(list[at]) == [];
    DeadStaysDead(rows[at], parentRows, k, |parentRows|);
  }

  lemma NoneDies(list: seq<Slice>, rows: seq<seq<Conjunction>>, parentRows: seq<seq<Conjunction>>)
    requires Tracks(list, rows, parentRows, |parentRows|)
    requires forall i {:trigger list[i]} :: 0 <= i < |list| ==> list[i].len > 0
    ensures !SomeRowDies(rows, parentRows)
  {
    forall i | 0 <= i < |rows| ensures Survivors(rows[i], parentRows, |parentRows|) != [] {
      assert |Contents(list[i])| > 0;
    }
  }

  ghost function AllContents(list: seq<Slice>): (r: seq<seq<Conjunction>>)
    requires ValidRows(list)
    reads Arrays(list)
    ensures |r| == |list| && forall i {:trigger r[i]} {:trigger list[i]} :: 0 <= i < |list| ==> r[i] == Contents(list[i])
  {
    seq(|list|, i requires 0 <= i < |list| reads Arrays(list) => Contents(list[i]))
  }

  /** The visit of an else-if, `ancestors` being the tests above it, nearest first. */
  method Visit(isPrint: char -> bool, test: Node, ancestors: seq<Node>) returns (reported: bool)
    requires WellFormed(test) && AllWellFormed(ancestors)
    ensures reported <==> IsDead(isPrint, test, ancestors)
  {
    var conditions := Conditions(test);
    var list := BuildRows(isPrint, conditions);
    forall i {:trigger list[i]} | 0 <= i < |list| ensures list[i].len > 0 {
      RowNonempty(isPrint, conditions[i]);
      assert |AllContents(list)[i]| > 0;
    }
    reported := FilterByAncestors(isPrint, list, ancestors);
  }

  lemma SameArrays(a: seq<Slice>, b: seq<Slice>)
    requires |a| == |b| && forall i {:trigger a[i]} :: 0 <= i < |a| ==> a[i].cells == b[i].cells
    ensures Arrays(a) == Arrays(b)
  {
    forall i | 0 <= i < |b| ensures b[i].cells in Arrays(a) {
      assert a[i].cells in Arrays(a);
    }
  }
}
