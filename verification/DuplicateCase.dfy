/** internal/rules/noduplicatecase/rule.go: case labels that are the same expression. */
module DuplicateCase {
  import opened Options
  import opened Text
  import opened Canonical

  /** The tree with every pair of parentheses removed, and nothing else. */
  function WithoutParens(n: Node): Node
    requires WellFormed(n)
    decreases n
  {
    if n.kind == ParenthesizedExpression then WithoutParens(n.children[0])
    else Node(n.kind, n.text, n.extra, AllWithoutParens(n.children))
  }

  function AllWithoutParens(ns: seq<Node>): (r: seq<Node>)
    requires forall n :: n in ns ==> WellFormed(n)
    ensures |r| == |ns|
    decreases ns
  {
    if ns == [] then [] else [WithoutParens(ns[0])] + AllWithoutParens(ns[1..])
  }

  /** What a string records of a tree: kinds, children and the text of listed leaves. */
  function Erase(n: Node): Shape
    decreases n
  {
    Plain(n.kind, if IsTextLeaf(n.kind) then n.text else "", EraseAll(n.children))
  }

  function EraseAll(ns: seq<Node>): (ss: seq<Shape>)
    ensures |ss| == |ns|
    decreases ns
  {
    if ns == [] then [] else [Erase(ns[0])] + EraseAll(ns[1..])
  }

  lemma {:induction false} EraseOk(n: Node)
    ensures ShapeOk(Erase(n))
    decreases n, 1
  {
    AllEraseOk(n.children);
  }

  lemma {:induction false} AllEraseOk(ns: seq<Node>)
    ensures forall s :: s in EraseAll(ns) ==> ShapeOk(s)
    decreases ns, 0
  {
    if ns != [] {
      EraseOk(ns[0]);
      AllEraseOk(ns[1..]);
    }
  }

  /** What the builder writes of a tree. */
  function Shown(n: Node): (s: Shape)
    requires WellFormed(n)
    ensures s.Plain?
    decreases n
  {
    if n.kind == ParenthesizedExpression then Shown(n.children[0])
    else Plain(n.kind, if IsTextLeaf(n.kind) then n.text else "", AllShown(n.children))
  }

  function AllShown(ns: seq<Node>): (ss: seq<Shape>)
    requires forall n :: n in ns ==> WellFormed(n)
    ensures |ss| == |ns| && forall i :: 0 <= i < |ns| ==> ss[i] == Shown(ns[i])
    decreases ns
  {
    if ns == [] then [] else [Shown(ns[0])] + AllShown(ns[1..])
  }

  lemma {:induction false} ShownErases(n: Node)
    requires WellFormed(n)
    ensures Shown(n) == Erase(WithoutParens(n))
    decreases n, 1
  {
    if n.kind == ParenthesizedExpression {
      ShownErases(n.children[0]);
    } else {
      AllShownErase(n.children);
    }
  }

  lemma {:induction false} AllShownErase(ns: seq<Node>)
    requires forall n :: n in ns ==> WellFormed(n)
    ensures AllShown(ns) == EraseAll(AllWithoutParens(ns))
    decreases ns, 0
  {
    if ns != [] {
      ShownErases(ns[0]);
      AllShownErase(ns[1..]);
      var rest := AllWithoutParens(ns[1..]);
      assert ([WithoutParens(ns[0])] + rest)[1..] == rest;
    }
  }

  /** The string the rule keys case labels by. */
  function Canonicalize(isPrint: char -> bool, n: Node): string
    requires WellFormed(n)
  {
    Render(isPrint, Shown(n), "")
  }

  method BuildCanonical(isPrint: char -> bool, n: Node) returns (sb: string)
    requires WellFormed(n)
    ensures sb == Canonicalize(isPrint, n)
    decreases n
  {
    var cur := n;
    while cur.kind == ParenthesizedExpression
      invariant WellFormed(cur) && Shown(cur) == Shown(n) && (cur == n || cur < n)
      decreases cur
    {
      cur := cur.children[0];
    }
    ghost var ss := AllShown(cur.children);
    sb := Itoa(Code(cur.kind));
    if IsTextLeaf(cur.kind) {
      sb := sb + ":";
      sb := sb + Quote(isPrint, cur.text);
    }
    sb := sb + "(";
    ghost var head := sb;
    var first := true;
    for i := 0 to |cur.children|
      invariant first <==> i == 0
      invariant sb == Written(isPrint, head, ss, i)
    {
      if !first {
        sb := sb + ",";
      }
      first := false;
      var c := BuildCanonical(isPrint, cur.children[i]);
      sb := sb + c;
    }
    sb := sb + ")";
    AllWritten(isPrint, head, ss, ")");
    HeadWritten(isPrint, Shown(cur), head);
  }

  /** Equal strings mean equal trees, parentheses and what the strings omit aside, however deep. */
  lemma {:induction false} CanonicalizeExact(isPrint: char -> bool, a: Node, b: Node)
    requires WellFormed(a) && WellFormed(b)
    ensures Canonicalize(isPrint, a) == Canonicalize(isPrint, b) <==> Erase(WithoutParens(a)) == Erase(WithoutParens(b))
  {
    ShownErases(a);
    ShownErases(b);
    EraseOk(WithoutParens(a));
    EraseOk(WithoutParens(b));
    if Canonicalize(isPrint, a) == Canonicalize(isPrint, b) {
      RenderReadable(isPrint, Shown(a), "", Shown(b), "");
    }
  }

  predicate NoParens(n: Node) { n.kind != ParenthesizedExpression && forall c :: c in n.children ==> NoParens(c) }

  /** Parentheses change nothing, and nothing else is left out with them. */
  lemma {:induction false} ParensExact(isPrint: char -> bool, n: Node)
    requires WellFormed(n)
    ensures Canonicalize(isPrint, Node(ParenthesizedExpression, "", "", [n])) == Canonicalize(isPrint, n)
    ensures NoParens(WithoutParens(n)) && (NoParens(n) ==> WithoutParens(n) == n)
  {
    NoneLeft(n);
  }

  lemma {:induction false} NoneLeft(n: Node)
    requires WellFormed(n)
    ensures NoParens(WithoutParens(n)) && (NoParens(n) ==> WithoutParens(n) == n)
    decreases n, 1
  {
    if n.kind == ParenthesizedExpression {
      NoneLeft(n.children[0]);
    } else {
      AllNoneLeft(n.children);
    }
  }

  lemma {:induction false} AllNoneLeft(ns: seq<Node>)
    requires forall n :: n in ns ==> WellFormed(n)
    ensures forall r :: r in AllWithoutParens(ns) ==> NoParens(r)
    ensures (forall n :: n in ns ==> NoParens(n)) ==> AllWithoutParens(ns) == ns
    decreases ns, 0
  {
    if ns != [] {
      NoneLeft(ns[0]);
      AllNoneLeft(ns[1..]);
      assert ns == [ns[0]] + ns[1..];
    }
  }

  // ----- What erasing loses -----

  /** Two trees of one shape have the same text in unlisted leaves, and hold the same otherwise. */
  predicate OmissionsAgree(a: Node, b: Node)
    decreases a
  {
    a.extra == b.extra && (IsTextLeaf(a.kind) || a.text == b.text) && AllAgree(a.children, b.children)
  }

  predicate AllAgree(as_: seq<Node>, bs: seq<Node>)
    decreases as_
  {
    as_ == [] || bs == [] || (OmissionsAgree(as_[0], bs[0]) && AllAgree(as_[1..], bs[1..]))
  }

  lemma {:induction false} EqualExact(a: Node, b: Node)
    ensures a == b <==> Erase(a) == Erase(b) && OmissionsAgree(a, b)
    decreases a, 1
  {
    AllEqualExact(a.children, b.children);
  }

  lemma {:induction false} AllEqualExact(as_: seq<Node>, bs: seq<Node>)
    ensures as_ == bs <==> EraseAll(as_) == EraseAll(bs) && AllAgree(as_, bs)
    decreases as_, 0
  {
    if as_ != [] && bs != [] {
      EqualExact(as_[0], bs[0]);
      AllEqualExact(as_[1..], bs[1..]);
      assert as_ == [as_[0]] + as_[1..] && bs == [bs[0]] + bs[1..];
      assert EraseAll(as_)[0] == Erase(as_[0]) && EraseAll(bs)[0] == Erase(bs[0]);
      assert EraseAll(as_)[1..] == EraseAll(as_[1..]) && EraseAll(bs)[1..] == EraseAll(bs[1..]);
    }
  }

  /** The text of such a leaf, and its kind, are in its string. */
  lemma {:induction false} LeafStringExact(isPrint: char -> bool, kind1: Kind, text1: string, kind2: Kind, text2: string)
    requires HoldsText(kind1) && HoldsText(kind2)
    ensures Canonicalize(isPrint, Leaf(kind1, text1)) == Canonicalize(isPrint, Leaf(kind2, text2)) <==> kind1 == kind2 && text1 == text2
  {
    CanonicalizeExact(isPrint, Leaf(kind1, text1), Leaf(kind2, text2));
    assert Erase(Leaf(kind1, text1)) == Plain(kind1, text1, []) && Erase(Leaf(kind2, text2)) == Plain(kind2, text2, []);
  }

  // ----- The rule -----

  datatype SwitchClause = CaseClause(test: Node) | DefaultClause

  /** The label of clause `i` repeats that of clause `j`. */
  predicate Repeats(clauses: seq<SwitchClause>, j: nat, i: nat)
    requires j < |clauses| && i < |clauses| && AllWellFormed(clauses)
  {
    clauses[j].CaseClause? && clauses[i].CaseClause? && WithoutParens(clauses[j].test) == WithoutParens(clauses[i].test)
  }

  predicate ErasedRepeats(clauses: seq<SwitchClause>, j: nat, i: nat)
    requires j < |clauses| && i < |clauses| && AllWellFormed(clauses)
  {
    clauses[j].CaseClause? && clauses[i].CaseClause? &&
    Erase(WithoutParens(clauses[j].test)) == Erase(WithoutParens(clauses[i].test))
  }

  /** An earlier clause has the same label. */
  predicate IsDuplicate(clauses: seq<SwitchClause>, i: nat)
    requires i < |clauses| && AllWellFormed(clauses)
  {
    exists j :: 0 <= j < i && Repeats(clauses, j, i)
  }

  /** An earlier clause has the same label, as far as the strings tell. */
  predicate LooksDuplicate(clauses: seq<SwitchClause>, i: nat)
    requires i < |clauses| && AllWellFormed(clauses)
  {
    exists j :: 0 <= j < i && ErasedRepeats(clauses, j, i)
  }

  /** Every repeated label is reported; and a clause repeats a label exactly when some earlier
      label that looks the same holds the same in all that the strings omit. */
  lemma {:induction false} DuplicateExact(clauses: seq<SwitchClause>, i: nat)
    requires i < |clauses| && AllWellFormed(clauses)
    ensures IsDuplicate(clauses, i) ==> LooksDuplicate(clauses, i)
    ensures IsDuplicate(clauses, i) <==>
            exists j :: 0 <= j < i && ErasedRepeats(clauses, j, i) &&
                        OmissionsAgree(WithoutParens(clauses[j].test), WithoutParens(clauses[i].test))
  {
    forall j | 0 <= j < i && clauses[j].CaseClause? && clauses[i].CaseClause?
      ensures Repeats(clauses, j, i) <==>
              ErasedRepeats(clauses, j, i) && OmissionsAgree(WithoutParens(clauses[j].test), WithoutParens(clauses[i].test))
    {
      EqualExact(WithoutParens(clauses[j].test), WithoutParens(clauses[i].test));
    }
  }

  predicate AllWellFormed(clauses: seq<SwitchClause>) {
    forall c :: c in clauses && c.CaseClause? ==> WellFormed(c.test)
  }

  /** Reports exactly the clauses that look like duplicates, in order. */
  method Visit(isPrint: char -> bool, clauses: seq<SwitchClause>) returns (reported: seq<nat>)
    requires AllWellFormed(clauses)
    ensures forall i :: i in reported <==> 0 <= i < |clauses| && LooksDuplicate(clauses, i)
    ensures forall j, k :: 0 <= j < k < |reported| ==> reported[j] < reported[k]
  {
    var seen: set<string> := {};
    ghost var keys := Keys(isPrint, clauses);
    reported := [];
    for n := 0 to |clauses|
      invariant seen == SeenKeys(keys, n)
      invariant reported == Duplicates(clauses, n)
    {
      if clauses[n].CaseClause? {
        var key := BuildCanonical(isPrint, clauses[n].test);
        SeenIsDuplicate(isPrint, clauses, n);
        if key in seen {
          reported := reported + [n];
        } else {
          seen := seen + {key};
        }
      }
    }
    forall i ensures i in reported <==> 0 <= i < |clauses| && LooksDuplicate(clauses, i) {
      DuplicatesMember(clauses, |clauses|, i);
    }
    DuplicatesAscend(clauses, |clauses|);
  }

  /** The duplicates among the first `n` clauses. */
  ghost function Duplicates(clauses: seq<SwitchClause>, n: nat): seq<int>
    requires n <= |clauses| && AllWellFormed(clauses)
  {
    if n == 0 then []
    else Duplicates(clauses, n - 1) + (if LooksDuplicate(clauses, n - 1) then [n - 1] else [])
  }

  lemma {:induction false} DuplicatesMember(clauses: seq<SwitchClause>, n: nat, i: int)
    requires n <= |clauses| && AllWellFormed(clauses)
    ensures i in Duplicates(clauses, n) <==> 0 <= i < n && LooksDuplicate(clauses, i)
  {
    if n > 0 {
      DuplicatesMember(clauses, n - 1, i);
    }
  }

  lemma {:induction false} DuplicatesAscend(clauses: seq<SwitchClause>, n: nat)
    requires n <= |clauses| && AllWellFormed(clauses)
    ensures forall j, k :: 0 <= j < k < |Duplicates(clauses, n)| ==> Duplicates(clauses, n)[j] < Duplicates(clauses, n)[k]
  {
    if n > 0 {
      DuplicatesAscend(clauses, n - 1);
      var before := Duplicates(clauses, n - 1);
      forall j | 0 <= j < |before| ensures before[j] < n - 1 {
        DuplicatesMember(clauses, n - 1, before[j]);
      }
    }
  }

  /** Each clause's key; `default` has none. */
  ghost function Keys(isPrint: char -> bool, clauses: seq<SwitchClause>): (r: seq<Option<string>>)
    requires AllWellFormed(clauses)
    ensures |r| == |clauses|
  {
    seq(|clauses|, i requires 0 <= i < |clauses| =>
      if clauses[i].CaseClause? then Some(Canonicalize(isPrint, clauses[i].test)) else None)
  }

  ghost function SeenKeys(keys: seq<Option<string>>, n: nat): set<string>
    requires n <= |keys|
  {
    if n == 0 then {} else SeenKeys(keys, n - 1) + if keys[n - 1].Some? then {keys[n - 1].value} else {}
  }

  lemma {:induction false} SeenKey(keys: seq<Option<string>>, n: nat, key: string)
    requires n <= |keys|
    ensures key in SeenKeys(keys, n) <==> exists j :: 0 <= j < n && keys[j] == Some(key)
  {
    if n > 0 {
      SeenKey(keys, n - 1, key);
    }
  }

  lemma SeenIsDuplicate(isPrint: char -> bool, clauses: seq<SwitchClause>, n: nat)
    requires n < |clauses| && AllWellFormed(clauses) && clauses[n].CaseClause?
    ensures Canonicalize(isPrint, clauses[n].test) in SeenKeys(Keys(isPrint, clauses), n) <==> LooksDuplicate(clauses, n)
  {
    var keys, key := Keys(isPrint, clauses), Canonicalize(isPrint, clauses[n].test);
    SeenKey(keys, n, key);
    forall j | 0 <= j < n ensures keys[j] == Some(key) <==> ErasedRepeats(clauses, j, n) {
      if clauses[j].CaseClause? {
        CanonicalizeExact(isPrint, clauses[j].test, clauses[n].test);
      }
    }
  }

  /** Of two labels that are such leaves, the second is reported exactly when they are equal. */
  lemma {:induction false} LeafReportExact(isPrint: char -> bool, kind1: Kind, text1: string, kind2: Kind, text2: string)
    requires HoldsText(kind1) && HoldsText(kind2)
    ensures var clauses := [CaseClause(Leaf(kind1, text1)), CaseClause(Leaf(kind2, text2))];
            AllWellFormed(clauses) && (LooksDuplicate(clauses, 1) <==> kind1 == kind2 && text1 == text2)
  {
    var clauses := [CaseClause(Leaf(kind1, text1)), CaseClause(Leaf(kind2, text2))];
    LeafStringExact(isPrint, kind1, text1, kind2, text2);
    CanonicalizeExact(isPrint, Leaf(kind1, text1), Leaf(kind2, text2));
    assert LooksDuplicate(clauses, 1) <==> ErasedRepeats(clauses, 0, 1);
  }

  /** A unary operator is not a child node, so `case +1` after `case -1` looks like a duplicate. */
  lemma UnaryOperatorIgnored(isPrint: char -> bool, n: nat, op1: string, op2: string, operand: Node)
    requires WellFormed(operand) && op1 != op2
    ensures var clauses := [CaseClause(Node(OtherKind(n), "", op1, [operand])), CaseClause(Node(OtherKind(n), "", op2, [operand]))];
            AllWellFormed(clauses) && LooksDuplicate(clauses, 1) && !IsDuplicate(clauses, 1)
  {
    var a, b := Node(OtherKind(n), "", op1, [operand]), Node(OtherKind(n), "", op2, [operand]);
    assert WellFormed(a) && WellFormed(b);
    assert WithoutParens(a).extra == op1 && WithoutParens(b).extra == op2;
    assert ErasedRepeats([CaseClause(a), CaseClause(b)], 0, 1);
  }

  /** Nor is JSX text in the strings: two elements that differ in it only look the same. */
  lemma LeafTextIgnored(m: nat, text1: string, text2: string)
    requires text1 != text2
    ensures var clauses := [CaseClause(Node(OtherKind(m), text1, "", [])), CaseClause(Node(OtherKind(m), text2, "", []))];
            AllWellFormed(clauses) && LooksDuplicate(clauses, 1) && !IsDuplicate(clauses, 1)
  {
    var a, b := Node(OtherKind(m), text1, "", []), Node(OtherKind(m), text2, "", []);
    assert WellFormed(a) && WellFormed(b);
    assert WithoutParens(a).text == text1 && WithoutParens(b).text == text2;
    assert ErasedRepeats([CaseClause(a), CaseClause(b)], 0, 1);
  }

  /** Nor are the keywords of declarations: `case (() => { … var x = 0; … })()` and the same with
      `let` only look the same, and are 0 and 1. */
  lemma {:induction false} KeywordIgnored(n: nat, keyword1: string, keyword2: string)
    requires keyword1 != keyword2
    ensures var clauses := [CaseClause(CallOf(n, keyword1)), CaseClause(CallOf(n, keyword2))];
            AllWellFormed(clauses) && LooksDuplicate(clauses, 1) && !IsDuplicate(clauses, 1)
  {
    CallsKept(n, keyword1, keyword2);
    assert ErasedRepeats([CaseClause(CallOf(n, keyword1)), CaseClause(CallOf(n, keyword2))], 0, 1);
  }

  /** Two trees that differ, but not in what the strings record. */
  predicate OnlyLook(a: Node, b: Node)
    requires WellFormed(a) && WellFormed(b)
  {
    Erase(WithoutParens(a)) == Erase(WithoutParens(b)) && WithoutParens(a) != WithoutParens(b)
  }

  lemma CallsKept(n: nat, keyword1: string, keyword2: string)
    requires keyword1 != keyword2
    ensures OnlyLook(CallOf(n, keyword1), CallOf(n, keyword2))
  {
    ListsKept(Declares(n, keyword1, "0").children[0], Declares(n, keyword2, "0").children[0]);
    ParentsKept(Declares(n, keyword1, "0"), Declares(n, keyword2, "0"));
    ParentsKept(BlockOf(n, [Declares(n, keyword1, "0")]), BlockOf(n, [Declares(n, keyword2, "0")]));
    BodyKept(n, keyword1, keyword2);
    ParentsKept(CallOf(n, keyword1).children[0], CallOf(n, keyword2).children[0]);
    ParentsKept(CallOf(n, keyword1), CallOf(n, keyword2));
  }

  lemma ListsKept(a: Node, b: Node)
    requires WellFormed(a) && WellFormed(b) && !a.kind.ParenthesizedExpression?
    requires a.kind == b.kind && a.text == b.text && a.children == b.children && a.extra != b.extra
    ensures OnlyLook(a, b)
  {
  }

  lemma ParentsKept(a: Node, b: Node)
    requires WellFormed(a) && WellFormed(b) && |a.children| == 1 == |b.children| && !a.kind.ParenthesizedExpression?
    requires a.kind == b.kind && a.text == b.text && OnlyLook(a.children[0], b.children[0])
    ensures OnlyLook(a, b)
  {
    OnlyChildKept(a);
    OnlyChildKept(b);
  }

  lemma OnlyChildKept(n: Node)
    requires WellFormed(n) && |n.children| == 1 && !n.kind.ParenthesizedExpression?
    ensures WithoutParens(n) == Node(n.kind, n.text, n.extra, [WithoutParens(n.children[0])])
    ensures Erase(WithoutParens(n)) ==
            Plain(n.kind, if IsTextLeaf(n.kind) then n.text else "", [Erase(WithoutParens(n.children[0]))])
  {
    assert n.children == [n.children[0]] && n.children[1..] == [];
    var child := WithoutParens(n.children[0]);
    assert [child][1..] == [];
  }

  lemma BodyKept(n: nat, keyword1: string, keyword2: string)
    requires OnlyLook(BlockOf(n, [Declares(n, keyword1, "0")]), BlockOf(n, [Declares(n, keyword2, "0")]))
    ensures OnlyLook(Body(n, keyword1), Body(n, keyword2))
  {
    var a, b := Body(n, keyword1), Body(n, keyword2);
    assert AllWithoutParens(a.children)[1] != AllWithoutParens(b.children)[1];
    assert EraseAll(AllWithoutParens(a.children)) == EraseAll(AllWithoutParens(b.children));
  }
}
