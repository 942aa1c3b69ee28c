/** When an else-if that the rule reports can never run. */
module DeadBranch {
  import opened Text
  import opened Canonical
  import opened DupeElseIf

  /** The truth of a condition when `val` says which atoms hold. */
  ghost predicate Truth(n: Node, val: Node -> bool)
    decreases n
  {
    if n.kind.ParenthesizedExpression? && |n.children| == 1 then Truth(n.children[0], val)
    else if IsBinary(n, AmpersandAmpersandToken) then Truth(n.children[0], val) && Truth(n.children[2], val)
    else if IsBinary(n, BarBarToken) then Truth(n.children[0], val) || Truth(n.children[2], val)
    else val(n)
  }

  /** Atoms that are the same have the same truth. */
  ghost predicate Respects(same: (Node, Node) -> bool, val: Node -> bool) { forall a, b :: same(a, b) ==> val(a) == val(b) }

  lemma {:induction false} TruthSame(a: Node, b: Node, val: Node -> bool)
    requires Respects(Same, val) && Same(a, b)
    ensures Truth(a, val) == Truth(b, val)
    decreases a
  {
    if IsLogicalNode(a) {
      var al, ar, bl, br := a.children[0], a.children[2], b.children[0], b.children[2];
      if Same(al, bl) && Same(ar, br) {
        TruthSame(al, bl, val);
        TruthSame(ar, br, val);
      } else {
        TruthSame(al, br, val);
        TruthSame(ar, bl, val);
      }
    } else {
      SameLength(a.children, b.children);
      if a.kind.ParenthesizedExpression? && |a.children| == 1 {
        TruthSame(a.children[0], b.children[0], val);
      }
    }
  }

  lemma {:induction false} SameLength(as_: seq<Node>, bs: seq<Node>)
    requires AllSame(as_, bs)
    ensures |as_| == |bs|
  {
    if as_ != [] && bs != [] {
      SameLength(as_[1..], bs[1..]);
    }
  }

  lemma {:induction false} UnparenTruth(n: Node, val: Node -> bool)
    requires WellFormed(n)
    ensures Truth(Unparen(n), val) == Truth(n, val)
    decreases n
  {
    if n.kind.ParenthesizedExpression? {
      UnparenTruth(n.children[0], val);
    }
  }

  /** A condition is the AND of its AND-operands. */
  lemma {:induction false} AndSplit(n: Node, val: Node -> bool)
    requires WellFormed(n)
    ensures Truth(n, val) <==> forall x :: x in SplitByLogical(n, AmpersandAmpersandToken) ==> Truth(x, val)
    decreases n
  {
    var u := Unparen(n);
    UnparenTruth(n, val);
    if IsBinary(u, AmpersandAmpersandToken) {
      AndSplit(u.children[0], val);
      AndSplit(u.children[2], val);
      var left, right := SplitByLogical(u.children[0], AmpersandAmpersandToken), SplitByLogical(u.children[2], AmpersandAmpersandToken);
      assert forall x :: x in left + right <==> x in left || x in right;
    }
  }

  /** A condition is the OR of its OR-operands. */
  lemma {:induction false} OrSplit(n: Node, val: Node -> bool)
    requires WellFormed(n)
    ensures Truth(n, val) <==> exists x :: x in SplitByLogical(n, BarBarToken) && Truth(x, val)
    decreases n
  {
    var u := Unparen(n);
    UnparenTruth(n, val);
    if IsBinary(u, BarBarToken) {
      OrSplit(u.children[0], val);
      OrSplit(u.children[2], val);
      var left, right := SplitByLogical(u.children[0], BarBarToken), SplitByLogical(u.children[2], BarBarToken);
      assert forall x :: x in left + right <==> x in left || x in right;
    }
  }

  // ----- Covering, whatever counts as the same term -----

  /** Every AND-term of `po` is one of those of `o`. */
  predicate Within(same: (Node, Node) -> bool, po: Node, o: Node)
    requires WellFormed(po) && WellFormed(o)
  {
    forall y :: y in SplitByLogical(po, AmpersandAmpersandToken) ==>
      exists x :: x in SplitByLogical(o, AmpersandAmpersandToken) && same(y, x)
  }

  /** Some OR-operand of `a` has all its AND-terms among those of `o`. */
  predicate CoversOperand(same: (Node, Node) -> bool, a: Node, o: Node)
    requires WellFormed(a) && WellFormed(o)
  {
    exists po :: po in SplitByLogical(a, BarBarToken) && Within(same, po, o)
  }

  /** Every OR-operand of `c` is covered by some ancestor. */
  predicate Covers(same: (Node, Node) -> bool, c: Node, ancestors: seq<Node>)
    requires WellFormed(c) && AllWellFormed(ancestors)
  {
    forall o :: o in SplitByLogical(c, BarBarToken) ==> exists a :: a in ancestors && CoversOperand(same, a, o)
  }

  ghost predicate SomeHolds(ancestors: seq<Node>, val: Node -> bool) { exists a :: a in ancestors && Truth(a, val) }

  /** Terms that count as the same have the same truth. */
  ghost predicate Harmless(same: (Node, Node) -> bool, c: Node, a: Node, val: Node -> bool)
    requires WellFormed(c) && WellFormed(a)
  {
    forall x, y :: IsTerm(x, c) && IsTerm(y, a) && same(y, x) ==> Truth(y, val) == Truth(x, val)
  }

  lemma OperandSound(same: (Node, Node) -> bool, c: Node, o: Node, a: Node, val: Node -> bool)
    requires WellFormed(c) && WellFormed(a) && o in SplitByLogical(c, BarBarToken) && Harmless(same, c, a, val)
    requires CoversOperand(same, a, o) && Truth(o, val)
    ensures Truth(a, val)
  {
    var po :| po in SplitByLogical(a, BarBarToken) && Within(same, po, o);
    AndSplit(o, val);
    forall y | y in SplitByLogical(po, AmpersandAmpersandToken) ensures Truth(y, val) {
      var x :| x in SplitByLogical(o, AmpersandAmpersandToken) && same(y, x);
      assert IsTerm(x, c) && IsTerm(y, a);
    }
    AndSplit(po, val);
    OrSplit(a, val);
  }

  /** A covered condition implies some ancestor. */
  lemma {:induction false} CoversSound(same: (Node, Node) -> bool, c: Node, ancestors: seq<Node>, val: Node -> bool)
    requires WellFormed(c) && AllWellFormed(ancestors) && Covers(same, c, ancestors)
    requires forall a :: a in ancestors ==> Harmless(same, c, a, val)
    requires Truth(c, val)
    ensures SomeHolds(ancestors, val)
  {
    OrSplit(c, val);
    var o :| o in SplitByLogical(c, BarBarToken) && Truth(o, val);
    var a :| a in ancestors && CoversOperand(same, a, o);
    OperandSound(same, c, o, a, val);
  }

  /** `x` is one of the terms `n` is split into. */
  predicate IsTerm(x: Node, n: Node)
    requires WellFormed(n)
  {
    exists o :: o in SplitByLogical(n, BarBarToken) && x in SplitByLogical(o, AmpersandAmpersandToken)
  }

  // ----- What the rule reports -----

  lemma {:induction false} UncoveredKeeps(row: seq<Conjunction>, parentRow: seq<Conjunction>, c: Conjunction)
    ensures c in Uncovered(row, parentRow) <==> c in row && !Covered(c, parentRow)
    decreases |row|
  {
    if row != [] {
      UncoveredKeeps(row[..|row| - 1], parentRow, c);
      assert row == row[..|row| - 1] + [row[|row| - 1]];
    }
  }

  /** An operand is filtered away exactly when some parent row covers it. */
  lemma {:induction false} SurvivorsExact(row: seq<Conjunction>, parentRows: seq<seq<Conjunction>>, k: nat, c: Conjunction)
    requires k <= |parentRows|
    ensures c in Survivors(row, parentRows, k) <==> c in row && forall j :: 0 <= j < k ==> !Covered(c, parentRows[j])
  {
    if k > 0 {
      SurvivorsExact(row, parentRows, k - 1, c);
      UncoveredKeeps(Survivors(row, parentRows, k - 1), parentRows[k - 1], c);
    }
  }

  lemma {:induction false} CanonicalizeMember(isPrint: char -> bool, ns: seq<Node>, t: Term)
    ensures t in CanonicalizeAll(isPrint, ns) <==> exists n :: n in ns && Canonicalize(isPrint, n) == t
  {
    if ns != [] {
      CanonicalizeMember(isPrint, ns[1..], t);
      assert ns == [ns[0]] + ns[1..];
    }
  }

  lemma {:induction false} TermsMember(isPrint: char -> bool, ns: seq<Node>, c: Conjunction)
    requires AllWellFormed(ns)
    ensures c in AllTerms(isPrint, ns) <==> exists n :: n in ns && Terms(isPrint, n) == c
  {
    if ns != [] {
      assert AllWellFormed(ns[1..]);
      TermsMember(isPrint, ns[1..], c);
      assert ns == [ns[0]] + ns[1..];
    }
  }

  /** The canonical strings are equal. */
  predicate SameString(a: Node, b: Node) { Same(Forget(a), Forget(b)) }

  lemma SubsetExact(isPrint: char -> bool, po: Node, o: Node)
    requires WellFormed(po) && WellFormed(o)
    ensures IsSubset(Terms(isPrint, po), Terms(isPrint, o)) <==> Within(SameString, po, o)
  {
    var ys, xs := SplitByLogical(po, AmpersandAmpersandToken), SplitByLogical(o, AmpersandAmpersandToken);
    forall y | y in ys
      ensures Canonicalize(isPrint, y) in Terms(isPrint, o) <==> exists x :: x in xs && SameString(y, x)
    {
      TermExact(isPrint, y, xs);
    }
    forall t ensures t in Terms(isPrint, po) <==> exists y :: y in ys && Canonicalize(isPrint, y) == t {
      CanonicalizeMember(isPrint, ys, t);
    }
  }

  lemma TermExact(isPrint: char -> bool, y: Node, xs: seq<Node>)
    ensures Canonicalize(isPrint, y) in CanonicalizeAll(isPrint, xs) <==> exists x :: x in xs && SameString(y, x)
  {
    CanonicalizeMember(isPrint, xs, Canonicalize(isPrint, y));
    forall x | x in xs ensures Canonicalize(isPrint, x) == Canonicalize(isPrint, y) <==> SameString(y, x) {
      CanonicalizeExact(isPrint, y, x);
    }
  }

  lemma CoveredExact(isPrint: char -> bool, o: Node, a: Node)
    requires WellFormed(o) && WellFormed(a)
    ensures Covered(Terms(isPrint, o), Row(isPrint, a)) <==> CoversOperand(SameString, a, o)
  {
    var pos := SplitByLogical(a, BarBarToken);
    forall po | po in pos ensures IsSubset(Terms(isPrint, po), Terms(isPrint, o)) <==> Within(SameString, po, o) {
      SubsetExact(isPrint, po, o);
    }
    forall p ensures p in Row(isPrint, a) <==> exists po :: po in pos && Terms(isPrint, po) == p {
      TermsMember(isPrint, pos, p);
    }
  }

  lemma RowDiesExact(isPrint: char -> bool, c: Node, ancestors: seq<Node>)
    requires WellFormed(c) && AllWellFormed(ancestors)
    ensures Survivors(Row(isPrint, c), AllRows(isPrint, ancestors), |ancestors|) == [] <==> Covers(SameString, c, ancestors)
  {
    var left := Survivors(Row(isPrint, c), AllRows(isPrint, ancestors), |ancestors|);
    if left == [] {
      forall o | o in SplitByLogical(c, BarBarToken) ensures exists a :: a in ancestors && CoversOperand(SameString, a, o) {
        OperandDies(isPrint, c, o, ancestors);
      }
    } else if Covers(SameString, c, ancestors) {
      CoveredDies(isPrint, c, ancestors, left[0]);
    }
  }

  lemma OperandDies(isPrint: char -> bool, c: Node, o: Node, ancestors: seq<Node>)
    requires WellFormed(c) && AllWellFormed(ancestors) && o in SplitByLogical(c, BarBarToken)
    requires Survivors(Row(isPrint, c), AllRows(isPrint, ancestors), |ancestors|) == []
    ensures exists a :: a in ancestors && CoversOperand(SameString, a, o)
  {
    var rows := AllRows(isPrint, ancestors);
    TermsMember(isPrint, SplitByLogical(c, BarBarToken), Terms(isPrint, o));
    SurvivorsExact(Row(isPrint, c), rows, |ancestors|, Terms(isPrint, o));
    var j :| 0 <= j < |ancestors| && Covered(Terms(isPrint, o), rows[j]);
    CoveredExact(isPrint, o, ancestors[j]);
    assert ancestors[j] in ancestors;
  }

  lemma CoveredRow(isPrint: char -> bool, o: Node, ancestors: seq<Node>) returns (j: nat)
    requires WellFormed(o) && AllWellFormed(ancestors) && exists a :: a in ancestors && CoversOperand(SameString, a, o)
    ensures j < |ancestors| && Covered(Terms(isPrint, o), AllRows(isPrint, ancestors)[j])
  {
    var a :| a in ancestors && CoversOperand(SameString, a, o);
    j :| 0 <= j < |ancestors| && ancestors[j] == a;
    CoveredExact(isPrint, o, a);
  }

  lemma CoveredDies(isPrint: char -> bool, c: Node, ancestors: seq<Node>, t: Conjunction)
    requires WellFormed(c) && AllWellFormed(ancestors) && Covers(SameString, c, ancestors)
    ensures t !in Survivors(Row(isPrint, c), AllRows(isPrint, ancestors), |ancestors|)
  {
    SurvivorsExact(Row(isPrint, c), AllRows(isPrint, ancestors), |ancestors|, t);
    if t in Row(isPrint, c) {
      TermsMember(isPrint, SplitByLogical(c, BarBarToken), t);
      var o :| o in SplitByLogical(c, BarBarToken) && Terms(isPrint, o) == t;
      var j := CoveredRow(isPrint, o, ancestors);
    }
  }

  /** The rule reports exactly when the test, or an AND-operand of it, is covered, terms being the
      same when their strings are. */
  lemma {:induction false} ReportExact(isPrint: char -> bool, test: Node, ancestors: seq<Node>)
    requires WellFormed(test) && AllWellFormed(ancestors)
    ensures IsDead(isPrint, test, ancestors) <==>
            || Covers(SameString, test, ancestors)
            || exists c :: c in SplitByLogical(test, AmpersandAmpersandToken) && Covers(SameString, c, ancestors)
  {
    ConditionReport(isPrint, test, ancestors);
    if !IsBinary(Unparen(test), AmpersandAmpersandToken) {
      assert SplitByLogical(test, AmpersandAmpersandToken) == [Unparen(test)];
      UnparenCovers(test, ancestors);
    }
  }

  /** Parentheses around a test make no difference. */
  lemma UnparenCovers(test: Node, ancestors: seq<Node>)
    requires WellFormed(test) && AllWellFormed(ancestors)
    ensures Covers(SameString, Unparen(test), ancestors) <==> Covers(SameString, test, ancestors)
  {
    assert Unparen(Unparen(test)) == Unparen(test);
    assert SplitByLogical(Unparen(test), BarBarToken) == SplitByLogical(test, BarBarToken);
  }

  lemma {:induction false} ConditionReport(isPrint: char -> bool, test: Node, ancestors: seq<Node>)
    requires WellFormed(test) && AllWellFormed(ancestors)
    ensures IsDead(isPrint, test, ancestors) <==> exists c :: c in Conditions(test) && Covers(SameString, c, ancestors)
  {
    var conditions, parents := Conditions(test), AllRows(isPrint, ancestors);
    var rows := AllRows(isPrint, conditions);
    forall i | 0 <= i < |conditions|
      ensures Survivors(rows[i], parents, |parents|) == [] <==> Covers(SameString, conditions[i], ancestors)
    {
      RowDiesExact(isPrint, conditions[i], ancestors);
    }
    if c :| c in conditions && Covers(SameString, c, ancestors) {
      var i :| 0 <= i < |conditions| && conditions[i] == c;
      assert Survivors(rows[i], parents, |parents|) == [];
    }
  }

  // ----- Reports that are right -----

  /** A true test makes each of its conditions true. */
  lemma {:induction false} ConditionsHold(test: Node, i: nat, val: Node -> bool)
    requires WellFormed(test) && i < |Conditions(test)| && Truth(test, val)
    ensures Truth(Conditions(test)[i], val)
  {
    var sides := SplitByLogical(test, AmpersandAmpersandToken);
    if i == 0 {
      assert Conditions(test)[0] == test;
    } else {
      assert Conditions(test)[i] == sides[i - 1] && sides[i - 1] in sides;
      AndSplit(test, val);
    }
  }

  /** No two terms of `a` and `b` differ only in what the strings omit. */
  ghost predicate OmissionsAgree(a: Node, b: Node)
    requires WellFormed(a) && WellFormed(b)
  {
    forall x, y :: IsTerm(x, a) && IsTerm(y, b) && SameString(y, x) ==> Same(y, x)
  }

  lemma AgreeHarmless(c: Node, a: Node, val: Node -> bool)
    requires WellFormed(c) && WellFormed(a) && OmissionsAgree(c, a) && Respects(Same, val)
    ensures Harmless(SameString, c, a, val)
  {
    forall x, y | IsTerm(x, c) && IsTerm(y, a) && SameString(y, x) ensures Truth(y, val) == Truth(x, val) {
      TruthSame(y, x, val);
    }
  }

  /** Every valuation that makes a reported test true makes an earlier condition true. */
  lemma {:induction false} DeadBranchSound(isPrint: char -> bool, test: Node, ancestors: seq<Node>, val: Node -> bool)
    requires WellFormed(test) && AllWellFormed(ancestors)
    requires forall c, a :: c in Conditions(test) && a in ancestors ==> OmissionsAgree(c, a)
    requires Respects(Same, val) && IsDead(isPrint, test, ancestors) && Truth(test, val)
    ensures SomeHolds(ancestors, val)
  {
    ConditionReport(isPrint, test, ancestors);
    var c :| c in Conditions(test) && Covers(SameString, c, ancestors);
    var i :| 0 <= i < |Conditions(test)| && Conditions(test)[i] == c;
    ConditionsHold(test, i, val);
    forall a | a in ancestors ensures Harmless(SameString, c, a, val) {
      AgreeHarmless(c, a, val);
    }
    CoversSound(SameString, c, ancestors, val);
  }

  /** The strings record all of the tree: no text in unlisted leaves, and nothing else in any
      node but text and children. */
  predicate Recorded(n: Node) { Forget(n) == n }

  lemma {:induction false} SplitRecorded(n: Node, op: Kind)
    requires WellFormed(n) && Recorded(n)
    ensures forall x :: x in SplitByLogical(n, op) ==> Recorded(x)
    decreases n
  {
    UnparenRecorded(n);
    var u := Unparen(n);
    if IsBinary(u, op) {
      SidesRecorded(u);
      SplitRecorded(u.children[0], op);
      SplitRecorded(u.children[2], op);
    }
  }

  lemma SidesRecorded(u: Node)
    requires Recorded(u) && u.kind.BinaryExpression? && |u.children| == 3
    ensures Recorded(u.children[0]) && Recorded(u.children[2])
  {
    assert Forget(u).children[0] == u.children[0] && Forget(u).children[2] == u.children[2];
  }

  lemma {:induction false} UnparenRecorded(n: Node)
    requires WellFormed(n) && Recorded(n)
    ensures Recorded(Unparen(n))
    decreases n
  {
    if n.kind.ParenthesizedExpression? {
      assert n.children[0] == Forget(n).children[0];
      UnparenRecorded(n.children[0]);
    }
  }

  lemma TermRecorded(x: Node, n: Node)
    requires WellFormed(n) && Recorded(n) && IsTerm(x, n)
    ensures Recorded(x)
  {
    var o :| o in SplitByLogical(n, BarBarToken) && x in SplitByLogical(o, AmpersandAmpersandToken);
    SplitRecorded(n, BarBarToken);
    SplitRecorded(o, AmpersandAmpersandToken);
  }

  /** Where the strings record all of the tests, every report is right. */
  lemma {:induction false} RecordedReportSound(isPrint: char -> bool, test: Node, ancestors: seq<Node>, val: Node -> bool)
    requires WellFormed(test) && AllWellFormed(ancestors)
    requires Recorded(test) && forall a :: a in ancestors ==> Recorded(a)
    requires Respects(Same, val) && IsDead(isPrint, test, ancestors) && Truth(test, val)
    ensures SomeHolds(ancestors, val)
  {
    SplitRecorded(test, AmpersandAmpersandToken);
    forall c, a | c in Conditions(test) && a in ancestors ensures OmissionsAgree(c, a) {
      forall x, y | IsTerm(x, c) && IsTerm(y, a) && SameString(y, x) ensures Same(y, x) {
        TermRecorded(x, c);
        TermRecorded(y, a);
      }
    }
    DeadBranchSound(isPrint, test, ancestors, val);
  }

  // ----- Exactly which reports are right -----

  /** A condition that is one term. */
  predicate IsAtom(n: Node) { WellFormed(n) && !n.kind.ParenthesizedExpression? && !IsLogicalNode(n) }

  /** An OR of ANDs of atoms. */
  ghost predicate IsDnf(n: Node) { WellFormed(n) && forall x :: IsTerm(x, n) ==> IsAtom(x) }

  ghost predicate AllDnf(ancestors: seq<Node>)
    ensures AllDnf(ancestors) ==> AllWellFormed(ancestors)
  {
    forall a :: a in ancestors ==> IsDnf(a)
  }

  ghost predicate IsEquivalence(same: (Node, Node) -> bool) {
    && (forall a :: same(a, a))
    && (forall a, b :: same(a, b) ==> same(b, a))
    && (forall a, b, c :: same(a, b) && same(b, c) ==> same(a, c))
  }

  /** Some earlier condition holds whenever the test does, the atoms being free but for `same`. */
  ghost predicate NeverReached(same: (Node, Node) -> bool, test: Node, ancestors: seq<Node>) {
    forall val: Node -> bool :: Respects(same, val) && Truth(test, val) ==> SomeHolds(ancestors, val)
  }

  /** The valuation that makes true exactly the atoms that are among these. */
  lemma OnlyThese(same: (Node, Node) -> bool, xs: seq<Node>) returns (val: Node -> bool)
    requires IsEquivalence(same)
    ensures Respects(same, val) && (forall x :: x in xs ==> val(x)) && OnlyAmong(same, val, xs)
  {
    val := n => exists x :: x in xs && same(x, n);
    forall a, b | same(a, b) ensures val(a) == val(b) {
      if x :| x in xs && same(x, a) { assert same(x, b); }
      if x :| x in xs && same(x, b) { assert same(b, a) && same(x, a); }
    }
    forall x | x in xs ensures val(x) { assert same(x, x); }
  }

  lemma AtomsHarmless(same: (Node, Node) -> bool, c: Node, a: Node, val: Node -> bool)
    requires IsDnf(c) && IsDnf(a) && Respects(same, val)
    ensures Harmless(same, c, a, val)
  {
    forall x, y | IsTerm(x, c) && IsTerm(y, a) && same(y, x) ensures Truth(y, val) == Truth(x, val) {
      AtomTruth(x, val);
      AtomTruth(y, val);
    }
  }

  lemma OwnTermsSuffice(test: Node, o: Node, val: Node -> bool)
    requires IsDnf(test) && o in SplitByLogical(test, BarBarToken)
    requires forall x :: x in SplitByLogical(o, AmpersandAmpersandToken) ==> val(x)
    ensures Truth(test, val)
  {
    forall x | x in SplitByLogical(o, AmpersandAmpersandToken) ensures Truth(x, val) {
      assert IsTerm(x, test);
      AtomTruth(x, val);
    }
    AndSplit(o, val);
    OrSplit(test, val);
  }

  /** The OR-operand because of which a condition holds. */
  lemma HoldingOperand(a: Node, val: Node -> bool) returns (po: Node)
    requires IsDnf(a) && Truth(a, val)
    ensures po in SplitByLogical(a, BarBarToken) && forall y :: y in SplitByLogical(po, AmpersandAmpersandToken) ==> val(y)
  {
    OrSplit(a, val);
    po :| po in SplitByLogical(a, BarBarToken) && Truth(po, val);
    AndSplit(po, val);
    forall y | y in SplitByLogical(po, AmpersandAmpersandToken) ensures val(y) {
      assert IsTerm(y, a);
      AtomTruth(y, val);
    }
  }

  lemma AtomTruth(n: Node, val: Node -> bool)
    requires IsAtom(n)
    ensures Truth(n, val) == val(n)
  {
  }

  /** What is true under `val` is among `xs`. */
  ghost predicate OnlyAmong(same: (Node, Node) -> bool, val: Node -> bool, xs: seq<Node>) {
    forall n :: val(n) ==> exists x :: x in xs && same(n, x)
  }

  lemma AllAmong(same: (Node, Node) -> bool, po: Node, o: Node, val: Node -> bool)
    requires WellFormed(po) && WellFormed(o) && OnlyAmong(same, val, SplitByLogical(o, AmpersandAmpersandToken))
    requires forall y :: y in SplitByLogical(po, AmpersandAmpersandToken) ==> val(y)
    ensures Within(same, po, o)
  {
  }

  /** An ancestor that holds because of the terms of `o` covers `o`. */
  lemma HoldingCovers(same: (Node, Node) -> bool, a: Node, o: Node, val: Node -> bool)
    requires WellFormed(o) && IsDnf(a) && Truth(a, val) && OnlyAmong(same, val, SplitByLogical(o, AmpersandAmpersandToken))
    ensures CoversOperand(same, a, o)
  {
    var po := HoldingOperand(a, val);
    AllAmong(same, po, o, val);
  }

  lemma Holder(same: (Node, Node) -> bool, test: Node, ancestors: seq<Node>, val: Node -> bool) returns (a: Node)
    requires NeverReached(same, test, ancestors) && Respects(same, val) && Truth(test, val)
    ensures a in ancestors && Truth(a, val)
  {
    assert SomeHolds(ancestors, val);
    a :| a in ancestors && Truth(a, val);
  }

  /** An OR-operand whose own terms are enough to reach the branch is covered. */
  lemma OperandCovered(same: (Node, Node) -> bool, test: Node, o: Node, ancestors: seq<Node>) returns (a: Node)
    requires IsEquivalence(same) && IsDnf(test) && AllDnf(ancestors)
    requires o in SplitByLogical(test, BarBarToken) && NeverReached(same, test, ancestors)
    ensures a in ancestors && IsDnf(a) && CoversOperand(same, a, o)
  {
    var val := OnlyThese(same, SplitByLogical(o, AmpersandAmpersandToken));
    OwnTermsSuffice(test, o, val);
    a := Holder(same, test, ancestors, val);
    HoldingCovers(same, a, o, val);
  }

  /** For tests that are ORs of ANDs of atoms and chains of any length: the branch is never
      reached exactly when every OR-operand of the test is covered by an ancestor. */
  lemma {:induction false} NeverReachedExact(same: (Node, Node) -> bool, test: Node, ancestors: seq<Node>)
    requires IsEquivalence(same) && IsDnf(test) && AllDnf(ancestors)
    ensures NeverReached(same, test, ancestors) <==> Covers(same, test, ancestors)
  {
    if Covers(same, test, ancestors) {
      forall val: Node -> bool | Respects(same, val) && Truth(test, val) ensures SomeHolds(ancestors, val) {
        forall a | a in ancestors ensures Harmless(same, test, a, val) {
          AtomsHarmless(same, test, a, val);
        }
        CoversSound(same, test, ancestors, val);
      }
    } else {
      var o :| o in SplitByLogical(test, BarBarToken) && !exists a :: a in ancestors && CoversOperand(same, a, o);
      if NeverReached(same, test, ancestors) {
        var a := OperandCovered(same, test, o, ancestors);
      }
    }
  }

  /** On such tests the rule reports exactly when the test itself is covered by strings. */
  lemma {:induction false} DnfReportExact(isPrint: char -> bool, test: Node, ancestors: seq<Node>)
    requires IsDnf(test) && AllWellFormed(ancestors)
    ensures IsDead(isPrint, test, ancestors) <==> Covers(SameString, test, ancestors)
  {
    ConditionReport(isPrint, test, ancestors);
    assert Conditions(test)[0] == test;
    forall c | c in Conditions(test) && Covers(SameString, c, ancestors) ensures Covers(SameString, test, ancestors) {
      if c != test {
        SideCovers(test, c, ancestors);
      }
    }
  }

  /** Covering one side of an AND covers the AND. */
  lemma SideCovers(test: Node, side: Node, ancestors: seq<Node>)
    requires IsDnf(test) && AllWellFormed(ancestors) && IsBinary(Unparen(test), AmpersandAmpersandToken)
    requires side in SplitByLogical(test, AmpersandAmpersandToken) && Covers(SameString, side, ancestors)
    ensures Covers(SameString, test, ancestors)
  {
    var u := Unparen(test);
    OneOperand(test);
    assert side in SplitByLogical(u, AmpersandAmpersandToken) && u in SplitByLogical(test, BarBarToken);
    assert IsTerm(side, test);
    AtomDnf(side);
    assert side in [side];
    var a :| a in ancestors && CoversOperand(SameString, a, side);
    SideOperand(u, side, a);
    OneCovered(test, u, a, ancestors);
  }

  /** An AND is one OR-operand. */
  lemma OneOperand(test: Node)
    requires WellFormed(test) && IsBinary(Unparen(test), AmpersandAmpersandToken)
    ensures SplitByLogical(test, BarBarToken) == [Unparen(test)]
    ensures SplitByLogical(Unparen(test), AmpersandAmpersandToken) == SplitByLogical(test, AmpersandAmpersandToken)
  {
  }

  lemma OneCovered(test: Node, u: Node, a: Node, ancestors: seq<Node>)
    requires WellFormed(test) && AllWellFormed(ancestors) && SplitByLogical(test, BarBarToken) == [u]
    requires a in ancestors && WellFormed(u) && CoversOperand(SameString, a, u)
    ensures Covers(SameString, test, ancestors)
  {
  }

  lemma SideOperand(u: Node, side: Node, a: Node)
    requires WellFormed(u) && WellFormed(a) && IsAtom(side) && side in SplitByLogical(u, AmpersandAmpersandToken)
    requires CoversOperand(SameString, a, side)
    ensures CoversOperand(SameString, a, u)
  {
    AtomDnf(side);
    var po :| po in SplitByLogical(a, BarBarToken) && Within(SameString, po, side);
    forall y | y in SplitByLogical(po, AmpersandAmpersandToken)
      ensures exists x :: x in SplitByLogical(u, AmpersandAmpersandToken) && SameString(y, x)
    {
      var x :| x in SplitByLogical(side, AmpersandAmpersandToken) && SameString(y, x);
    }
    assert Within(SameString, po, u);
  }

  lemma {:induction false} SameReflexive(a: Node)
    ensures Same(a, a)
    decreases a, 0
  {
    if IsLogicalNode(a) {
      SameReflexive(a.children[0]);
      SameReflexive(a.children[2]);
    } else {
      AllSameReflexive(a.children);
    }
  }

  lemma {:induction false} AllSameReflexive(as_: seq<Node>)
    ensures AllSame(as_, as_)
    decreases as_, 0
  {
    if as_ != [] {
      SameReflexive(as_[0]);
      AllSameReflexive(as_[1..]);
    }
  }

  lemma {:induction false} SameSymmetric(a: Node, b: Node)
    requires Same(a, b)
    ensures Same(b, a)
    decreases a, 0
  {
    if IsLogicalNode(a) {
      var al, ar, bl, br := a.children[0], a.children[2], b.children[0], b.children[2];
      if Same(al, bl) && Same(ar, br) {
        SameSymmetric(al, bl);
        SameSymmetric(ar, br);
      } else {
        SameSymmetric(al, br);
        SameSymmetric(ar, bl);
      }
    } else {
      AllSameSymmetric(a.children, b.children);
    }
  }

  lemma {:induction false} AllSameSymmetric(as_: seq<Node>, bs: seq<Node>)
    requires AllSame(as_, bs)
    ensures AllSame(bs, as_)
    decreases as_, 0
  {
    if as_ != [] && bs != [] {
      SameSymmetric(as_[0], bs[0]);
      AllSameSymmetric(as_[1..], bs[1..]);
    }
  }

  lemma {:induction false} SameTransitive(a: Node, b: Node, c: Node)
    requires Same(a, b) && Same(b, c)
    ensures Same(a, c)
    decreases a, 1
  {
    if IsLogicalNode(a) {
      LogicalTransitive(a, b, c);
    } else {
      AllSameTransitive(a.children, b.children, c.children);
    }
  }

  lemma {:induction false} LogicalTransitive(a: Node, b: Node, c: Node)
    requires IsLogicalNode(a) && Same(a, b) && Same(b, c)
    ensures Same(a, c)
    decreases a, 0
  {
    var al, ar, bl, br := a.children[0], a.children[2], b.children[0], b.children[2];
    var cl, cr := c.children[0], c.children[2];
    var (x, y) := if Same(al, bl) && Same(ar, br) then (bl, br) else (br, bl);
    if Same(x, cl) && Same(y, cr) {
      SameTransitive(al, x, cl);
      SameTransitive(ar, y, cr);
    } else {
      SameTransitive(al, x, cr);
      SameTransitive(ar, y, cl);
    }
  }

  lemma {:induction false} AllSameTransitive(as_: seq<Node>, bs: seq<Node>, cs: seq<Node>)
    requires AllSame(as_, bs) && AllSame(bs, cs)
    ensures AllSame(as_, cs)
    decreases as_, 0
  {
    if as_ != [] && bs != [] {
      SameTransitive(as_[0], bs[0], cs[0]);
      AllSameTransitive(as_[1..], bs[1..], cs[1..]);
    }
  }

  lemma SameIsEquivalence()
    ensures IsEquivalence(Same)
  {
    forall a ensures Same(a, a) { SameReflexive(a); }
    forall a, b | Same(a, b) ensures Same(b, a) { SameSymmetric(a, b); }
    forall a, b, c | Same(a, b) && Same(b, c) ensures Same(a, c) { SameTransitive(a, b, c); }
  }

  lemma {:induction false} SameForgets(a: Node, b: Node)
    requires Same(a, b)
    ensures SameString(a, b)
    decreases a, 0
  {
    if IsLogicalNode(a) {
      var al, ar, bl, br := a.children[0], a.children[2], b.children[0], b.children[2];
      if Same(al, bl) && Same(ar, br) {
        SameForgets(al, bl);
        SameForgets(ar, br);
      } else {
        SameForgets(al, br);
        SameForgets(ar, bl);
      }
    } else {
      AllSameForget(a.children, b.children);
    }
  }

  lemma {:induction false} AllSameForget(as_: seq<Node>, bs: seq<Node>)
    requires AllSame(as_, bs)
    ensures AllSame(ForgetAll(as_), ForgetAll(bs))
    decreases as_, 0
  {
    if as_ != [] && bs != [] {
      SameForgets(as_[0], bs[0]);
      AllSameForget(as_[1..], bs[1..]);
      DropFirst(Forget(as_[0]), ForgetAll(as_[1..]));
      DropFirst(Forget(bs[0]), ForgetAll(bs[1..]));
    }
  }

  /** On ORs of ANDs of atoms the rule reports every branch that is never reached, and a
      report is right exactly when the covering holds of the terms with all that the strings
      omit. */
  lemma {:induction false} RightReportExact(isPrint: char -> bool, test: Node, ancestors: seq<Node>)
    requires IsDnf(test) && AllDnf(ancestors)
    ensures IsDead(isPrint, test, ancestors) <==> Covers(SameString, test, ancestors)
    ensures NeverReached(Same, test, ancestors) <==> Covers(Same, test, ancestors)
    ensures NeverReached(Same, test, ancestors) ==> IsDead(isPrint, test, ancestors)
  {
    DnfReportExact(isPrint, test, ancestors);
    SameIsEquivalence();
    NeverReachedExact(Same, test, ancestors);
    if Covers(Same, test, ancestors) {
      CoversWeakens(test, ancestors);
    }
  }

  lemma CoversWeakens(test: Node, ancestors: seq<Node>)
    requires WellFormed(test) && AllWellFormed(ancestors) && Covers(Same, test, ancestors)
    ensures Covers(SameString, test, ancestors)
  {
    forall o | o in SplitByLogical(test, BarBarToken) ensures exists a :: a in ancestors && CoversOperand(SameString, a, o) {
      var a :| a in ancestors && CoversOperand(Same, a, o);
      var po :| po in SplitByLogical(a, BarBarToken) && Within(Same, po, o);
      WithinWeakens(po, o);
    }
  }

  lemma WithinWeakens(po: Node, o: Node)
    requires WellFormed(po) && WellFormed(o) && Within(Same, po, o)
    ensures Within(SameString, po, o)
  {
    forall y | y in SplitByLogical(po, AmpersandAmpersandToken)
      ensures exists x :: x in SplitByLogical(o, AmpersandAmpersandToken) && SameString(y, x)
    {
      var x :| x in SplitByLogical(o, AmpersandAmpersandToken) && Same(y, x);
      SameForgets(y, x);
    }
  }

  predicate Identical(a: Node, b: Node) { a == b }

  /** Where the order of `&&` and `||` below an atom may matter too, a report is right exactly
      when the covering terms are identical. */
  lemma {:induction false} LiteralReportExact(test: Node, ancestors: seq<Node>)
    requires IsDnf(test) && AllDnf(ancestors)
    ensures (forall val: Node -> bool :: Truth(test, val) ==> SomeHolds(ancestors, val)) <==> Covers(Identical, test, ancestors)
  {
    NeverReachedExact(Identical, test, ancestors);
    assert forall val: Node -> bool :: Respects(Identical, val);
  }

  // ----- Reports that are wrong -----

  /** One atom after another: reported by their strings, right by all they hold. */
  lemma {:induction false} AtomReportExact(isPrint: char -> bool, test: Node, earlier: Node)
    requires IsAtom(test) && IsAtom(earlier)
    ensures IsDead(isPrint, test, [earlier]) <==> SameString(earlier, test)
    ensures NeverReached(Same, test, [earlier]) <==> Same(earlier, test)
    ensures (forall val: Node -> bool :: Truth(test, val) ==> Truth(earlier, val)) <==> earlier == test
  {
    AtomDnf(test);
    AtomDnf(earlier);
    RightReportExact(isPrint, test, [earlier]);
    LiteralReportExact(test, [earlier]);
    AtomCovers(SameString, test, earlier);
    AtomCovers(Same, test, earlier);
    AtomCovers(Identical, test, earlier);
    assert forall val: Node -> bool :: SomeHolds([earlier], val) <==> Truth(earlier, val);
  }

  lemma AtomDnf(n: Node)
    requires IsAtom(n)
    ensures IsDnf(n) && SplitByLogical(n, BarBarToken) == [n] && SplitByLogical(n, AmpersandAmpersandToken) == [n]
  {
  }

  lemma AtomCovers(same: (Node, Node) -> bool, test: Node, earlier: Node)
    requires IsAtom(test) && IsAtom(earlier)
    ensures Covers(same, test, [earlier]) <==> same(earlier, test)
  {
    AtomDnf(test);
    AtomDnf(earlier);
    assert test in [test] && earlier in [earlier];
    assert same(earlier, test) ==> Within(same, earlier, test);
    assert CoversOperand(same, earlier, test) <==> Within(same, earlier, test);
    assert test in [test];
  }

  /** An else-if on such a leaf below another is reported exactly when they are equal. */
  lemma {:induction false} LeafReportExact(isPrint: char -> bool, kind1: Kind, text1: string, kind2: Kind, text2: string)
    requires HoldsText(kind1) && HoldsText(kind2)
    ensures Canonicalize(isPrint, Leaf(kind1, text1)) == Canonicalize(isPrint, Leaf(kind2, text2)) <==> kind1 == kind2 && text1 == text2
    ensures IsDead(isPrint, Leaf(kind2, text2), [Leaf(kind1, text1)]) <==> kind1 == kind2 && text1 == text2
  {
    var a, b := Leaf(kind1, text1), Leaf(kind2, text2);
    CanonicalizeExact(isPrint, a, b);
    assert Forget(a) == a && Forget(b) == b;
    assert Same(a, b) <==> kind1 == kind2 && text1 == text2;
    AtomReportExact(isPrint, b, a);
  }

  /** `if (!x) … else if (-x) …` is reported, yet the second test can hold alone. */
  lemma OperatorConfusion(isPrint: char -> bool, n: nat, op1: string, op2: string, x: Node)
    requires op1 != op2 && WellFormed(x)
    ensures var test, earlier := Node(OtherKind(n), "", op2, [x]), Node(OtherKind(n), "", op1, [x]);
            IsDead(isPrint, test, [earlier]) && !NeverReached(Same, test, [earlier])
  {
    var test, earlier := Node(OtherKind(n), "", op2, [x]), Node(OtherKind(n), "", op1, [x]);
    assert Forget(test) == Forget(earlier);
    SameReflexive(Forget(test));
    AtomReportExact(isPrint, test, earlier);
  }

  /** A call with one argument that holds one leaf of an unlisted kind, as JSX text is. */
  function OfLeaf(n: nat, m: nat, text: string): (r: Node)
    ensures WellFormed(r)
  {
    var leaf := Node(OtherKind(m), text, "", []);
    assert WellFormed(leaf);
    Node(OtherKind(n), "", "", [leaf])
  }

  /** `if (f(<b>x</b>)) … else if (f(<b>y</b>)) …` is reported: JSX text is not in the strings. */
  lemma LeafTextConfusion(isPrint: char -> bool, n: nat, m: nat, text1: string, text2: string)
    requires text1 != text2
    ensures IsDead(isPrint, OfLeaf(n, m, text2), [OfLeaf(n, m, text1)])
    ensures !NeverReached(Same, OfLeaf(n, m, text2), [OfLeaf(n, m, text1)])
  {
    var test, earlier := OfLeaf(n, m, text2), OfLeaf(n, m, text1);
    assert Forget(test.children[0]) == Forget(earlier.children[0]);
    assert Forget(test) == Forget(earlier);
    SameReflexive(Forget(test));
    AtomReportExact(isPrint, test, earlier);
    assert !Same(earlier.children[0], test.children[0]);
  }

  lemma DeclaresForgets(n: nat, keyword1: string, keyword2: string)
    ensures Forget(Declares(n, keyword1, "0")) == Forget(Declares(n, keyword2, "0"))
  {
    var a, b := Declares(n, keyword1, "0").children[0], Declares(n, keyword2, "0").children[0];
    assert Forget(a) == Forget(b);
    OnlyChild(Declares(n, keyword1, "0"));
    OnlyChild(Declares(n, keyword2, "0"));
  }

  lemma OnlyChild(a: Node)
    requires |a.children| == 1 && !a.kind.BinaryExpression?
    ensures Forget(a) == Node(a.kind, if IsTextLeaf(a.kind) then a.text else "", "", [Forget(a.children[0])])
  {
    assert a.children == [a.children[0]] && a.children[1..] == [];
  }

  /** The keyword of a declaration list is not in the strings either. */
  lemma {:induction false} CallForgets(n: nat, keyword1: string, keyword2: string)
    ensures Forget(CallOf(n, keyword1)) == Forget(CallOf(n, keyword2))
  {
    DeclaresForgets(n, keyword1, keyword2);
    var inner1, inner2 := BlockOf(n, [Declares(n, keyword1, "0")]), BlockOf(n, [Declares(n, keyword2, "0")]);
    OnlyChild(inner1);
    OnlyChild(inner2);
    BodyForgets(n, keyword1, keyword2);
    OnlyChild(CallOf(n, keyword1));
    OnlyChild(CallOf(n, keyword2));
    OnlyChild(CallOf(n, keyword1).children[0]);
    OnlyChild(CallOf(n, keyword2).children[0]);
  }

  lemma BodyForgets(n: nat, keyword1: string, keyword2: string)
    requires Forget(BlockOf(n, [Declares(n, keyword1, "0")])) == Forget(BlockOf(n, [Declares(n, keyword2, "0")]))
    ensures Forget(Body(n, keyword1)) == Forget(Body(n, keyword2))
  {
    var a, b := Body(n, keyword1), Body(n, keyword2);
    assert ForgetAll(a.children) == ForgetAll(b.children);
  }

  lemma CallDiffers(n: nat, keyword1: string, keyword2: string)
    requires keyword1 != keyword2
    ensures !Same(CallOf(n, keyword1), CallOf(n, keyword2))
  {
    var a, b := CallOf(n, keyword1), CallOf(n, keyword2);
    var c, d := a.children[0].children[0], b.children[0].children[0];
    if Same(a, b) {
      FirstSame(a, b);
      FirstSame(a.children[0], b.children[0]);
      SecondSame(c, d);
      FirstSame(c.children[1], d.children[1]);
      FirstSame(c.children[1].children[0], d.children[1].children[0]);
    }
  }

  lemma FirstSame(a: Node, b: Node)
    requires Same(a, b) && !a.kind.BinaryExpression? && a.children != [] && b.children != []
    ensures Same(a.children[0], b.children[0])
  {
  }

  lemma SecondSame(a: Node, b: Node)
    requires Same(a, b) && !a.kind.BinaryExpression? && |a.children| >= 2 && |b.children| >= 2
    ensures Same(a.children[1], b.children[1])
  {
    assert AllSame(a.children[1..], b.children[1..]);
  }

  /** `if ((() => { var x = 1; { var x = 0; } return x; })()) … else if ((() => { … let x = 0; … })()) …`
      is reported, though the first test is 0 and the second is 1. */
  lemma KeywordConfusion(isPrint: char -> bool, n: nat)
    ensures IsDead(isPrint, CallOf(n, "let"), [CallOf(n, "var")]) && !NeverReached(Same, CallOf(n, "let"), [CallOf(n, "var")])
  {
    CallForgets(n, "var", "let");
    SameReflexive(Forget(CallOf(n, "var")));
    AtomReportExact(isPrint, CallOf(n, "let"), CallOf(n, "var"));
    CallDiffers(n, "var", "let");
  }

  function AndOf(x: Node, y: Node): (r: Node)
    ensures WellFormed(x) && WellFormed(y) ==> WellFormed(r)
  {
    var token := Node(AmpersandAmpersandToken, "", "", []);
    assert WellFormed(token);
    Node(BinaryExpression, "", "", [x, token, y])
  }

  /** `f(x && y)`, for an `f` of some kind. */
  function OfAnd(n: nat, x: Node, y: Node): (r: Node)
    ensures WellFormed(x) && WellFormed(y) ==> WellFormed(r)
  {
    Node(OtherKind(n), "", "", [AndOf(x, y)])
  }

  /** `if (f(x && y)) … else if (f(y && x)) …` is reported too, because the sides are also
      swapped below an atom, where the value and not only its truth may matter. */
  lemma SwapConfusion(isPrint: char -> bool, n: nat, x: Node, y: Node)
    requires WellFormed(x) && WellFormed(y) && x != y
    ensures IsDead(isPrint, OfAnd(n, y, x), [OfAnd(n, x, y)])
    ensures !forall val: Node -> bool :: Truth(OfAnd(n, y, x), val) ==> Truth(OfAnd(n, x, y), val)
  {
    var test, earlier := OfAnd(n, y, x), OfAnd(n, x, y);
    assert test.children[0].children[0] == y && earlier.children[0].children[0] == x;
    SwappedSame(n, x, y);
    SameForgets(earlier, test);
    AtomReportExact(isPrint, test, earlier);
  }

  lemma SwappedSame(n: nat, x: Node, y: Node)
    ensures Same(OfAnd(n, x, y), OfAnd(n, y, x))
  {
    SameReflexive(x);
    SameReflexive(y);
    assert Same(AndOf(x, y), AndOf(y, x));
    assert AllSame([AndOf(x, y)], [AndOf(y, x)]) by {
      assert [AndOf(y, x)][1..] == [] && [AndOf(x, y)][1..] == [];
    }
  }
}
