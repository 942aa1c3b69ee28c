/** The ways to spell a string literal in Rust (the Rust Reference, "String literals"), what they
    mean, and when cmd/oxlint-fixtures/extract.go reads them so.  Line ends are those of a
    source file as Rust sees it: a carriage return before a newline is already gone. */
module RustSpellings {
  import opened Bytes
  import opened RustStrings

  const UNDERSCORE: Byte := 95

  /** A byte as it is, `\n` and its like, `\x41`, `\u{1F600}`, or a line continuation: a
      backslash, the end of the line, and all the white space that follows. */
  datatype Spelled = Raw(b: Byte) | Letter(e: Byte) | Hexed(high: Byte, low: Byte) | Braced(digits: Text) | Continued(blank: Text)

  predicate IsHexDigit(b: Byte) { 48 <= b <= 57 || 97 <= b <= 102 || 65 <= b <= 70 }

  predicate IsBlank(b: Byte) { b == SPACE || b == TAB || b == NEWLINE }

  predicate IsSpelling(u: Spelled) {
    match u
    case Raw(b) => b != QUOTE && b != BACKSLASH && b != RETURN
    case Letter(e) => e == LOWER_N || e == LOWER_R || e == LOWER_T || e == DIGIT_0 || e == BACKSLASH || e == QUOTE || e == APOSTROPHE
    case Hexed(high, low) => IsHexDigit(high) && IsHexDigit(low) && HexVal(high as int) < 8
    case Braced(digits) =>
      digits != [] && digits[0] != UNDERSCORE && AllDigits(digits) && Count(digits) <= 6 && IsScalar(Scalar(digits))
    case Continued(blank) => blank != [] && blank[0] == NEWLINE && forall b :: b in blank ==> IsBlank(b)
  }

  predicate AllDigits(t: Text) { forall b :: b in t ==> IsHexDigit(b) || b == UNDERSCORE }

  /** How many of them are digits. */
  function Count(t: Text): nat {
    if t == [] then 0 else Count(t[..|t| - 1]) + if t[|t| - 1] == UNDERSCORE then 0 else 1
  }

  /** Underscores only separate digits. */
  function Scalar(t: Text): nat {
    if t == [] then 0
    else
      var front, last := Scalar(t[..|t| - 1]), t[|t| - 1];
      if last == UNDERSCORE then front else front * 16 + HexVal(last as int)
  }

  /** What an escape of one letter stands for. */
  function Stands(e: Byte): Byte {
    match e
    case 110 => 10                               // n
    case 114 => 13                               // r
    case 116 => 9                                // t
    case 48 => 0                                 // 0
    case _ => e                                  // a backslash or a quote
  }

  function Meaning(u: Spelled): Text {
    match u
    case Raw(b) => [b]
    case Letter(e) => [Stands(e)]
    case Hexed(high, low) => Utf8(HexVal(high as int) * 16 + HexVal(low as int))
    case Braced(digits) => Utf8(Scalar(digits))
    case Continued(_) => []
  }

  function Spell(u: Spelled): (t: Text)
    ensures t != []
  {
    match u
    case Raw(b) => [b]
    case Letter(e) => [BACKSLASH, e]
    case Hexed(high, low) => [BACKSLASH, LOWER_X, high, low]
    case Braced(digits) => [BACKSLASH, LOWER_U, OPEN_BRACE] + (digits + [CLOSE_BRACE])
    case Continued(blank) => [BACKSLASH] + blank
  }

  /** Spellings, a continuation taking all the white space there is. */
  predicate AllSpellings(us: seq<Spelled>) {
    (forall u :: u in us ==> IsSpelling(u)) &&
    forall k :: 0 <= k < |us| - 1 && us[k].Continued? && us[k + 1].Raw? ==> !IsBlank(us[k + 1].b)
  }

  function SpellAll(us: seq<Spelled>): Text {
    if us == [] then [] else Spell(us[0]) + SpellAll(us[1..])
  }

  function MeaningOfAll(us: seq<Spelled>): Text {
    if us == [] then [] else Meaning(us[0]) + MeaningOfAll(us[1..])
  }

  // ----- What the code reads -----

  /** It counts an underscore as a digit 0, and knows no continuation. */
  function ReadOf(u: Spelled): Text {
    match u
    case Braced(digits) => Utf8(Wrap32(Misvalued(digits)))
    case Continued(blank) => blank
    case _ => Meaning(u)
  }

  function Misvalued(t: Text): nat {
    if t == [] then 0 else Misvalued(t[..|t| - 1]) * 16 + HexVal(t[|t| - 1] as int)
  }

  function ReadOfAll(us: seq<Spelled>): Text {
    if us == [] then [] else ReadOf(us[0]) + ReadOfAll(us[1..])
  }

  predicate IsAscii(t: Text) { forall b :: b in t ==> b < 128 }

  /** Go reads ASCII byte by byte. */
  ghost predicate ReadsAscii(runes: Runes) { forall t :: IsAscii(t) ==> runes.decode(t) == Codes(t) }

  function Codes(t: Text): (r: seq<int>)
    ensures |r| == |t|
  {
    if t == [] then [] else Codes(t[..|t| - 1]) + [t[|t| - 1] as int]
  }

  lemma {:induction false} HexRuneAppend(digits: seq<int>, last: int, r: int)
    ensures HexRune(digits + [last], r) == Wrap32(HexRune(digits, r) * 16 + HexVal(last % 256))
    decreases |digits|
  {
    if digits == [] {
      assert [] + [last] == [last];
      assert HexRune([last][1..], Wrap32(r * 16 + HexVal(last % 256))) == Wrap32(r * 16 + HexVal(last % 256));
    } else {
      assert (digits + [last])[1..] == digits[1..] + [last];
      HexRuneAppend(digits[1..], last, Wrap32(r * 16 + HexVal(digits[0] % 256)));
    }
  }

  lemma WrapInside(x: int, v: int)
    ensures Wrap32(Wrap32(x) * 16 + v) == Wrap32(x * 16 + v)
  {
    var y := (x + 0x8000_0000) / 0x1_0000_0000;
    assert Wrap32(x) == x - y * 0x1_0000_0000;
    WrapTurns(x * 16 + v, -16 * y);
  }

  lemma WrapTurns(x: int, turns: int)
    ensures Wrap32(x + turns * 0x1_0000_0000) == Wrap32(x)
  {
    var z := x + 0x8000_0000;
    assert (z + turns * 0x1_0000_0000) % 0x1_0000_0000 == z % 0x1_0000_0000;
  }

  /** The rune read is the value with every underscore a zero, in 32 bits. */
  lemma {:induction false} RuneRead(t: Text)
    ensures HexRune(Codes(t), 0) == Wrap32(Misvalued(t))
  {
    if t != [] {
      var front, last := t[..|t| - 1], t[|t| - 1];
      RuneRead(front);
      HexRuneAppend(Codes(front), last as int, 0);
      WrapInside(Misvalued(front), HexVal(last as int));
    }
  }

  lemma BracedReads(runes: Runes, src: Text, i: nat, digits: Text)
    requires ReadsAscii(runes) && AllDigits(digits) && At(src, i, Spell(Braced(digits)))
    ensures Unit(runes, src, i) == Ok(ReadOf(Braced(digits)), i + |Spell(Braced(digits))|)
  {
    var open := [BACKSLASH, LOWER_U, OPEN_BRACE];
    AtSplits(src, i, open, digits + [CLOSE_BRACE]);
    AtIndex(src, i, open, 0);
    AtIndex(src, i, open, 1);
    AtIndex(src, i, open, 2);
    FindSkips(src, i + 3, digits, CLOSE_BRACE);
    AtSplits(src, i + 3, digits, [CLOSE_BRACE]);
    AtSlice(src, i + 3, digits);
    assert runes.decode(digits) == Codes(digits);
    RuneRead(digits);
  }

  lemma UnitThen(runes: Runes, src: Text, i: nat, v: Text, n: nat, w: Text, e: nat)
    requires i < |src| && src[i] != QUOTE && n <= |src|
    requires Unit(runes, src, i) == Ok(v, n) && Inside(runes, src, n) == Ok(w, e)
    ensures Inside(runes, src, i) == Ok(v + w, e)
  {
  }

  predicate BlankFrom(src: Text, i: nat, n: nat)
    requires i <= n <= |src|
    decreases n - i
  {
    i == n || (IsBlank(src[i]) && BlankFrom(src, i + 1, n))
  }

  /** White space up to `n` stands for itself. */
  lemma {:induction false} BlanksThen(runes: Runes, src: Text, i: nat, n: nat, w: Text, e: nat)
    requires i <= n <= |src| && BlankFrom(src, i, n) && Inside(runes, src, n) == Ok(w, e)
    ensures Inside(runes, src, i) == Ok(src[i..n] + w, e)
    decreases n - i
  {
    if i == n {
      assert src[i..n] + w == w;
    } else {
      BlanksThen(runes, src, i + 1, n, w, e);
      UnitThen(runes, src, i, [src[i]], i + 1, src[i + 1..n] + w, e);
      FirstOf(src, i, n, w);
    }
  }

  lemma FirstOf(src: Text, i: nat, n: nat, w: Text)
    requires i < n <= |src|
    ensures [src[i]] + (src[i + 1..n] + w) == src[i..n] + w
  {
    assert src[i..n] == [src[i]] + src[i + 1..n];
  }

  /** After a continuation's backslash stands its white space. */
  lemma ContinuationAt(src: Text, i: nat, blank: Text)
    requires IsSpelling(Continued(blank)) && At(src, i, [BACKSLASH] + blank)
    ensures var n := i + 1 + |blank|;
            i + 1 < n <= |src| && src[i] == BACKSLASH && src[i + 1] == NEWLINE && src[i + 1..n] == blank && BlankFrom(src, i + 1, n)
  {
    AtSplits(src, i, [BACKSLASH], blank);
    AtIndex(src, i, [BACKSLASH], 0);
    AtIndex(src, i + 1, blank, 0);
    AtSlice(src, i + 1, blank);
    BlankAt(src, i + 1, blank);
  }

  lemma {:induction false} BlankAt(src: Text, i: nat, blank: Text)
    requires At(src, i, blank) && forall b :: b in blank ==> IsBlank(b)
    ensures BlankFrom(src, i, i + |blank|)
    decreases |blank|
  {
    if blank != [] {
      assert IsBlank(blank[0]);
      BlankAt(src, i + 1, blank[1..]);
    }
  }

  lemma ContinuationThen(runes: Runes, src: Text, i: nat, n: nat, w: Text, e: nat)
    requires i + 1 < n <= |src| && src[i] == BACKSLASH && src[i + 1] == NEWLINE
    requires BlankFrom(src, i + 1, n) && Inside(runes, src, n) == Ok(w, e)
    ensures Inside(runes, src, i) == Ok(src[i + 1..n] + w, e)
  {
    BlanksThen(runes, src, i + 2, n, w, e);
    UnitThen(runes, src, i, [NEWLINE], i + 2, src[i + 2..n] + w, e);
    FirstOf(src, i + 1, n, w);
  }

  lemma UnitReads(runes: Runes, src: Text, i: nat, u: Spelled)
    requires ReadsAscii(runes) && IsSpelling(u) && !u.Continued? && At(src, i, Spell(u))
    ensures i < |src| && src[i] != QUOTE && Unit(runes, src, i) == Ok(ReadOf(u), i + |Spell(u)|)
  {
    AtIndex(src, i, Spell(u), 0);
    match u
    case Raw(b) =>
    case Letter(e) => AtIndex(src, i, Spell(u), 1);
    case Hexed(_, _) =>
      AtIndex(src, i, Spell(u), 1);
      AtIndex(src, i, Spell(u), 2);
      AtIndex(src, i, Spell(u), 3);
    case Braced(digits) => BracedReads(runes, src, i, digits);
  }

  /** From `i` the code comes to `n`, having read `v`, if it comes to an end at all. */
  predicate Steps(runes: Runes, src: Text, i: nat, v: Text, n: nat) {
    i < n <= |src| && (Inside(runes, src, n).Ok? ==> Inside(runes, src, i) == Prepend(v, Inside(runes, src, n)))
  }

  lemma ContinuationSteps(runes: Runes, src: Text, i: nat, blank: Text)
    requires IsSpelling(Continued(blank)) && At(src, i, [BACKSLASH] + blank)
    ensures Steps(runes, src, i, blank, i + 1 + |blank|)
  {
    ContinuationAt(src, i, blank);
    var n := i + 1 + |blank|;
    var r := Inside(runes, src, n);
    if r.Ok? {
      ContinuationThen(runes, src, i, n, r.value, r.end);
    }
  }

  lemma UnitSteps(runes: Runes, src: Text, i: nat, u: Spelled)
    requires ReadsAscii(runes) && IsSpelling(u) && !u.Continued? && At(src, i, Spell(u))
    ensures Steps(runes, src, i, ReadOf(u), i + |Spell(u)|)
  {
    UnitReads(runes, src, i, u);
    var n := i + |Spell(u)|;
    var r := Inside(runes, src, n);
    if r.Ok? {
      UnitThen(runes, src, i, ReadOf(u), n, r.value, r.end);
    }
  }

  lemma SpellingSteps(runes: Runes, src: Text, i: nat, u: Spelled)
    requires ReadsAscii(runes) && IsSpelling(u) && At(src, i, Spell(u))
    ensures Steps(runes, src, i, ReadOf(u), i + |Spell(u)|)
  {
    if u.Continued? {
      ContinuationSteps(runes, src, i, u.blank);
    } else {
      UnitSteps(runes, src, i, u);
    }
  }

  predicate EachSpelled(us: seq<Spelled>) { forall u :: u in us ==> IsSpelling(u) }

  /** The code steps from unit to unit, to a closing quote. */
  predicate Walks(runes: Runes, src: Text, us: seq<Spelled>, starts: seq<nat>) {
    |starts| == |us| + 1 && starts[|us|] < |src| && src[starts[|us|]] == QUOTE &&
    forall k {:trigger us[k]} :: 0 <= k < |us| ==> Steps(runes, src, starts[k], ReadOf(us[k]), starts[k + 1])
  }

  /** The rest of a literal, with its closing quote. */
  function Closed(us: seq<Spelled>): Text {
    if us == [] then [QUOTE] else Spell(us[0]) + Closed(us[1..])
  }

  lemma {:induction false} ClosedIs(us: seq<Spelled>)
    ensures Closed(us) == SpellAll(us) + [QUOTE]
  {
    if us != [] {
      ClosedIs(us[1..]);
      assert Spell(us[0]) + (SpellAll(us[1..]) + [QUOTE]) == SpellAll(us) + [QUOTE];
    }
  }

  lemma FirstSteps(runes: Runes, src: Text, i: nat, u: Spelled, rest: Text)
    requires ReadsAscii(runes) && IsSpelling(u) && At(src, i, Spell(u) + rest)
    ensures Steps(runes, src, i, ReadOf(u), i + |Spell(u)|) && At(src, i + |Spell(u)|, rest)
  {
    AtSplits(src, i, Spell(u), rest);
    SpellingSteps(runes, src, i, u);
  }

  lemma OneStep(runes: Runes, src: Text, i: nat, us: seq<Spelled>) returns (n: nat)
    requires us != [] && ReadsAscii(runes) && EachSpelled(us) && At(src, i, Closed(us))
    ensures Steps(runes, src, i, ReadOf(us[0]), n) && At(src, n, Closed(us[1..])) && EachSpelled(us[1..])
    ensures i + |Closed(us)| == n + |Closed(us[1..])|
  {
    n := i + |Spell(us[0])|;
    FirstSteps(runes, src, i, us[0], Closed(us[1..]));
  }

  lemma {:induction false} SpellingWalks(runes: Runes, src: Text, i: nat, us: seq<Spelled>) returns (starts: seq<nat>)
    requires ReadsAscii(runes) && EachSpelled(us) && At(src, i, Closed(us))
    ensures Walks(runes, src, us, starts) && starts[0] == i && starts[|us|] + 1 == i + |Closed(us)|
    decreases |us|
  {
    if us == [] {
      starts := [i];
    } else {
      var n := OneStep(runes, src, i, us);
      var others := SpellingWalks(runes, src, n, us[1..]);
      starts := [i] + others;
      WalksOn(runes, src, us, i, others);
    }
  }

  lemma WalksOn(runes: Runes, src: Text, us: seq<Spelled>, i: nat, others: seq<nat>)
    requires us != [] && Walks(runes, src, us[1..], others) && Steps(runes, src, i, ReadOf(us[0]), others[0])
    ensures Walks(runes, src, us, [i] + others)
  {
    var starts := [i] + others;
    forall k {:trigger us[k]} | 0 <= k < |us| ensures Steps(runes, src, starts[k], ReadOf(us[k]), starts[k + 1]) {
      if k > 0 {
        assert us[1..][k - 1] == us[k];
      }
    }
  }

  /** What is read from unit `k` on. */
  function ReadFrom(us: seq<Spelled>, k: nat): Text
    requires k <= |us|
    decreases |us| - k
  {
    if k == |us| then [] else ReadOf(us[k]) + ReadFrom(us, k + 1)
  }

  lemma {:induction false} ReadFromIs(us: seq<Spelled>, k: nat)
    requires k <= |us|
    ensures ReadFrom(us, k) == ReadOfAll(us[k..])
    decreases |us| - k
  {
    if k < |us| {
      ReadFromIs(us, k + 1);
      assert us[k..][0] == us[k] && us[k..][1..] == us[k + 1..];
    }
  }

  lemma {:induction false} WalkReads(runes: Runes, src: Text, us: seq<Spelled>, starts: seq<nat>, k: nat)
    requires Walks(runes, src, us, starts) && k <= |us|
    ensures starts[k] <= |src| && Inside(runes, src, starts[k]) == Ok(ReadFrom(us, k), starts[|us|] + 1)
    decreases |us| - k
  {
    if k < |us| {
      WalkReads(runes, src, us, starts, k + 1);
      assert Steps(runes, src, starts[k], ReadOf(us[k]), starts[k + 1]);
    }
  }

  /** Every spelling of a literal is read up to the closing quote, as this. */
  lemma {:induction false} SpellingReads(runes: Runes, src: Text, i: nat, us: seq<Spelled>)
    requires ReadsAscii(runes) && EachSpelled(us) && At(src, i, SpellAll(us) + [QUOTE])
    ensures Inside(runes, src, i) == Ok(ReadOfAll(us), i + |SpellAll(us)| + 1)
  {
    ClosedIs(us);
    var starts := SpellingWalks(runes, src, i, us);
    WalkReads(runes, src, us, starts, 0);
    ReadFromIs(us, 0);
    assert us[0..] == us;
  }

  // ----- Underscores -----

  /** An underscore stands behind a digit that is not 0. */
  predicate SeparatesNonzero(t: Text) {
    t != [] && (SeparatesNonzero(t[..|t| - 1]) || (t[|t| - 1] == UNDERSCORE && Scalar(t[..|t| - 1]) != 0))
  }

  function Pow16(n: nat): (p: nat)
    ensures p >= 1
  {
    if n == 0 then 1 else 16 * Pow16(n - 1)
  }

  /** Without one, both values are the same. */
  lemma {:induction false} SameValue(t: Text)
    requires AllDigits(t) && !SeparatesNonzero(t)
    ensures Misvalued(t) == Scalar(t) < Pow16(Count(t))
  {
    if t != [] {
      var front, last := t[..|t| - 1], t[|t| - 1];
      SameValue(front);
    }
  }

  /** The value, moved left, comes out the same on the last places only if it is 0. */
  lemma {:induction false} ShiftedIsZero(t: Text, k: nat, m: nat, turns: int)
    requires AllDigits(t) && k >= 1 && Count(t) <= m && Scalar(t) == Pow16(k) * Misvalued(t) + turns * Pow16(m)
    ensures Scalar(t) == 0
    decreases |t|
  {
    if t != [] {
      var front, last := t[..|t| - 1], t[|t| - 1];
      if last == UNDERSCORE {
        assert Pow16(k) * (Misvalued(front) * 16) == Pow16(k + 1) * Misvalued(front);
        ShiftedIsZero(front, k + 1, m, turns);
      } else {
        var v := HexVal(last as int);
        LastIsZero(Scalar(front), v, Pow16(k - 1), Misvalued(front), turns, Pow16(m - 1));
        ShiftedIsZero(front, k, m - 1, turns);
      }
    }
  }

  lemma LastIsZero(s: nat, v: nat, p: nat, x: nat, turns: int, q: nat)
    requires v < 16 && s * 16 + v == 16 * p * (x * 16 + v) + turns * (16 * q)
    ensures v == 0 && s == 16 * p * x + turns * q
  {
    var rest := p * (x * 16 + v) + turns * q - s;
    assert v == 16 * rest;
    assert rest == 0;
    assert p * (x * 16) == 16 * p * x;
  }

  /** So the last places agree only without one. */
  lemma {:induction false} AgreeOnlySo(t: Text, m: nat, turns: int)
    requires AllDigits(t) && Count(t) <= m && Scalar(t) == Misvalued(t) + turns * Pow16(m)
    ensures !SeparatesNonzero(t)
    decreases |t|
  {
    if t != [] {
      var front, last := t[..|t| - 1], t[|t| - 1];
      if last == UNDERSCORE {
        assert Pow16(1) == 16 * Pow16(0);
        ShiftedIsZero(front, 1, m, turns);
        ZeroSeparates(front);
      } else {
        DropDigit(Scalar(front), HexVal(last as int), Misvalued(front), turns, Pow16(m - 1));
        AgreeOnlySo(front, m - 1, turns);
      }
    }
  }

  lemma DropDigit(s: int, v: int, x: int, turns: int, q: int)
    requires s * 16 + v == x * 16 + v + turns * (16 * q)
    ensures s == x + turns * q
  {
    assert turns * (16 * q) == 16 * (turns * q);
  }

  lemma {:induction false} ZeroSeparates(t: Text)
    requires AllDigits(t) && Scalar(t) == 0
    ensures !SeparatesNonzero(t)
  {
    if t != [] {
      ZeroSeparates(t[..|t| - 1]);
    }
  }

  /** The rune read is the scalar exactly when no underscore stands behind a digit other than 0. */
  lemma {:induction false} RuneExact(digits: Text)
    requires IsSpelling(Braced(digits))
    ensures Wrap32(Misvalued(digits)) == Scalar(digits) <==> !SeparatesNonzero(digits)
  {
    assert Pow16(8) == 0x1_0000_0000 by {
      assert Pow16(4) == 16 * (16 * (16 * (16 * Pow16(0))));
      assert Pow16(8) == 16 * (16 * (16 * (16 * Pow16(4))));
    }
    if Wrap32(Misvalued(digits)) == Scalar(digits) {
      var turns := -((Misvalued(digits) + 0x8000_0000) / 0x1_0000_0000);
      assert Scalar(digits) == Misvalued(digits) + turns * 0x1_0000_0000;
      AgreeOnlySo(digits, 8, turns);
    }
    if !SeparatesNonzero(digits) {
      SameValue(digits);
    }
  }

  /** Then the braces are read right, and only then, but that what is no scalar reads as U+FFFD. */
  predicate IsMisread(digits: Text) {
    SeparatesNonzero(digits) && !(Scalar(digits) == 0xFFFD && !IsScalar(Wrap32(Misvalued(digits))))
  }

  lemma Utf8Injective(a: int, b: int)
    requires IsScalar(a) && IsScalar(b) && Utf8(a) == Utf8(b)
    ensures a == b
  {
    var t := Utf8(a);
    assert |Utf8(b)| == |t|;
    Utf8Value(a);
    Utf8Value(b);
  }

  /** The value of the bytes. */
  function Utf8Decoded(t: Text): int {
    if |t| == 1 then t[0] as int
    else if |t| == 2 then (t[0] as int - 0xC0) * 64 + (t[1] as int - 0x80)
    else if |t| == 3 then (t[0] as int - 0xE0) * 4096 + (t[1] as int - 0x80) * 64 + (t[2] as int - 0x80)
    else if |t| == 4 then
      (t[0] as int - 0xF0) * 262144 + (t[1] as int - 0x80) * 4096 + (t[2] as int - 0x80) * 64 + (t[3] as int - 0x80)
    else 0
  }

  lemma Utf8Value(r: int)
    requires IsScalar(r)
    ensures Utf8Decoded(Utf8(r)) == r
  {
    var q := r / 64;
    assert r == q * 64 + r % 64;
    var p := q / 64;
    assert q == p * 64 + q % 64 && p == r / 4096;
    assert p == p / 64 * 64 + p % 64 && p / 64 == r / 262144;
  }

  lemma {:induction false} BracedExact(digits: Text)
    requires IsSpelling(Braced(digits))
    ensures ReadOf(Braced(digits)) == Meaning(Braced(digits)) <==> !IsMisread(digits)
  {
    RuneExact(digits);
    var r, v := Wrap32(Misvalued(digits)), Scalar(digits);
    assert Utf8(0xFFFD) == [0xEF, 0xBF, 0xBD];
    if Utf8(r) == Utf8(v) {
      Utf8Injective(if IsScalar(r) then r else 0xFFFD, v);
    }
  }

  // ----- Whole literals -----

  /** How many characters begin here. */
  function Leads(t: Text): nat {
    if t == [] then 0 else (if 0x80 <= t[0] < 0xC0 then 0 else 1) + Leads(t[1..])
  }

  lemma {:induction false} LeadsAppend(a: Text, b: Text)
    ensures Leads(a + b) == Leads(a) + Leads(b)
  {
    if a == [] {
      assert a + b == b;
    } else {
      assert (a + b)[1..] == a[1..] + b;
      LeadsAppend(a[1..], b);
    }
  }

  lemma Utf8Leads(r: int)
    ensures Leads(Utf8(r)) == 1
  {
    var t := Utf8(r);
    forall b: Byte | b in t[1..] ensures 0x80 <= b < 0xC0 {
    }
    TailLeads(t[1..]);
  }

  lemma {:induction false} TailLeads(t: Text)
    requires forall b :: b in t ==> 0x80 <= b < 0xC0
    ensures Leads(t) == 0
  {
    if t != [] {
      assert t[0] in t;
      forall b: Byte | b in t[1..] ensures 0x80 <= b < 0xC0 {
        assert b in t;
      }
      TailLeads(t[1..]);
    }
  }

  lemma {:induction false} BlankLeads(blank: Text)
    requires forall b :: b in blank ==> IsBlank(b)
    ensures Leads(blank) == |blank|
  {
    if blank != [] {
      assert IsBlank(blank[0]);
      BlankLeads(blank[1..]);
    }
  }

  /** Nothing is read as fewer characters than it means, and a continuation as more. */
  lemma {:induction false} ReadsNoFewer(us: seq<Spelled>)
    requires forall u :: u in us ==> IsSpelling(u)
    ensures Leads(ReadOfAll(us)) >= Leads(MeaningOfAll(us))
    ensures (exists u :: u in us && u.Continued?) ==> Leads(ReadOfAll(us)) > Leads(MeaningOfAll(us))
  {
    if us != [] {
      var u := us[0];
      assert IsSpelling(u);
      ReadsNoFewer(us[1..]);
      LeadsAppend(ReadOf(u), ReadOfAll(us[1..]));
      LeadsAppend(Meaning(u), MeaningOfAll(us[1..]));
      match u
      case Braced(digits) =>
        Utf8Leads(Wrap32(Misvalued(digits)));
        Utf8Leads(Scalar(digits));
      case Continued(blank) => BlankLeads(blank);
      case _ =>
    }
  }

  /** The first byte says how many there are. */
  lemma Utf8Splits(a: int, x: Text, b: int, y: Text)
    requires Utf8(a) + x == Utf8(b) + y
    ensures Utf8(a) == Utf8(b) && x == y
  {
    var s, t := Utf8(a), Utf8(b);
    assert (s + x)[0] == s[0] && (t + y)[0] == t[0];
    assert |s| == |t|;
    assert (s + x)[..|s|] == s && (t + y)[..|t|] == t && (s + x)[|s|..] == x && (t + y)[|t|..] == y;
  }

  predicate IsMistaken(u: Spelled) { u.Continued? || (u.Braced? && IsMisread(u.digits)) }

  lemma {:induction false} OneByOne(us: seq<Spelled>)
    requires (forall u :: u in us ==> IsSpelling(u) && !u.Continued?) && ReadOfAll(us) == MeaningOfAll(us)
    ensures forall u :: u in us ==> !IsMistaken(u)
  {
    if us != [] {
      var u, x, y := us[0], ReadOfAll(us[1..]), MeaningOfAll(us[1..]);
      if u.Braced? {
        Utf8Splits(Wrap32(Misvalued(u.digits)), x, Scalar(u.digits), y);
        BracedExact(u.digits);
      } else {
        assert x == (ReadOf(u) + x)[|ReadOf(u)|..] == (Meaning(u) + y)[|Meaning(u)|..] == y;
      }
      OneByOne(us[1..]);
    }
  }

  lemma {:induction false} RightReads(us: seq<Spelled>)
    requires forall u :: u in us ==> IsSpelling(u) && !IsMistaken(u)
    ensures ReadOfAll(us) == MeaningOfAll(us)
  {
    if us != [] {
      assert IsSpelling(us[0]) && !IsMistaken(us[0]);
      if us[0].Braced? {
        BracedExact(us[0].digits);
      }
      RightReads(us[1..]);
    }
  }

  /** A literal is read as what it means exactly when it holds no continuation and no misread
      underscore. */
  lemma {:induction false} ReadsRightExact(us: seq<Spelled>)
    requires AllSpellings(us)
    ensures ReadOfAll(us) == MeaningOfAll(us) <==> forall u :: u in us ==> !IsMistaken(u)
  {
    if ReadOfAll(us) == MeaningOfAll(us) {
      ReadsNoFewer(us);
      OneByOne(us);
    }
    if forall u :: u in us ==> !IsMistaken(u) {
      RightReads(us);
    }
  }

  /** `"a\` at the end of a line, and ` b"` on the next, mean `ab`. */
  lemma ContinuationIsMisread()
    ensures var us := [Raw(97), Continued([NEWLINE, SPACE]), Raw(98)];
            AllSpellings(us) && MeaningOfAll(us) == [97, 98] && ReadOfAll(us) == [97, NEWLINE, SPACE, 98]
  {
    var a, c, b := Raw(97), Continued([NEWLINE, SPACE]), Raw(98);
    ThreeUnits(a, c, b);
    assert IsSpelling(a) && IsSpelling(c) && IsSpelling(b);
    assert MeaningOfAll([a, c, b]) == [97] + ([] + [98]) && ReadOfAll([a, c, b]) == [97] + ([NEWLINE, SPACE] + [98]);
  }

  lemma ThreeUnits(a: Spelled, b: Spelled, c: Spelled)
    ensures MeaningOfAll([a, b, c]) == Meaning(a) + (Meaning(b) + Meaning(c))
    ensures ReadOfAll([a, b, c]) == ReadOf(a) + (ReadOf(b) + ReadOf(c))
  {
    assert [a, b, c][1..] == [b, c] && [b, c][1..] == [c] && [c][1..] == [];
    assert MeaningOfAll([c]) == Meaning(c) && ReadOfAll([c]) == ReadOf(c);
    assert MeaningOfAll([b, c]) == Meaning(b) + Meaning(c) && ReadOfAll([b, c]) == ReadOf(b) + ReadOf(c);
  }

  /** `\u{1_F600}` is U+1F600, and read as U+10F600. */
  lemma UnderscoreIsMisread()
    ensures var digits := [49, UNDERSCORE, 70, 54, 48, 48];
            IsSpelling(Braced(digits)) && Scalar(digits) == 0x1F600 && Wrap32(Misvalued(digits)) == 0x10F600
  {
    var t1, t2, t3, t4, t5 := [49], [49, UNDERSCORE], [49, UNDERSCORE, 70], [49, UNDERSCORE, 70, 54], [49, UNDERSCORE, 70, 54, 48];
    var digits := [49, UNDERSCORE, 70, 54, 48, 48];
    assert digits[..5] == t5 && t5[..4] == t4 && t4[..3] == t3 && t3[..2] == t2 && t2[..1] == t1 && t1[..0] == [];
    assert Scalar(t1) == 1 && Scalar(t2) == 1 && Scalar(t3) == 0x1F && Scalar(t4) == 0x1F6 && Scalar(t5) == 0x1F60;
    assert Misvalued(t1) == 1 && Misvalued(t2) == 0x10 && Misvalued(t3) == 0x10F && Misvalued(t4) == 0x10F6 && Misvalued(t5) == 0x10F60;
    assert Count(t1) == 1 && Count(t2) == 1 && Count(t3) == 2 && Count(t4) == 3 && Count(t5) == 4;
  }

  // ----- Escaping -----

  /** The usual escapes for what cannot stand in a literal as it is. */
  function EscapeByte(b: Byte): (u: Spelled)
    ensures IsSpelling(u) && !IsMistaken(u)
  {
    if b == QUOTE || b == BACKSLASH then Letter(b)
    else if b == NEWLINE then Letter(LOWER_N)
    else if b == RETURN then Letter(LOWER_R)
    else Raw(b)
  }

  function Escape(content: Text): (us: seq<Spelled>)
    ensures forall u :: u in us ==> IsSpelling(u) && !IsMistaken(u)
  {
    if content == [] then [] else [EscapeByte(content[0])] + Escape(content[1..])
  }

  lemma {:induction false} EscapeMeans(content: Text)
    ensures MeaningOfAll(Escape(content)) == content
  {
    if content != [] {
      EscapeMeans(content[1..]);
      assert Meaning(EscapeByte(content[0])) == [content[0]];
    }
  }

  lemma LiteralAt(before: Text, inside: Text, after: Text)
    ensures var src := before + ([QUOTE] + inside + [QUOTE]) + after;
            |before| < |src| && src[|before|] == QUOTE && At(src, |before| + 1, inside + [QUOTE])
  {
    var literal := [QUOTE] + inside + [QUOTE];
    var src := before + literal + after;
    MiddleAt(before, literal, after);
    assert literal == [QUOTE] + (inside + [QUOTE]);
    AtSplits(src, |before|, [QUOTE], inside + [QUOTE]);
    AtIndex(src, |before|, [QUOTE], 0);
  }

  lemma EscapeSpells(content: Text)
    ensures AllSpellings(Escape(content))
  {
    var us := Escape(content);
    assert forall k :: 0 <= k < |us| ==> us[k] in us && !IsMistaken(us[k]);
  }

  /** An escaped literal anywhere in a text reads back as its content, to its exact end. */
  lemma {:induction false} RegularRoundTrip(runes: Runes, before: Text, content: Text, after: Text)
    requires ReadsAscii(runes)
    ensures var literal := [QUOTE] + SpellAll(Escape(content)) + [QUOTE];
            Regular(runes, before + literal + after, |before|) == Ok(content, |before| + |literal|)
  {
    var us := Escape(content);
    LiteralAt(before, SpellAll(us), after);
    EscapeSpells(content);
    SpellingReads(runes, before + ([QUOTE] + SpellAll(us) + [QUOTE]) + after, |before| + 1, us);
    ReadsRightExact(us);
    EscapeMeans(content);
  }
}
