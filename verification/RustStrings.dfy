/** cmd/oxlint-fixtures/extract.go: string literals of Rust source. */
module RustStrings {
  import opened Bytes

  /** A literal's value and the index just past it. */
  datatype Read = Ok(value: Text, end: nat) | Err

  function Prepend(front: Text, r: Read): Read { if r.Ok? then Ok(front + r.value, r.end) else Err }

  // ----- Runes -----

  function HexVal(b: int): (v: int)
    ensures 0 <= v < 16
  {
    if 48 <= b <= 57 then b - 48
    else if 97 <= b <= 102 then b - 97 + 10
    else if 65 <= b <= 70 then b - 65 + 10
    else 0
  }

  /** A rune is a 32-bit integer; arithmetic on it wraps. */
  function Wrap32(x: int): int { (x + 0x8000_0000) % 0x1_0000_0000 - 0x8000_0000 }

  /** The rune read from these digits, `r` being what has been read before them. */
  function HexRune(digits: seq<int>, r: int): int
    decreases |digits|
  {
    if digits == [] then r else HexRune(digits[1..], Wrap32(r * 16 + HexVal(digits[0] % 256)))
  }

  /** What ranging over a string yields. */
  datatype Runes = Runes(decode: Text -> seq<int>)

  predicate IsScalar(r: int) { 0 <= r <= 0x10_FFFF && !(0xD800 <= r <= 0xDFFF) }

  /** What strings.Builder.WriteRune appends: UTF-8 (RFC 3629, section 3), and U+FFFD for a rune
      that is no scalar value. */
  function Utf8(r: int): (t: Text)
    ensures 1 <= |t| <= 4
  {
    if !IsScalar(r) then [0xEF, 0xBF, 0xBD]
    else if r < 0x80 then [r as Byte]
    else if r < 0x800 then [(0xC0 + r / 64) as Byte, (0x80 + r % 64) as Byte]
    else if r < 0x1_0000 then [(0xE0 + r / 4096) as Byte, (0x80 + r / 64 % 64) as Byte, (0x80 + r % 64) as Byte]
    else [(0xF0 + r / 262144) as Byte, (0x80 + r / 4096 % 64) as Byte, (0x80 + r / 64 % 64) as Byte, (0x80 + r % 64) as Byte]
  }

  // ----- Regular literals -----

  const LOWER_N: Byte := 110
  const LOWER_R: Byte := 114
  const LOWER_T: Byte := 116
  const LOWER_U: Byte := 117
  const LOWER_X: Byte := 120
  const DIGIT_0: Byte := 48
  const OPEN_BRACE: Byte := 123
  const CLOSE_BRACE: Byte := 125

  /** What a one-letter escape stands for; unknown letters stand for themselves. */
  function SimpleEscape(e: Byte): Byte {
    if e == LOWER_N then NEWLINE
    else if e == LOWER_T then TAB
    else if e == LOWER_R then RETURN
    else if e == DIGIT_0 then 0
    else e
  }

  /** The first `b` from `i` on, or the end. */
  function Find(src: Text, i: nat, b: Byte): (j: nat)
    requires i <= |src|
    ensures i <= j <= |src| && (j < |src| ==> src[j] == b)
    ensures forall k :: i <= k < j ==> src[k] != b
    decreases |src| - i
  {
    if i == |src| || src[i] == b then i else Find(src, i + 1, b)
  }

  /** One unit of a literal's inside: what it stands for and where the next one starts. */
  function Unit(runes: Runes, src: Text, i: nat): (r: Read)
    requires i < |src|
    ensures r.Ok? ==> i < r.end <= |src|
  {
    if src[i] == BACKSLASH && i + 1 < |src| then
      var esc := src[i + 1];
      if esc == LOWER_U && i + 2 < |src| && src[i + 2] == OPEN_BRACE then
        var end := Find(src, i + 3, CLOSE_BRACE);
        if end >= |src| then Err else Ok(Utf8(HexRune(runes.decode(src[i + 3..end]), 0)), end + 1)
      else if esc == LOWER_X && i + 3 < |src| then
        Ok(Utf8(HexVal(src[i + 2] as int) * 16 + HexVal(src[i + 3] as int)), i + 4)
      else Ok([SimpleEscape(esc)], i + 2)
    else Ok([src[i]], i + 1)
  }

  /** The rest of a literal from inside it. */
  function Inside(runes: Runes, src: Text, i: nat): (r: Read)
    requires i <= |src|
    ensures r.Ok? ==> i < r.end <= |src|
    decreases |src| - i
  {
    if i == |src| then Err
    else if src[i] == QUOTE then Ok([], i + 1)
    else
      var unit := Unit(runes, src, i);
      if unit.Err? then Err else Prepend(unit.value, Inside(runes, src, unit.end))
  }

  function Regular(runes: Runes, src: Text, i: nat): (r: Read)
    requires i < |src|
    ensures r.Ok? ==> i + 1 < r.end <= |src|
  {
    if src[i] != QUOTE then Err else Inside(runes, src, i + 1)
  }

  method ReadBraced(runes: Runes, src: Text, i: nat) returns (unit: Read)
    requires i + 2 < |src| && src[i] == BACKSLASH && src[i + 1] == LOWER_U && src[i + 2] == OPEN_BRACE
    ensures unit == Unit(runes, src, i)
  {
    var end := i + 3;
    while end < |src| && src[end] != CLOSE_BRACE
      invariant i + 3 <= end <= |src|
      invariant Find(src, end, CLOSE_BRACE) == Find(src, i + 3, CLOSE_BRACE)
    {
      end := end + 1;
    }
    if end >= |src| {
      return Err;
    }
    var hex := runes.decode(src[i + 3..end]);
    var r := 0;
    for k := 0 to |hex|
      invariant HexRune(hex[k..], r) == HexRune(hex, 0)
    {
      assert hex[k..][1..] == hex[k + 1..];
      r := Wrap32(r * 16 + HexVal(hex[k] % 256));
    }
    return Ok(Utf8(r), end + 1);
  }

  method ReadRegularString(runes: Runes, src: Text, start: nat) returns (r: Read)
    requires start < |src|
    ensures r == Regular(runes, src, start)
  {
    if src[start] != QUOTE {
      return Err;
    }
    var sb := [];
    var i := start + 1;
    while i < |src|
      invariant i <= |src|
      invariant Prepend(sb, Inside(runes, src, i)) == Inside(runes, src, start + 1)
    {
      var c := src[i];
      if c == QUOTE {
        return Ok(sb, i + 1);
      }
      ghost var before, at := sb, i;
      if c == BACKSLASH && i + 1 < |src| {
        var esc := src[i + 1];
        if esc == LOWER_U && i + 2 < |src| && src[i + 2] == OPEN_BRACE {
          var unit := ReadBraced(runes, src, i);
          if unit.Err? {
            return Err;
          }
          sb, i := sb + unit.value, unit.end;
        } else if esc == LOWER_X && i + 3 < |src| {
          sb := sb + Utf8(HexVal(src[i + 2] as int) * 16 + HexVal(src[i + 3] as int));
          i := i + 4;
        } else {
          sb := sb + [SimpleEscape(esc)];
          i := i + 2;
        }
      } else {
        sb := sb + [c];
        i := i + 1;
      }
      Continues(runes, src, before, at);
    }
    return Err;
  }

  lemma Continues(runes: Runes, src: Text, before: Text, i: nat)
    requires i < |src| && src[i] != QUOTE && Unit(runes, src, i).Ok?
    ensures var unit := Unit(runes, src, i);
            Prepend(before, Inside(runes, src, i)) == Prepend(before + unit.value, Inside(runes, src, unit.end))
  {
    var unit := Unit(runes, src, i);
    var rest := Inside(runes, src, unit.end);
    if rest.Ok? {
      assert before + (unit.value + rest.value) == before + unit.value + rest.value;
    }
  }

  // ----- Texts inside texts -----

  /** `text` stands at index `i`. */
  predicate At(src: Text, i: nat, text: Text)
    decreases text
  {
    i + |text| <= |src| && (text == [] || (src[i] == text[0] && At(src, i + 1, text[1..])))
  }

  lemma {:induction false} AtSplits(src: Text, i: nat, a: Text, b: Text)
    requires At(src, i, a + b)
    ensures At(src, i, a) && At(src, i + |a|, b)
    decreases |a|
  {
    if a == [] {
      assert a + b == b;
    } else {
      assert (a + b)[1..] == a[1..] + b;
      AtSplits(src, i + 1, a[1..], b);
    }
  }

  lemma {:induction false} AtIndex(src: Text, i: nat, text: Text, k: nat)
    requires At(src, i, text) && k < |text|
    ensures src[i + k] == text[k]
    decreases k
  {
    if k > 0 {
      AtIndex(src, i + 1, text[1..], k - 1);
    }
  }

  lemma {:induction false} SliceAt(src: Text, i: nat, j: nat)
    requires i <= j <= |src|
    ensures At(src, i, src[i..j])
    decreases j - i
  {
    if i < j {
      assert src[i..j][1..] == src[i + 1..j];
      SliceAt(src, i + 1, j);
    }
  }

  lemma {:induction false} AtSlice(src: Text, i: nat, text: Text)
    requires At(src, i, text)
    ensures src[i..i + |text|] == text
    decreases |text|
  {
    if text != [] {
      AtSlice(src, i + 1, text[1..]);
      assert src[i..i + |text|] == [src[i]] + src[i + 1..i + |text|];
    }
  }

  lemma MiddleAt(before: Text, text: Text, after: Text)
    ensures At(before + text + after, |before|, text)
  {
    var src := before + text + after;
    assert src[|before|..|before| + |text|] == text;
    SliceAt(src, |before|, |before| + |text|);
  }

  lemma FindSkips(src: Text, i: nat, text: Text, b: Byte)
    requires At(src, i, text + [b]) && b !in text
    ensures Find(src, i, b) == i + |text|
  {
    AtSplits(src, i, text, [b]);
    AtIndex(src, i + |text|, [b], 0);
    var j := Find(src, i, b);
    if j < i + |text| {
      AtIndex(src, i, text, j - i);
    }
  }

  // ----- Raw literals -----

  /** How many `#` stand at `i`. */
  function Hashes(src: Text, i: nat): (h: nat)
    requires i <= |src|
    ensures i + h <= |src| && (forall k :: i <= k < i + h ==> src[k] == HASH) && (i + h < |src| ==> src[i + h] != HASH)
    decreases |src| - i
  {
    if i < |src| && src[i] == HASH then 1 + Hashes(src, i + 1) else 0
  }

  /** A quote with `h` hashes after it. */
  predicate Closes(src: Text, j: nat, h: nat) {
    j + h < |src| && src[j] == QUOTE && forall k :: j < k <= j + h ==> src[k] == HASH
  }

  function FindClose(src: Text, j: nat, h: nat): (e: nat)
    requires j <= |src|
    ensures j <= e <= |src| && (e < |src| ==> Closes(src, e, h))
    ensures forall k :: j <= k < e ==> !Closes(src, k, h)
    decreases |src| - j
  {
    if j == |src| || Closes(src, j, h) then j else FindClose(src, j + 1, h)
  }

  function RawLiteral(src: Text, i: nat): (r: Read)
    requires i < |src|
    ensures r.Ok? ==> i + 1 < r.end <= |src|
  {
    if src[i] != LOWER_R then Err
    else
      var h := Hashes(src, i + 1);
      var q := i + 1 + h;
      if q >= |src| || src[q] != QUOTE then Err
      else
        var e := FindClose(src, q + 1, h);
        if e >= |src| then Err else Ok(src[q + 1..e], e + 1 + h)
  }

  method CountHashes(src: Text, i: nat) returns (hashes: nat)
    requires i <= |src|
    ensures hashes == Hashes(src, i)
  {
    hashes := 0;
    var j := i;
    while j < |src| && src[j] == HASH
      invariant i <= j <= |src| && hashes + Hashes(src, j) == Hashes(src, i)
    {
      hashes, j := hashes + 1, j + 1;
    }
  }

  method CheckClose(src: Text, j: nat, hashes: nat) returns (ok: bool)
    requires j < |src| && src[j] == QUOTE
    ensures ok <==> Closes(src, j, hashes)
  {
    for k := 1 to hashes + 1
      invariant j + k <= |src| && forall m :: j < m < j + k ==> src[m] == HASH
    {
      if j + k >= |src| || src[j + k] != HASH {
        return false;
      }
    }
    return true;
  }

  method ReadRawString(src: Text, i: nat) returns (r: Read)
    requires i < |src|
    ensures r == RawLiteral(src, i)
  {
    if src[i] != LOWER_R {
      return Err;
    }
    var hashes := CountHashes(src, i + 1);
    var j := i + 1 + hashes;
    if j >= |src| || src[j] != QUOTE {
      return Err;
    }
    j := j + 1;
    var start := j;
    while j < |src|
      invariant start <= j <= |src|
      invariant FindClose(src, j, hashes) == FindClose(src, start, hashes)
    {
      if src[j] == QUOTE {
        var ok := CheckClose(src, j, hashes);
        if ok {
          return Ok(src[start..j], j + 1 + hashes);
        }
      }
      j := j + 1;
    }
    return Err;
  }

  function ManyHashes(h: nat): (t: Text)
    ensures |t| == h && forall k :: 0 <= k < h ==> t[k] == HASH
  {
    if h == 0 then [] else [HASH] + ManyHashes(h - 1)
  }

  /** Every quote in the content is followed by fewer than `h` hashes. */
  predicate Fits(content: Text, h: nat) { forall j :: 0 <= j < |content| ==> !Closes(content, j, h) }

  function Rawly(content: Text, h: nat): Text {
    [LOWER_R] + (ManyHashes(h) + ([QUOTE] + (content + ([QUOTE] + ManyHashes(h)))))
  }

  /** A raw literal with this content stands at index `i`. */
  predicate RawAt(src: Text, i: nat, content: Text, h: nat) {
    var q := i + 1 + h;
    var close := q + 1 + |content|;
    close + h < |src| && src[i] == LOWER_R && (forall k :: i + 1 <= k < q ==> src[k] == HASH) && src[q] == QUOTE &&
    At(src, q + 1, content) && Closes(src, close, h)
  }

  lemma RawLayout(src: Text, i: nat, content: Text, h: nat)
    requires At(src, i, Rawly(content, h))
    ensures RawAt(src, i, content, h)
  {
    RawOpens(src, i, h, content + ([QUOTE] + ManyHashes(h)));
    RawCloses(src, i + 2 + h, content, h);
  }

  lemma RawOpens(src: Text, i: nat, h: nat, rest: Text)
    requires At(src, i, [LOWER_R] + (ManyHashes(h) + ([QUOTE] + rest)))
    ensures i + 1 + h < |src| && src[i] == LOWER_R && (forall k :: i + 1 <= k < i + 1 + h ==> src[k] == HASH)
    ensures src[i + 1 + h] == QUOTE && At(src, i + 2 + h, rest)
  {
    AtSplits(src, i, [LOWER_R], ManyHashes(h) + ([QUOTE] + rest));
    AtIndex(src, i, [LOWER_R], 0);
    AtSplits(src, i + 1, ManyHashes(h), [QUOTE] + rest);
    HashesAt(src, i + 1, h);
    AtSplits(src, i + 1 + h, [QUOTE], rest);
    AtIndex(src, i + 1 + h, [QUOTE], 0);
  }

  lemma RawCloses(src: Text, start: nat, content: Text, h: nat)
    requires At(src, start, content + ([QUOTE] + ManyHashes(h)))
    ensures At(src, start, content) && Closes(src, start + |content|, h)
  {
    AtSplits(src, start, content, [QUOTE] + ManyHashes(h));
    var close := start + |content|;
    AtSplits(src, close, [QUOTE], ManyHashes(h));
    AtIndex(src, close, [QUOTE], 0);
    HashesAt(src, close + 1, h);
  }

  lemma HashesAt(src: Text, i: nat, h: nat)
    requires At(src, i, ManyHashes(h))
    ensures forall k :: i <= k < i + h ==> src[k] == HASH
  {
    forall k | i <= k < i + h ensures src[k] == HASH { AtIndex(src, i, ManyHashes(h), k - i); }
  }

  lemma HashesCounted(src: Text, i: nat, h: nat)
    requires i + h < |src| && (forall k :: i <= k < i + h ==> src[k] == HASH) && src[i + h] != HASH
    ensures Hashes(src, i) == h
  {
  }

  /** Reading stops at the literal's own close exactly when no quote before it closes. */
  lemma FirstClose(src: Text, start: nat, close: nat, h: nat)
    requires start <= close < |src| && Closes(src, close, h)
    ensures FindClose(src, start, h) <= close
    ensures FindClose(src, start, h) == close <==> forall j :: start <= j < close ==> !Closes(src, j, h)
  {
  }

  lemma RawEnds(src: Text, i: nat, content: Text, h: nat)
    requires RawAt(src, i, content, h)
    ensures var start := i + 2 + h;
            RawLiteral(src, i) == Ok(content, i + 3 + 2 * h + |content|) <==> FindClose(src, start, h) == start + |content|
  {
    var start := i + 2 + h;
    AtSlice(src, start, content);
    RawOpen(src, i, h);
    FirstClose(src, start, start + |content|, h);
    var e := FindClose(src, start, h);
    assert RawLiteral(src, i) == Ok(src[start..e], e + 1 + h);
  }

  lemma RawOpen(src: Text, i: nat, h: nat)
    requires i + 1 + h < |src| && src[i] == LOWER_R && (forall k :: i + 1 <= k < i + 1 + h ==> src[k] == HASH) && src[i + 1 + h] == QUOTE
    ensures var e := FindClose(src, i + 2 + h, h);
            RawLiteral(src, i) == if e >= |src| then Err else Ok(src[i + 2 + h..e], e + 1 + h)
  {
    HashesCounted(src, i + 1, h);
  }

  lemma {:induction false} RawReads(src: Text, i: nat, content: Text, h: nat)
    requires RawAt(src, i, content, h)
    ensures RawLiteral(src, i) == Ok(content, i + 3 + 2 * h + |content|) <==> Fits(content, h)
  {
    var start := i + 2 + h;
    RawEnds(src, i, content, h);
    FirstClose(src, start, start + |content|, h);
    SameCloses(src, content, start, h);
  }

  lemma SameCloses(src: Text, content: Text, at: nat, h: nat)
    requires At(src, at, content) && at + |content| < |src| && src[at + |content|] == QUOTE
    ensures Fits(content, h) <==> forall j :: at <= j < at + |content| ==> !Closes(src, j, h)
  {
    if !Fits(content, h) {
      var j :| 0 <= j < |content| && Closes(content, j, h);
      ClosesInside(src, content, at, j, h);
    }
    if j :| at <= j < at + |content| && Closes(src, j, h) {
      ClosesInside(src, content, at, j - at, h);
    }
  }

  /** A raw literal reads back as its content, to its exact end, exactly when every quote in
      the content is followed by fewer hashes than the literal has. */
  lemma {:induction false} RawExact(before: Text, content: Text, h: nat, after: Text)
    ensures var literal := Rawly(content, h);
            RawLiteral(before + literal + after, |before|) == Ok(content, |before| + |literal|) <==> Fits(content, h)
  {
    var src := before + Rawly(content, h) + after;
    MiddleAt(before, Rawly(content, h), after);
    RawLayout(src, |before|, content, h);
    RawReads(src, |before|, content, h);
  }

  /** The closing quote cannot complete a run of hashes begun in the content. */
  lemma ClosesInside(src: Text, content: Text, at: nat, j: nat, h: nat)
    requires At(src, at, content) && at + |content| < |src| && src[at + |content|] == QUOTE && j < |content|
    ensures Closes(src, at + j, h) <==> Closes(content, j, h)
  {
    AtIndex(src, at, content, j);
    if Closes(src, at + j, h) && j + h < |content| {
      forall k | j < k <= j + h ensures content[k] == HASH {
        AtIndex(src, at, content, k);
        assert src[at + k] == HASH;
      }
    }
    if Closes(content, j, h) {
      forall k | at + j < k <= at + j + h ensures src[k] == HASH {
        AtIndex(src, at, content, k - at);
      }
    }
  }
}
