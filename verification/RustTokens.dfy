/** cmd/oxlint-fixtures/extract.go: the token stream, and the entries of a `vec!`. */
module RustTokens {
  import opened Options
  import opened Bytes
  import opened RustStrings
  import opened RustSpellings

  datatype Kind =
    | Other | Str | OpenParen | CloseParen | OpenBracket | CloseBracket | OpenBrace | CloseBrace | Comma

  datatype Token = Token(kind: Kind, value: Text, pos: nat)

  /** What stands at an index: something to skip, a token, or a malformed string. */
  datatype Step = Skip(next: nat) | Emit(token: Token, next: nat) | Fail

  // ----- Character classes -----

  predicate IsBlank(c: Byte) { c == SPACE || c == TAB || c == NEWLINE || c == RETURN }

  /** unicode.IsSpace of a Latin-1 character. */
  predicate IsSpace(c: Byte) { 9 <= c <= 13 || c == SPACE || c == 0x85 || c == 0xA0 }

  predicate IsBracketOrComma(c: Byte) {
    c == 40 || c == 41 || c == 91 || c == 93 || c == OPEN_BRACE || c == CLOSE_BRACE || c == 44
  }

  /** `( ) [ ] { } , ; : = + - * / ! ? < > & |` */
  predicate IsPunct(c: Byte) {
    IsBracketOrComma(c) || c == 59 || c == 58 || c == 61 || c == 43 || c == 45 || c == STAR || c == SLASH || c == 33 ||
    c == 63 || c == 60 || c == 62 || c == 38 || c == 124
  }

  predicate IsStructural(c: Byte) {
    IsBlank(c) || IsBracketOrComma(c) || c == QUOTE || c == APOSTROPHE || c == SLASH || c == 33 || c == 61 || c == 58 ||
    c == 59 || c == 60 || c == 62
  }

  function PunctuationKind(c: Byte): Kind
    requires IsBracketOrComma(c)
  {
    if c == 40 then OpenParen
    else if c == 41 then CloseParen
    else if c == 91 then OpenBracket
    else if c == 93 then CloseBracket
    else if c == OPEN_BRACE then OpenBrace
    else if c == CLOSE_BRACE then CloseBrace
    else Comma
  }

  // ----- One step -----

  const LOWER_B: Byte := 98

  /** Past the block comment that is open `depth` times. */
  function BlockEnd(src: Text, i: nat, depth: nat): (e: nat)
    requires i <= |src|
    ensures i <= e <= |src|
    decreases |src| - i
  {
    if i == |src| || depth == 0 then i
    else if i + 1 < |src| && src[i] == SLASH && src[i + 1] == STAR then BlockEnd(src, i + 2, depth + 1)
    else if i + 1 < |src| && src[i] == STAR && src[i + 1] == SLASH then BlockEnd(src, i + 2, depth - 1)
    else BlockEnd(src, i + 1, depth)
  }

  predicate StopsQuoted(c: Byte) { c == APOSTROPHE || IsPunct(c) || IsSpace(c) }

  /** The end of a character literal or lifetime, without its closing `'`. */
  function QuotedEnd(src: Text, i: nat): (e: nat)
    requires i <= |src|
    ensures i <= e <= |src|
    decreases |src| - i
  {
    if i == |src| || StopsQuoted(src[i]) then i
    else QuotedEnd(src, if src[i] == BACKSLASH && i + 1 < |src| then i + 2 else i + 1)
  }

  function OtherEnd(src: Text, i: nat): (e: nat)
    requires i <= |src|
    ensures i <= e <= |src|
    decreases |src| - i
  {
    if i == |src| || IsStructural(src[i]) then i else OtherEnd(src, i + 1)
  }

  predicate StartsRaw(src: Text, i: nat)
    requires i < |src|
  {
    var j := i + 1 + Hashes(src, i + 1);
    j < |src| && src[j] == QUOTE
  }

  predicate StartsByteString(src: Text, i: nat)
    requires i < |src|
  {
    src[i] == LOWER_B && i + 1 < |src| &&
    (src[i + 1] == QUOTE || (src[i + 1] == LOWER_R && i + 2 < |src| && (src[i + 2] == QUOTE || src[i + 2] == HASH)))
  }

  function StringStep(r: Read, i: nat): Step {
    if r.Ok? then Emit(Token(Str, r.value, i), r.end) else Fail
  }

  /** The source hands a raw byte string to the raw reader at its first `#`, not at its `r`. */
  function ByteStringStep(runes: Runes, src: Text, i: nat): Step
    requires i < |src| && StartsByteString(src, i)
  {
    var j := if src[i + 1] == LOWER_R then i + 2 else i + 1;
    var r := if src[j] == QUOTE then Regular(runes, src, j) else RawLiteral(src, j);
    if r.Ok? then Emit(Token(Other, src[i..r.end], i), r.end) else Fail
  }

  function QuotedStep(src: Text, i: nat): Step
    requires i < |src|
  {
    var e := QuotedEnd(src, i + 1);
    var end := if e < |src| && src[e] == APOSTROPHE then e + 1 else e;
    Emit(Token(Other, src[i + 1..end], i + 1), end)
  }

  function OtherStep(src: Text, i: nat): Step
    requires i < |src|
  {
    var e := OtherEnd(src, i);
    var end := if e == i then i + 1 else e;
    Emit(Token(Other, src[i..end], i), end)
  }

  function LexStep(runes: Runes, src: Text, i: nat): Step
    requires i < |src|
  {
    var c := src[i];
    if IsBlank(c) then Skip(i + 1)
    else if c == SLASH && i + 1 < |src| && src[i + 1] == SLASH then Skip(Find(src, i, NEWLINE))
    else if c == SLASH && i + 1 < |src| && src[i + 1] == STAR then Skip(BlockEnd(src, i + 2, 1))
    else if c == QUOTE then StringStep(Regular(runes, src, i), i)
    else if c == LOWER_R && i + 1 < |src| && StartsRaw(src, i) then StringStep(RawLiteral(src, i), i)
    else if StartsByteString(src, i) then ByteStringStep(runes, src, i)
    else if c == APOSTROPHE then QuotedStep(src, i)
    else if IsBracketOrComma(c) then Emit(Token(PunctuationKind(c), [], i), i + 1)
    else OtherStep(src, i)
  }

  /** What is read at `i` ends after `i`, stands where it says, and is the text it says. */
  predicate Reads(src: Text, i: nat, step: Step) {
    match step
    case Fail => true
    case Skip(next) => i < next <= |src|
    case Emit(t, next) => i < next <= |src| && i <= t.pos && Ends(t) <= next && Faithful(src, t)
  }

  /** The first index a token does not claim. */
  function Ends(t: Token): nat { if t.kind.Other? then t.pos + |t.value| else t.pos + 1 }

  predicate Faithful(src: Text, t: Token) {
    t.pos <= |src| &&
    match t.kind
    case Other => At(src, t.pos, t.value)
    case Str => t.pos < |src| && (src[t.pos] == QUOTE || src[t.pos] == LOWER_R)
    case OpenParen => Shows(src, t.pos, '(')
    case CloseParen => Shows(src, t.pos, ')')
    case OpenBracket => Shows(src, t.pos, '[')
    case CloseBracket => Shows(src, t.pos, ']')
    case OpenBrace => Shows(src, t.pos, '{')
    case CloseBrace => Shows(src, t.pos, '}')
    case Comma => Shows(src, t.pos, ',')
  }

  predicate Shows(src: Text, i: nat, c: char) { i < |src| && src[i] as int == c as int }

  /** Where a token can start, each bracket and comma is one, of its own kind. */
  lemma BracketIsOneToken(runes: Runes, src: Text, i: nat, k: Kind)
    requires i < |src| && !k.Other? && !k.Str?
    ensures LexStep(runes, src, i) == Emit(Token(k, [], i), i + 1) <==> Faithful(src, Token(k, [], i))
  {
  }

  lemma ByteStringReads(runes: Runes, src: Text, i: nat)
    requires i < |src| && StartsByteString(src, i)
    ensures Reads(src, i, ByteStringStep(runes, src, i))
  {
    var j := if src[i + 1] == LOWER_R then i + 2 else i + 1;
    var r := if src[j] == QUOTE then Regular(runes, src, j) else RawLiteral(src, j);
    if r.Ok? {
      SliceAt(src, i, r.end);
    }
  }

  lemma QuotedReads(src: Text, i: nat)
    requires i < |src|
    ensures Reads(src, i, QuotedStep(src, i))
  {
    var step := QuotedStep(src, i);
    SliceAt(src, i + 1, step.next);
  }

  lemma OtherReads(src: Text, i: nat)
    requires i < |src|
    ensures Reads(src, i, OtherStep(src, i))
  {
    var step := OtherStep(src, i);
    SliceAt(src, i, step.next);
  }

  lemma StepReads(runes: Runes, src: Text, i: nat)
    requires i < |src|
    ensures Reads(src, i, LexStep(runes, src, i))
  {
    QuotedReads(src, i);
    OtherReads(src, i);
    if StartsByteString(src, i) {
      ByteStringReads(runes, src, i);
    }
  }

  // ----- The whole text -----

  function LexAll(runes: Runes, src: Text, i: nat): Option<seq<Token>>
    requires i <= |src|
    decreases |src| - i
  {
    if i == |src| then Some([])
    else
      StepReads(runes, src, i);
      match LexStep(runes, src, i)
      case Fail => None
      case Skip(next) => LexAll(runes, src, next)
      case Emit(t, next) => Then(t, LexAll(runes, src, next))
  }

  function Then(t: Token, rest: Option<seq<Token>>): Option<seq<Token>> {
    if rest.Some? then Some([t] + rest.value) else None
  }

  method SkipLine(src: Text, start: nat) returns (i: nat)
    requires start <= |src|
    ensures i == Find(src, start, NEWLINE)
  {
    i := start;
    while i < |src| && src[i] != NEWLINE
      invariant start <= i <= |src| && Find(src, i, NEWLINE) == Find(src, start, NEWLINE)
    {
      i := i + 1;
    }
  }

  method SkipBlock(src: Text, start: nat) returns (i: nat)
    requires start + 2 <= |src|
    ensures i == BlockEnd(src, start + 2, 1)
  {
    i := start + 2;
    var depth := 1;
    while i < |src| && depth > 0
      invariant i <= |src| && BlockEnd(src, i, depth) == BlockEnd(src, start + 2, 1)
    {
      if i + 1 < |src| && src[i] == SLASH && src[i + 1] == STAR {
        depth := depth + 1;
        i := i + 2;
      } else if i + 1 < |src| && src[i] == STAR && src[i + 1] == SLASH {
        depth := depth - 1;
        i := i + 2;
      } else {
        i := i + 1;
      }
    }
  }

  method ReadQuoted(src: Text, start: nat) returns (step: Step)
    requires start < |src|
    ensures step == QuotedStep(src, start)
  {
    var i := start + 1;
    while i < |src| && src[i] != APOSTROPHE && !IsPunct(src[i]) && !IsSpace(src[i])
      invariant start + 1 <= i <= |src| && QuotedEnd(src, i) == QuotedEnd(src, start + 1)
      decreases |src| - i
    {
      if src[i] == BACKSLASH && i + 1 < |src| {
        i := i + 2;
        continue;
      }
      i := i + 1;
    }
    if i < |src| && src[i] == APOSTROPHE {
      i := i + 1;
    }
    return Emit(Token(Other, src[start + 1..i], start + 1), i);
  }

  method ReadOther(src: Text, start: nat) returns (step: Step)
    requires start < |src|
    ensures step == OtherStep(src, start)
  {
    var i := start;
    while i < |src| && !IsStructural(src[i])
      invariant start <= i <= |src| && OtherEnd(src, i) == OtherEnd(src, start)
    {
      i := i + 1;
    }
    if i == start {
      i := i + 1;
    }
    return Emit(Token(Other, src[start..i], start), i);
  }

  method IsRawStringStart(src: Text, i: nat) returns (starts: bool)
    requires i < |src|
    ensures starts <==> StartsRaw(src, i)
  {
    var hashes := CountHashes(src, i + 1);
    var j := i + 1 + hashes;
    return j < |src| && src[j] == QUOTE;
  }

  method ReadByteString(runes: Runes, src: Text, i: nat) returns (step: Step)
    requires i < |src| && StartsByteString(src, i)
    ensures step == ByteStringStep(runes, src, i)
  {
    var j := i;
    if src[i + 1] == LOWER_R {
      j := j + 1;
    }
    j := j + 1;
    var r: Read;
    if src[j] == QUOTE {
      r := ReadRegularString(runes, src, j);
    } else {
      r := ReadRawString(src, j);
    }
    if r.Err? {
      return Fail;
    }
    return Emit(Token(Other, src[i..r.end], i), r.end);
  }

  method ReadStep(runes: Runes, src: Text, i: nat) returns (step: Step)
    requires i < |src|
    ensures step == LexStep(runes, src, i)
  {
    var c := src[i];
    if c == SPACE || c == TAB || c == NEWLINE || c == RETURN {
      return Skip(i + 1);
    }
    if c == SLASH && i + 1 < |src| && src[i + 1] == SLASH {
      var next := SkipLine(src, i);
      return Skip(next);
    }
    if c == SLASH && i + 1 < |src| && src[i + 1] == STAR {
      var next := SkipBlock(src, i);
      return Skip(next);
    }
    if c == QUOTE {
      var r := ReadRegularString(runes, src, i);
      return StringStep(r, i);
    }
    if c == LOWER_R && i + 1 < |src| {
      var raw := IsRawStringStart(src, i);
      if raw {
        var r := ReadRawString(src, i);
        return StringStep(r, i);
      }
    }
    if StartsByteString(src, i) {
      step := ReadByteString(runes, src, i);
    } else if c == APOSTROPHE {
      step := ReadQuoted(src, i);
    } else if IsBracketOrComma(c) {
      step := Emit(Token(PunctuationKind(c), [], i), i + 1);
    } else {
      step := ReadOther(src, i);
    }
  }

  /** `soFar` and then the tokens from `i` on. */
  function After(soFar: seq<Token>, rest: Option<seq<Token>>): Option<seq<Token>> {
    if rest.Some? then Some(soFar + rest.value) else None
  }

  method Tokenize(runes: Runes, src: Text) returns (toks: Option<seq<Token>>)
    ensures toks == LexAll(runes, src, 0)
  {
    var soFar := [];
    var i := 0;
    AfterNothing(LexAll(runes, src, 0));
    while i < |src|
      invariant i <= |src| && After(soFar, LexAll(runes, src, i)) == LexAll(runes, src, 0)
    {
      StepReads(runes, src, i);
      var step := ReadStep(runes, src, i);
      if step.Fail? {
        return None;
      }
      if step.Emit? {
        AfterThen(soFar, step.token, LexAll(runes, src, step.next));
        soFar := soFar + [step.token];
      }
      i := step.next;
    }
    assert soFar + [] == soFar;
    return Some(soFar);
  }

  lemma AfterNothing(rest: Option<seq<Token>>)
    ensures After([], rest) == rest
  {
    if rest.Some? {
      assert [] + rest.value == rest.value;
    }
  }

  lemma AfterThen(soFar: seq<Token>, t: Token, rest: Option<seq<Token>>)
    ensures After(soFar, Then(t, rest)) == After(soFar + [t], rest)
  {
    if rest.Some? {
      assert soFar + ([t] + rest.value) == soFar + [t] + rest.value;
    }
  }

  // ----- What the stream promises -----

  /** Tokens stand in the text, in order, none reaching into the next. */
  predicate InOrder(src: Text, from: nat, ts: seq<Token>) {
    (forall k :: 0 <= k < |ts| ==> from <= ts[k].pos && Faithful(src, ts[k])) &&
    forall j, k :: 0 <= j < k < |ts| ==> Ends(ts[j]) <= ts[k].pos
  }

  lemma {:induction false} TokensInOrder(runes: Runes, src: Text, i: nat)
    requires i <= |src| && LexAll(runes, src, i).Some?
    ensures InOrder(src, i, LexAll(runes, src, i).value)
    decreases |src| - i
  {
    if i < |src| {
      StepReads(runes, src, i);
      var step := LexStep(runes, src, i);
      TokensInOrder(runes, src, step.next);
      if step.Emit? {
        var rest := LexAll(runes, src, step.next).value;
        assert LexAll(runes, src, i).value == [step.token] + rest;
      }
    }
  }

  /** A raw literal is one token, whatever brackets, commas and quotes it holds. */
  lemma {:induction false} RawLiteralIsOneToken(runes: Runes, src: Text, i: nat, content: Text, h: nat)
    requires At(src, i, Rawly(content, h)) && Fits(content, h)
    ensures LexStep(runes, src, i) == Emit(Token(Str, content, i), i + |Rawly(content, h)|)
  {
    RawLayout(src, i, content, h);
    HashesCounted(src, i + 1, h);
    RawReads(src, i, content, h);
  }

  /** A regular literal, however spelled, is one token as well. */
  lemma {:induction false} LiteralIsOneToken(runes: Runes, src: Text, i: nat, us: seq<Spelled>)
    requires ReadsAscii(runes) && AllSpellings(us) && At(src, i, [QUOTE] + (SpellAll(us) + [QUOTE]))
    ensures LexStep(runes, src, i) == Emit(Token(Str, ReadOfAll(us), i), i + |SpellAll(us)| + 2)
  {
    AtSplits(src, i, [QUOTE], SpellAll(us) + [QUOTE]);
    AtIndex(src, i, [QUOTE], 0);
    SpellingReads(runes, src, i + 1, us);
  }

  // ----- Words, marks and character literals -----

  /** What ends a word. */
  const STRUCTURAL: set<char> := {
    ' ', '\t', '\n', '\r', '(', ')', '[', ']', '{', '}', ',', '"', '\'', '/', '!', '=', ':', ';', '<', '>'}

  /** What ends a character literal or a lifetime: its `'`, punctuation and space. */
  const STOPS: set<char> := {
    '\'', '(', ')', '[', ']', '{', '}', ',', ';', ':', '=', '+', '-', '*', '/', '!', '?', '<', '>', '&', '|',
    '\t', '\n', '\U{0B}', '\U{0C}', '\r', ' ', '\U{85}', '\U{A0}'}

  function CharOf(b: Byte): char { b as int as char }

  /** Whether a string starts here: `r` and any hashes, `b` or `br` before a quote, or `br#`. */
  predicate StartsString(src: Text, i: nat, word: Text)
    requires word != []
  {
    var quoted := Shows(src, i + |word|, '"');
    || (CharOf(word[0]) == 'r' && quoted && forall k :: 1 <= k < |word| ==> word[k] == HASH)
    || (CharOf(word[0]) == 'b' && |word| == 1 && quoted)
    || (CharOf(word[0]) == 'b' && |word| > 1 && CharOf(word[1]) == 'r' && if |word| == 2 then quoted else word[2] == HASH)
  }

  lemma NoRawStart(src: Text, i: nat, word: Text)
    requires word != [] && At(src, i, word) && CharOf(word[0]) == 'r' && !StartsString(src, i, word)
    requires forall b :: b in word ==> CharOf(b) !in STRUCTURAL
    requires i + |word| < |src| ==> CharOf(src[i + |word|]) in STRUCTURAL
    ensures !StartsRaw(src, i)
  {
    AtBytes(src, i, word);
    var h := Hashes(src, i + 1);
    var j := i + 1 + h;
    if j < i + |word| {
      assert src[j] == word[j - i] && word[j - i] in word;
    } else {
      assert i + |word| < |src| ==> src[i + |word|] != HASH;
      forall k | 1 <= k < |word| ensures word[k] == HASH {
        assert src[i + k] == word[k];
      }
    }
  }

  /** A word that starts no string is one token. */
  lemma WordIsOneToken(runes: Runes, src: Text, i: nat, word: Text)
    requires word != [] && At(src, i, word) && forall b :: b in word ==> CharOf(b) !in STRUCTURAL
    requires i + |word| < |src| ==> CharOf(src[i + |word|]) in STRUCTURAL
    requires !StartsString(src, i, word)
    ensures LexStep(runes, src, i) == Emit(Token(Other, word, i), i + |word|)
  {
    AtBytes(src, i, word);
    forall k | i <= k < i + |word| ensures CharOf(src[k]) !in STRUCTURAL {
      assert src[k] == word[k - i] && word[k - i] in word;
    }
    WordEnds(src, i, i + |word|);
    assert src[i..i + |word|] == word;
    if CharOf(word[0]) == 'r' {
      NoRawStart(src, i, word);
    }
    if i + 1 < |src| {
      assert |word| > 1 ==> src[i + 1] == word[1] && word[1] in word;
      assert |word| > 2 ==> src[i + 2] == word[2] && word[2] in word;
    }
  }

  lemma {:induction false} WordEnds(src: Text, i: nat, e: nat)
    requires i <= e <= |src| && (forall k :: i <= k < e ==> CharOf(src[k]) !in STRUCTURAL)
    requires e < |src| ==> CharOf(src[e]) in STRUCTURAL
    ensures OtherEnd(src, i) == e
    decreases e - i
  {
    if i < e {
      WordEnds(src, i + 1, e);
    }
  }

  /** A mark that ends words, and starts nothing else, is one token. */
  lemma MarkIsOneToken(runes: Runes, src: Text, i: nat)
    requires i < |src| && CharOf(src[i]) in {'!', '=', ':', ';', '<', '>', '/'}
    requires CharOf(src[i]) == '/' ==> !Shows(src, i + 1, '/') && !Shows(src, i + 1, '*')
    ensures LexStep(runes, src, i) == Emit(Token(Other, [src[i]], i), i + 1)
  {
    assert src[i..i + 1] == [src[i]];
  }

  /** No stop, but behind a backslash. */
  predicate Quotable(content: Text) {
    content == [] ||
    if content[0] == BACKSLASH then |content| >= 2 && Quotable(content[2..])
    else CharOf(content[0]) !in STOPS && Quotable(content[1..])
  }

  /** A character literal is one token, which keeps its closing `'`; so is a lifetime, up to the
      stop after it. */
  lemma QuotedIsOneToken(runes: Runes, src: Text, i: nat, content: Text)
    requires Shows(src, i, '\'') && At(src, i + 1, content) && Quotable(content)
    requires i + 1 + |content| < |src| ==> CharOf(src[i + 1 + |content|]) in STOPS
    ensures var e := i + 1 + |content|;
            var end := if Shows(src, e, '\'') then e + 1 else e;
            LexStep(runes, src, i) == Emit(Token(Other, src[i + 1..end], i + 1), end)
  {
    QuotedEnds(src, i + 1, content);
  }

  lemma {:induction false} QuotedEnds(src: Text, i: nat, content: Text)
    requires At(src, i, content) && Quotable(content) && (i + |content| < |src| ==> CharOf(src[i + |content|]) in STOPS)
    ensures QuotedEnd(src, i) == i + |content|
    decreases |content|
  {
    if content != [] {
      AtIndex(src, i, content, 0);
      if content[0] == BACKSLASH {
        assert content == content[..2] + content[2..];
        AtSplits(src, i, content[..2], content[2..]);
        QuotedEnds(src, i + 2, content[2..]);
      } else {
        assert content == content[..1] + content[1..];
        AtSplits(src, i, content[..1], content[1..]);
        QuotedEnds(src, i + 1, content[1..]);
      }
    }
  }

  // ----- Comments -----

  /** A block comment's inside: bytes, and comments in it. */
  datatype Remark = Plain(b: Byte) | Nested(inside: seq<Remark>)

  const OPEN: Text := [SLASH, STAR]
  const CLOSE: Text := [STAR, SLASH]

  function Wording(rs: seq<Remark>): Text {
    if rs == [] then []
    else (match rs[0]
          case Plain(b) => [b]
          case Nested(inside) => OPEN + Wording(inside) + CLOSE) + Wording(rs[1..])
  }

  /** No plain byte makes the start or the end of a comment with the byte after it. */
  predicate Unmistaken(rs: seq<Remark>) {
    rs == [] ||
    (Unmistaken(rs[1..]) &&
     match rs[0]
     case Plain(b) => var next := (Wording(rs[1..]) + CLOSE)[0]; [b, next] != OPEN && [b, next] != CLOSE
     case Nested(inside) => Unmistaken(inside))
  }

  /** Comments nest: the inside is passed, with every comment in it, and then one close. */
  lemma {:induction false} RemarksPassed(src: Text, i: nat, rs: seq<Remark>, depth: nat)
    requires Unmistaken(rs) && At(src, i, Wording(rs) + CLOSE)
    ensures BlockEnd(src, i, depth + 1) == BlockEnd(src, i + |Wording(rs)| + 2, depth)
    decreases rs, 1
  {
    if rs == [] {
      assert [] + CLOSE == CLOSE;
      ClosePassed(src, i, depth);
    } else if rs[0].Plain? {
      WordingPlain(rs);
      BytePassed(src, i, rs[0].b, Wording(rs[1..]) + CLOSE, depth);
      RemarksPassed(src, i + 1, rs[1..], depth);
    } else {
      WordingNested(rs);
      NestedPassed(src, i, rs[0].inside, Wording(rs[1..]) + CLOSE, depth);
      RemarksPassed(src, i + |Wording(rs[0].inside)| + 4, rs[1..], depth);
    }
  }

  lemma WordingPlain(rs: seq<Remark>)
    requires rs != [] && rs[0].Plain?
    ensures Wording(rs) + CLOSE == [rs[0].b] + (Wording(rs[1..]) + CLOSE) && |Wording(rs)| == 1 + |Wording(rs[1..])|
  {
  }

  lemma WordingNested(rs: seq<Remark>)
    requires rs != [] && rs[0].Nested?
    ensures Wording(rs) + CLOSE == OPEN + ((Wording(rs[0].inside) + CLOSE) + (Wording(rs[1..]) + CLOSE))
    ensures |Wording(rs)| == |Wording(rs[0].inside)| + 4 + |Wording(rs[1..])|
  {
    assert Wording(rs) == OPEN + Wording(rs[0].inside) + CLOSE + Wording(rs[1..]);
    Grouped(OPEN, Wording(rs[0].inside), Wording(rs[1..]), CLOSE);
  }

  lemma Grouped(open: Text, inside: Text, rest: Text, close: Text)
    ensures open + inside + close + rest + close == open + ((inside + close) + (rest + close))
  {
  }

  lemma {:induction false} NestedPassed(src: Text, i: nat, inside: seq<Remark>, rest: Text, depth: nat)
    requires Unmistaken(inside) && At(src, i, OPEN + ((Wording(inside) + CLOSE) + rest))
    ensures var end := i + |Wording(inside)| + 4;
            At(src, end, rest) && BlockEnd(src, i, depth + 1) == BlockEnd(src, end, depth + 1)
    decreases inside, 2
  {
    AtSplits(src, i, OPEN, (Wording(inside) + CLOSE) + rest);
    AtSplits(src, i + 2, Wording(inside) + CLOSE, rest);
    OpenPassed(src, i, depth);
    RemarksPassed(src, i + 2, inside, depth + 1);
  }

  lemma BytePassed(src: Text, i: nat, b: Byte, rest: Text, depth: nat)
    requires At(src, i, [b] + rest) && rest != [] && [b, rest[0]] != OPEN && [b, rest[0]] != CLOSE
    ensures At(src, i + 1, rest) && BlockEnd(src, i, depth + 1) == BlockEnd(src, i + 1, depth + 1)
  {
    AtSplits(src, i, [b], rest);
    assert src[i] == b && src[i + 1] == rest[0];
  }

  lemma OpenPassed(src: Text, i: nat, depth: nat)
    requires At(src, i, OPEN)
    ensures BlockEnd(src, i, depth + 1) == BlockEnd(src, i + 2, depth + 2)
  {
    AtIndex(src, i, OPEN, 0);
    AtIndex(src, i, OPEN, 1);
    assert src[i] == SLASH && src[i + 1] == STAR;
  }

  lemma ClosePassed(src: Text, i: nat, depth: nat)
    requires At(src, i, CLOSE)
    ensures BlockEnd(src, i, depth + 1) == BlockEnd(src, i + 2, depth)
  {
    AtIndex(src, i, CLOSE, 0);
    AtIndex(src, i, CLOSE, 1);
    assert src[i] == STAR && src[i + 1] == SLASH;
  }

  lemma AtBytes(src: Text, i: nat, text: Text)
    requires At(src, i, text)
    ensures i + |text| <= |src| && forall k :: 0 <= k < |text| ==> src[i + k] == text[k]
  {
    forall k | 0 <= k < |text| ensures src[i + k] == text[k] {
      AtIndex(src, i, text, k);
    }
  }

  /** A whole block comment, with all the comments in it, is skipped. */
  lemma BlockCommentSkipped(runes: Runes, src: Text, i: nat, rs: seq<Remark>)
    requires Unmistaken(rs) && At(src, i, OPEN + (Wording(rs) + CLOSE))
    ensures LexStep(runes, src, i) == Skip(i + |Wording(rs)| + 4)
  {
    AtSplits(src, i, OPEN, Wording(rs) + CLOSE);
    AtBytes(src, i, OPEN);
    AtBytes(src, i + 2, Wording(rs) + CLOSE);
    RemarksPassed(src, i + 2, rs, 0);
  }

  /** A line comment is skipped up to its line end. */
  lemma LineCommentSkipped(runes: Runes, src: Text, i: nat, text: Text)
    requires NEWLINE !in text && At(src, i, [SLASH, SLASH] + text)
    requires i + 2 + |text| == |src| || src[i + 2 + |text|] == NEWLINE
    ensures LexStep(runes, src, i) == Skip(i + 2 + |text|)
  {
    AtBytes(src, i, [SLASH, SLASH] + text);
    forall k | i <= k < i + 2 + |text| ensures src[k] != NEWLINE {
      assert src[k] == ([SLASH, SLASH] + text)[k - i];
    }
  }

  // ----- Byte strings -----

  /** Reading units from `i` on comes to the end of the content, not past it and to no quote on
      the way: no backslash before the close, every `\u{` closed, every `\x` with two bytes
      to take.  At the very end of a text `\x` takes nothing. */
  predicate Lands(content: Text, i: nat, last: bool)
    requires i <= |content|
    decreases |content| - i
  {
    var left := |content| - i;
    if left == 0 then true
    else if content[i] == QUOTE then false
    else if content[i] != BACKSLASH then Lands(content, i + 1, last)
    else if left == 1 then false
    else if content[i + 1] == LOWER_U && left > 2 && content[i + 2] == OPEN_BRACE then
      var e := Find(content, i + 3, CLOSE_BRACE);
      e < |content| && Lands(content, e + 1, last)
    else if content[i + 1] == LOWER_X then
      if left >= 4 then Lands(content, i + 4, last) else left == 2 && last
    else Lands(content, i + 2, last)
  }

  /** The content stands at `start`, with a closing quote after it. */
  predicate Encloses(src: Text, start: nat, content: Text) {
    start + |content| < |src| && src[start + |content|] == QUOTE && Copies(src, start, content)
  }

  predicate Copies(src: Text, start: nat, content: Text)
    requires start + |content| <= |src|
  {
    forall k {:trigger content[k]} :: 0 <= k < |content| ==> content[k] == src[start + k]
  }

  lemma EnclosesAt(src: Text, start: nat, content: Text)
    requires At(src, start, content + [QUOTE])
    ensures Encloses(src, start, content)
  {
    AtSplits(src, start, content, [QUOTE]);
    AtIndex(src, start + |content|, [QUOTE], 0);
    forall k {:trigger content[k]} | 0 <= k < |content| ensures content[k] == src[start + k] {
      AtIndex(src, start, content, k);
    }
  }

  /** Where one unit of the content ends, and whether that is still inside. */
  lemma UnitLands(runes: Runes, src: Text, start: nat, content: Text, i: nat)
    requires Encloses(src, start, content) && i < |content| && content[i] != QUOTE
    ensures var unit, last := Unit(runes, src, start + i), start + |content| + 1 == |src|;
            if unit.Ok? && unit.end <= start + |content|
            then Lands(content, i, last) <==> Lands(content, unit.end - start, last)
            else !Lands(content, i, last)
  {
    if content[i] == BACKSLASH && i + 2 < |content| && content[i + 1] == LOWER_U && content[i + 2] == OPEN_BRACE {
      FindInside(src, start, content, i + 3, CLOSE_BRACE);
    }
  }

  /** Looking for a byte in the text finds it in the content, if it is there. */
  lemma {:induction false} FindInside(src: Text, start: nat, content: Text, i: nat, b: Byte)
    requires start + |content| <= |src| && Copies(src, start, content) && i <= |content|
    ensures var e, f := Find(content, i, b), Find(src, start + i, b);
            if e < |content| then f == start + e else f >= start + |content|
    decreases |content| - i
  {
    if i < |content| && content[i] != b {
      FindInside(src, start, content, i + 1, b);
    }
  }

  /** Reading from `i` comes to this end, past the closing quote. */
  predicate ComesTo(runes: Runes, src: Text, i: nat, end: nat)
    requires i <= |src|
  {
    var r := Inside(runes, src, i);
    r.Ok? && r.end == end
  }

  lemma ComesOn(runes: Runes, src: Text, i: nat, end: nat)
    requires i < |src| && src[i] != QUOTE
    ensures var unit := Unit(runes, src, i);
            ComesTo(runes, src, i, end) <==> unit.Ok? && ComesTo(runes, src, unit.end, end)
  {
  }

  /** Reading a literal ends at the close of this content exactly when its units land there. */
  lemma {:induction false} InsideLands(runes: Runes, src: Text, start: nat, content: Text, i: nat)
    requires Encloses(src, start, content) && i <= |content|
    ensures var end := start + |content| + 1;
            ComesTo(runes, src, start + i, end) <==> Lands(content, i, end == |src|)
    decreases |content| - i
  {
    if i < |content| && content[i] != QUOTE {
      UnitLands(runes, src, start, content, i);
      ComesOn(runes, src, start + i, start + |content| + 1);
      var unit := Unit(runes, src, start + i);
      if unit.Ok? && unit.end <= start + |content| {
        InsideLands(runes, src, start, content, unit.end - start);
      }
    }
  }

  /** `b"content"` becomes one token that ends at its own close exactly when its units do. */
  lemma {:induction false} ByteStringExact(runes: Runes, src: Text, i: nat, content: Text)
    requires At(src, i, [LOWER_B, QUOTE] + (content + [QUOTE]))
    ensures var end := i + 3 + |content|;
            LexStep(runes, src, i) == Emit(Token(Other, src[i..end], i), end) <==> Lands(content, 0, end == |src|)
  {
    AtSplits(src, i, [LOWER_B, QUOTE], content + [QUOTE]);
    AtIndex(src, i, [LOWER_B, QUOTE], 0);
    AtIndex(src, i, [LOWER_B, QUOTE], 1);
    EnclosesAt(src, i + 2, content);
    InsideLands(runes, src, i + 2, content, 0);
    ByteStep(runes, src, i, i + 1);
  }

  /** A byte string is a token up to where its literal is read to, or fails with it. */
  lemma ByteStep(runes: Runes, src: Text, i: nat, j: nat)
    requires i < |src| && StartsByteString(src, i)
    requires j == (if src[i + 1] == LOWER_R then i + 2 else i + 1) && src[j] == QUOTE
    ensures forall end | i <= end <= |src| ::
              LexStep(runes, src, i) == Emit(Token(Other, src[i..end], i), end) <==>
              Regular(runes, src, j).Ok? && Regular(runes, src, j).end == end
  {
  }

  /** A raw byte string becomes one token that ends at its own close exactly when it has no
      hashes and, read with escapes, as the code does, its units end there. */
  lemma {:induction false} RawByteStringExact(runes: Runes, src: Text, i: nat, content: Text, h: nat)
    requires At(src, i, [LOWER_B] + Rawly(content, h)) && Fits(content, h)
    ensures var end := i + 1 + |Rawly(content, h)|;
            LexStep(runes, src, i) == Emit(Token(Other, src[i..end], i), end) <==> h == 0 && Lands(content, 0, end == |src|)
  {
    AtSplits(src, i, [LOWER_B], Rawly(content, h));
    AtIndex(src, i, [LOWER_B], 0);
    RawLayout(src, i + 1, content, h);
    if h == 0 {
      RawCloseAt(src, i, content);
      EnclosesAt(src, i + 3, content);
      InsideLands(runes, src, i + 3, content, 0);
      ByteStep(runes, src, i, i + 2);
    } else {
      assert src[i + 2] == HASH;
      HashedByteStringFails(runes, src, i);
    }
  }

  lemma RawCloseAt(src: Text, i: nat, content: Text)
    requires RawAt(src, i + 1, content, 0)
    ensures At(src, i + 3, content + [QUOTE])
  {
    AtSlice(src, i + 3, content);
    assert src[i + 3..i + 4 + |content|] == content + [QUOTE];
    SliceAt(src, i + 3, i + 4 + |content|);
  }

  /** A raw byte string with hashes always fails, and with it the whole text. */
  lemma {:induction false} HashedByteStringFails(runes: Runes, src: Text, i: nat)
    requires i + 2 < |src| && src[i] == LOWER_B && src[i + 1] == LOWER_R && src[i + 2] == HASH
    ensures LexStep(runes, src, i) == Fail && LexAll(runes, src, i) == None
  {
  }

  /** `br"\"` is a whole raw byte string, and fails. */
  lemma BackslashByteStringFails(runes: Runes)
    ensures var src := [LOWER_B] + Rawly([BACKSLASH], 0);
            RawLiteral(src, 1) == Ok([BACKSLASH], 5) && LexStep(runes, src, 0) == Fail
  {
    var src := [LOWER_B, LOWER_R, QUOTE, BACKSLASH, QUOTE];
    assert ManyHashes(0) == [] && [LOWER_B] + Rawly([BACKSLASH], 0) == src;
    SliceAt(src, 1, 5);
    assert src[1..5] == Rawly([BACKSLASH], 0);
    BackslashIsRead(src);
    BackslashIsTaken(runes, src);
  }

  lemma BackslashIsRead(src: Text)
    requires |src| == 5 && At(src, 1, Rawly([BACKSLASH], 0))
    ensures RawLiteral(src, 1) == Ok([BACKSLASH], 5)
  {
    RawLayout(src, 1, [BACKSLASH], 0);
    RawReads(src, 1, [BACKSLASH], 0);
  }

  lemma BackslashIsTaken(runes: Runes, src: Text)
    requires src == [LOWER_B, LOWER_R, QUOTE, BACKSLASH, QUOTE]
    ensures LexStep(runes, src, 0) == Fail
  {
    assert Unit(runes, src, 3).Ok? && Unit(runes, src, 3).end == 5;
    assert Inside(runes, src, 5) == Err;
    assert Regular(runes, src, 2) == Err;
    assert StartsByteString(src, 0);
  }

  // ----- Entries -----

  function Delta(t: Token): int {
    if t.kind.OpenParen? || t.kind.OpenBracket? || t.kind.OpenBrace? then 1
    else if t.kind.CloseParen? || t.kind.CloseBracket? || t.kind.CloseBrace? then -1
    else 0
  }

  /** The body cut at its commas outside brackets, from a place at this depth. */
  function Segments(body: seq<Token>, depth: int): (r: seq<seq<Token>>)
    ensures r != []
  {
    if body == [] then [[]]
    else if body[0].kind.Comma? && depth == 0 then [[]] + Segments(body[1..], 0)
    else Extend([body[0]], Segments(body[1..], depth + Delta(body[0])))
  }

  function Extend(front: seq<Token>, segments: seq<seq<Token>>): (r: seq<seq<Token>>)
    requires segments != []
    ensures |r| == |segments|
  {
    [front + segments[0]] + segments[1..]
  }

  predicate HasContent(blank: Text -> bool, ts: seq<Token>) {
    exists t :: t in ts && (!t.kind.Other? || !blank(t.value))
  }

  function Contentful(blank: Text -> bool, segments: seq<seq<Token>>): seq<seq<Token>> {
    if segments == [] then []
    else (if HasContent(blank, segments[0]) then [segments[0]] else []) + Contentful(blank, segments[1..])
  }

  method CheckContent(blank: Text -> bool, ts: seq<Token>) returns (has: bool)
    ensures has <==> HasContent(blank, ts)
  {
    for i := 0 to |ts|
      invariant forall j :: 0 <= j < i ==> ts[j].kind.Other? && blank(ts[j].value)
    {
      if !ts[i].kind.Other? || !blank(ts[i].value) {
        return true;
      }
    }
    return false;
  }

  /** What is still to be added when `cur` is the entry begun and the loop stands at `i`. */
  function Rest(blank: Text -> bool, cur: seq<Token>, body: seq<Token>, i: nat, depth: int): seq<seq<Token>>
    requires i <= |body|
  {
    Contentful(blank, Extend(cur, Segments(body[i..], depth)))
  }

  lemma RestStarts(blank: Text -> bool, body: seq<Token>)
    ensures Rest(blank, [], body, 0, 0) == Contentful(blank, Segments(body, 0))
  {
    NoFront(Segments(body, 0));
    assert body[0..] == body;
  }

  lemma RestCuts(blank: Text -> bool, cur: seq<Token>, body: seq<Token>, i: nat, entries: seq<seq<Token>>)
    requires i < |body| && body[i].kind.Comma?
    ensures entries + Rest(blank, cur, body, i, 0) ==
            (if HasContent(blank, cur) then entries + [cur] else entries) + Rest(blank, [], body, i + 1, 0)
  {
    assert body[i..][0] == body[i] && body[i..][1..] == body[i + 1..];
    CutHere(blank, cur, Segments(body[i + 1..], 0), entries);
  }

  lemma RestGoesOn(blank: Text -> bool, cur: seq<Token>, body: seq<Token>, i: nat, depth: int)
    requires i < |body| && !(body[i].kind.Comma? && depth == 0)
    ensures Rest(blank, cur, body, i, depth) == Rest(blank, cur + [body[i]], body, i + 1, depth + Delta(body[i]))
  {
    assert body[i..][0] == body[i] && body[i..][1..] == body[i + 1..];
    ExtendTwice(cur, body[i], Segments(body[i + 1..], depth + Delta(body[i])));
  }

  lemma RestEnds(blank: Text -> bool, cur: seq<Token>, body: seq<Token>, depth: int)
    ensures Rest(blank, cur, body, |body|, depth) == if HasContent(blank, cur) then [cur] else []
  {
    assert body[|body|..] == [];
    LastSegment(blank, cur);
  }

  /** `blank` says which texts are empty once trimmed. */
  method SplitEntries(blank: Text -> bool, body: seq<Token>) returns (entries: seq<seq<Token>>)
    ensures entries == Contentful(blank, Segments(body, 0))
  {
    entries := [];
    var cur: seq<Token> := [];
    var depth := 0;
    RestStarts(blank, body);
    for i := 0 to |body|
      invariant entries + Rest(blank, cur, body, i, depth) == Contentful(blank, Segments(body, 0))
    {
      var t := body[i];
      if t.kind.Comma? && depth == 0 {
        RestCuts(blank, cur, body, i, entries);
        var has := CheckContent(blank, cur);
        if has {
          entries := entries + [cur];
        }
        cur := [];
        continue;
      }
      RestGoesOn(blank, cur, body, i, depth);
      if t.kind.OpenParen? || t.kind.OpenBracket? || t.kind.OpenBrace? {
        depth := depth + 1;
      } else if t.kind.CloseParen? || t.kind.CloseBracket? || t.kind.CloseBrace? {
        depth := depth - 1;
      }
      cur := cur + [t];
    }
    RestEnds(blank, cur, body, depth);
    var has := CheckContent(blank, cur);
    if has {
      entries := entries + [cur];
    }
  }

  lemma NoFront(segments: seq<seq<Token>>)
    requires segments != []
    ensures Extend([], segments) == segments
  {
    assert [] + segments[0] == segments[0];
  }

  lemma ExtendTwice(cur: seq<Token>, t: Token, segments: seq<seq<Token>>)
    requires segments != []
    ensures Extend(cur, Extend([t], segments)) == Extend(cur + [t], segments)
  {
    assert cur + ([t] + segments[0]) == cur + [t] + segments[0];
  }

  lemma CutHere(blank: Text -> bool, cur: seq<Token>, rest: seq<seq<Token>>, entries: seq<seq<Token>>)
    requires rest != []
    ensures entries + Contentful(blank, Extend(cur, [[]] + rest)) ==
            (if HasContent(blank, cur) then entries + [cur] else entries) + Contentful(blank, Extend([], rest))
  {
    NoFront(rest);
    assert cur + [] == cur && ([[]] + rest)[1..] == rest;
    assert Extend(cur, [[]] + rest) == [cur] + rest;
    assert ([cur] + rest)[0] == cur && ([cur] + rest)[1..] == rest;
  }

  lemma LastSegment(blank: Text -> bool, cur: seq<Token>)
    ensures Contentful(blank, Extend(cur, [[]])) == if HasContent(blank, cur) then [cur] else []
  {
    assert cur + [] == cur && Extend(cur, [[]]) == [cur] && [cur][1..] == [];
  }

  /** The commas the body is cut at. */
  function Separators(body: seq<Token>, depth: int): (r: seq<Token>)
    ensures |r| + 1 == |Segments(body, depth)| && forall t :: t in r ==> t.kind.Comma?
  {
    if body == [] then []
    else if body[0].kind.Comma? && depth == 0 then [body[0]] + Separators(body[1..], 0)
    else Separators(body[1..], depth + Delta(body[0]))
  }

  function Weave(segments: seq<seq<Token>>, separators: seq<Token>): seq<Token>
    requires |segments| == |separators| + 1
  {
    segments[0] + if separators == [] then [] else [separators[0]] + Weave(segments[1..], separators[1..])
  }

  lemma WeaveExtend(front: seq<Token>, segments: seq<seq<Token>>, separators: seq<Token>)
    requires |segments| == |separators| + 1
    ensures Weave(Extend(front, segments), separators) == front + Weave(segments, separators)
  {
    assert Extend(front, segments)[1..] == segments[1..];
    var rest := if separators == [] then [] else [separators[0]] + Weave(segments[1..], separators[1..]);
    assert front + (segments[0] + rest) == front + segments[0] + rest;
  }

  /** No token is lost: the segments with the commas between them are the body. */
  lemma {:induction false} SegmentsConserve(body: seq<Token>, depth: int)
    ensures Weave(Segments(body, depth), Separators(body, depth)) == body
  {
    if body != [] {
      if body[0].kind.Comma? && depth == 0 {
        var segments, separators := Segments(body[1..], 0), Separators(body[1..], 0);
        SegmentsConserve(body[1..], 0);
        assert ([[]] + segments)[0] == [] && ([[]] + segments)[1..] == segments;
        assert ([body[0]] + separators)[1..] == separators;
        assert [] + ([body[0]] + Weave(segments, separators)) == body;
      } else {
        var next := depth + Delta(body[0]);
        SegmentsConserve(body[1..], next);
        WeaveExtend([body[0]], Segments(body[1..], next), Separators(body[1..], next));
      }
    }
  }

  /** Every bracket closes: no place is below depth 0, and the last is at depth 0. */
  predicate Balanced(ts: seq<Token>, depth: int) {
    if ts == [] then depth == 0 else depth + Delta(ts[0]) >= 0 && Balanced(ts[1..], depth + Delta(ts[0]))
  }

  predicate NoTopComma(ts: seq<Token>, depth: int) {
    ts == [] || (!(ts[0].kind.Comma? && depth == 0) && NoTopComma(ts[1..], depth + Delta(ts[0])))
  }

  /** Every token before the first cut stays in the first segment. */
  lemma SegmentsOn(body: seq<Token>, depth: int)
    requires body != [] && !(body[0].kind.Comma? && depth == 0)
    ensures var segments, rest := Segments(body, depth), Segments(body[1..], depth + Delta(body[0]));
            segments[0] == [body[0]] + rest[0] && segments[0][1..] == rest[0] && segments[1..] == rest[1..]
  {
    var rest := Segments(body[1..], depth + Delta(body[0]));
    assert ([body[0]] + rest[0])[1..] == rest[0];
  }

  /** No segment has a comma outside brackets. */
  lemma {:induction false} SegmentsUncut(body: seq<Token>, depth: int)
    ensures var segments := Segments(body, depth);
            NoTopComma(segments[0], depth) && forall s :: s in segments[1..] ==> NoTopComma(s, 0)
  {
    if body != [] {
      if body[0].kind.Comma? && depth == 0 {
        SegmentsUncut(body[1..], 0);
        var rest := Segments(body[1..], 0);
        assert ([[]] + rest)[1..] == rest && rest == [rest[0]] + rest[1..];
      } else {
        SegmentsUncut(body[1..], depth + Delta(body[0]));
        SegmentsOn(body, depth);
      }
    }
  }

  /** The segments of a balanced body are balanced. */
  lemma {:induction false} SegmentsBalanced(body: seq<Token>, depth: int)
    requires Balanced(body, depth)
    ensures var segments := Segments(body, depth);
            Balanced(segments[0], depth) && forall s :: s in segments[1..] ==> Balanced(s, 0)
  {
    if body != [] {
      if body[0].kind.Comma? && depth == 0 {
        SegmentsBalanced(body[1..], 0);
        var rest := Segments(body[1..], 0);
        assert ([[]] + rest)[1..] == rest && rest == [rest[0]] + rest[1..];
      } else {
        SegmentsBalanced(body[1..], depth + Delta(body[0]));
        SegmentsOn(body, depth);
      }
    }
  }

  lemma {:induction false} ContentfulMember(blank: Text -> bool, segments: seq<seq<Token>>, e: seq<Token>)
    ensures e in Contentful(blank, segments) <==> e in segments && HasContent(blank, e)
  {
    if segments != [] {
      ContentfulMember(blank, segments[1..], e);
      assert segments == [segments[0]] + segments[1..];
    }
  }

  /** Each entry of a balanced body is balanced, has content, and has no comma outside brackets. */
  lemma {:induction false} EntriesWhole(blank: Text -> bool, body: seq<Token>, e: seq<Token>)
    requires Balanced(body, 0) && e in Contentful(blank, Segments(body, 0))
    ensures Balanced(e, 0) && NoTopComma(e, 0) && HasContent(blank, e)
  {
    ContentfulMember(blank, Segments(body, 0), e);
    SegmentsUncut(body, 0);
    SegmentsBalanced(body, 0);
    var segments := Segments(body, 0);
    assert segments == [segments[0]] + segments[1..];
  }

  /** The entries are the segments that hold a string, a bracket, a comma or a word that is not blank. */
  lemma {:induction false} EntriesExact(blank: Text -> bool, body: seq<Token>, e: seq<Token>)
    ensures e in Contentful(blank, Segments(body, 0)) <==>
            e in Segments(body, 0) && exists i :: 0 <= i < |e| && (e[i].kind != Other || !blank(e[i].value))
  {
    ContentfulMember(blank, Segments(body, 0), e);
  }
}
