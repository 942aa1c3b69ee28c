/** cmd/biome-fixtures/main.go: removing comments from JSONC without touching its strings. */
module JsonComments {
  import opened Bytes

  // ----- The pieces of a JSONC text -----

  datatype Piece = Literal(text: Text) | Plain(b: Byte) | LineComment(text: Text) | BlockComment(text: Text)

  /** How many bytes the inside of a string takes, with its closing quote if it has one. */
  function StringLength(s: Text, escape: bool): (n: nat)
    ensures n <= |s|
  {
    if s == [] then 0
    else if escape then 1 + StringLength(s[1..], false)
    else if s[0] == BACKSLASH then 1 + StringLength(s[1..], true)
    else if s[0] == QUOTE then 1
    else 1 + StringLength(s[1..], false)
  }

  function LiteralLength(s: Text): (n: nat)
    requires s != []
    ensures 1 <= n <= |s|
  {
    1 + StringLength(s[1..], false)
  }

  /** From the newline that ends a line comment. */
  function AfterLine(s: Text): (rest: Text)
    ensures |rest| <= |s|
  {
    if s == [] || s[0] == NEWLINE then s else AfterLine(s[1..])
  }

  /** After the close of a block comment; without one the rest of the text is comment. */
  function AfterBlock(s: Text): (rest: Text)
    ensures |rest| <= |s|
  {
    if |s| < 2 then []
    else if s[0] == STAR && s[1] == SLASH then s[2..]
    else AfterBlock(s[1..])
  }

  predicate StartsLine(s: Text) { |s| >= 2 && s[0] == SLASH && s[1] == SLASH }

  predicate StartsBlock(s: Text) { |s| >= 2 && s[0] == SLASH && s[1] == STAR }

  function Pieces(s: Text): seq<Piece>
    decreases |s|
  {
    if s == [] then []
    else if s[0] == QUOTE then [Literal(s[..LiteralLength(s)])] + Pieces(s[LiteralLength(s)..])
    else if StartsLine(s) then
      var rest := AfterLine(s[2..]);
      [LineComment(s[..|s| - |rest|])] + Pieces(rest)
    else if StartsBlock(s) then
      var rest := AfterBlock(s[2..]);
      [BlockComment(s[..|s| - |rest|])] + Pieces(rest)
    else [Plain(s[0])] + Pieces(s[1..])
  }

  function Spelling(p: Piece): Text {
    match p
    case Plain(b) => [b]
    case Literal(text) => text
    case LineComment(text) => text
    case BlockComment(text) => text
  }

  function Join(ps: seq<Piece>): Text {
    if ps == [] then [] else Spelling(ps[0]) + Join(ps[1..])
  }

  predicate IsComment(p: Piece) { p.LineComment? || p.BlockComment? }

  function WithoutComments(ps: seq<Piece>): seq<Piece> {
    if ps == [] then []
    else (if IsComment(ps[0]) then [] else [ps[0]]) + WithoutComments(ps[1..])
  }

  /** The text with its comments left out. */
  function Strip(s: Text): Text { Join(WithoutComments(Pieces(s))) }

  // ----- The loop -----

  /** What is left to write when the loop stands at the start of `s` in this state. */
  function Pending(s: Text, inString: bool, escape: bool): Text {
    if inString then s[..StringLength(s, escape)] + Strip(s[StringLength(s, escape)..]) else Strip(s)
  }

  lemma StripPlain(s: Text)
    requires s != [] && s[0] != QUOTE && !StartsLine(s) && !StartsBlock(s)
    ensures Strip(s) == [s[0]] + Strip(s[1..])
  {
    KeepsFirst(Plain(s[0]), Pieces(s[1..]));
  }

  lemma StripLiteral(s: Text)
    requires s != [] && s[0] == QUOTE
    ensures Strip(s) == s[..LiteralLength(s)] + Strip(s[LiteralLength(s)..])
    ensures Strip(s) == [QUOTE] + Pending(s[1..], true, false)
  {
    var n := LiteralLength(s);
    KeepsFirst(Literal(s[..n]), Pieces(s[n..]));
    SplitHead(s, n, Strip(s[n..]));
  }

  lemma SplitHead(s: Text, n: nat, k: Text)
    requires 1 <= n <= |s|
    ensures s[..n] + k == [s[0]] + (s[1..][..n - 1] + k) && s[n..] == s[1..][n - 1..]
  {
    assert s[..n] == [s[0]] + s[1..][..n - 1];
  }

  lemma StripLine(s: Text)
    requires StartsLine(s)
    ensures Strip(s) == Strip(AfterLine(s[2..]))
  {
    var rest := AfterLine(s[2..]);
    DropsFirst(LineComment(s[..|s| - |rest|]), Pieces(rest));
  }

  lemma SlashesSkipped(s: Text)
    requires StartsLine(s)
    ensures AfterLine(s) == AfterLine(s[2..])
  {
    assert s[1..][0] == s[1] && s[1..][1..] == s[2..];
  }

  lemma StripBlock(s: Text)
    requires StartsBlock(s)
    ensures Strip(s) == Strip(AfterBlock(s[2..]))
  {
    var rest := AfterBlock(s[2..]);
    DropsFirst(BlockComment(s[..|s| - |rest|]), Pieces(rest));
  }

  lemma KeepsFirst(p: Piece, ps: seq<Piece>)
    requires !IsComment(p)
    ensures WithoutComments([p] + ps) == [p] + WithoutComments(ps)
    ensures Join(WithoutComments([p] + ps)) == Spelling(p) + Join(WithoutComments(ps))
  {
    assert ([p] + ps)[1..] == ps;
    assert ([p] + WithoutComments(ps))[1..] == WithoutComments(ps);
  }

  lemma DropsFirst(p: Piece, ps: seq<Piece>)
    requires IsComment(p)
    ensures WithoutComments([p] + ps) == WithoutComments(ps)
  {
    assert ([p] + ps)[1..] == ps;
  }

  /** What is left to write from index `i` on. */
  function Left(body: Text, i: nat, inString: bool, escape: bool): Text {
    Pending(if i < |body| then body[i..] else [], inString, escape)
  }

  lemma InString(body: Text, i: nat, escape: bool)
    requires i < |body|
    ensures Left(body, i, true, escape) ==
            [body[i]] + Left(body, i + 1, escape || body[i] != QUOTE, !escape && body[i] == BACKSLASH)
  {
    NextSuffix(body, i);
    StringStep(body[i..], escape);
  }

  lemma Opens(body: Text, i: nat)
    requires i < |body| && body[i] == QUOTE
    ensures Left(body, i, false, false) == [body[i]] + Left(body, i + 1, true, false)
  {
    NextSuffix(body, i);
    StripLiteral(body[i..]);
  }

  lemma Passes(body: Text, i: nat)
    requires i < |body| && body[i] != QUOTE
    requires !(body[i] == SLASH && i + 1 < |body| && (body[i + 1] == SLASH || body[i + 1] == STAR))
    ensures Left(body, i, false, false) == [body[i]] + Left(body, i + 1, false, false)
  {
    NextSuffix(body, i);
    assert |body[i..]| > 1 ==> body[i..][1] == body[i + 1];
    StripPlain(body[i..]);
  }

  lemma Writes(out: Text, c: Byte, left: Text, rest: Text)
    requires left == [c] + rest
    ensures out + left == out + [c] + rest
  {
  }

  method StripJSONCComments(body: Text) returns (out: Text)
    ensures out == Strip(body)
  {
    out := [];
    var inString, escape := false, false;
    var i := 0;
    assert body[0..] == body;
    while i < |body|
      invariant escape ==> inString
      invariant out + Left(body, i, inString, escape) == Strip(body)
    {
      if inString {
        out, inString, escape := CopyInString(body, i, escape, out);
        i := i + 1;
      } else {
        out, i, inString := CopyOutside(body, i, out);
      }
    }
  }

  /** One byte of a string. */
  method CopyInString(body: Text, i: nat, escape: bool, before: Text)
    returns (out: Text, inString: bool, escapes: bool)
    requires i < |body|
    ensures escapes ==> inString
    ensures out + Left(body, i + 1, inString, escapes) == before + Left(body, i, true, escape)
  {
    var c := body[i];
    InString(body, i, escape);
    Writes(before, c, Left(body, i, true, escape), Left(body, i + 1, escape || c != QUOTE, !escape && c == BACKSLASH));
    out := before + [c];
    inString, escapes := true, false;
    if escape {
      return;
    }
    if c == BACKSLASH {
      escapes := true;
      return;
    }
    if c == QUOTE {
      inString := false;
    }
  }

  /** One byte or one comment outside strings. */
  method CopyOutside(body: Text, start: nat, before: Text) returns (out: Text, i: nat, inString: bool)
    requires start < |body|
    ensures start < i
    ensures out + Left(body, i, inString, false) == before + Left(body, start, false, false)
  {
    out, i, inString := before, start, false;
    var c := body[i];
    if c == QUOTE {
      out := CopyQuote(body, i, out);
      return out, i + 1, true;
    }
    if c == SLASH && i + 1 < |body| {
      if body[i + 1] == SLASH {
        out, i := DropLine(body, i, out);
        return;
      }
      if body[i + 1] == STAR {
        i := SkipBlock(body, i);
        i := i + 1;
        return;
      }
    }
    out := CopyPlain(body, i, out);
    i := i + 1;
  }

  /** Drops a line comment and keeps its newline. */
  method DropLine(body: Text, start: nat, before: Text) returns (out: Text, i: nat)
    requires start + 1 < |body| && body[start] == SLASH && body[start + 1] == SLASH
    ensures start < i
    ensures out + Left(body, i, false, false) == before + Left(body, start, false, false)
  {
    i := SkipLine(body, start);
    out := before;
    if i < |body| {
      out := CopyPlain(body, i, out);
    }
    i := i + 1;
  }

  method CopyQuote(body: Text, i: nat, before: Text) returns (out: Text)
    requires i < |body| && body[i] == QUOTE
    ensures out + Left(body, i + 1, true, false) == before + Left(body, i, false, false)
  {
    Opens(body, i);
    Writes(before, body[i], Left(body, i, false, false), Left(body, i + 1, true, false));
    out := before + [body[i]];
  }

  method CopyPlain(body: Text, i: nat, before: Text) returns (out: Text)
    requires i < |body| && body[i] != QUOTE
    requires !(body[i] == SLASH && i + 1 < |body| && (body[i + 1] == SLASH || body[i + 1] == STAR))
    ensures out + Left(body, i + 1, false, false) == before + Left(body, i, false, false)
  {
    Passes(body, i);
    Writes(before, body[i], Left(body, i, false, false), Left(body, i + 1, false, false));
    out := before + [body[i]];
  }

  lemma StringStep(s: Text, escape: bool)
    requires s != []
    ensures Pending(s, true, escape) ==
            [s[0]] + Pending(s[1..], escape || s[0] != QUOTE, !escape && s[0] == BACKSLASH)
  {
    var n := StringLength(s, escape);
    SplitHead(s, n, Strip(s[n..]));
    if !escape && s[0] == QUOTE {
      assert s[1..][..0] == [];
    }
  }

  /** To the newline that ends a line comment, or to the end. */
  method SkipLine(body: Text, start: nat) returns (i: nat)
    requires start + 1 < |body| && body[start] == SLASH && body[start + 1] == SLASH
    ensures start < i <= |body| && (i < |body| ==> body[i] == NEWLINE)
    ensures Left(body, i, false, false) == Left(body, start, false, false)
  {
    i := start;
    while i < |body| && body[i] != NEWLINE
      invariant start <= i <= |body| && (i == start ==> body[i] == SLASH)
      invariant AfterLine(body[i..]) == AfterLine(body[start..])
    {
      NextSuffix(body, i);
      i := i + 1;
    }
    var s := body[start..];
    assert s[0] == SLASH && s[1] == SLASH;
    StripLine(s);
    SlashesSkipped(s);
    assert i == |body| ==> body[i..] == [];
  }

  lemma NextSuffix(body: Text, i: nat)
    requires i < |body|
    ensures body[i..][0] == body[i] && body[i..][1..] == body[i + 1..]
  {
  }

  /** To the `/` of the closing delimiter, or past the end. */
  method SkipBlock(body: Text, start: nat) returns (i: nat)
    requires start + 1 < |body| && body[start] == SLASH && body[start + 1] == STAR
    ensures start < i
    ensures Left(body, i + 1, false, false) == Left(body, start, false, false)
  {
    i := start + 2;
    while i + 1 < |body| && !(body[i] == STAR && body[i + 1] == SLASH)
      invariant start + 2 <= i <= |body|
      invariant AfterBlock(body[i..]) == AfterBlock(body[start + 2..])
    {
      NextSuffix(body, i);
      NextSuffix(body, i + 1);
      i := i + 1;
    }
    BlockEnds(body, i);
    BlockSkipped(body, start);
    i := i + 1;
  }

  lemma BlockEnds(body: Text, i: nat)
    requires i <= |body|
    requires i + 1 < |body| ==> body[i] == STAR && body[i + 1] == SLASH
    ensures AfterBlock(body[i..]) == if i + 2 < |body| then body[i + 2..] else []
  {
    if i + 1 < |body| {
      var s := body[i..];
      assert s[0] == STAR && s[1] == SLASH && s[2..] == body[i + 2..];
    }
  }

  lemma BlockSkipped(body: Text, start: nat)
    requires start + 1 < |body| && body[start] == SLASH && body[start + 1] == STAR
    ensures Left(body, start, false, false) == Strip(AfterBlock(body[start + 2..]))
  {
    var s := body[start..];
    assert s[0] == SLASH && s[1] == STAR && s[2..] == body[start + 2..];
    StripBlock(s);
  }

  // ----- What stripping promises -----

  lemma {:induction false} AfterLineSuffix(s: Text)
    ensures s[|s| - |AfterLine(s)|..] == AfterLine(s)
  {
    if s != [] && s[0] != NEWLINE {
      AfterLineSuffix(s[1..]);
    }
  }

  lemma {:induction false} AfterBlockSuffix(s: Text)
    ensures s[|s| - |AfterBlock(s)|..] == AfterBlock(s)
  {
    if |s| >= 2 && !(s[0] == STAR && s[1] == SLASH) {
      AfterBlockSuffix(s[1..]);
    }
  }

  /** The first piece and what the others are the pieces of. */
  lemma FirstPiece(s: Text) returns (p: Piece, rest: Text)
    requires s != []
    ensures Pieces(s) == [p] + Pieces(rest) && s == Spelling(p) + rest && |rest| < |s|
  {
    if s[0] == QUOTE {
      p, rest := Literal(s[..LiteralLength(s)]), s[LiteralLength(s)..];
    } else if StartsLine(s) {
      rest := AfterLine(s[2..]);
      p := LineComment(s[..|s| - |rest|]);
      AfterLineSuffix(s[2..]);
    } else if StartsBlock(s) {
      rest := AfterBlock(s[2..]);
      p := BlockComment(s[..|s| - |rest|]);
      AfterBlockSuffix(s[2..]);
    } else {
      p, rest := Plain(s[0]), s[1..];
    }
  }

  /** No byte belongs to no piece. */
  lemma {:induction false} PiecesCover(s: Text)
    ensures Join(Pieces(s)) == s
    decreases |s|
  {
    if s != [] {
      var p, rest := FirstPiece(s);
      PiecesCover(rest);
      JoinFirst(p, Pieces(rest));
    }
  }

  lemma JoinFirst(p: Piece, ps: seq<Piece>)
    ensures Join([p] + ps) == Spelling(p) + Join(ps)
  {
    assert ([p] + ps)[1..] == ps;
  }

  /** A closed literal is read the same whatever follows it; an open one has nothing after it. */
  lemma {:induction false} StringStays(s: Text, escape: bool, tail: Text)
    requires var n := StringLength(s, escape); tail == [] || n < |s|
    ensures var n := StringLength(s, escape); StringLength(s[..n] + tail, escape) == n
  {
    var n := StringLength(s, escape);
    if n == 0 {
      assert s == [] && tail == [];
    } else {
      assert (s[..n] + tail)[0] == s[0] && (s[..n] + tail)[1..] == s[1..][..n - 1] + tail;
      if escape {
        StringStays(s[1..], false, tail);
      } else if s[0] == BACKSLASH {
        StringStays(s[1..], true, tail);
      } else if s[0] != QUOTE {
        StringStays(s[1..], false, tail);
      }
    }
  }

  /** What a plain byte is followed by is written right after it. */
  lemma NextStays(s: Text)
    requires s != [] && s[0] == SLASH && !StartsLine(s) && !StartsBlock(s)
    ensures !StartsLine([SLASH] + Strip(s[1..])) && !StartsBlock([SLASH] + Strip(s[1..]))
  {
    if |s| > 1 {
      var t := s[1..];
      assert t[0] != SLASH && t[0] != STAR;
      if t[0] == QUOTE {
        StripLiteral(t);
      } else {
        StripPlain(t);
      }
      assert Strip(t)[0] == t[0];
    }
  }

  /** The stripped text has the same pieces, without the comments: every string is copied
      whole, and no two leftovers join up into a new comment. */
  lemma {:induction false} PiecesOfStripped(s: Text)
    ensures Pieces(Strip(s)) == WithoutComments(Pieces(s))
    decreases |s|
  {
    if s != [] {
      if s[0] == QUOTE {
        LiteralOfStripped(s);
      } else if StartsLine(s) {
        var rest := AfterLine(s[2..]);
        StripLine(s);
        DropsFirst(LineComment(s[..|s| - |rest|]), Pieces(rest));
        PiecesOfStripped(rest);
      } else if StartsBlock(s) {
        var rest := AfterBlock(s[2..]);
        StripBlock(s);
        DropsFirst(BlockComment(s[..|s| - |rest|]), Pieces(rest));
        PiecesOfStripped(rest);
      } else {
        StripPlain(s);
        PiecesOfStripped(s[1..]);
        if s[0] == SLASH {
          NextStays(s);
        }
        var r := Strip(s);
        assert r[0] == s[0] && r[1..] == Strip(s[1..]);
        assert Pieces(r) == [Plain(s[0])] + Pieces(r[1..]);
        KeepsFirst(Plain(s[0]), Pieces(s[1..]));
      }
    }
  }

  lemma {:induction false} LiteralOfStripped(s: Text)
    requires s != [] && s[0] == QUOTE
    ensures Pieces(Strip(s)) == WithoutComments(Pieces(s))
    decreases |s|, 0
  {
    var n := LiteralLength(s);
    var tail := Strip(s[n..]);
    StripLiteral(s);
    PiecesOfStripped(s[n..]);
    var r := Strip(s);
    assert n == |s| ==> s[n..] == [] && tail == [];
    StringStays(s[1..], false, tail);
    assert s[..n][1..] == s[1..][..n - 1];
    assert r[0] == QUOTE && r[1..] == s[1..][..n - 1] + tail;
    assert LiteralLength(r) == n && r[..n] == s[..n] && r[n..] == tail;
    KeepsFirst(Literal(s[..n]), Pieces(s[n..]));
  }

  lemma {:induction false} NothingLeft(ps: seq<Piece>)
    ensures WithoutComments(WithoutComments(ps)) == WithoutComments(ps)
  {
    if ps != [] {
      NothingLeft(ps[1..]);
      assert ps == [ps[0]] + ps[1..];
      if IsComment(ps[0]) {
        DropsFirst(ps[0], ps[1..]);
      } else {
        KeepsFirst(ps[0], ps[1..]);
        KeepsFirst(ps[0], WithoutComments(ps[1..]));
      }
    }
  }

  lemma {:induction false} StripIdempotent(s: Text)
    ensures Strip(Strip(s)) == Strip(s)
  {
    PiecesOfStripped(s);
    NothingLeft(Pieces(s));
  }

  function Literals(ps: seq<Piece>): seq<Text> {
    if ps == [] then [] else (if ps[0].Literal? then [ps[0].text] else []) + Literals(ps[1..])
  }

  lemma {:induction false} LiteralsRemain(ps: seq<Piece>)
    ensures Literals(WithoutComments(ps)) == Literals(ps)
  {
    if ps != [] {
      LiteralsRemain(ps[1..]);
      assert ps == [ps[0]] + ps[1..];
      if IsComment(ps[0]) {
        DropsFirst(ps[0], ps[1..]);
      } else {
        KeepsFirst(ps[0], ps[1..]);
        assert ([ps[0]] + WithoutComments(ps[1..]))[1..] == WithoutComments(ps[1..]);
      }
    }
  }

  /** Every string literal comes out verbatim, in order. */
  lemma {:induction false} LiteralsVerbatim(s: Text)
    ensures Literals(Pieces(Strip(s))) == Literals(Pieces(s))
  {
    PiecesOfStripped(s);
    LiteralsRemain(Pieces(s));
  }

  predicate IsSubsequence(a: Text, b: Text) {
    if a == [] then true
    else if b == [] then false
    else (a[0] == b[0] && IsSubsequence(a[1..], b[1..])) || IsSubsequence(a, b[1..])
  }

  lemma {:induction false} SubsequenceSkip(a: Text, front: Text, b: Text)
    requires IsSubsequence(a, b)
    ensures IsSubsequence(a, front + b)
  {
    if front == [] {
      assert front + b == b;
    } else {
      SubsequenceSkip(a, front[1..], b);
      assert (front + b)[1..] == front[1..] + b;
    }
  }

  lemma {:induction false} SubsequenceFront(front: Text, a: Text, b: Text)
    requires IsSubsequence(a, b)
    ensures IsSubsequence(front + a, front + b)
  {
    if front == [] {
      assert front + a == a && front + b == b;
    } else {
      SubsequenceFront(front[1..], a, b);
      assert (front + a)[1..] == front[1..] + a && (front + b)[1..] == front[1..] + b;
    }
  }

  lemma {:induction false} JoinSubsequence(ps: seq<Piece>)
    ensures IsSubsequence(Join(WithoutComments(ps)), Join(ps))
  {
    if ps != [] {
      JoinSubsequence(ps[1..]);
      assert ps == [ps[0]] + ps[1..];
      if IsComment(ps[0]) {
        DropsFirst(ps[0], ps[1..]);
        SubsequenceSkip(Join(WithoutComments(ps[1..])), Spelling(ps[0]), Join(ps[1..]));
      } else {
        KeepsFirst(ps[0], ps[1..]);
        SubsequenceFront(Spelling(ps[0]), Join(WithoutComments(ps[1..])), Join(ps[1..]));
      }
    }
  }

  /** Nothing is added or reordered. */
  lemma {:induction false} StripSubsequence(s: Text)
    ensures IsSubsequence(Strip(s), s)
  {
    PiecesCover(s);
    JoinSubsequence(Pieces(s));
  }

  // ----- What the pieces are -----

  const LINE: Text := [SLASH, SLASH]
  const OPEN: Text := [SLASH, STAR]
  const CLOSE: Text := [STAR, SLASH]

  /** Between the quotes of a literal: no quote but behind a backslash. */
  predicate Inner(t: Text) {
    t == [] || if t[0] == BACKSLASH then |t| >= 2 && Inner(t[2..]) else t[0] != QUOTE && Inner(t[1..])
  }

  /** No close before the one after it. */
  predicate Unclosed(t: Text) {
    forall k {:trigger t[k]} :: 0 <= k < |t| ==> !(t[k] == STAR && (t + CLOSE)[k + 1] == SLASH)
  }

  /** The piece as JSONC spells it, before this text. */
  predicate Spelled(p: Piece, inside: Text, rest: Text) {
    match p
    case Literal(text) => text == [QUOTE] + inside + [QUOTE] && Inner(inside)
    case LineComment(text) => text == LINE + inside && NEWLINE !in inside && (rest == [] || rest[0] == NEWLINE)
    case BlockComment(text) => text == OPEN + inside + CLOSE && Unclosed(inside)
    case Plain(b) => b != QUOTE && (b == SLASH && rest != [] ==> rest[0] != SLASH && rest[0] != STAR)
  }

  /** `insides` are what the pieces hold between their delimiters. */
  predicate AllSpelled(ps: seq<Piece>, insides: seq<Text>)
    requires |ps| == |insides|
  {
    ps == [] || (Spelled(ps[0], insides[0], Join(ps[1..])) && AllSpelled(ps[1..], insides[1..]))
  }

  lemma {:induction false} InnerLength(inside: Text, rest: Text)
    requires Inner(inside)
    ensures StringLength(inside + [QUOTE] + rest, false) == |inside| + 1
  {
    var s := inside + [QUOTE] + rest;
    if inside != [] {
      if inside[0] == BACKSLASH {
        assert s[1..][1..] == inside[2..] + [QUOTE] + rest;
        InnerLength(inside[2..], rest);
      } else {
        assert s[1..] == inside[1..] + [QUOTE] + rest;
        InnerLength(inside[1..], rest);
      }
    }
  }

  lemma {:induction false} LineLeaves(inside: Text, rest: Text)
    requires NEWLINE !in inside && (rest == [] || rest[0] == NEWLINE)
    ensures AfterLine(inside + rest) == rest
  {
    if inside == [] {
      assert inside + rest == rest;
    } else {
      assert (inside + rest)[1..] == inside[1..] + rest;
      LineLeaves(inside[1..], rest);
    }
  }

  lemma {:induction false} BlockLeaves(inside: Text, rest: Text)
    requires Unclosed(inside)
    ensures AfterBlock(inside + CLOSE + rest) == rest
  {
    var s := inside + CLOSE + rest;
    if inside == [] {
      assert s[2..] == rest;
    } else {
      assert s[0] == inside[0] && s[1] == (inside + CLOSE)[1];
      assert s[1..] == inside[1..] + CLOSE + rest;
      forall k {:trigger inside[1..][k]} | 0 <= k < |inside[1..]|
        ensures !(inside[1..][k] == STAR && (inside[1..] + CLOSE)[k + 1] == SLASH)
      {
        assert inside[1..][k] == inside[k + 1] && (inside[1..] + CLOSE)[k + 1] == (inside + CLOSE)[k + 2];
      }
      BlockLeaves(inside[1..], rest);
    }
  }

  lemma PieceRead(p: Piece, inside: Text, rest: Text)
    requires Spelled(p, inside, rest)
    ensures Pieces(Spelling(p) + rest) == [p] + Pieces(rest)
  {
    match p
    case Literal(text) => LiteralRead(text, inside, rest);
    case LineComment(text) => LineRead(text, inside, rest);
    case BlockComment(text) => BlockRead(text, inside, rest);
    case Plain(b) => assert ([b] + rest)[1..] == rest;
  }

  lemma LiteralRead(text: Text, inside: Text, rest: Text)
    requires Spelled(Literal(text), inside, rest)
    ensures Pieces(text + rest) == [Literal(text)] + Pieces(rest)
  {
    var s := text + rest;
    InnerLength(inside, rest);
    assert s[0] == QUOTE && s[1..] == inside + [QUOTE] + rest;
    assert LiteralLength(s) == |text|;
    assert s[..|text|] == text && s[|text|..] == rest;
  }

  lemma LineRead(text: Text, inside: Text, rest: Text)
    requires Spelled(LineComment(text), inside, rest)
    ensures Pieces(text + rest) == [LineComment(text)] + Pieces(rest)
  {
    var s := text + rest;
    LineLeaves(inside, rest);
    assert StartsLine(s) && s[2..] == inside + rest;
    assert s[..|s| - |rest|] == text;
  }

  lemma BlockRead(text: Text, inside: Text, rest: Text)
    requires Spelled(BlockComment(text), inside, rest)
    ensures Pieces(text + rest) == [BlockComment(text)] + Pieces(rest)
  {
    var s := text + rest;
    BlockLeaves(inside, rest);
    assert StartsBlock(s) && s[2..] == inside + CLOSE + rest;
    assert s[..|s| - |rest|] == text;
  }

  /** A text of well-spelled pieces is read as those pieces, and stripped of its comments. */
  lemma {:induction false} SpelledExact(ps: seq<Piece>, insides: seq<Text>)
    requires |ps| == |insides| && AllSpelled(ps, insides)
    ensures Pieces(Join(ps)) == ps && Strip(Join(ps)) == Join(WithoutComments(ps))
  {
    if ps != [] {
      PieceRead(ps[0], insides[0], Join(ps[1..]));
      SpelledExact(ps[1..], insides[1..]);
      assert ps == [ps[0]] + ps[1..];
    }
  }
}
