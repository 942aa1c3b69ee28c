/** The text encodings the rules build keys from: Go's strconv.Itoa and strconv.Quote.
    Each is uniquely readable at the front of a longer text. */
module Text {

  predicate IsDigit(c: char) { '0' <= c <= '9' }

  function Digit(d: nat): char
    requires d < 16
  {
    "0123456789abcdef"[d]
  }

  function Itoa(n: nat): (s: string)
    ensures s != "" && forall c :: c in s ==> IsDigit(c)
  {
    if n < 10 then [Digit(n)] else Itoa(n / 10) + [Digit(n % 10)]
  }

  function Hex(n: nat, width: nat): (s: string)
    ensures |s| == width
  {
    if width == 0 then "" else Hex(n / 16, width - 1) + [Digit(n % 16)]
  }

  /** One character of strconv.Quote; which characters print as themselves is up to the
      Unicode tables. */
  function Escape(isPrint: char -> bool, c: char): string {
    if c == '"' || c == '\\' then ['\\', c]
    else if isPrint(c) then [c]
    else if c == 7 as char then "\\a"
    else if c == 8 as char then "\\b"
    else if c == 12 as char then "\\f"
    else if c == '\n' then "\\n"
    else if c == '\r' then "\\r"
    else if c == '\t' then "\\t"
    else if c == 11 as char then "\\v"
    else if c < ' ' || c == 127 as char then "\\x" + Hex(c as nat, 2)
    else if c as nat < 0x10000 then "\\u" + Hex(c as nat, 4)
    else "\\U" + Hex(c as nat, 8)
  }

  function QuoteBody(isPrint: char -> bool, s: string): string {
    if s == "" then "" else Escape(isPrint, s[0]) + QuoteBody(isPrint, s[1..])
  }

  function Quote(isPrint: char -> bool, s: string): string {
    "\"" + QuoteBody(isPrint, s) + "\""
  }

  // ----- Unique readability -----

  lemma {:induction false} ItoaInjective(n: nat, m: nat)
    requires Itoa(n) == Itoa(m)
    ensures n == m
  {
    assert Itoa(n)[|Itoa(n)| - 1] == Digit(n % 10) && Itoa(m)[|Itoa(m)| - 1] == Digit(m % 10);
    if n >= 10 && m >= 10 {
      assert Itoa(n)[..|Itoa(n)| - 1] == Itoa(n / 10) && Itoa(m)[..|Itoa(m)| - 1] == Itoa(m / 10);
      ItoaInjective(n / 10, m / 10);
    }
  }

  /** Digits end where the first other character stands. */
  lemma {:induction false} DigitsSplit(a: string, x: string, b: string, y: string)
    requires (forall c :: c in a ==> IsDigit(c)) && (forall c :: c in b ==> IsDigit(c))
    requires x != "" && y != "" && !IsDigit(x[0]) && !IsDigit(y[0]) && a + x == b + y
    ensures a == b && x == y
  {
    assert (a + x)[|a|] == x[0] && (b + y)[|b|] == y[0];
    assert forall i :: 0 <= i < |a| ==> IsDigit((a + x)[i]);
    assert forall i :: 0 <= i < |b| ==> IsDigit((b + y)[i]);
    assert |a| == |b|;
    assert (a + x)[..|a|] == a && (b + y)[..|b|] == b;
    assert (a + x)[|a|..] == x && (b + y)[|b|..] == y;
  }

  lemma ItoaReadable(n: nat, x: string, m: nat, y: string)
    requires x != "" && y != "" && !IsDigit(x[0]) && !IsDigit(y[0]) && Itoa(n) + x == Itoa(m) + y
    ensures n == m && x == y
  {
    DigitsSplit(Itoa(n), x, Itoa(m), y);
    ItoaInjective(n, m);
  }

  function Pow16(width: nat): nat { if width == 0 then 1 else 16 * Pow16(width - 1) }

  lemma {:induction false} HexInjective(n: nat, m: nat, width: nat)
    requires n < Pow16(width) && m < Pow16(width) && Hex(n, width) == Hex(m, width)
    ensures n == m
  {
    if width > 0 {
      assert Hex(n, width)[..width - 1] == Hex(n / 16, width - 1) && Hex(m, width)[..width - 1] == Hex(m / 16, width - 1);
      assert Hex(n, width)[width - 1] == Digit(n % 16) && Hex(m, width)[width - 1] == Digit(m % 16);
      HexInjective(n / 16, m / 16, width - 1);
    }
  }

  lemma HexReadable(n: nat, x: string, m: nat, y: string, width: nat)
    requires n < Pow16(width) && m < Pow16(width) && Hex(n, width) + x == Hex(m, width) + y
    ensures n == m && x == y
  {
    assert (Hex(n, width) + x)[..width] == Hex(n, width) && (Hex(m, width) + y)[..width] == Hex(m, width);
    assert (Hex(n, width) + x)[width..] == x && (Hex(m, width) + y)[width..] == y;
    HexInjective(n, m, width);
  }

  /** How many hex digits follow the letter of an escape. */
  function HexWidth(letter: char): nat {
    if letter == 'x' then 2 else if letter == 'u' then 4 else if letter == 'U' then 8 else 0
  }

  lemma EscapeForm(isPrint: char -> bool, c: char)
    ensures var e := Escape(isPrint, c);
            if |e| == 1 then e == [c] && c != '"' && c != '\\'
            else |e| >= 2 && e[0] == '\\' && e == ['\\', e[1]] + Hex(c as nat, HexWidth(e[1])) &&
                 c as nat < Pow16(8) && (HexWidth(e[1]) > 0 ==> c as nat < Pow16(HexWidth(e[1])))
    ensures var e := Escape(isPrint, c);
            |e| > 1 && HexWidth(e[1]) == 0 ==> c == Named(e[1])
  {
    PowersOf16();
  }

  /** The character a letter escape stands for. */
  function Named(letter: char): char {
    if letter == 'a' then 7 as char
    else if letter == 'b' then 8 as char
    else if letter == 'f' then 12 as char
    else if letter == 'n' then '\n'
    else if letter == 'r' then '\r'
    else if letter == 't' then '\t'
    else if letter == 'v' then 11 as char
    else letter
  }

  lemma PowersOf16()
    ensures Pow16(2) == 0x100 && Pow16(4) == 0x10000 && Pow16(8) == 0x1_0000_0000
  {
    assert Pow16(1) == 16 && Pow16(2) == 256 && Pow16(3) == 4096;
    assert Pow16(4) == 0x10000 && Pow16(5) == 0x100000 && Pow16(6) == 0x1000000 && Pow16(7) == 0x1000_0000;
  }

  lemma DropTwo(a: char, b: char, rest: string, x: string)
    ensures var s := [a, b] + rest + x;
            |s| >= 2 && s[0] == a && s[1] == b && s[2..] == rest + x
  {
  }

  lemma EscapeReadable(isPrint: char -> bool, c: char, x: string, d: char, y: string)
    requires Escape(isPrint, c) + x == Escape(isPrint, d) + y
    ensures c == d && x == y
  {
    var e, f := Escape(isPrint, c), Escape(isPrint, d);
    EscapeForm(isPrint, c);
    EscapeForm(isPrint, d);
    if |e| == 1 || |f| == 1 {
      assert (e + x)[0] == e[0] && (f + y)[0] == f[0];
      assert |e| == 1 && |f| == 1;
      assert (e + x)[1..] == x && (f + y)[1..] == y;
    } else {
      DropTwo('\\', e[1], Hex(c as nat, HexWidth(e[1])), x);
      DropTwo('\\', f[1], Hex(d as nat, HexWidth(f[1])), y);
      if HexWidth(e[1]) == 0 {
        assert Hex(c as nat, 0) + x == x && Hex(d as nat, 0) + y == y;
      } else {
        HexReadable(c as nat, x, d as nat, y, HexWidth(e[1]));
      }
    }
  }

  lemma QuoteBodyStart(isPrint: char -> bool, s: string, x: string)
    requires s != ""
    ensures var rest := QuoteBody(isPrint, s[1..]) + "\"" + x;
            QuoteBody(isPrint, s) + "\"" + x == Escape(isPrint, s[0]) + rest
    ensures (QuoteBody(isPrint, s) + "\"" + x)[0] != '"'
  {
    EscapeForm(isPrint, s[0]);
    Regroup(Escape(isPrint, s[0]), QuoteBody(isPrint, s[1..]), "\"", x);
  }

  lemma Regroup(a: string, b: string, c: string, d: string)
    ensures a + b + c + d == a + (b + c + d)
  {
  }

  lemma QuoteBodyEnd(isPrint: char -> bool, x: string)
    ensures QuoteBody(isPrint, "") + "\"" + x == ['"'] + x
  {
  }

  lemma {:induction false} QuoteBodyReadable(isPrint: char -> bool, s: string, x: string, t: string, y: string)
    requires QuoteBody(isPrint, s) + "\"" + x == QuoteBody(isPrint, t) + "\"" + y
    ensures s == t && x == y
  {
    if s == "" || t == "" {
      QuoteBodyEnd(isPrint, x);
      QuoteBodyEnd(isPrint, y);
      if s != "" {
        QuoteBodyStart(isPrint, s, x);
      }
      if t != "" {
        QuoteBodyStart(isPrint, t, y);
      }
      assert s == t;
      assert (['"'] + x)[1..] == x && (['"'] + y)[1..] == y;
    } else {
      QuoteBodyStart(isPrint, s, x);
      QuoteBodyStart(isPrint, t, y);
      EscapeReadable(isPrint, s[0], QuoteBody(isPrint, s[1..]) + "\"" + x, t[0], QuoteBody(isPrint, t[1..]) + "\"" + y);
      QuoteBodyReadable(isPrint, s[1..], x, t[1..], y);
    }
  }

  lemma QuoteReadable(isPrint: char -> bool, s: string, x: string, t: string, y: string)
    requires Quote(isPrint, s) + x == Quote(isPrint, t) + y
    ensures s == t && x == y
  {
    assert (Quote(isPrint, s) + x)[1..] == QuoteBody(isPrint, s) + "\"" + x;
    assert (Quote(isPrint, t) + y)[1..] == QuoteBody(isPrint, t) + "\"" + y;
    QuoteBodyReadable(isPrint, s, x, t, y);
  }

  // ----- The order of Go strings -----

  predicate Less(a: string, b: string) {
    b != "" && (a == "" || a[0] < b[0] || (a[0] == b[0] && Less(a[1..], b[1..])))
  }

  lemma {:induction false} LessTotal(a: string, b: string)
    ensures a == b <==> !Less(a, b) && !Less(b, a)
    ensures !(Less(a, b) && Less(b, a))
  {
    if a != "" && b != "" && a[0] == b[0] {
      LessTotal(a[1..], b[1..]);
      assert a == [a[0]] + a[1..] && b == [b[0]] + b[1..];
    }
  }
}
