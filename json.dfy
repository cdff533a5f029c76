/**
 * The JSON text of a list of strings, as json.Marshal writes it for a
 * []string and json.Unmarshal reads it back: `["a","b"]`, `[]` for the
 * empty list and `null` read as the empty list. Inside a string literal
 * Marshal writes `\"`, `\\`, `\n`, `\r` and `\t`, and writes the other
 * control characters, `<`, `>`, `&`, U+2028 and U+2029 as `\u` followed
 * by four lower-case hex digits. Unmarshal refuses a raw control character
 * inside a string literal.
 */
module Json {
  import opened Wrappers

  /** A text holds no raw control character (one below U+0020). */
  predicate NoControl(s: string) {
    forall i :: 0 <= i < |s| ==> ' ' <= s[i]
  }

  lemma NoControlConcat(a: string, b: string)
    requires NoControl(a) && NoControl(b)
    ensures NoControl(a + b)
  {
    assert forall i :: |a| <= i < |a + b| ==> (a + b)[i] == b[i - |a|];
  }

  // ----- Hex digits of a `\u` escape -----

  function HexDigit(d: nat): char
    requires d < 16
  {
    if d < 10 then ('0' as int + d) as char else ('a' as int + d - 10) as char
  }

  predicate IsHexDigit(c: char) {
    ('0' <= c <= '9') || ('a' <= c <= 'f') || ('A' <= c <= 'F')
  }

  function HexDigitValue(c: char): (d: nat)
    requires IsHexDigit(c)
    ensures d < 16
  {
    if c <= '9' then c as int - '0' as int
    else if c <= 'F' then c as int - 'A' as int + 10
    else c as int - 'a' as int + 10
  }

  predicate AllHex(s: string) {
    forall i :: 0 <= i < |s| ==> IsHexDigit(s[i])
  }

  function Pow16(w: nat): nat {
    if w == 0 then 1 else 16 * Pow16(w - 1)
  }

  /** The w lower-case hex digits of n, most significant first. */
  function Hex(n: nat, w: nat): (r: string)
    ensures |r| == w
  {
    if w == 0 then [] else Hex(n / 16, w - 1) + [HexDigit(n % 16)]
  }

  /** The number hex digits spell, most significant first. */
  function HexValue(s: string): (v: nat)
    requires AllHex(s)
    ensures v < Pow16(|s|)
    decreases |s|
  {
    if s == [] then 0 else HexValue(s[..|s| - 1]) * 16 + HexDigitValue(s[|s| - 1])
  }

  /** Hex digits read back as the number they were written for. */
  lemma {:induction false} HexRoundTrip(n: nat, w: nat)
    requires n < Pow16(w)
    ensures AllHex(Hex(n, w)) && HexValue(Hex(n, w)) == n
    decreases w
  {
    if w > 0 {
      HexRoundTrip(n / 16, w - 1);
      var h := Hex(n, w);
      var d := n % 16;
      assert h == Hex(n / 16, w - 1) + [HexDigit(d)];
      assert h[..w - 1] == Hex(n / 16, w - 1);
      assert IsHexDigit(HexDigit(d)) && HexDigitValue(HexDigit(d)) == d;
      assert n == (n / 16) * 16 + d;
    }
  }

  lemma {:induction false} HexNoControl(n: nat, w: nat)
    ensures NoControl(Hex(n, w))
    decreases w
  {
    if w > 0 {
      HexNoControl(n / 16, w - 1);
      NoControlConcat(Hex(n / 16, w - 1), [HexDigit(n % 16)]);
    }
  }

  // ----- Encoding -----

  /** The letter json.Marshal puts after a backslash for `"`, `\`, newline, carriage return and tab. */
  function ShortEscape(c: char): Option<char> {
    if c == '"' || c == '\\' then Some(c)
    else if c == '\n' then Some('n')
    else if c == '\r' then Some('r')
    else if c == '\t' then Some('t')
    else None
  }

  /** The characters json.Marshal writes as a `\u` escape when no letter escape applies. */
  predicate EscapedAsUnicode(c: char) {
    c < ' ' || c == '<' || c == '>' || c == '&' || c == '\U{2028}' || c == '\U{2029}'
  }

  /** How json.Marshal writes one character inside a string literal. */
  function EscapeChar(c: char): (r: string)
    ensures |r| > 0
  {
    match ShortEscape(c)
    case Some(l) => ['\\', l]
    case None => if EscapedAsUnicode(c) then ['\\', 'u'] + Hex(c as int, 4) else [c]
  }

  function Escape(u: string): string
    decreases |u|
  {
    if u == [] then [] else EscapeChar(u[0]) + Escape(u[1..])
  }

  function Quote(u: string): string {
    "\"" + Escape(u) + "\""
  }

  function Elements(xs: seq<string>): string
    decreases |xs|
  {
    if xs == [] then ""
    else if |xs| == 1 then Quote(xs[0])
    else Quote(xs[0]) + "," + Elements(xs[1..])
  }

  /** json.Marshal of a []string; it cannot fail. The text is a bracketed list. */
  function Encode(xs: seq<string>): (r: string)
    ensures |r| >= 2 && r[0] == '[' && r[|r| - 1] == ']'
  {
    "[" + Elements(xs) + "]"
  }

  // ----- Decoding -----

  /** The character a one-letter escape stands for, as json.Unmarshal reads it. */
  function ShortUnescape(l: char): Option<char> {
    if l == '"' || l == '\\' || l == '/' then Some(l)
    else if l == 'b' then Some('\U{0008}')
    else if l == 'f' then Some('\U{000C}')
    else if l == 'n' then Some('\n')
    else if l == 'r' then Some('\r')
    else if l == 't' then Some('\t')
    else None
  }

  /**
   * Reads the escape sequence after a backslash: the character it stands
   * for and how many characters it takes.
   */
  function ReadEscape(s: string): (r: Option<(char, nat)>)
    ensures r.Some? ==> 1 <= r.value.1 <= |s|
  {
    if s == [] then None
    else
      match ShortUnescape(s[0])
      case Some(c) => Some((c, 1))
      case None => if s[0] == 'u' then ReadUnicode(s[1..]) else None
  }

  /** The four hex digits after `\u`; a surrogate half is refused. */
  function ReadUnicode(s: string): (r: Option<(char, nat)>)
    ensures r.Some? ==> r.value.1 == 5 && |s| >= 4
  {
    if |s| >= 4 && AllHex(s[..4]) then
      var v := HexValue(s[..4]);
      assert Pow16(4) == 0x10000;
      if 0xD800 <= v < 0xE000 then None else Some((v as char, 5))
    else None
  }

  /**
   * Reads the body of a string literal whose opening quote is already
   * consumed: the unescaped contents and what follows the closing quote.
   */
  function ParseString(s: string): (r: Option<(string, string)>)
    ensures r.Some? ==> |r.value.1| < |s|
    decreases |s|
  {
    if s == [] then None
    else if s[0] == '"' then Some(("", s[1..]))
    else if s[0] == '\\' then
      match ReadEscape(s[1..])
      case None => None
      case Some((c, k)) =>
        match ParseString(s[1 + k..])
        case None => None
        case Some((u, rest)) => Some(([c] + u, rest))
    else if s[0] < ' ' then None
    else
      match ParseString(s[1..])
      case None => None
      case Some((u, rest)) => Some(([s[0]] + u, rest))
  }

  /** Reads one or more comma-separated string literals filling all of s. */
  function ParseElements(s: string): Option<seq<string>>
    decreases |s|
  {
    if s == [] || s[0] != '"' then None
    else
      match ParseString(s[1..])
      case None => None
      case Some((u, rest)) =>
        if rest == [] then Some([u])
        else if rest[0] == ',' then
          match ParseElements(rest[1..])
          case None => None
          case Some(us) => Some([u] + us)
        else None
  }

  /**
   * json.Unmarshal into a []string; None is a decoding error. Only `null`
   * and a bracketed list decode.
   */
  function Decode(b: string): (r: Option<seq<string>>)
    ensures r.Some? ==> b == "null" || (|b| >= 2 && b[0] == '[' && b[|b| - 1] == ']')
  {
    if b == "null" then Some([])
    else if |b| >= 2 && b[0] == '[' && b[|b| - 1] == ']' then
      var inner := b[1..|b| - 1];
      if inner == "" then Some([]) else ParseElements(inner)
    else None
  }

  // ----- No raw control characters -----

  lemma EscapeCharNoControl(c: char)
    ensures NoControl(EscapeChar(c))
  {
    if ShortEscape(c).None? && EscapedAsUnicode(c) {
      HexNoControl(c as int, 4);
      NoControlConcat(['\\', 'u'], Hex(c as int, 4));
    }
  }

  lemma {:induction false} EscapeNoControl(u: string)
    ensures NoControl(Escape(u))
    decreases |u|
  {
    if u != [] {
      EscapeCharNoControl(u[0]);
      EscapeNoControl(u[1..]);
      NoControlConcat(EscapeChar(u[0]), Escape(u[1..]));
    }
  }

  lemma {:induction false} ElementsNoControl(xs: seq<string>)
    ensures NoControl(Elements(xs))
    decreases |xs|
  {
    if xs != [] {
      EscapeNoControl(xs[0]);
      NoControlConcat("\"", Escape(xs[0]));
      NoControlConcat("\"" + Escape(xs[0]), "\"");
      if |xs| > 1 {
        ElementsNoControl(xs[1..]);
        NoControlConcat(Quote(xs[0]), ",");
        NoControlConcat(Quote(xs[0]) + ",", Elements(xs[1..]));
      }
    }
  }

  /** json.Marshal writes no raw control character: each one inside a string is escaped. */
  lemma EncodeNoControl(xs: seq<string>)
    ensures NoControl(Encode(xs))
  {
    ElementsNoControl(xs);
    NoControlConcat("[", Elements(xs));
    NoControlConcat("[" + Elements(xs), "]");
  }

  /** An escape sequence is made of printable characters. */
  lemma ReadEscapeNoControl(y: string)
    requires ReadEscape(y).Some?
    ensures NoControl(y[..ReadEscape(y).value.1])
  {
    if ShortUnescape(y[0]).None? {
      var x := y[1..];
      assert AllHex(x[..4]);
      assert y[..5] == [y[0]] + x[..4];
      NoControlConcat([y[0]], x[..4]);
    } else {
      assert y[..1] == [y[0]];
    }
  }

  /** rest is a suffix of s, and what comes before it holds no raw control character. */
  predicate ConsumesPrintable(s: string, rest: string) {
    |rest| <= |s| && rest == s[|s| - |rest|..] && NoControl(s[..|s| - |rest|])
  }

  lemma ConsumesAfter(s: string, k: nat, rest: string)
    requires k <= |s| && NoControl(s[..k]) && ConsumesPrintable(s[k..], rest)
    ensures ConsumesPrintable(s, rest)
  {
    var n := |s[k..]| - |rest|;
    assert s[k..][n..] == s[|s| - |rest|..];
    assert s[..|s| - |rest|] == s[..k] + s[k..][..n];
    NoControlConcat(s[..k], s[k..][..n]);
  }

  lemma ConsumedAll(s: string, rest: string)
    requires ConsumesPrintable(s, rest) && NoControl(rest)
    ensures NoControl(s)
  {
    assert s == s[..|s| - |rest|] + rest;
    NoControlConcat(s[..|s| - |rest|], rest);
  }

  /** What a string literal consumes holds no raw control character; what is left is a suffix. */
  lemma {:induction false} ParseStringNoControl(s: string)
    requires ParseString(s).Some?
    ensures ConsumesPrintable(s, ParseString(s).value.1)
    decreases |s|
  {
    assert s[..1] == [s[0]];
    if s[0] == '"' {
      assert s[1..][..0] == [];
      ConsumesAfter(s, 1, s[1..]);
    } else if s[0] == '\\' {
      var k := ReadEscape(s[1..]).value.1;
      ReadEscapeNoControl(s[1..]);
      ParseStringNoControl(s[1 + k..]);
      assert s[..1 + k] == [s[0]] + s[1..][..k];
      NoControlConcat([s[0]], s[1..][..k]);
      ConsumesAfter(s, 1 + k, ParseString(s[1 + k..]).value.1);
    } else {
      ParseStringNoControl(s[1..]);
      ConsumesAfter(s, 1, ParseString(s[1..]).value.1);
    }
  }

  /** A quote, a printable literal body, then the end or a comma and more printable text. */
  lemma ElementNoControl(s: string, rest: string)
    requires s != [] && s[0] == '"' && ConsumesPrintable(s[1..], rest)
    requires rest == [] || (rest[0] == ',' && NoControl(rest[1..]))
    ensures NoControl(s)
  {
    assert s[..1] == [s[0]];
    ConsumesAfter(s, 1, rest);
    if rest != [] {
      assert rest == [rest[0]] + rest[1..];
      NoControlConcat([rest[0]], rest[1..]);
    }
    ConsumedAll(s, rest);
  }

  lemma {:induction false} ParseElementsNoControl(s: string)
    requires ParseElements(s).Some?
    ensures NoControl(s)
    decreases |s|
  {
    ParseStringNoControl(s[1..]);
    var rest := ParseString(s[1..]).value.1;
    if rest != [] {
      ParseElementsNoControl(rest[1..]);
    }
    ElementNoControl(s, rest);
  }

  /**
   * No text Decode accepts holds a raw control character. Inside a string
   * literal this is json.Unmarshal's own rule; before, between or after
   * tokens it follows from Decode admitting no whitespace there, where
   * json.Unmarshal skips space, tab, newline and carriage return.
   */
  lemma DecodeNoControl(b: string)
    requires Decode(b).Some?
    ensures NoControl(b)
  {
    if b != "null" && b[1..|b| - 1] != "" {
      ParseElementsNoControl(b[1..|b| - 1]);
      assert b == [b[0]] + b[1..|b| - 1] + [b[|b| - 1]];
      NoControlConcat([b[0]], b[1..|b| - 1]);
      NoControlConcat([b[0]] + b[1..|b| - 1], [b[|b| - 1]]);
    } else if b != "null" {
      assert b == [b[0]] + [b[|b| - 1]];
      NoControlConcat([b[0]], [b[|b| - 1]]);
    }
  }

  // ----- Round trip -----

  lemma ShortRoundTrip(c: char)
    requires ShortEscape(c).Some?
    ensures ShortUnescape(ShortEscape(c).value) == Some(c)
  {
  }

  /** A backslash, an escape sequence, then the rest of a literal. */
  lemma ParseBackslash(y: string, c: char, k: nat, t: string)
    requires ReadEscape(y) == Some((c, k)) && y[k..] == t
    requires ParseString(t).Some?
    ensures ParseString("\\" + y) == Some(([c] + ParseString(t).value.0, ParseString(t).value.1))
  {
    var s := "\\" + y;
    assert s[0] == '\\' && s[1..] == y && s[1 + k..] == t;
  }

  lemma ParseShortEscape(c: char, t: string)
    requires ShortEscape(c).Some?
    requires ParseString(t).Some?
    ensures ParseString(EscapeChar(c) + t) == Some(([c] + ParseString(t).value.0, ParseString(t).value.1))
  {
    var l := ShortEscape(c).value;
    ShortRoundTrip(c);
    var y := [l] + t;
    assert y[0] == l && y[1..] == t;
    assert ReadEscape(y) == Some((c, 1));
    ParseBackslash(y, c, 1, t);
    assert EscapeChar(c) + t == "\\" + y;
  }

  /** The four hex digits json.Marshal writes for a character read back as that character. */
  lemma ReadHex4(c: char, t: string)
    requires EscapedAsUnicode(c)
    ensures ReadUnicode(Hex(c as int, 4) + t) == Some((c, 5))
  {
    var v := c as int;
    assert v < 0x20 || v == 0x3C || v == 0x3E || v == 0x26 || v == 0x2028 || v == 0x2029;
    assert Pow16(4) == 0x10000;
    HexRoundTrip(v, 4);
    var x := Hex(v, 4) + t;
    assert x[..4] == Hex(v, 4);
    assert v as char == c;
  }

  /** `u`, four digits and the rest of a literal, after a backslash. */
  lemma UnicodeLayout(h: string, t: string)
    requires |h| == 4
    ensures var y := "u" + (h + t);
      y[0] == 'u' && y[1..] == h + t && y[5..] == t && ['\\', 'u'] + h + t == "\\" + y
  {
  }

  lemma ParseUnicodeEscape(c: char, t: string)
    requires ShortEscape(c).None? && EscapedAsUnicode(c)
    requires ParseString(t).Some?
    ensures ParseString(EscapeChar(c) + t) == Some(([c] + ParseString(t).value.0, ParseString(t).value.1))
  {
    var h := Hex(c as int, 4);
    var y := "u" + (h + t);
    assert EscapeChar(c) == ['\\', 'u'] + h;
    UnicodeLayout(h, t);
    ReadHex4(c, t);
    assert ReadEscape(y) == Some((c, 5));
    ParseBackslash(y, c, 5, t);
  }

  /** One written character reads back as itself. */
  lemma ParseEscapeChar(c: char, t: string)
    requires ParseString(t).Some?
    ensures ParseString(EscapeChar(c) + t) == Some(([c] + ParseString(t).value.0, ParseString(t).value.1))
  {
    if ShortEscape(c).Some? {
      ParseShortEscape(c, t);
    } else if EscapedAsUnicode(c) {
      ParseUnicodeEscape(c, t);
    } else {
      var s := EscapeChar(c) + t;
      assert EscapeChar(c) == [c];
      assert s[0] == c && s[1..] == t;
    }
  }

  lemma Regroup(a: string, b: string, q: string, r: string)
    ensures a + b + q + r == a + (b + q + r)
  {
  }

  lemma RegroupLast(p: string, e: string, q: string)
    ensures p + e + q == p + (e + q + "")
  {
  }

  lemma RegroupNext(p: string, e: string, q: string, c: string, t: string)
    ensures p + e + q + c + t == p + (e + q + (c + t))
  {
  }

  lemma EscapeCons(u: string, rest: string)
    requires u != []
    ensures Escape(u) + "\"" + rest == EscapeChar(u[0]) + (Escape(u[1..]) + "\"" + rest)
  {
    Regroup(EscapeChar(u[0]), Escape(u[1..]), "\"", rest);
  }

  /** The first literal of a list, with everything after its opening quote. */
  lemma ElementsHead(xs: seq<string>)
    requires xs != []
    ensures Elements(xs) == "\"" + (Escape(xs[0]) + "\"" + (if |xs| == 1 then "" else "," + Elements(xs[1..])))
  {
    if |xs| == 1 {
      RegroupLast("\"", Escape(xs[0]), "\"");
    } else {
      RegroupNext("\"", Escape(xs[0]), "\"", ",", Elements(xs[1..]));
    }
  }

  /** One more character in front of a literal that reads back. */
  lemma ParseEscapedCons(u: string, rest: string)
    requires u != []
    requires ParseString(Escape(u[1..]) + "\"" + rest) == Some((u[1..], rest))
    ensures ParseString(Escape(u) + "\"" + rest) == Some((u, rest))
  {
    var c, w := u[0], u[1..];
    ParseEscapeChar(c, Escape(w) + "\"" + rest);
    EscapeCons(u, rest);
    assert [c] + w == u;
  }

  /** An escaped string followed by a closing quote reads back as the original. */
  lemma {:induction false} ParseEscaped(u: string, rest: string)
    ensures ParseString(Escape(u) + "\"" + rest) == Some((u, rest))
    decreases |u|
  {
    if u == [] {
      assert Escape(u) + "\"" + rest == "\"" + rest;
    } else {
      ParseEscaped(u[1..], rest);
      ParseEscapedCons(u, rest);
    }
  }

  /** A literal followed by the end, or by a comma and more literals, reads as its contents first. */
  lemma ParseFirstElement(x: string, body: string, tail: string)
    requires ParseString(body) == Some((x, tail))
    requires tail == [] || tail[0] == ','
    ensures ParseElements("\"" + body) ==
      if tail == [] then Some([x])
      else match ParseElements(tail[1..])
        case None => None
        case Some(us) => Some([x] + us)
  {
    var s := "\"" + body;
    assert s[0] == '"' && s[1..] == body;
  }

  /** A one-element list reads back. */
  lemma ParseElementsSingle(xs: seq<string>)
    requires |xs| == 1
    ensures ParseElements(Elements(xs)) == Some(xs)
  {
    var body := Escape(xs[0]) + "\"" + "";
    ParseEscaped(xs[0], "");
    ParseFirstElement(xs[0], body, "");
    ElementsHead(xs);
    assert [xs[0]] == xs;
  }

  /** A literal followed by a comma and a list that reads back. */
  lemma ParseNextElement(x: string, body: string, e: string, ys: seq<string>)
    requires ParseString(body) == Some((x, "," + e))
    requires ParseElements(e) == Some(ys)
    ensures ParseElements("\"" + body) == Some([x] + ys)
  {
    ParseFirstElement(x, body, "," + e);
    assert ("," + e)[1..] == e;
  }

  /** The first literal of a longer list reads back, given that the rest of the list does. */
  lemma ParseElementsCons(xs: seq<string>)
    requires |xs| > 1
    requires ParseElements(Elements(xs[1..])) == Some(xs[1..])
    ensures ParseElements(Elements(xs)) == Some(xs)
  {
    var e := Elements(xs[1..]);
    var body := Escape(xs[0]) + "\"" + ("," + e);
    ParseEscaped(xs[0], "," + e);
    ParseNextElement(xs[0], body, e, xs[1..]);
    ElementsHead(xs);
    assert [xs[0]] + xs[1..] == xs;
  }

  lemma {:induction false} ParseElementsOfElements(xs: seq<string>)
    requires xs != []
    ensures ParseElements(Elements(xs)) == Some(xs)
    decreases |xs|
  {
    if |xs| == 1 {
      ParseElementsSingle(xs);
    } else {
      ParseElementsOfElements(xs[1..]);
      ParseElementsCons(xs);
    }
  }

  /** Unmarshal undoes Marshal: the registry list comes back element for element. */
  lemma DecodeEncode(xs: seq<string>)
    ensures Decode(Encode(xs)) == Some(xs)
  {
    var b := Encode(xs);
    assert b[1..|b| - 1] == Elements(xs);
    if xs != [] {
      ParseElementsOfElements(xs);
      assert Elements(xs)[0] == '"';
    }
  }

  /** Bytes that are no JSON list, such as the empty value of a missing key, do not decode. */
  lemma DecodeRejectsEmpty()
    ensures Decode("") == None
  {
  }
}
