/** Go's string literals as selectors use them: `strconv.Quote`, `strconv.Unquote`, and the scan for a closing quote. */
module Quoting {
  import opened Wrappers

  // ---- Hexadecimal escapes

  function HexDigit(d: nat): (c: char)
    requires d < 16
    ensures Digit(c) == Some(d)
  {
    if d < 10 then '0' + d as char else 'a' + (d - 10) as char
  }

  function Hex(n: nat, width: nat): (r: string)
    ensures |r| == width
    ensures forall i :: 0 <= i < |r| ==> Digit(r[i]).Some?
  {
    if width == 0 then "" else Hex(n / 16, width - 1) + [HexDigit(n % 16)]
  }

  function Digit(c: char): Option<nat> {
    if '0' <= c <= '9' then Some(c as nat - '0' as nat)
    else if 'a' <= c <= 'f' then Some(c as nat - 'a' as nat + 10)
    else if 'A' <= c <= 'F' then Some(c as nat - 'A' as nat + 10)
    else None
  }

  function Unhex(s: string): Option<nat> {
    if s == "" then Some(0)
    else
      var high, low := Unhex(s[..|s| - 1]), Digit(s[|s| - 1]);
      if high.None? || low.None? then None else Some(16 * high.value + low.value)
  }

  function Power16(width: nat): nat {
    if width == 0 then 1 else 16 * Power16(width - 1)
  }

  lemma {:induction false} UnhexHex(n: nat, width: nat)
    requires n < Power16(width)
    ensures Unhex(Hex(n, width)) == Some(n)
  {
    hide Digit, HexDigit, Power16;
    if width == 0 {
      PowerStep(n, width);
    } else {
      PowerStep(n, width);
      HexStep(n, width);
      UnhexHex(n / 16, width - 1);
    }
  }

  lemma PowerStep(n: nat, width: nat)
    requires n < Power16(width)
    ensures if width == 0 then n == 0 else n / 16 < Power16(width - 1)
  {
  }

  lemma HexStep(n: nat, width: nat)
    requires width > 0
    ensures var s := Hex(n, width);
            s != "" && s[..|s| - 1] == Hex(n / 16, width - 1) && s[|s| - 1] == HexDigit(n % 16)
  {
    hide HexDigit;
  }

  // ---- Escaping

  /** The control characters with an escape of their own, and the letter that names them. */
  function Letter(c: char): Option<char> {
    match c as int
    case 7 => Some('a')
    case 8 => Some('b')
    case 9 => Some('t')
    case 10 => Some('n')
    case 11 => Some('v')
    case 12 => Some('f')
    case 13 => Some('r')
    case _ => None
  }

  function Named(c: char): Option<char> {
    match c
    case 'a' => Some(7 as char)
    case 'b' => Some(8 as char)
    case 't' => Some(9 as char)
    case 'n' => Some(10 as char)
    case 'v' => Some(11 as char)
    case 'f' => Some(12 as char)
    case 'r' => Some(13 as char)
    case _ => None
  }

  /** Printable characters stand for themselves; `printable` decides for those beyond ASCII. */
  function EscapeChar(c: char, printable: char -> bool): string {
    if c == '"' || c == '\\' then ['\\', c]
    else if ' ' <= c <= '~' then [c]
    else if Letter(c).Some? then ['\\', Letter(c).value]
    else if c as nat < 0x80 then ['\\', 'x'] + Hex(c as nat, 2)
    else if printable(c) then [c]
    else if c as nat < 0x10000 then ['\\', 'u'] + Hex(c as nat, 4)
    else ['\\', 'U'] + Hex(c as nat, 8)
  }

  function Escape(s: string, printable: char -> bool): string {
    if s == "" then "" else EscapeChar(s[0], printable) + Escape(s[1..], printable)
  }

  function Quote(s: string, printable: char -> bool): string {
    ['"'] + Escape(s, printable) + ['"']
  }

  // ---- Unescaping

  predicate IsScalar(n: nat) {
    n < 0xD800 || 0xE000 <= n < 0x11_0000
  }

  predicate IsOctal(c: char) {
    '0' <= c <= '7'
  }

  function Octal(a: char, b: char, c: char): nat
    requires IsOctal(a) && IsOctal(b) && IsOctal(c)
  {
    64 * (a as nat - '0' as nat) + 8 * (b as nat - '0' as nat) + (c as nat - '0' as nat)
  }

  /** A numeric escape of `width` hex digits; `limit` bounds its value. */
  function Numeric(s: string, width: nat, limit: nat): Option<(char, string)> {
    if |s| < 2 + width then None
    else
      var n := Unhex(s[2..2 + width]);
      if n.None? || n.value >= limit || !IsScalar(n.value) then None else Some((n.value as char, s[2 + width..]))
  }

  /** The first character of the inside of a double-quoted literal, and what follows it. */
  function UnescapeChar(s: string): (r: Option<(char, string)>)
    requires s != ""
    ensures r.Some? ==> |r.value.1| < |s|
  {
    if s[0] == '"' || s[0] == '\n' then None
    else if s[0] != '\\' then Some((s[0], s[1..]))
    else if |s| == 1 then None
    else if s[1] == '\\' || s[1] == '"' then Some((s[1], s[2..]))
    else if Named(s[1]).Some? then Some((Named(s[1]).value, s[2..]))
    else if s[1] == 'x' then Numeric(s, 2, 0x80)
    else if s[1] == 'u' then Numeric(s, 4, 0x11_0000)
    else if s[1] == 'U' then Numeric(s, 8, 0x11_0000)
    else if |s| >= 4 && IsOctal(s[1]) && IsOctal(s[2]) && IsOctal(s[3]) && Octal(s[1], s[2], s[3]) < 0x80 then
      Some((Octal(s[1], s[2], s[3]) as char, s[4..]))
    else None
  }

  function Unescape(s: string): Option<string> {
    if s == "" then Some("")
    else
      var head := UnescapeChar(s);
      if head.None? then None
      else
        var tail := Unescape(head.value.1);
        if tail.None? then None else Some([head.value.0] + tail.value)
  }

  /** Carriage returns inside a raw literal are dropped. */
  function DropReturns(s: string): string {
    if s == "" then "" else (if s[0] == '\r' then "" else [s[0]]) + DropReturns(s[1..])
  }

  function Unquote(q: string): Option<string> {
    if |q| < 2 || q[0] != q[|q| - 1] then None
    else
      var inside := q[1..|q| - 1];
      if q[0] == '`' then (if '`' in inside then None else Some(DropReturns(inside)))
      else if q[0] == '"' then Unescape(inside)
      else None
  }

  lemma NumericHex(letter: char, n: nat, width: nat, limit: nat, t: string)
    requires n < Power16(width) && n < limit && IsScalar(n)
    ensures Numeric(['\\', letter] + Hex(n, width) + t, width, limit) == Some((n as char, t))
  {
    hide Unhex, Hex, Power16;
    var s := ['\\', letter] + Hex(n, width) + t;
    assert s[2..2 + width] == Hex(n, width);
    assert s[2 + width..] == t;
    UnhexHex(n, width);
  }

  lemma UnescapeEscapedChar(c: char, printable: char -> bool, t: string)
    ensures UnescapeChar(EscapeChar(c, printable) + t) == Some((c, t))
  {
    hide Unhex, Hex, Numeric;
    var e := EscapeChar(c, printable);
    var s := e + t;
    assert s[|e|..] == t;
    assert forall i :: 0 <= i < |e| ==> s[i] == e[i];
    var n := c as nat;
    if c == '"' || c == '\\' || ' ' <= c <= '~' || Letter(c).Some? {
    } else if n < 0x80 {
      assert Power16(2) == 256;
      NumericHex('x', n, 2, 0x80, t);
    } else if !printable(c) && n < 0x10000 {
      assert Power16(4) == 0x10000;
      NumericHex('u', n, 4, 0x11_0000, t);
    } else if !printable(c) {
      assert Power16(8) == 0x1_0000_0000;
      NumericHex('U', n, 8, 0x11_0000, t);
    }
  }

  lemma {:induction false} UnescapeEscape(s: string, printable: char -> bool)
    ensures Unescape(Escape(s, printable)) == Some(s)
  {
    hide EscapeChar, UnescapeChar;
    if s == "" {
    } else {
      UnescapeEscapedChar(s[0], printable, Escape(s[1..], printable));
      EscapeNotEmpty(s[0], printable);
      UnescapeEscape(s[1..], printable);
      assert [s[0]] + s[1..] == s;
    }
  }

  lemma EscapeNotEmpty(c: char, printable: char -> bool)
    ensures EscapeChar(c, printable) != ""
  {
  }

  /** Unquoting a quoted string gives it back. */
  lemma UnquoteQuote(s: string, printable: char -> bool)
    ensures Unquote(Quote(s, printable)) == Some(s)
  {
    var q := Quote(s, printable);
    assert q[1..|q| - 1] == Escape(s, printable);
    UnescapeEscape(s, printable);
  }

  // ---- The closing quote

  /** Where a literal opened at the front of `q` closes, scanning from `i`. */
  function EndFrom(q: string, i: nat, escaped: bool): (r: int)
    requires q != "" && 1 <= i <= |q|
    ensures r < |q|
    decreases |q| - i
  {
    if i == |q| then -1
    else if q[0] == '`' then (if q[i] == '`' then i else EndFrom(q, i + 1, false))
    else if escaped then EndFrom(q, i + 1, false)
    else if q[i] == '\\' then EndFrom(q, i + 1, true)
    else if q[i] == q[0] then i
    else EndFrom(q, i + 1, false)
  }

  function QuotedEnd(q: string): int {
    if q == "" || (q[0] != '"' && q[0] != '`') then -1 else EndFrom(q, 1, false)
  }

  method QuotedStringEnd(q: string) returns (end: int)
    ensures end == QuotedEnd(q)
  {
    if |q| == 0 || (q[0] != '"' && q[0] != '`') {
      return -1;
    }
    var delimiter := q[0];
    var escaped := false;
    var i := 1;
    while i < |q|
      invariant 1 <= i <= |q|
      invariant EndFrom(q, i, escaped) == QuotedEnd(q)
    {
      if delimiter == '`' {
        if q[i] == delimiter {
          return i;
        }
        escaped := false;
      } else if escaped {
        escaped := false;
      } else if q[i] == '\\' {
        escaped := true;
      } else if q[i] == delimiter {
        return i;
      }
      i := i + 1;
    }
    end := -1;
  }

  /** The scan passes over an escaped character as a whole. */
  lemma EndPassesChar(q: string, i: nat, c: char, printable: char -> bool)
    requires q != "" && q[0] == '"' && 1 <= i
    requires i + |EscapeChar(c, printable)| <= |q| && q[i..i + |EscapeChar(c, printable)|] == EscapeChar(c, printable)
    ensures EndFrom(q, i, false) == EndFrom(q, i + |EscapeChar(c, printable)|, false)
  {
    var e := EscapeChar(c, printable);
    assert forall k :: 0 <= k < |e| ==> q[i..i + |e|][k] == e[k];
    assert q[i] == e[0];
    if |e| > 1 {
      assert q[i] == '\\';
      assert EndFrom(q, i, false) == EndFrom(q, i + 1, true) == EndFrom(q, i + 2, false);
    }
    if |e| > 2 {
      assert e[2..] == Hex(c as nat, |e| - 2);
      forall k | i + 2 <= k < i + |e| ensures q[k] != '"' && q[k] != '\\' {
        assert q[k] == q[i..i + |e|][k - i] == e[k - i] == e[2..][k - i - 2];
      }
      EndPassesPlain(q, i + 2, i + |e|);
    }
  }

  lemma {:induction false} EndPassesPlain(q: string, i: nat, j: nat)
    requires q != "" && q[0] == '"' && 1 <= i <= j <= |q|
    requires forall k :: i <= k < j ==> q[k] != '"' && q[k] != '\\'
    ensures EndFrom(q, i, false) == EndFrom(q, j, false)
    decreases j - i
  {
    if i >= j {
    } else {
      EndPassesPlain(q, i + 1, j);
    }
  }

  lemma {:induction false} EndPassesEscape(q: string, i: nat, s: string, printable: char -> bool)
    requires q != "" && q[0] == '"' && 1 <= i
    requires i + |Escape(s, printable)| <= |q| && q[i..i + |Escape(s, printable)|] == Escape(s, printable)
    ensures EndFrom(q, i, false) == EndFrom(q, i + |Escape(s, printable)|, false)
    decreases |s|
  {
    hide EscapeChar, EndFrom;
    if s == "" {
    } else {
      var e, rest := EscapeChar(s[0], printable), Escape(s[1..], printable);
      var part := q[i..i + |e| + |rest|];
      assert part == e + rest;
      assert q[i..i + |e|] == part[..|e|] == e;
      assert q[i + |e|..i + |e| + |rest|] == part[|e|..] == rest;
      EndPassesChar(q, i, s[0], printable);
      EndPassesEscape(q, i + |e|, s[1..], printable);
    }
  }

  /** A quoted string followed by anything closes at its own last quote. */
  lemma QuotedEndOfQuote(s: string, printable: char -> bool, t: string)
    ensures QuotedEnd(Quote(s, printable) + t) == |Quote(s, printable)| - 1
  {
    var q := Quote(s, printable) + t;
    assert q[1..1 + |Escape(s, printable)|] == Escape(s, printable);
    EndPassesEscape(q, 1, s, printable);
    assert q[|Quote(s, printable)| - 1] == '"';
  }

  // ---- Raw literals, and plain ones

  lemma {:induction false} DropJoin(a: string, b: string)
    ensures DropReturns(a + b) == DropReturns(a) + DropReturns(b)
  {
    if a == "" {
      assert a + b == b;
    } else {
      DropJoin(a[1..], b);
      DropFirst(a[0], a[1..] + b);
      DropFirst(a[0], a[1..]);
      hide DropReturns;
      assert a + b == [a[0]] + (a[1..] + b) && a == [a[0]] + a[1..];
    }
  }

  lemma DropFirst(c: char, s: string)
    ensures DropReturns([c] + s) == (if c == '\r' then "" else [c]) + DropReturns(s)
  {
    assert ([c] + s)[1..] == s;
  }

  /** A carriage return might as well not be there. */
  lemma DropsOne(a: string, b: string)
    ensures DropReturns(a + "\r" + b) == DropReturns(a + b)
  {
    DropFirst('\r', b);
    DropJoin(a, "\r" + b);
    DropJoin(a, b);
    hide DropReturns;
    assert a + "\r" + b == a + ("\r" + b);
    assert "\r" + b == ['\r'] + b;
  }

  lemma {:induction false} DropsReturns(s: string)
    ensures '\r' !in DropReturns(s) && ('\r' !in s ==> DropReturns(s) == s)
  {
    if s == "" {
    } else {
      DropsReturns(s[1..]);
      assert s == [s[0]] + s[1..];
    }
  }

  lemma RawUnquote(s: string)
    requires '`' !in s
    ensures Unquote("`" + s + "`") == Some(DropReturns(s))
  {
    var q := "`" + s + "`";
    assert q[1..|q| - 1] == s;
  }

  /** A raw literal without a backquote means its inside: as it stands when it has no carriage return, and otherwise as
      if each were not there. */
  lemma RawMeansInside(s: string)
    requires '`' !in s
    ensures Unquote("`" + s + "`").Some? && '\r' !in Unquote("`" + s + "`").value
    ensures '\r' !in s ==> Unquote("`" + s + "`") == Some(s)
    ensures forall a, b :: s == a + "\r" + b ==> Unquote("`" + s + "`") == Unquote("`" + (a + b) + "`")
  {
    RawUnquote(s);
    DropsReturns(s);
    forall a, b | s == a + "\r" + b ensures Unquote("`" + s + "`") == Unquote("`" + (a + b) + "`") {
      assert forall x :: x in a || x in b ==> x in a + "\r" + b;
      RawUnquote(a + b);
      DropsOne(a, b);
    }
  }

  lemma {:induction false} RawEndFrom(q: string, i: nat, j: nat)
    requires q != "" && q[0] == '`' && 1 <= i <= j < |q| && q[j] == '`'
    requires forall k :: i <= k < j ==> q[k] != '`'
    ensures EndFrom(q, i, false) == j
    decreases j - i
  {
    if i == j {
    } else {
      RawEndFrom(q, i + 1, j);
    }
  }

  /** A raw literal closes at its next backquote, whatever follows. */
  lemma QuotedEndOfRaw(s: string, t: string)
    requires '`' !in s
    ensures QuotedEnd("`" + s + "`" + t) == |s| + 1
  {
    var q := "`" + s + "`" + t;
    assert forall k :: 1 <= k < |s| + 1 ==> q[k] == s[k - 1];
    RawEndFrom(q, 1, |s| + 1);
  }

  /** The scan for the closing quote does not look past it. */
  lemma {:induction false} EndFromPrefix(q: string, t: string, i: nat, escaped: bool)
    requires q != "" && 1 <= i <= |q| && EndFrom(q, i, escaped) >= 0
    ensures EndFrom(q + t, i, escaped) == EndFrom(q, i, escaped)
    decreases |q| - i
  {
    var q1 := q + t;
    assert q1[0] == q[0] && (i < |q| ==> q1[i] == q[i]);
    if i == |q| {
    } else if q[0] == '`' {
      if q[i] != '`' { EndFromPrefix(q, t, i + 1, false); }
    } else if escaped {
      EndFromPrefix(q, t, i + 1, false);
    } else if q[i] == '\\' {
      EndFromPrefix(q, t, i + 1, true);
    } else if q[i] != q[0] {
      EndFromPrefix(q, t, i + 1, false);
    }
  }

  /** The scan looks no further than the end that it finds. */
  lemma {:induction false} EndFromCut(q: string, n: nat, i: nat, escaped: bool)
    requires q != "" && 1 <= i <= |q| && EndFrom(q, i, escaped) >= 0 && EndFrom(q, i, escaped) < n <= |q|
    ensures i < n && EndFrom(q[..n], i, escaped) == EndFrom(q, i, escaped)
    decreases |q| - i
  {
    EndFromStarts(q, i, escaped);
    if q[0] == '`' {
      if q[i] != '`' { EndFromCut(q, n, i + 1, false); }
    } else if escaped {
      EndFromCut(q, n, i + 1, false);
    } else if q[i] == '\\' {
      EndFromCut(q, n, i + 1, true);
    } else if q[i] != q[0] {
      EndFromCut(q, n, i + 1, false);
    }
  }

  lemma {:induction false} EndFromStarts(q: string, i: nat, escaped: bool)
    requires q != "" && 1 <= i <= |q| && EndFrom(q, i, escaped) >= 0
    ensures i <= EndFrom(q, i, escaped)
    decreases |q| - i
  {
    if i < |q| {
      var e := if escaped || q[0] == '`' then false else q[i] == '\\';
      if EndFrom(q, i, escaped) != i { EndFromStarts(q, i + 1, e); }
    }
  }

  /** A literal with nothing before or after: it means `s`, and closes at its last character. */
  predicate IsLiteral(q: string, s: string) {
    Unquote(q) == Some(s) && QuotedEnd(q) == |q| - 1
  }

  lemma {:induction false} UnescapePlain(s: string)
    requires '"' !in s && '\\' !in s && '\n' !in s
    ensures Unescape(s) == Some(s)
  {
    if s == "" {
    } else {
      UnescapePlain(s[1..]);
      assert s == [s[0]] + s[1..];
    }
  }

  /** Text without quotes, backslashes and line breaks stands for itself between double quotes. */
  lemma PlainMeansItself(s: string)
    requires '"' !in s && '\\' !in s && '\n' !in s
    ensures Unquote("\"" + s + "\"") == Some(s)
  {
    var q := "\"" + s + "\"";
    assert q[1..|q| - 1] == s;
    UnescapePlain(s);
  }
}
