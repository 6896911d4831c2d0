/**
 Decimal numbers and JSON strings, the two spellings the record header uses.
 Byte strings are Dafny strings with one character a byte, so text stands for
 its UTF-8 encoding.
 */
module Text {
  import opened Wrappers

  predicate IsDigit(c: char) {
    '0' <= c <= '9'
  }

  function Dec(n: nat): (s: string)
    ensures |s| > 0
    ensures forall i | 0 <= i < |s| :: IsDigit(s[i])
    decreases n
  {
    var last := [('0' as int + n % 10) as char];
    if n < 10 then last else Dec(n / 10) + last
  }

  /** Reads digits greedily, continuing from the value `acc`. */
  function TakeNat(s: string, acc: nat): (nat, string)
    decreases |s|
  {
    if s != "" && IsDigit(s[0]) then TakeNat(s[1..], acc * 10 + (s[0] as int - '0' as int))
    else (acc, s)
  }

  lemma {:induction false} TakeNatReadsDec(n: nat, rest: string)
    ensures TakeNat(Dec(n) + rest, 0) == TakeNat(rest, n)
    decreases n
  {
    var d := ('0' as int + n % 10) as char;
    assert ([d] + rest)[1..] == rest;
    if n >= 10 {
      assert Dec(n) + rest == Dec(n / 10) + ([d] + rest);
      TakeNatReadsDec(n / 10, [d] + rest);
    }
  }

  function ParseNat(s: string): Option<(nat, string)> {
    if s == "" || !IsDigit(s[0]) then None else Some(TakeNat(s, 0))
  }

  /** What precedes the first non-digit is exactly the number. */
  lemma ParseNatInvertsDec(n: nat, rest: string)
    requires rest == "" || !IsDigit(rest[0])
    ensures ParseNat(Dec(n) + rest) == Some((n, rest))
  {
    TakeNatReadsDec(n, rest);
    assert (Dec(n) + rest)[0] == Dec(n)[0];
  }

  const HEX := "0123456789abcdef"

  function HexValue(c: char): Option<nat> {
    if '0' <= c <= '9' then Some(c as int - '0' as int)
    else if 'a' <= c <= 'f' then Some(c as int - 'a' as int + 10)
    else None
  }

  function EscapeChar(c: char): (r: string)
    ensures |r| > 0
  {
    if c == '"' then "\\\""
    else if c == '\\' then "\\\\"
    else if c == '\n' then "\\n"
    else if c == '\r' then "\\r"
    else if c == '\t' then "\\t"
    else if c as int == 8 then "\\b"
    else if c as int == 12 then "\\f"
    else if c < ' ' then "\\u00" + [HEX[c as int / 16], HEX[c as int % 16]]
    else [c]
  }

  /** The inside of a JSON string, without its quotes. */
  function Escape(s: string): string {
    if s == "" then "" else EscapeChar(s[0]) + Escape(s[1..])
  }

  /** One escape sequence after its backslash: the character and what follows. */
  function ParseEscape(s: string): Option<(char, string)> {
    if s == "" then None
    else match s[0]
      case '"' => Some(('"', s[1..]))
      case '\\' => Some(('\\', s[1..]))
      case 'n' => Some(('\n', s[1..]))
      case 'r' => Some(('\r', s[1..]))
      case 't' => Some(('\t', s[1..]))
      case 'b' => Some((8 as char, s[1..]))
      case 'f' => Some((12 as char, s[1..]))
      case 'u' =>
        if |s| >= 5 && s[1] == '0' && s[2] == '0' && HexValue(s[3]).Some? && HexValue(s[4]).Some? then
          Some(((HexValue(s[3]).value * 16 + HexValue(s[4]).value) as char, s[5..]))
        else None
      case _ => None
  }

  /** The text up to the closing quote, and what follows the quote. */
  function ParseString(s: string): (r: Option<(string, string)>)
    decreases |s|
  {
    if s == "" then None
    else if s[0] == '"' then Some(("", s[1..]))
    else
      var step := if s[0] == '\\' then ParseEscape(s[1..]) else Some((s[0], s[1..]));
      if step.None? || |step.value.1| >= |s| then None
      else
        var tail := ParseString(step.value.1);
        if tail.None? then None else Some(([step.value.0] + tail.value.0, tail.value.1))
  }

  lemma EscapedCharParses(c: char, rest: string)
    ensures var s := EscapeChar(c) + rest;
            s[0] != '"' &&
            (if s[0] == '\\' then ParseEscape(s[1..]) == Some((c, rest)) else c == s[0] && s[1..] == rest)
  {
    var e := EscapeChar(c);
    var s := e + rest;
    assert s[1..] == e[1..] + rest;
    assert |e| == 2 ==> s[1..][1..] == rest;
    assert |e| == 6 ==> s[1..][5..] == rest;
  }

  lemma {:induction false} ParseStringInvertsEscape(t: string, rest: string)
    ensures ParseString(Escape(t) + "\"" + rest) == Some((t, rest))
  {
    hide EscapeChar, ParseEscape;
    var s := Escape(t) + "\"" + rest;
    if t == "" {
      assert s == "\"" + rest;
      assert s[1..] == rest;
    } else {
      var tail := Escape(t[1..]) + "\"" + rest;
      assert s == EscapeChar(t[0]) + tail;
      EscapedCharParses(t[0], tail);
      ParseStringInvertsEscape(t[1..], rest);
      assert t == [t[0]] + t[1..];
    }
  }

  /** Drops the literal `lit` from the front, or fails. */
  function Expect(lit: string, s: string): Option<string> {
    if lit <= s then Some(s[|lit|..]) else None
  }

  lemma ExpectLiteral(lit: string, rest: string)
    ensures Expect(lit, lit + rest) == Some(rest)
  {
    assert (lit + rest)[..|lit|] == lit;
    assert (lit + rest)[|lit|..] == rest;
  }

  /** Text sorts by character, a prefix first. */
  predicate TextLeq(a: string, b: string)
    decreases |a|
  {
    a == "" || (b != "" && (a[0] < b[0] || (a[0] == b[0] && TextLeq(a[1..], b[1..]))))
  }

  lemma {:induction false} TextOrder(a: string, b: string, c: string)
    ensures TextLeq(a, b) || TextLeq(b, a)
    ensures TextLeq(a, b) && TextLeq(b, a) ==> a == b
    ensures TextLeq(a, b) && TextLeq(b, c) ==> TextLeq(a, c)
    decreases |a|
  {
    if a != "" && b != "" {
      TextOrder(a[1..], b[1..], if c == "" then c else c[1..]);
      assert a == [a[0]] + a[1..] && b == [b[0]] + b[1..];
    }
  }

  /** The first character that differs decides, and a prefix comes first. */
  lemma {:induction false} TextLeqExactly(common: string, a: string, b: string)
    requires a != "" && b != "" ==> a[0] != b[0]
    ensures TextLeq(common + a, common + b) <==> a == "" || (b != "" && a[0] < b[0])
  {
    if common == "" {
      assert common + a == a && common + b == b;
    } else {
      assert (common + a)[1..] == common[1..] + a && (common + b)[1..] == common[1..] + b;
      TextLeqExactly(common[1..], a, b);
    }
  }
}
