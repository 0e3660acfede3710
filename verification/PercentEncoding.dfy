/** Form encoding of text, as `quote_plus` and `unquote_plus` do it. Text is the sequence of its UTF-8 bytes. */
module PercentEncoding {
  import opened Common

  /** A byte, written as the character with that code. */
  type Byte = c: char | c as int < 256 witness 'a'
  type Text = seq<Byte>

  /** Kept as they are (section 2.3 of RFC 3986). */
  predicate Unreserved(c: Byte) {
    'A' <= c <= 'Z' || 'a' <= c <= 'z' || '0' <= c <= '9' || c in {'_', '.', '-', '~'}
  }

  function Hex(n: nat): Byte
    requires n < 16
  {
    if n < 10 then ('0' as int + n) as char else ('A' as int + (n - 10)) as char
  }

  /** Both letter cases are read; only upper case is written. */
  function HexValue(c: Byte): (r: Option<nat>)
    ensures r.Some? ==> r.value < 16
  {
    if '0' <= c <= '9' then Some(c as int - '0' as int)
    else if 'A' <= c <= 'F' then Some(c as int - 'A' as int + 10)
    else if 'a' <= c <= 'f' then Some(c as int - 'a' as int + 10)
    else None
  }

  function QuoteByte(c: Byte): Text {
    if Unreserved(c) then [c]
    else if c == ' ' then ['+']
    else ['%', Hex(c as int / 16), Hex(c as int % 16)]
  }

  function Quote(s: Text): Text {
    if s == [] then [] else QuoteByte(s[0]) + Quote(s[1..])
  }

  predicate Escaped(s: Text) {
    |s| >= 3 && s[0] == '%' && HexValue(s[1]).Some? && HexValue(s[2]).Some?
  }

  function EscapedByte(s: Text): Byte
    requires Escaped(s)
  {
    (16 * HexValue(s[1]).value + HexValue(s[2]).value) as char
  }

  /** A percent sign without two hex digits after it stands for itself. */
  function Unquote(s: Text): Text {
    if s == [] then []
    else if Escaped(s) then [EscapedByte(s)] + Unquote(s[3..])
    else [if s[0] == '+' then ' ' else s[0]] + Unquote(s[1..])
  }

  /** Text that `Quote` could have written. */
  predicate Normal(s: Text) {
    if s == [] then true
    else if Escaped(s) then s[..3] == QuoteByte(EscapedByte(s)) && Normal(s[3..])
    else (Unreserved(s[0]) || s[0] == '+') && Normal(s[1..])
  }

  // ----- byte by byte -----

  /** The bytes that stay as they are, one by one; a space becomes a plus sign, and all others three bytes. */
  lemma KeptExactly(c: Byte)
    ensures QuoteByte(c) == [c] <==> c in {
      '0', '1', '2', '3', '4', '5', '6', '7', '8', '9',
      'a', 'b', 'c', 'd', 'e', 'f', 'g', 'h', 'i', 'j', 'k', 'l', 'm', 'n', 'o', 'p', 'q', 'r', 's', 't', 'u', 'v', 'w', 'x', 'y', 'z',
      'A', 'B', 'C', 'D', 'E', 'F', 'G', 'H', 'I', 'J', 'K', 'L', 'M', 'N', 'O', 'P', 'Q', 'R', 'S', 'T', 'U', 'V', 'W', 'X', 'Y', 'Z',
      '-', '.', '_', '~'}
    ensures QuoteByte(c) != [c] ==> if c == ' ' then QuoteByte(c) == ['+'] else |QuoteByte(c)| == 3 && QuoteByte(c)[0] == '%'
  {
  }

  lemma HexDigits(n: nat)
    requires n < 16
    ensures Hex(n) == "0123456789ABCDEF"[n]
    ensures HexValue("0123456789ABCDEF"[n]) == Some(n) == HexValue("0123456789abcdef"[n])
  {
  }

  lemma HexExactly(c: Byte)
    ensures HexValue(c).Some? <==> c in {
      '0', '1', '2', '3', '4', '5', '6', '7', '8', '9', 'a', 'b', 'c', 'd', 'e', 'f', 'A', 'B', 'C', 'D', 'E', 'F'}
  {
  }

  /** Escapes are read in either letter case, a plus sign is a space, and any other byte is itself. */
  lemma UnquoteFirst(s: Text)
    requires s != []
    ensures if |s| >= 3 && s[0] == '%' && HexValue(s[1]).Some? && HexValue(s[2]).Some?
            then Unquote(s) == [(16 * HexValue(s[1]).value + HexValue(s[2]).value) as char] + Unquote(s[3..])
            else Unquote(s) == [if s[0] == '+' then ' ' else s[0]] + Unquote(s[1..])
  {
  }

  // ----- quoting and unquoting undo each other -----

  lemma QuoteByteRead(c: Byte, rest: Text)
    ensures Unquote(QuoteByte(c) + rest) == [c] + Unquote(rest)
    ensures Normal(rest) ==> Normal(QuoteByte(c) + rest)
    ensures QuoteByte(c) + rest != []
  {
    var s := QuoteByte(c) + rest;
    if Unreserved(c) || c == ' ' {
      assert s[1..] == rest;
    } else {
      assert s[3..] == rest && s[..3] == QuoteByte(c);
      assert HexValue(s[1]) == Some(c as int / 16) && HexValue(s[2]) == Some(c as int % 16);
      assert EscapedByte(s) == c;
    }
  }

  lemma {:induction false} UnquoteQuote(s: Text)
    ensures Unquote(Quote(s)) == s && Normal(Quote(s))
    ensures Quote(s) == [] <==> s == []
  {
    if s != [] {
      UnquoteQuote(s[1..]);
      QuoteByteRead(s[0], Quote(s[1..]));
      assert s == [s[0]] + s[1..];
    }
  }

  lemma {:induction false} QuoteUnquoteNormal(s: Text)
    requires Normal(s)
    ensures Quote(Unquote(s)) == s
  {
    if s != [] {
      var n := if Escaped(s) then 3 else 1;
      var c := if Escaped(s) then EscapedByte(s) else if s[0] == '+' then ' ' else s[0];
      QuoteUnquoteNormal(s[n..]);
      assert Unquote(s)[0] == c && Unquote(s)[1..] == Unquote(s[n..]);
      assert QuoteByte(c) == s[..n];
      assert s == s[..n] + s[n..];
    }
  }

  /** Exactly the normal texts survive being decoded and encoded again. */
  lemma QuoteUnquote(s: Text)
    ensures Quote(Unquote(s)) == s <==> Normal(s)
  {
    UnquoteQuote(Unquote(s));
    if Normal(s) {
      QuoteUnquoteNormal(s);
    }
  }

  /** What quoted text is made of: in particular no `&`, `=` or `#`. */
  lemma {:induction false} NormalBytes(s: Text)
    requires Normal(s)
    ensures forall c | c in s :: Unreserved(c) || c == '+' || c == '%'
  {
    if s != [] {
      var n := if Escaped(s) then 3 else 1;
      NormalBytes(s[n..]);
      assert s == s[..n] + s[n..];
      assert forall c | c in s[..n] :: Unreserved(c) || c == '+' || c == '%';
    }
  }
}
