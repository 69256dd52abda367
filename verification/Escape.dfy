/** The escaped text form of etcd byte strings: the printer (`std::ascii::escape_default` applied
    byte by byte) and the parser that reads it back. */
module Escape {
  import opened ByteStrings

  datatype ParseError = InvalidHex | InvalidByte | UnexpectedEof

  datatype Parsed = Ok(bytes: Bytes) | Err(error: ParseError)

  /** `char::to_digit(16)`, upper case included. */
  function HexValue(c: byte): (r: Option<int>)
    ensures r.Some? ==> 0 <= r.value < 16
  {
    if 48 <= c <= 57 then Some(c - 48)
    else if 97 <= c <= 102 then Some(c - 87)
    else if 65 <= c <= 70 then Some(c - 55)
    else None
  }

  function EscapeByte(b: byte): Bytes {
    if b == 9 then [92, 116]
    else if b == 13 then [92, 114]
    else if b == 10 then [92, 110]
    else if b == 39 || b == 34 || b == 92 then [92, b]
    else if 0x20 <= b <= 0x7e then [b]
    else [92, 120, HexDigit(b / 16), HexDigit(b % 16)]
  }

  function Print(bytes: Bytes): Bytes {
    if bytes == [] then [] else EscapeByte(bytes[0]) + Print(bytes[1..])
  }

  /** One byte read from the front of the text: its value and the number of characters it took. */
  datatype Token = Token(value: byte, width: nat) | Bad(error: ParseError)

  function ReadToken(s: Bytes): (t: Token)
    requires s != []
    ensures t.Token? ==> 0 < t.width <= |s|
  {
    if s[0] == 92 then
      if |s| < 2 then Bad(UnexpectedEof)
      else if s[1] == 116 then Token(9, 2)
      else if s[1] == 114 then Token(13, 2)
      else if s[1] == 110 then Token(10, 2)
      else if s[1] == 39 || s[1] == 34 || s[1] == 92 then Token(s[1], 2)
      else if s[1] == 120 then
        if |s| < 3 then Bad(UnexpectedEof)
        else if HexValue(s[2]).None? then Bad(InvalidHex)
        else if |s| < 4 then Bad(UnexpectedEof)
        else if HexValue(s[3]).None? then Bad(InvalidHex)
        else Token(HexValue(s[2]).value * 16 + HexValue(s[3]).value, 4)
      else Bad(InvalidByte)
    else if 0x20 <= s[0] <= 0x7e then Token(s[0], 1)
    else Bad(InvalidByte)
  }

  function Prepend(front: Bytes, p: Parsed): Parsed {
    if p.Ok? then Ok(front + p.bytes) else p
  }

  function Parse(s: Bytes): Parsed
    decreases |s|
  {
    if s == [] then Ok([])
    else
      match ReadToken(s)
      case Bad(e) => Err(e)
      case Token(b, width) => Prepend([b], Parse(s[width..]))
  }

  lemma ReadEscaped(b: byte, rest: Bytes)
    ensures ReadToken(EscapeByte(b) + rest) == Token(b, |EscapeByte(b)|)
  {
    if !(0x20 <= b <= 0x7e) && b != 9 && b != 13 && b != 10 {
      var t := EscapeByte(b) + rest;
      assert t[2] == HexDigit(b / 16) && t[3] == HexDigit(b % 16);
    }
  }

  /** Parsing the printed form of any byte string gives it back. */
  lemma {:induction false} RoundTrip(bytes: Bytes)
    ensures Parse(Print(bytes)) == Ok(bytes)
  {
    if bytes != [] {
      var rest := Print(bytes[1..]);
      ReadEscaped(bytes[0], rest);
      assert Print(bytes)[|EscapeByte(bytes[0])|..] == rest;
      RoundTrip(bytes[1..]);
      assert [bytes[0]] + bytes[1..] == bytes;
    }
  }

  lemma PrintInjective(a: Bytes, b: Bytes)
    requires Print(a) == Print(b)
    ensures a == b
  {
    RoundTrip(a);
    RoundTrip(b);
  }

  /** Every text that parses has a canonical spelling: printable ASCII, parsing to the same bytes,
      and shared exactly by the texts that mean the same. */
  lemma CanonicalSpelling(s: Bytes, t: Bytes)
    requires Parse(s).Ok? && Parse(t).Ok?
    ensures Parse(Print(Parse(s).bytes)) == Parse(s)
    ensures forall c :: c in Print(Parse(s).bytes) ==> 0x20 <= c <= 0x7e
    ensures Print(Parse(s).bytes) == Print(Parse(t).bytes) <==> Parse(s) == Parse(t)
  {
    RoundTrip(Parse(s).bytes);
    RoundTrip(Parse(t).bytes);
    PrintIsAscii(Parse(s).bytes);
  }

  lemma {:induction false} PrintIsAscii(bytes: Bytes)
    ensures forall c :: c in Print(bytes) ==> 0x20 <= c <= 0x7e
  {
    if bytes != [] { PrintIsAscii(bytes[1..]); }
  }

  /** The grammar: the spellings of one byte, stated on its own. */
  predicate Spells(b: byte, word: Bytes) {
    || (word == [b] && 0x20 <= b <= 0x7e && b != 92)
    || (word == [92, b] && b in {39, 34, 92})
    || (word == [92, 116] && b == 9)
    || (word == [92, 114] && b == 13)
    || (word == [92, 110] && b == 10)
    || (|word| == 4 && word[0] == 92 && word[1] == 120
        && HexValue(word[2]).Some? && HexValue(word[3]).Some?
        && b == HexValue(word[2]).value * 16 + HexValue(word[3]).value)
  }

  /** The text is a spelling of each byte in turn. */
  ghost predicate Spelled(s: Bytes, bytes: Bytes)
    decreases |bytes|, 1
  {
    if bytes == [] then s == [] else exists n :: SpelledAt(s, bytes, n)
  }

  /** The first byte is spelled by the first n characters. */
  ghost predicate SpelledAt(s: Bytes, bytes: Bytes, n: nat)
    requires bytes != []
    decreases |bytes|, 0
  {
    0 < n <= |s| && Spells(bytes[0], s[..n]) && Spelled(s[n..], bytes[1..])
  }

  lemma ReadSpelling(b: byte, word: Bytes, rest: Bytes)
    requires Spells(b, word)
    ensures ReadToken(word + rest) == Token(b, |word|)
  {
    var t := word + rest;
    assert forall i :: 0 <= i < |word| ==> t[i] == word[i];
  }

  lemma ParseSpelling(b: byte, word: Bytes, rest: Bytes)
    requires Spells(b, word)
    ensures Parse(word + rest) == Prepend([b], Parse(rest))
  {
    ReadSpelling(b, word, rest);
    assert (word + rest)[|word|..] == rest;
  }

  lemma TokenSpells(s: Bytes)
    requires s != [] && ReadToken(s).Token?
    ensures Spells(ReadToken(s).value, s[..ReadToken(s).width])
  {
  }

  lemma {:induction false} ParsedIsSpelled(s: Bytes)
    requires Parse(s).Ok?
    ensures Spelled(s, Parse(s).bytes)
    decreases |s|
  {
    if s != [] {
      var t := ReadToken(s);
      TokenSpells(s);
      ParsedIsSpelled(s[t.width..]);
      assert Parse(s).bytes[1..] == Parse(s[t.width..]).bytes;
      assert SpelledAt(s, Parse(s).bytes, t.width);
    }
  }

  lemma SpelledStep(s: Bytes, bytes: Bytes, n: nat)
    requires bytes != [] && n <= |s| && Spells(bytes[0], s[..n]) && Parse(s[n..]) == Ok(bytes[1..])
    ensures Parse(s) == Ok(bytes)
  {
    ParseSpelling(bytes[0], s[..n], s[n..]);
    assert s[..n] + s[n..] == s && [bytes[0]] + bytes[1..] == bytes;
  }

  lemma {:induction false} SpelledParses(s: Bytes, bytes: Bytes)
    requires Spelled(s, bytes)
    ensures Parse(s) == Ok(bytes)
    decreases |bytes|
  {
    if bytes != [] {
      var n: nat :| SpelledAt(s, bytes, n);
      SpelledParses(s[n..], bytes[1..]);
      SpelledStep(s, bytes, n);
    }
  }

  /** The parser accepts exactly the spellings, with the bytes they spell. */
  lemma ParsesIffSpelled(s: Bytes, bytes: Bytes)
    ensures Parse(s) == Ok(bytes) <==> Spelled(s, bytes)
  {
    if Parse(s).Ok? { ParsedIsSpelled(s); }
    if Spelled(s, bytes) { SpelledParses(s, bytes); }
  }

  /** The parser in its own form: a loop that pushes one byte per token. */
  method FromStr(s: Bytes) returns (r: Parsed)
    ensures r == Parse(s)
  {
    var bytes: Bytes := [];
    var i := 0;
    while i < |s|
      invariant 0 <= i <= |s|
      invariant Parse(s) == Prepend(bytes, Parse(s[i..]))
      decreases |s| - i
    {
      var t := ReadToken(s[i..]);
      if t.Bad? { return Err(t.error); }
      assert s[i..][t.width..] == s[i + t.width..];
      ghost var rest := Parse(s[i + t.width..]);
      assert rest.Ok? ==> (bytes + [t.value]) + rest.bytes == bytes + ([t.value] + rest.bytes);
      bytes := bytes + [t.value];
      i := i + t.width;
    }
    assert s[i..] == [];
    assert bytes + [] == bytes;
    r := Ok(bytes);
  }
}
