/** The letters of JSON (sections 2 and 7 of RFC 8259), told from the characters they are:
    structural marks, blanks, short escapes, hexadecimal digits and surrogate pairs. Any
    text can be written with escapes alone and is read back. */
module JsonLiterals {
  import opened FieldSearch
  import JsonDocument
  import opened JsonString
  import opened Options
  import opened Utf8

  lemma MarksAreTheirLetters()
    ensures [QUOTE as char, BACKSLASH as char, LETTER_U as char] == ['"', '\\', 'u']
    ensures [COLON as char, COMMA as char] == [':', ',']
    ensures [LBRACE as char, JsonDocument.RBRACE as char] == ['{', '}']
    ensures [JsonDocument.LBRACKET as char, JsonDocument.RBRACKET as char] == ['[', ']']
    ensures forall b: Byte :: IsSpace(b) <==> b as char in {' ', '\t', '\r', '\n'}
  {
  }

  /** The eight letters that may be escaped, in the order of what they stand for. */
  lemma ShortEscapesMean(c: Byte, v: int)
    ensures ShortEscape(c) == Some(v) <==>
      (c as char, v) in {('"', 0x22), ('\\', 0x5C), ('/', 0x2F), ('b', 8), ('f', 0xC), ('n', 0xA), ('r', 0xD), ('t', 9)}
  {
  }

  // ---------------------------------------------------------------- hexadecimal digits

  /** The digit of a value below 16. */
  function HexLetter(d: nat, upper: bool): Byte
    requires d < 16
  {
    if d < 10 then '0' as int + d else (if upper then 'A' else 'a') as int + (d - 10)
  }

  lemma HexLetters(b: Byte)
    ensures IsHex(b) <==> exists d: nat, upper: bool :: d < 16 && HexLetter(d, upper) == b
    ensures forall d: nat, upper: bool :: d < 16 && HexLetter(d, upper) == b ==> HexDigit(b) == d
  {
    if IsHex(b) {
      assert HexLetter(HexDigit(b), b < 97) == b;
    }
  }

  /** A code unit as an escape. */
  function Escape(u: nat, upper: bool): (item: Item)
    requires u < 0x10000
    ensures item.Unicode?
  {
    Unicode([HexLetter(u / 16 / 16 / 16, upper), HexLetter(u / 16 / 16 % 16, upper), HexLetter(u / 16 % 16, upper),
             HexLetter(u % 16, upper)])
  }

  lemma Nibbles(u: nat)
    ensures u == u / 16 / 16 / 16 * 4096 + u / 16 / 16 % 16 * 256 + u / 16 % 16 * 16 + u % 16
  {
  }

  lemma EscapeMeans(u: nat, upper: bool)
    requires u < 0x10000
    ensures Unit(Escape(u, upper)) == u
  {
    var a, b, c, d := u / 16 / 16 / 16, u / 16 / 16 % 16, u / 16 % 16, u % 16;
    HexLetters(HexLetter(a, upper));
    HexLetters(HexLetter(b, upper));
    HexLetters(HexLetter(c, upper));
    HexLetters(HexLetter(d, upper));
    assert Unit(Escape(u, upper)) == a * 4096 + b * 256 + c * 16 + d;
    Nibbles(u);
  }

  // -------------------------------------------------------------------- surrogate pairs

  /** Every pair of halves makes one character beyond the first 65536, each of them by
      exactly one pair. */
  lemma PairsAreCharacters(hi: int, lo: int, cp: int)
    requires High(hi) && Low(lo)
    ensures 0x10000 <= Pair(hi, lo) < 0x110000
    ensures Pair(hi, lo) == cp <==> hi == 0xD800 + (cp - 0x10000) / 0x400 && lo == 0xDC00 + (cp - 0x10000) % 0x400
  {
  }

  /** A character written with escapes alone. */
  function Escaped(cp: int, upper: bool): seq<Item>
    requires Scalar(cp)
  {
    if cp < 0x10000 then [Escape(cp, upper)]
    else [Escape(0xD800 + (cp - 0x10000) / 0x400, upper), Escape(0xDC00 + (cp - 0x10000) % 0x400, upper)]
  }

  function EscapedText(text: seq<int>, upper: bool): seq<Item>
    requires forall i :: 0 <= i < |text| ==> Scalar(text[i])
  {
    if text == [] then [] else Escaped(text[0], upper) + EscapedText(text[1..], upper)
  }

  lemma OneEscaped(cp: int, upper: bool, rest: seq<Item>)
    requires Scalar(cp)
    ensures Meaning(Escaped(cp, upper) + rest) == [cp] + Meaning(rest)
  {
    var items := Escaped(cp, upper) + rest;
    if cp < 0x10000 {
      EscapeMeans(cp, upper);
      assert items[1..] == rest;
    } else {
      var hi, lo := 0xD800 + (cp - 0x10000) / 0x400, 0xDC00 + (cp - 0x10000) % 0x400;
      EscapeMeans(hi, upper);
      EscapeMeans(lo, upper);
      PairsAreCharacters(hi, lo, cp);
      assert items[2..] == rest;
    }
  }

  /** Written with escapes alone, in capitals or not, any text is read back. */
  lemma {:induction false} EscapedIsRead(text: seq<int>, upper: bool)
    requires forall i :: 0 <= i < |text| ==> Scalar(text[i])
    ensures Meaning(EscapedText(text, upper)) == text
    ensures Unquote(Body(EscapedText(text, upper))) == Some(text)
  {
    if text != [] {
      EscapedIsRead(text[1..], upper);
      OneEscaped(text[0], upper, EscapedText(text[1..], upper));
    }
    UnquoteBody(EscapedText(text, upper));
  }
}
