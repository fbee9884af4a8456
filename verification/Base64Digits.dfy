/** Base64 text as digits: the alphabet of RFC 4648, and the number that bytes and text share. */
module Base64Digits {
  import opened Utf8
  import opened Strings
  import opened Base64

  const OTHERS: string := "0123456789+/"

  /** `c` is the digit of value `n`: its place in table 1 of RFC 4648. */
  predicate Digit(c: char, n: int) {
    || (0 <= n < 26 && c == LETTERS[n])
    || (26 <= n < 52 && c == SMALL_LETTERS[n - 26])
    || (52 <= n < 64 && c == OTHERS[n - 52])
  }

  /** The digit that the byte `needed` is needed for. */
  predicate DigitOrPad(c: char, n: int, count: nat, needed: nat) {
    if count < needed then c == '=' && n == 0 else Digit(c, n)
  }

  /** Four characters and up to three bytes: the same bits, with padding for the bytes that are missing. */
  ghost predicate Quantum(t: string, count: nat, a: int, b: int, c: int) {
    && |t| == 4
    && exists d0, d1, d2, d3 ::
         && Digit(t[0], d0) && Digit(t[1], d1)
         && DigitOrPad(t[2], d2, count, 2) && DigitOrPad(t[3], d3, count, 3)
         && d0 * 262144 + d1 * 4096 + d2 * 64 + d3 == a * 65536 + b * 256 + c
  }

  ghost predicate Writes(text: string, bytes: seq<byte>)
    decreases |bytes|
  {
    if bytes == [] then text == ""
    else
      var count := if |bytes| < 3 then |bytes| else 3;
      && |text| >= 4
      && Quantum(text[..4], count, bytes[0], if count > 1 then bytes[1] else 0, if count > 2 then bytes[2] else 0)
      && Writes(text[4..], bytes[count..])
  }

  lemma SymbolIsDigit(n: sextet)
    ensures Digit(Symbol(n), n)
  {
    if n < 26 {
      LetterAt(n);
    } else if n < 52 {
      SmallLetterAt(n - 26);
    } else {
      OtherAt(n - 52);
    }
    hide LETTERS, SMALL_LETTERS, OTHERS;
  }

  lemma LetterAt(n: nat)
    requires n < 26
    ensures LETTERS[n] == ('A' as int + n) as char
  {
  }

  lemma SmallLetterAt(n: nat)
    requires n < 26
    ensures SMALL_LETTERS[n] == ('a' as int + n) as char
  {
  }

  lemma OtherAt(n: nat)
    requires n < 12
    ensures OTHERS[n] == Symbol(n + 52)
  {
  }

  lemma QuantumOf(t: string, count: nat, d0: int, d1: int, d2: int, d3: int, a: int, b: int, c: int)
    requires |t| == 4 && Digit(t[0], d0) && Digit(t[1], d1)
    requires DigitOrPad(t[2], d2, count, 2) && DigitOrPad(t[3], d3, count, 3)
    requires d0 * 262144 + d1 * 4096 + d2 * 64 + d3 == a * 65536 + b * 256 + c
    ensures Quantum(t, count, a, b, c)
  {
    hide Digit;
  }

  lemma QuadIsQuantum(a: byte, b: byte, c: byte)
    ensures Quantum(Quad(a, b, c), 3, a, b, c)
  {
    hide Symbol, Digit, Quantum;
    var d0: sextet, d1: sextet, d2: sextet, d3: sextet := a / 4, a % 4 * 16 + b / 16, b % 16 * 4 + c / 64, c % 64;
    SymbolIsDigit(d0);
    SymbolIsDigit(d1);
    SymbolIsDigit(d2);
    SymbolIsDigit(d3);
    SameBits(a, b, c);
    QuantumOf(Quad(a, b, c), 3, d0, d1, d2, d3, a, b, c);
  }

  lemma PaddedIsQuantum(a: byte, b: byte)
    ensures Quantum(PadTwo(a, b), 2, a, b, 0)
    ensures Quantum(PadOne(a), 1, a, 0, 0)
  {
    hide Symbol, Digit, Quantum;
    var d0: sextet, d1: sextet, d2: sextet, alone: sextet := a / 4, a % 4 * 16 + b / 16, b % 16 * 4, a % 4 * 16;
    SymbolIsDigit(d0);
    SymbolIsDigit(d1);
    SymbolIsDigit(d2);
    SymbolIsDigit(alone);
    SameBits(a, b, 0);
    SameBits(a, 0, 0);
    QuantumOf(PadTwo(a, b), 2, d0, d1, d2, 0, a, b, 0);
    QuantumOf(PadOne(a), 1, d0, alone, 0, 0, a, 0, 0);
  }

  /** The encoder writes the bits of the bytes in those digits, six at a time, and pads to four. */
  lemma {:induction false} EncodedIsWritten(bytes: seq<byte>)
    ensures Writes(EncodeBase64(bytes), bytes)
    decreases |bytes|
  {
    hide Quantum, Quad, PadOne, PadTwo;
    var text := EncodeBase64(bytes);
    if |bytes| >= 3 {
      QuadIsQuantum(bytes[0], bytes[1], bytes[2]);
      EncodedIsWritten(bytes[3..]);
      assert text[..4] == Quad(bytes[0], bytes[1], bytes[2]) && text[4..] == EncodeBase64(bytes[3..]);
    } else if bytes != [] {
      PaddedIsQuantum(bytes[0], if |bytes| > 1 then bytes[1] else 0);
      assert text[..4] == text && text[4..] == "" && bytes[|bytes|..] == [];
    }
  }

  lemma SameBits(a: byte, b: byte, c: byte)
    ensures a / 4 * 262144 + (a % 4 * 16 + b / 16) * 4096 + (b % 16 * 4 + c / 64) * 64 + c % 64
            == a * 65536 + b * 256 + c
  {
  }
}
