/** The string methods of the standard library that the modelled code uses. */
module Strings {
  import opened Results

  const LETTERS: string := "ABCDEFGHIJKLMNOPQRSTUVWXYZ"
  const SMALL_LETTERS: string := "abcdefghijklmnopqrstuvwxyz"

  /** `char::is_whitespace`: the Unicode property White_Space. */
  predicate IsWhitespace(c: char) {
    || '\t' <= c <= '\r'
    || c in " \U{85}\U{A0}\U{1680}"
    || '\U{2000}' <= c <= '\U{200A}'
    || c in "\U{2028}\U{2029}\U{202F}\U{205F}\U{3000}"
  }

  /** `str::split_once`, at the first `c`. */
  function SplitOnce(s: string, c: char): (r: Option<(string, string)>)
    ensures r.Some? ==> |r.value.0| < |s| && |r.value.1| < |s|
  {
    if s == "" then None
    else if s[0] == c then Some(("", s[1..]))
    else
      var rest := SplitOnce(s[1..], c);
      if rest.None? then None else Some(([s[0]] + rest.value.0, rest.value.1))
  }

  /** `str::split` */
  function Split(s: string, c: char): (pieces: seq<string>)
    ensures pieces != []
    decreases |s|
  {
    var parts := SplitOnce(s, c);
    if parts.None? then [s] else [parts.value.0] + Split(parts.value.1, c)
  }

  function Join(pieces: seq<string>, separator: string): string {
    if pieces == [] then ""
    else if |pieces| == 1 then pieces[0]
    else pieces[0] + separator + Join(pieces[1..], separator)
  }

  function StripPrefix(s: string, prefix: string): Option<string> {
    if prefix <= s then Some(s[|prefix|..]) else None
  }

  function TrimStart(s: string): (r: string)
    ensures |r| <= |s| && (r != "" ==> !IsWhitespace(r[0]))
  {
    if s != "" && IsWhitespace(s[0]) then TrimStart(s[1..]) else s
  }

  function TrimEnd(s: string): string {
    if s != "" && IsWhitespace(s[|s| - 1]) then TrimEnd(s[..|s| - 1]) else s
  }

  function Trim(s: string): string {
    TrimEnd(TrimStart(s))
  }

  /** The text up to the first whitespace. */
  function Word(s: string): (w: string)
    ensures |w| <= |s| && (s != "" && !IsWhitespace(s[0]) ==> w != "")
  {
    if s == "" || IsWhitespace(s[0]) then "" else [s[0]] + Word(s[1..])
  }

  /** `str::split_whitespace` */
  function Words(s: string): seq<string>
    decreases |s|
  {
    var t := TrimStart(s);
    if t == "" then [] else [Word(t)] + Words(t[|Word(t)|..])
  }

  /** A number in decimal. */
  function Decimal(n: nat): string {
    if n < 10 then [('0' as int + n) as char] else Decimal(n / 10) + [('0' as int + n % 10) as char]
  }

  function Zeros(n: nat): string {
    seq(n, _ => '0')
  }

  predicate AllDigits(s: string) {
    s == "" || ('0' <= s[|s| - 1] <= '9' && AllDigits(s[..|s| - 1]))
  }

  function DigitsValue(s: string): nat
    requires AllDigits(s)
  {
    if s == "" then 0 else DigitsValue(s[..|s| - 1]) * 10 + (s[|s| - 1] as int - '0' as int)
  }

  /** `str::parse` to an unsigned type of `limit` values. */
  function ParseUnsigned(s: string, limit: nat): Option<nat> {
    var digits := if s != "" && s[0] == '+' then s[1..] else s;
    if digits != "" && AllDigits(digits) && DigitsValue(digits) < limit then Some(DigitsValue(digits)) else None
  }

  // ----- Laws -----

  lemma {:induction false} SplitOnceFinds(a: string, c: char, b: string)
    requires c !in a
    ensures SplitOnce(a + [c] + b, c) == Some((a, b))
    decreases |a|
  {
    var s := a + [c] + b;
    if a == "" {
      assert s[1..] == b;
    } else {
      assert s[1..] == a[1..] + [c] + b;
      SplitOnceFinds(a[1..], c, b);
      assert [a[0]] + a[1..] == a;
    }
  }

  lemma {:induction false} SplitOnceMisses(s: string, c: char)
    requires c !in s
    ensures SplitOnce(s, c) == None
    decreases |s|
  {
    if s != "" {
      SplitOnceMisses(s[1..], c);
    }
  }

  /** Splitting undoes joining, for pieces without the separator. */
  lemma {:induction false} SplitJoin(pieces: seq<string>, c: char)
    requires pieces != [] && forall p :: p in pieces ==> c !in p
    ensures Split(Join(pieces, [c]), c) == pieces
    decreases |pieces|
  {
    assert pieces[0] in pieces;
    if |pieces| == 1 {
      SplitOnceMisses(pieces[0], c);
    } else {
      var rest := Join(pieces[1..], [c]);
      assert Join(pieces, [c]) == pieces[0] + [c] + rest;
      SplitOnceFinds(pieces[0], c, rest);
      SplitJoin(pieces[1..], c);
    }
  }

  predicate NoWhitespace(s: string) {
    forall c :: c in s ==> !IsWhitespace(c)
  }

  lemma {:induction false} WordEnds(w: string, space: char, rest: string)
    requires NoWhitespace(w) && IsWhitespace(space)
    ensures Word(w + [space] + rest) == w
    decreases |w|
  {
    var s := w + [space] + rest;
    if w != "" {
      assert s[1..] == w[1..] + [space] + rest;
      assert w[0] in w;
      WordEnds(w[1..], space, rest);
    }
  }

  lemma WordsStep(w: string, space: char, rest: string)
    requires w != "" && NoWhitespace(w) && IsWhitespace(space)
    ensures Words(w + [space] + rest) == [w] + Words(rest)
  {
    hide IsWhitespace;
    var s := w + [space] + rest;
    assert s[0] == w[0] && w[0] in w;
    assert TrimStart(s) == s;
    WordEnds(w, space, rest);
    assert s[|w|..] == [space] + rest;
    assert ([space] + rest)[1..] == rest;
    assert TrimStart([space] + rest) == TrimStart(rest);
  }

  lemma WordToTheEnd(w: string)
    requires NoWhitespace(w)
    ensures Word(w) == w
    decreases |w|
  {
    if w != "" {
      assert w[0] in w;
      WordToTheEnd(w[1..]);
    }
  }

  lemma LastWord(w: string)
    requires NoWhitespace(w)
    ensures Words(w) == if w == "" then [] else [w]
  {
    WordToTheEnd(w);
    hide IsWhitespace, Word;
    if w != "" {
      assert w[0] in w;
      assert TrimStart(w) == w;
      assert w[|w|..] == "";
    }
  }

  lemma Regroup(a: string, b: string, c: string, d: string, e: string)
    ensures a + b + c + d + e == a + b + (c + d + e)
  {
  }

  lemma TwoWords(first: string, second: string, tail: string)
    requires first != "" && second != "" && NoWhitespace(first) && NoWhitespace(second)
    ensures var words := Words(first + " " + second + " " + tail);
            |words| >= 2 && words[0] == first && words[1] == second
  {
    assert IsWhitespace(' ');
    hide IsWhitespace, NoWhitespace, Words;
    Regroup(first, " ", second, " ", tail);
    WordsStep(first, ' ', second + " " + tail);
    WordsStep(second, ' ', tail);
  }

  lemma {:induction false} DecimalDigits(n: nat)
    ensures Decimal(n) != "" && AllDigits(Decimal(n)) && DigitsValue(Decimal(n)) == n
    ensures forall c :: c in Decimal(n) ==> '0' <= c <= '9'
  {
    if n >= 10 {
      DecimalDigits(n / 10);
      var s := Decimal(n);
      assert s[..|s| - 1] == Decimal(n / 10);
    } else {
      assert Decimal(n)[..0] == "";
    }
  }

  /** Parsing undoes printing. */
  lemma ParseDecimal(n: nat, limit: nat)
    requires n < limit
    ensures ParseUnsigned(Decimal(n), limit) == Some(n)
  {
    DecimalDigits(n);
    assert Decimal(n)[0] in Decimal(n);
  }

  lemma ValueStep(s: string, c: char)
    requires AllDigits(s) && '0' <= c <= '9'
    ensures AllDigits(s + [c]) && DigitsValue(s + [c]) == DigitsValue(s) * 10 + (c as int - '0' as int)
  {
    assert (s + [c])[..|s|] == s;
  }

  /** Zeros in front do not count. */
  lemma {:induction false} ZerosInFront(zeros: nat, n: nat)
    ensures AllDigits(Zeros(zeros) + Decimal(n)) && DigitsValue(Zeros(zeros) + Decimal(n)) == n
    decreases zeros, n
  {
    if n < 10 {
      var last := ('0' as int + n) as char;
      if zeros > 0 {
        ZerosInFront(zeros - 1, 0);
        assert Zeros(zeros) == Zeros(zeros - 1) + Decimal(0);
      }
      ValueStep(Zeros(zeros), last);
    } else {
      var last := ('0' as int + n % 10) as char;
      ZerosInFront(zeros, n / 10);
      assert Zeros(zeros) + Decimal(n) == Zeros(zeros) + Decimal(n / 10) + [last];
      ValueStep(Zeros(zeros) + Decimal(n / 10), last);
    }
  }
}
