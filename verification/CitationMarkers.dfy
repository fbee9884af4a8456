/** The markers of a synthesis text as they are written, and the evidence each leads to. */
module CitationMarkers {
  import opened Results
  import opened Strings
  import opened Citations

  function Marker(zeros: nat, n: nat): string {
    "[Source " + (Zeros(zeros) + Decimal(n)) + "]"
  }

  /** `m` is a marker of a number above 0, leading zeros or not, for which there is evidence, where it
      stands in the text. */
  ghost predicate Leads(s: string, citations: map<nat, string>, m: Mark) {
    exists zeros, n ::
      && m.text == Marker(zeros, n) && n > 0
      && m.at + |m.text| <= |s| && s[m.at..m.at + |m.text|] == m.text
      && n in citations && citations[n] != "" && m.evidence == citations[n]
  }

  predicate Digits(s: string) {
    forall i :: 0 <= i < |s| ==> '0' <= s[i] <= '9'
  }

  // ----- Numbers -----

  lemma NumberStep(s: string, c: char)
    requires '0' <= c <= '9'
    ensures DigitsNumber(s + [c]) == DigitsNumber(s) * 10 + (c as int - '0' as int)
  {
    assert (s + [c])[..|s|] == s;
  }

  lemma {:induction false} ZerosAreNothing(zeros: nat)
    ensures DigitsNumber(Zeros(zeros)) == 0
    decreases zeros
  {
    if zeros > 0 {
      assert Zeros(zeros) == Zeros(zeros - 1) + ['0'];
      ZerosAreNothing(zeros - 1);
      NumberStep(Zeros(zeros - 1), '0');
    }
  }

  lemma {:induction false} NumberOfDecimal(zeros: nat, n: nat)
    ensures DigitsNumber(Zeros(zeros) + Decimal(n)) == n && Digits(Zeros(zeros) + Decimal(n))
    decreases n
  {
    DecimalDigits(n);
    if n < 10 {
      ZerosAreNothing(zeros);
      NumberStep(Zeros(zeros), ('0' as int + n) as char);
    } else {
      var last := ('0' as int + n % 10) as char;
      NumberOfDecimal(zeros, n / 10);
      assert Zeros(zeros) + Decimal(n) == Zeros(zeros) + Decimal(n / 10) + [last];
      NumberStep(Zeros(zeros) + Decimal(n / 10), last);
    }
  }

  lemma DecimalEndsIn(n: nat, c: char)
    requires '0' <= c <= '9'
    ensures var m := n * 10 + (c as int - '0' as int);
            Decimal(m) == if n == 0 then [c] else Decimal(n) + [c]
  {
    var d := c as int - '0' as int;
    assert (n * 10 + d) / 10 == n && (n * 10 + d) % 10 == d;
  }

  /** Digits of a number above 0 are its decimal form, behind zeros. */
  lemma {:induction false} DigitsAreDecimal(digits: string) returns (zeros: nat)
    requires Digits(digits) && DigitsNumber(digits) > 0
    ensures digits == Zeros(zeros) + Decimal(DigitsNumber(digits))
    decreases |digits|
  {
    assert DigitsNumber("") == 0;
    hide DigitsNumber, Decimal, Zeros;
    var before, last := digits[..|digits| - 1], digits[|digits| - 1];
    assert digits == before + [last] && Digits(before) && '0' <= last <= '9';
    hide Digits;
    NumberStep(before, last);
    zeros := |before|;
    if DigitsNumber(before) == 0 {
      AllZeros(before);
      DecimalEndsIn(0, last);
    } else {
      zeros := DigitsAreDecimal(before);
      DecimalEndsIn(DigitsNumber(before), last);
      Grouped(Zeros(zeros), Decimal(DigitsNumber(before)), last);
    }
  }

  lemma Grouped(a: string, b: string, c: char)
    ensures a + b + [c] == a + (b + [c])
  {
  }

  lemma {:induction false} AllZeros(digits: string)
    requires Digits(digits) && DigitsNumber(digits) == 0
    ensures digits == Zeros(|digits|)
    decreases |digits|
  {
    if digits != "" {
      var before, last := digits[..|digits| - 1], digits[|digits| - 1];
      assert digits == before + [last] && last in digits;
      NumberStep(before, last);
      assert Zeros(|digits|) == Zeros(|before|) + ['0'];
      hide DigitsNumber, Zeros;
      AllZeros(before);
    }
  }

  // ----- Matches -----

  lemma {:induction false} RunIs(s: string, i: nat, digits: string)
    requires i + |digits| < |s| && s[i..i + |digits|] == digits && Digits(digits) && !IsDigit(s[i + |digits|])
    ensures DigitRun(s, i) == |digits|
    decreases |digits|
  {
    if digits != "" {
      assert digits[0] in digits && s[i] == s[i..i + |digits|][0];
      assert s[i + 1..i + 1 + |digits[1..]|] == digits[1..];
      RunIs(s, i + 1, digits[1..]);
    }
  }

  lemma MarkerParts(s: string, i: nat, digits: string)
    requires var marker := "[Source " + digits + "]"; i + |marker| <= |s| && s[i..i + |marker|] == marker
    ensures s[i..i + 8] == "[Source " && s[i + 8..i + 8 + |digits|] == digits && s[i + 8 + |digits|] == ']'
  {
    var opening, marker := "[Source ", "[Source " + digits + "]";
    assert forall k :: 0 <= k < |marker| ==> s[i + k] == s[i..i + |marker|][k] == marker[k];
    assert forall k :: 0 <= k < 8 ==> marker[k] == opening[k];
    assert forall k :: 0 <= k < |digits| ==> marker[8 + k] == digits[k];
    forall k | 0 <= k < |digits| ensures s[i + 8 + k] == digits[k] {
      assert s[i + (8 + k)] == marker[8 + k];
    }
    assert s[i + (8 + |digits|)] == marker[8 + |digits|] == ']';
  }

  /** The pattern matches exactly where a marker is written. */
  lemma WrittenIsMatched(s: string, i: nat, digits: string)
    requires digits != "" && Digits(digits)
    requires var marker := "[Source " + digits + "]"; i + |marker| <= |s| && s[i..i + |marker|] == marker
    ensures MatchAt(s, i) == Some(|digits| + 9)
  {
    var marker := "[Source " + digits + "]";
    MarkerParts(s, i, digits);
    RunIs(s, i + 8, digits);
  }

  lemma MatchedIsWritten(s: string, i: nat) returns (digits: string)
    requires i <= |s| && MatchAt(s, i).Some?
    ensures digits != "" && Digits(digits) && s[i..i + MatchAt(s, i).value] == "[Source " + digits + "]"
  {
    var n := DigitRun(s, i + 8);
    digits := s[i + 8..i + 8 + n];
    assert s[i..i + n + 9] == s[i..i + 8] + digits + [s[i + 8 + n]];
  }

  lemma TargetOf(digits: string, citations: map<nat, string>)
    requires digits != ""
    ensures var n := DigitsNumber(digits);
            Target("[Source " + digits + "]", citations)
            == if n > 0 && n in citations && citations[n] != "" then Some(citations[n]) else None
  {
    var marker := "[Source " + digits + "]";
    assert marker[8..|marker| - 1] == digits;
  }

  // ----- Marks -----

  lemma MarkIsAt(s: string, citations: map<nat, string>, i: nat)
    requires i <= |s|
    ensures forall x :: x in MarkerAt(s, citations, i) ==> x.at == i
  {
    hide MatchAt, Target;
  }

  lemma {:induction false} MarksAreAt(s: string, citations: map<nat, string>, i: nat, m: Mark)
    requires i <= |s|
    ensures m in Markers(s, citations, i) <==> i <= m.at < |s| && m in MarkerAt(s, citations, m.at)
    decreases |s| - i
  {
    if i < |s| {
      MarkIsAt(s, citations, i);
      hide MarkerAt;
      MarksAreAt(s, citations, i + 1, m);
    }
  }

  lemma MarkLeads(s: string, citations: map<nat, string>, m: Mark)
    requires m.at < |s| && m in MarkerAt(s, citations, m.at)
    ensures Leads(s, citations, m)
  {
    hide MatchAt, Target, DigitsNumber;
    var digits := MatchedIsWritten(s, m.at);
    TargetOf(digits, citations);
    var zeros := DigitsAreDecimal(digits);
    assert m.text == Marker(zeros, DigitsNumber(digits));
  }

  lemma LeadingIsMark(s: string, citations: map<nat, string>, m: Mark)
    requires Leads(s, citations, m)
    ensures m.at < |s| && m in MarkerAt(s, citations, m.at)
  {
    var zeros, n :| && m.text == Marker(zeros, n) && n > 0
                    && m.at + |m.text| <= |s| && s[m.at..m.at + |m.text|] == m.text
                    && n in citations && citations[n] != "" && m.evidence == citations[n];
    DecimalDigits(n);
    NumberOfDecimal(zeros, n);
    hide Leads, Zeros, MatchAt, Target, DigitsNumber, Decimal;
    WrittenIsMark(s, citations, m, Zeros(zeros) + Decimal(n));
  }

  lemma WrittenIsMark(s: string, citations: map<nat, string>, m: Mark, digits: string)
    requires digits != "" && Digits(digits) && m.text == "[Source " + digits + "]"
    requires m.at + |m.text| <= |s| && s[m.at..m.at + |m.text|] == m.text
    requires var n := DigitsNumber(digits); n > 0 && n in citations && citations[n] != "" && m.evidence == citations[n]
    ensures m.at < |s| && m in MarkerAt(s, citations, m.at)
  {
    WrittenIsMatched(s, m.at, digits);
    TargetOf(digits, citations);
    hide MatchAt, Target, DigitsNumber, Digits;
    assert |m.text| == |digits| + 9;
  }

  /** There is a button for a place in the text exactly if a marker of a bound number is written
      there, and it opens the evidence of that number. */
  lemma MarkersLeadToTheirNumber(s: string, citations: map<nat, string>, m: Mark)
    ensures m in Markers(s, citations, 0) <==> Leads(s, citations, m)
  {
    hide Markers, MarkerAt, Leads;
    MarksAreAt(s, citations, 0, m);
    if Leads(s, citations, m) {
      LeadingIsMark(s, citations, m);
    } else if m.at < |s| && m in MarkerAt(s, citations, m.at) {
      MarkLeads(s, citations, m);
    }
  }

  /** In the order of the text, one for each place, from `i` on. */
  ghost predicate Ascend(marks: seq<Mark>, i: nat) {
    && (forall k :: 0 <= k < |marks| ==> marks[k].at >= i)
    && forall k, l :: 0 <= k < l < |marks| ==> marks[k].at < marks[l].at
  }

  lemma OneMore(here: seq<Mark>, rest: seq<Mark>, i: nat)
    requires |here| <= 1 && (here != [] ==> here[0].at == i) && Ascend(rest, i + 1)
    ensures Ascend(here + rest, i)
  {
    var marks := here + rest;
    forall k | 0 <= k < |marks| ensures marks[k].at >= i {
      assert k >= |here| ==> marks[k] == rest[k - |here|];
    }
    forall k, l | 0 <= k < l < |marks| ensures marks[k].at < marks[l].at {
      assert marks[l] == rest[l - |here|];
      assert k >= |here| ==> marks[k] == rest[k - |here|];
    }
  }

  /** The buttons come in the order of the text, one for each place. */
  lemma {:induction false} MarkersAscend(s: string, citations: map<nat, string>, i: nat)
    requires i <= |s|
    ensures Ascend(Markers(s, citations, i), i)
    decreases |s| - i
  {
    hide MatchAt, Target;
    if i < |s| {
      MarkersAscend(s, citations, i + 1);
      OneMore(MarkerAt(s, citations, i), Markers(s, citations, i + 1), i);
    }
  }
}
