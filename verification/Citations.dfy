/** `appendSynthesisWithCitations` in the page of scorpion_app/src/main.rs: synthesis text is cut
    at its "[Source N]" markers, and those with a binding become buttons. */
module Citations {
  import opened Results

  const OPENING := "[Source "

  predicate IsDigit(c: char) {
    '0' <= c <= '9'
  }

  /** How many digits stand at `i`. */
  function DigitRun(s: string, i: nat): (n: nat)
    requires i <= |s|
    ensures i + n <= |s| && (i + n < |s| ==> !IsDigit(s[i + n])) && forall k :: i <= k < i + n ==> IsDigit(s[k])
    decreases |s| - i
  {
    if i < |s| && IsDigit(s[i]) then 1 + DigitRun(s, i + 1) else 0
  }

  /** The length of the match of the pattern that begins at `i`, if one does. */
  function MatchAt(s: string, i: nat): (r: Option<nat>)
    requires i <= |s|
    ensures r.Some? ==> r.value >= 10 && i + r.value <= |s|
    ensures r.Some? ==> s[i] == '[' && forall k :: i < k < i + r.value ==> s[k] != '['
  {
    if i + 8 > |s| || s[i..i + 8] != OPENING then None
    else
      var n := DigitRun(s, i + 8);
      if n == 0 || i + 8 + n >= |s| || s[i + 8 + n] != ']' then None
      else
        assert forall k :: i <= k < i + 8 ==> s[k] == OPENING[k - i];
        Some(n + 9)
  }

  function DigitsNumber(digits: string): nat {
    if digits == "" then 0
    else DigitsNumber(digits[..|digits| - 1]) * 10
         + (if IsDigit(digits[|digits| - 1]) then digits[|digits| - 1] as int - '0' as int else 0)
  }

  /** The number in a marker. */
  function SourceNumber(marker: string): nat {
    if |marker| < 10 then 0 else DigitsNumber(marker[8..|marker| - 1])
  }

  /** The evidence a marker leads to; an empty reference counts as none. */
  function Target(marker: string, citations: map<nat, string>): Option<string> {
    var n := SourceNumber(marker);
    if n > 0 && n in citations && citations[n] != "" then Some(citations[n]) else None
  }

  datatype Piece = Plain(text: string) | Button(text: string, evidence: string)

  datatype Mark = Mark(at: nat, text: string, evidence: string)

  /** The text of the pieces put together. */
  function Shown(pieces: seq<Piece>): string {
    if pieces == [] then "" else Shown(pieces[..|pieces| - 1]) + pieces[|pieces| - 1].text
  }

  /** The buttons, each with its place in that text. */
  function Buttons(pieces: seq<Piece>): seq<Mark> {
    if pieces == [] then []
    else
      var before, last := pieces[..|pieces| - 1], pieces[|pieces| - 1];
      Buttons(before) + if last.Button? then [Mark(|Shown(before)|, last.text, last.evidence)] else []
  }

  /** The bound markers that begin at `i` or after, every position tried. */
  function Markers(s: string, citations: map<nat, string>, i: nat): seq<Mark>
    requires i <= |s|
    decreases |s| - i
  {
    if i == |s| then []
    else MarkerAt(s, citations, i) + Markers(s, citations, i + 1)
  }

  function MarkerAt(s: string, citations: map<nat, string>, i: nat): seq<Mark>
    requires i <= |s|
  {
    if MatchAt(s, i).None? then []
    else
      var marker := s[i..i + MatchAt(s, i).value];
      if Target(marker, citations).Some? then [Mark(i, marker, Target(marker, citations).value)] else []
  }

  /** `exec` of the pattern: where the leftmost match at `from` or after begins. */
  function NextMatch(s: string, from: nat): (r: Option<nat>)
    requires from <= |s|
    ensures r.Some? ==> from <= r.value < |s| && MatchAt(s, r.value).Some?
    ensures forall k :: from <= k < (if r.Some? then r.value else |s|) ==> MatchAt(s, k).None?
    decreases |s| - from
  {
    if MatchAt(s, from).Some? then Some(from) else if from == |s| then None else NextMatch(s, from + 1)
  }

  lemma {:induction false} NoMarkersBetween(s: string, citations: map<nat, string>, from: nat, to: nat)
    requires from <= to <= |s| && forall k :: from <= k < to ==> MatchAt(s, k).None?
    ensures Markers(s, citations, from) == Markers(s, citations, to)
    decreases |s| - from
  {
    if from < to {
      NoMarkersBetween(s, citations, from + 1, to);
    }
  }

  /** Inside a marker no other begins, so going on behind it skips none. */
  lemma MarkersAfterMatch(s: string, citations: map<nat, string>, i: nat)
    requires i <= |s| && MatchAt(s, i).Some?
    ensures Markers(s, citations, i) == MarkerAt(s, citations, i) + Markers(s, citations, i + MatchAt(s, i).value)
  {
    hide MatchAt, Target;
    forall k | i < k < i + MatchAt(s, i).value
      ensures MatchAt(s, k).None?
    {
      assert s[k] != '[';
    }
    NoMarkersBetween(s, citations, i + 1, i + MatchAt(s, i).value);
  }

  lemma Appended(pieces: seq<Piece>, piece: Piece)
    ensures Shown(pieces + [piece]) == Shown(pieces) + piece.text
    ensures Buttons(pieces + [piece])
            == Buttons(pieces) + if piece.Button? then [Mark(|Shown(pieces)|, piece.text, piece.evidence)] else []
  {
    assert (pieces + [piece])[..|pieces|] == pieces;
  }

  lemma ShownNothing()
    ensures Shown([]) == "" && Buttons([]) == []
    ensures forall s: string, citations :: Markers(s, citations, |s|) == []
  {
  }

  /** `summary` has been dealt with up to `i`. */
  ghost predicate DoneTo(container: seq<Piece>, summary: string, citations: map<nat, string>, i: nat) {
    && i <= |summary| && Shown(container) == summary[..i]
    && Buttons(container) + Markers(summary, citations, i) == Markers(summary, citations, 0)
    && forall p :: p in container ==> p.text != ""
  }

  /** The plain text before a marker. */
  method AppendText(container: seq<Piece>, summary: string, ghost citations: map<nat, string>, from: nat, to: nat)
    returns (grown: seq<Piece>)
    requires from <= to <= |summary| && DoneTo(container, summary, citations, from)
    requires forall k :: from <= k < to ==> MatchAt(summary, k).None?
    ensures DoneTo(grown, summary, citations, to)
  {
    hide MatchAt, Markers, Shown, Buttons;
    NoMarkersBetween(summary, citations, from, to);
    grown := container;
    if from < to {
      Appended(container, Plain(summary[from..to]));
      grown := container + [Plain(summary[from..to])];
      assert summary[..from] + summary[from..to] == summary[..to];
    }
  }

  /** The marker at `index`. */
  method AppendMarker(container: seq<Piece>, summary: string, citations: map<nat, string>,
                      index: nat) returns (grown: seq<Piece>)
    requires DoneTo(container, summary, citations, index) && MatchAt(summary, index).Some?
    ensures DoneTo(grown, summary, citations, index + MatchAt(summary, index).value)
  {
    hide MatchAt, Target, Markers, Shown, Buttons;
    MarkersAfterMatch(summary, citations, index);
    var marker := summary[index..index + MatchAt(summary, index).value];
    assert summary[..index] + marker == summary[..index + |marker|];
    var evidence := Target(marker, citations);
    var piece := if evidence.Some? then Button(marker, evidence.value) else Plain(marker);
    Appended(container, piece);
    grown := container + [piece];
  }

  /** No text is lost, and the buttons are exactly the bound markers, in place. */
  method AppendSynthesisWithCitations(summary: string, citations: map<nat, string>) returns (container: seq<Piece>)
    ensures Shown(container) == summary
    ensures Buttons(container) == Markers(summary, citations, 0)
    ensures forall p :: p in container ==> p.text != ""
  {
    hide MatchAt, Markers, NextMatch, Shown, Buttons;
    ShownNothing();
    container := [];
    var lastIndex: nat := 0;
    var found := NextMatch(summary, lastIndex);
    while found.Some?
      invariant DoneTo(container, summary, citations, lastIndex)
      invariant found == NextMatch(summary, lastIndex)
      decreases |summary| - lastIndex
    {
      container := AppendText(container, summary, citations, lastIndex, found.value);
      container := AppendMarker(container, summary, citations, found.value);
      lastIndex := found.value + MatchAt(summary, found.value).value;
      found := NextMatch(summary, lastIndex);
    }
    container := AppendText(container, summary, citations, lastIndex, |summary|);
    assert summary[..|summary|] == summary;
  }
}
