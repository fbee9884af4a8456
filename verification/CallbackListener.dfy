/** The loopback listener of examples/mcp_oauth.rs: which request ends the wait, and how. */
module CallbackListener {
  import opened Results
  import opened Utf8
  import opened Strings
  import opened FormCodec

  /** How much the one read of a connection can take. */
  const READ_BYTES: nat := 2048

  datatype Verdict = Waiting | Denied(error: string) | StateMismatch | Code(code: string)

  /** The second word of the request, however it was encoded. */
  function Target(request: seq<byte>): string {
    var words := Words(DecodeLossy(request));
    if |words| >= 2 then words[1] else "/"
  }

  function Get(pairs: seq<(string, string)>, key: string): Option<string> {
    if pairs == [] then None else if pairs[0].0 == key then Some(pairs[0].1) else Get(pairs[1..], key)
  }

  /** What the parameters of a callback decide. */
  function JudgePairs(pairs: seq<(string, string)>, state: string): Verdict {
    if Get(pairs, "error").Some? then Denied(Get(pairs, "error").value)
    else if Get(pairs, "state") != Some(state) then StateMismatch
    else if Get(pairs, "code").Some? then Code(Get(pairs, "code").value)
    else Waiting
  }

  function Judge(request: seq<byte>, state: string): Verdict {
    if "/callback" <= Target(request) then JudgePairs(QueryPairs(Target(request)), state) else Waiting
  }

  /** One connection after another, `deliveries` being what each delivered to its one read; still
      waiting when none of them decided. */
  method WaitForCode(deliveries: seq<seq<byte>>, state: string) returns (verdict: Verdict)
    requires forall d :: d in deliveries ==> |d| <= READ_BYTES
    ensures verdict.Waiting? ==> forall i :: 0 <= i < |deliveries| ==> Judge(deliveries[i], state) == Waiting
    ensures !verdict.Waiting? ==>
              exists k :: 0 <= k < |deliveries| && Judge(deliveries[k], state) == verdict
                          && forall i :: 0 <= i < k ==> Judge(deliveries[i], state) == Waiting
  {
    hide Words, DecodeLossy, QueryPairs, Get;
    for next := 0 to |deliveries|
      invariant forall i :: 0 <= i < next ==> Judge(deliveries[i], state) == Waiting
    {
      var words := Words(DecodeLossy(deliveries[next]));
      var target := if |words| >= 2 then words[1] else "/";
      if !("/callback" <= target) {
        continue;
      }
      var params := QueryPairs(target);
      var error := Get(params, "error");
      if error.Some? {
        return Denied(error.value);
      }
      if Get(params, "state") != Some(state) {
        return StateMismatch;
      }
      var code := Get(params, "code");
      if code.Some? {
        return Code(code.value);
      }
    }
    return Waiting;
  }

  function CallbackTarget(pairs: seq<(string, string)>): string {
    "/callback?" + FormUrlencode(pairs)
  }

  /** The request a browser makes when it is sent back to the listener with `pairs`. */
  function Redirect(verb: string, pairs: seq<(string, string)>, rest: seq<byte>): seq<byte> {
    Encode(verb + " " + CallbackTarget(pairs) + " ") + rest
  }

  /** Where the target ends in the request: verb, space, target. */
  function TargetEnd(verb: string, pairs: seq<(string, string)>): nat {
    |verb| + 1 + |CallbackTarget(pairs)|
  }

  lemma CallbackIsOneWord(query: string)
    requires WordText(query)
    ensures WordText("/callback?" + query) && "/callback" <= "/callback?" + query
  {
    assert "/callback?" == "/callback" + "?";
  }

  lemma TargetWithin(verb: string, target: string, n: nat, rest: seq<byte>)
    requires verb != "" && WordText(verb) && target != "" && WordText(target)
    requires |verb| + 1 + |target| < n <= |Encode(verb + " " + target + " ") + rest|
    ensures Target((Encode(verb + " " + target + " ") + rest)[..n]) == target
  {
    var line := verb + " " + target + " ";
    assert Ascii(line);
    AsciiBytes(line);
    hide NoWhitespace, Words, Encode, DecodeLossy, Ascii;
    assert (Encode(line) + rest)[..n] == Encode(line) + rest[..n - |line|];
    DecodeEncodeThen(line, rest[..n - |line|]);
    TwoWords(verb, target, DecodeLossy(rest[..n - |line|]));
  }

  /** A request cut in its target or before it. */
  lemma TargetCut(verb: string, target: string, n: nat, rest: seq<byte>)
    requires verb != "" && WordText(verb) && WordText(target) && n <= |verb| + 1 + |target|
    ensures n <= |Encode(verb + " " + target + " ") + rest|
    ensures Target((Encode(verb + " " + target + " ") + rest)[..n])
            == if n <= |verb| + 1 then "/" else target[..n - |verb| - 1]
  {
    var line := verb + " " + target + " ";
    assert Ascii(line);
    AsciiCut(line, n);
    hide Words, Encode, DecodeLossy, Ascii;
    assert (Encode(line) + rest)[..n] == Encode(line)[..n] == Encode(line[..n]);
    DecodeEncode(line[..n]);
    if n <= |verb| {
      assert line[..n] == verb[..n];
      LastWord(verb[..n]);
    } else {
      var cut := target[..n - |verb| - 1];
      assert line[..n] == verb + " " + cut;
      assert IsWhitespace(' ');
      WordsStep(verb, ' ', cut);
      LastWord(cut);
    }
  }

  /** What the listener sees as the target when the first `n` bytes of the redirect are delivered. */
  lemma TargetOfRead(verb: string, pairs: seq<(string, string)>, rest: seq<byte>, n: nat)
    requires verb != "" && WordText(verb) && n <= |Redirect(verb, pairs, rest)|
    ensures var read, target := Target(Redirect(verb, pairs, rest)[..n]), CallbackTarget(pairs);
            read == if n <= |verb| + 1 then "/"
                    else if n <= TargetEnd(verb, pairs) then target[..n - |verb| - 1] else target
  {
    FormUrlencodeIsClean(pairs);
    CallbackIsOneWord(FormUrlencode(pairs));
    hide Target, Encode, WordText, FormUrlencode;
    if n <= TargetEnd(verb, pairs) {
      TargetCut(verb, CallbackTarget(pairs), n, rest);
    } else {
      TargetWithin(verb, CallbackTarget(pairs), n, rest);
    }
  }

  lemma TargetIsJudged(request: seq<byte>, pairs: seq<(string, string)>, state: string)
    requires Target(request) == CallbackTarget(pairs)
    ensures Judge(request, state) == JudgePairs(pairs, state)
  {
    FormUrlencodeIsClean(pairs);
    CallbackIsOneWord(FormUrlencode(pairs));
    hide Target, FormUrlencode, WordText, JudgePairs;
    assert "/callback?" + FormUrlencode(pairs) == "/callback" + "?" + FormUrlencode(pairs);
    QueryRoundTrip("/callback", pairs);
  }

  /** The target arrives whole exactly when the bytes read reach to its end; and then, whatever
      values the authorization server sent back, the listener decides on those very values. */
  lemma RedirectIsJudgedByItsPairs(verb: string, pairs: seq<(string, string)>, rest: seq<byte>, n: nat, state: string)
    requires verb != "" && WordText(verb) && n <= |Redirect(verb, pairs, rest)|
    ensures var read := Redirect(verb, pairs, rest)[..n];
            && (Target(read) == CallbackTarget(pairs) <==> TargetEnd(verb, pairs) <= n)
            && (TargetEnd(verb, pairs) <= n ==> Judge(read, state) == JudgePairs(pairs, state))
  {
    TargetOfRead(verb, pairs, rest, n);
    var read, target := Redirect(verb, pairs, rest)[..n], CallbackTarget(pairs);
    assert |target| > 1;
    assert target[..|target|] == target;
    hide Target, Redirect, CallbackTarget, WordText, Judge, JudgePairs;
    if TargetEnd(verb, pairs) <= n {
      TargetIsJudged(read, pairs, state);
    }
  }

  // ----- A code that does not fit -----

  function CodePairs(state: string, code: string): seq<(string, string)> {
    [("state", state), ("code", code)]
  }

  function BeforeCode(state: string): string {
    "/callback?state=" + PercentEncode(state) + "&code="
  }

  lemma CodeTarget(state: string, code: string)
    requires Plain(code)
    ensures CallbackTarget(CodePairs(state, code)) == BeforeCode(state) + code
  {
    PlainIsItsOwnEncoding("state");
    PlainIsItsOwnEncoding("code");
    PlainIsItsOwnEncoding(code);
    hide PercentEncode, Plain;
    TwoPairs("state", state, "code", code);
    Spelled(PercentEncode(state), code);
  }

  /** Cutting such a code cuts the target. */
  lemma CodeTargets(state: string, code: string)
    requires Plain(code)
    ensures forall k | 0 <= k <= |code| :: CallbackTarget(CodePairs(state, code[..k])) == BeforeCode(state) + code[..k]
    ensures CallbackTarget(CodePairs(state, "")) == BeforeCode(state)
    ensures CallbackTarget(CodePairs(state, code)) == BeforeCode(state) + code
  {
    assert Plain("");
    forall k | 0 <= k <= |code|
      ensures CallbackTarget(CodePairs(state, code[..k])) == BeforeCode(state) + code[..k]
    {
      assert Plain(code[..k]);
      hide Plain, CallbackTarget, BeforeCode;
      CodeTarget(state, code[..k]);
    }
    hide Plain, CallbackTarget, BeforeCode;
    CodeTarget(state, "");
    CodeTarget(state, code);
    assert BeforeCode(state) + "" == BeforeCode(state);
  }

  lemma TwoPairs(key: string, value: string, key': string, value': string)
    ensures FormUrlencode([(key, value), (key', value')])
            == PercentEncode(key) + "=" + PercentEncode(value)
               + "&" + (PercentEncode(key') + "=" + PercentEncode(value'))
  {
    hide PercentEncode;
    var pairs := [(key, value), (key', value')];
    var first, second := PercentEncode(key) + "=" + PercentEncode(value),
                         PercentEncode(key') + "=" + PercentEncode(value');
    assert pairs[1..] == [(key', value')] && pairs[1..][1..] == [];
    assert EncodePairs(pairs[1..]) == [second];
    assert EncodePairs(pairs) == [first, second];
    assert [first, second][1..] == [second] && Join([second], "&") == second;
    assert Join([first, second], "&") == first + "&" + second;
  }

  lemma Spelled(value: string, code: string)
    ensures "/callback?" + ("state" + "=" + value + "&" + ("code" + "=" + code))
            == "/callback?state=" + value + "&code=" + code
  {
    assert "/callback?" + "state" + "=" == "/callback?state=";
    assert "&" + "code" + "=" == "&code=";
    Apart("/callback?", "state", "=", value, "&", "code", code);
  }

  lemma Apart(a: string, b: string, c: string, d: string, e: string, f: string, g: string)
    ensures a + (b + c + d + e + (f + c + g)) == (a + b + c) + d + (e + f + c) + g
  {
  }

  lemma CodePairsJudged(state: string, code: string)
    ensures JudgePairs(CodePairs(state, code), state) == Code(code)
  {
    var pairs := CodePairs(state, code);
    assert pairs[1..] == [("code", code)] && pairs[1..][1..] == [];
    assert Get(pairs[1..][1..], "error") == None;
    assert Get(pairs[1..], "error") == None && Get(pairs[1..], "code") == Some(code);
  }

  /** When the bytes end inside the code, what was read of it passes for the code. */
  lemma LongCodesAreCut(verb: string, state: string, code: string, rest: seq<byte>, n: nat)
    requires verb != "" && WordText(verb) && Plain(code)
    requires TargetEnd(verb, CodePairs(state, "")) <= n < TargetEnd(verb, CodePairs(state, code))
    ensures var kept := n - TargetEnd(verb, CodePairs(state, ""));
            && kept < |code| && n <= |Redirect(verb, CodePairs(state, code), rest)|
            && Judge(Redirect(verb, CodePairs(state, code), rest)[..n], state) == Code(code[..kept])
  {
    CodeTargets(state, code);
    hide Plain, WordText, CallbackTarget, Redirect, Target, Judge, JudgePairs, BeforeCode;
    var kept := n - TargetEnd(verb, CodePairs(state, ""));
    assert |code[..0]| == 0;
    RedirectLength(verb, CodePairs(state, code), rest);
    TargetOfRead(verb, CodePairs(state, code), rest, n);
    assert (BeforeCode(state) + code)[..|BeforeCode(state)| + kept] == BeforeCode(state) + code[..kept];
    var read := Redirect(verb, CodePairs(state, code), rest)[..n];
    TargetIsJudged(read, CodePairs(state, code[..kept]), state);
    CodePairsJudged(state, code[..kept]);
  }

  lemma RedirectLength(verb: string, pairs: seq<(string, string)>, rest: seq<byte>)
    requires WordText(verb)
    ensures TargetEnd(verb, pairs) < |Redirect(verb, pairs, rest)|
  {
    FormUrlencodeIsClean(pairs);
    CallbackIsOneWord(FormUrlencode(pairs));
    var line := verb + " " + CallbackTarget(pairs) + " ";
    assert Ascii(line);
    AsciiBytes(line);
  }

  /** The first 2048 bytes hold 2021 letters of such a code. */
  lemma AcceptedCodeCanBeCut(letters: nat)
    requires letters > 2021
    ensures var code := seq(letters, _ => 'a');
            && READ_BYTES <= |Redirect("GET", CodePairs("s", code), [])|
            && Judge(Redirect("GET", CodePairs("s", code), [])[..READ_BYTES], "s") == Code(code[..2021])
  {
    var code := seq(letters, _ => 'a');
    assert Plain(code) && WordText("GET") && |"GET"| == 3;
    hide PercentEncode, CallbackTarget, Redirect, Judge, Plain, WordText, BeforeCode;
    LetterHead();
    CodeTarget("s", "");
    CodeTarget("s", code);
    LongCodesAreCut("GET", "s", code, [], READ_BYTES);
  }

  lemma LetterHead()
    ensures |BeforeCode("s")| == 23 && Plain("")
  {
    PlainIsItsOwnEncoding("s");
    hide PercentEncode;
  }
}
