/** Facts, their bounds and the name-based redaction policy of scorpion_app/src/iam.rs. */
module IamFacts {
  const IAM_MAX_FACTS: nat := 64
  const IAM_MAX_KEY_BYTES: nat := 256
  const IAM_MAX_VALUE_BYTES: nat := 16 * 1024
  const IAM_MAX_JSON_DEPTH: nat := 8

  const SENSITIVE_NAMES: seq<string> := [
    "code", "access_token", "refresh_token", "id_token", "client_secret", "password",
    "authorization", "cookie", "set-cookie", "samlresponse", "samlrequest"]

  /** A SHA-256 digest, known only by what it is the digest of. */
  datatype Digest = Sha256(plaintext: string)

  datatype Status = Observed(value: string) | NotValidated(value: string) | Redacted(digest: Digest)

  datatype Fact = Fact(name: string, status: Status)

  function Content(s: Status): string {
    match s
    case Observed(value) => value
    case NotValidated(value) => value
    case Redacted(digest) => digest.plaintext
  }

  function ToAsciiLower(s: string): string {
    if s == "" then ""
    else [if 'A' <= s[0] <= 'Z' then s[0] - 'A' + 'a' else s[0]] + ToAsciiLower(s[1..])
  }

  predicate Contains(names: seq<string>, name: string) {
    names != [] && (names[0] == name || Contains(names[1..], name))
  }

  predicate IsSensitiveName(name: string) {
    Contains(SENSITIVE_NAMES, ToAsciiLower(name))
  }

  lemma {:induction false} LowerAt(s: string, i: nat)
    requires i < |s|
    ensures |ToAsciiLower(s)| == |s|
    ensures ToAsciiLower(s)[i] == if 'A' <= s[i] <= 'Z' then s[i] - 'A' + 'a' else s[i]
    decreases |s|
  {
    if i > 0 {
      LowerAt(s[1..], i - 1);
    } else if |s| > 1 {
      LowerAt(s[1..], 0);
    } else {
      assert s[1..] == "";
    }
  }

  lemma {:induction false} ContainsIsIn(names: seq<string>, name: string)
    ensures Contains(names, name) <==> name in names
    decreases |names|
  {
    if names != [] {
      ContainsIsIn(names[1..], name);
    }
  }

  lemma CodeIsSensitive()
    ensures IsSensitiveName("code")
  {
    var s := "code";
    LowerAt(s, 0);
    LowerAt(s, 1);
    LowerAt(s, 2);
    LowerAt(s, 3);
    assert ToAsciiLower(s) == s == SENSITIVE_NAMES[0];
  }

  /** Every sensitive name has at least four letters. */
  lemma ShortNamesAreNotSensitive(name: string)
    requires 0 < |name| < 4
    ensures !IsSensitiveName(name)
  {
    LowerAt(name, 0);
    ContainsIsIn(SENSITIVE_NAMES, ToAsciiLower(name));
    assert forall i :: 0 <= i < |SENSITIVE_NAMES| ==> |SENSITIVE_NAMES[i]| >= 4;
  }
}
