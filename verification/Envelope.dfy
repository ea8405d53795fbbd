/**
 * Request envelopes and what is stripped from them before they are persisted. Text bodies are
 * modelled as the UTF-8 bytes Rust stores, so lengths are byte lengths.
 */
module Envelope {
  import opened Base
  import opened Forest

  datatype Payload =
    | Http(headers: seq<(string, string)>, body: Option<Bytes>)
    | OtherPayload(raw: Bytes)

  datatype Envelope = Envelope(id: Id, name: string, target: string, token: Option<string>,
                               runtimeSecrets: map<string, string>, payload: Payload)

  function Lower(c: char): char {
    if 'A' <= c <= 'Z' then (c as int + 32) as char else c
  }

  /** ASCII letters and digits only, in lower case. */
  function Normalized(name: string): string {
    if name == "" then ""
    else
      var c := name[0];
      (if 'a' <= c <= 'z' || 'A' <= c <= 'Z' || '0' <= c <= '9' then [Lower(c)] else []) + Normalized(name[1..])
  }

  predicate EndsWith(s: string, suffix: string) {
    |suffix| <= |s| && s[|s| - |suffix|..] == suffix
  }

  predicate SensitiveHeader(name: string) {
    var n := Normalized(name);
    || n in {"authorization", "proxyauthorization", "cookie", "setcookie", "apikey", "xapikey", "authtoken",
             "xauthtoken", "accesstoken", "xaccesstoken"}
    || EndsWith(n, "token") || EndsWith(n, "secret") || EndsWith(n, "password")
    || EndsWith(n, "passwd") || EndsWith(n, "apikey")
  }

  function KeepSafe(headers: seq<(string, string)>): seq<(string, string)> {
    if headers == [] then []
    else (if SensitiveHeader(headers[0].0) then [] else [headers[0]]) + KeepSafe(headers[1..])
  }

  /** The copy that may be written to disk: no token, no runtime secrets, no credential headers. */
  function Sanitize(e: Envelope): Envelope {
    var clean := e.(token := None, runtimeSecrets := map[]);
    if e.payload.Http? then clean.(payload := e.payload.(headers := KeepSafe(e.payload.headers))) else clean
  }

  lemma {:induction false} KeepSafeSnoc(headers: seq<(string, string)>, last: (string, string))
    ensures KeepSafe(headers + [last]) == if SensitiveHeader(last.0) then KeepSafe(headers) else KeepSafe(headers) + [last]
    decreases |headers|
  {
    hide SensitiveHeader;
    var all := headers + [last];
    if headers == [] {
      assert all[1..] == [];
    } else {
      assert all[1..] == headers[1..] + [last];
      KeepSafeSnoc(headers[1..], last);
    }
  }

  /** `at` lists exactly the positions of the safe headers, in order. */
  ghost predicate SafePositions(headers: seq<(string, string)>, at: seq<nat>) {
    && (forall i, j :: 0 <= i < j < |at| ==> at[i] < at[j])
    && (forall p: nat :: p in at <==> p < |headers| && !SensitiveHeader(headers[p].0))
  }

  ghost predicate Picks(headers: seq<(string, string)>, at: seq<nat>, kept: seq<(string, string)>) {
    |at| == |kept| && forall i :: 0 <= i < |at| ==> at[i] < |headers| && kept[i] == headers[at[i]]
  }

  lemma PositionsSnoc(front: seq<(string, string)>, last: (string, string), at: seq<nat>)
    requires SafePositions(front, at)
    ensures SafePositions(front + [last], if SensitiveHeader(last.0) then at else at + [|front|])
  {
    hide SensitiveHeader;
    var all := front + [last];
    forall p: nat | p < |front| ensures all[p] == front[p] {}
    forall i | 0 <= i < |at| ensures at[i] < |front| {
      assert at[i] in at;
    }
    if !SensitiveHeader(last.0) {
      forall p: nat ensures p in at + [|front|] <==> p < |all| && !SensitiveHeader(all[p].0) {
        assert p in at <==> p < |front| && !SensitiveHeader(front[p].0);
      }
    } else {
      forall p: nat ensures p in at <==> p < |all| && !SensitiveHeader(all[p].0) {
        assert p in at <==> p < |front| && !SensitiveHeader(front[p].0);
      }
    }
  }

  lemma PicksSnoc(front: seq<(string, string)>, last: (string, string), at: seq<nat>, kept: seq<(string, string)>)
    requires Picks(front, at, kept)
    ensures Picks(front + [last], at, kept) && Picks(front + [last], at + [|front|], kept + [last])
  {}

  lemma NoHeaders()
    ensures SafePositions([], []) && Picks([], [], KeepSafe([]))
  {}

  /** The headers kept are those at exactly the safe positions, in their order. */
  lemma {:induction false} KeepSafeKeepsExactlySafe(headers: seq<(string, string)>) returns (at: seq<nat>)
    ensures SafePositions(headers, at) && Picks(headers, at, KeepSafe(headers))
    decreases |headers|
  {
    hide SensitiveHeader, KeepSafe, SafePositions, Picks;
    if headers == [] {
      NoHeaders();
      at := [];
    } else {
      var front, last := headers[..|headers| - 1], headers[|headers| - 1];
      assert front + [last] == headers;
      var before := KeepSafeKeepsExactlySafe(front);
      PositionsSnoc(front, last, before);
      KeepSafeSnoc(front, last);
      PicksSnoc(front, last, before, KeepSafe(front));
      at := if SensitiveHeader(last.0) then before else before + [|front|];
    }
  }

  /** The HTTP body, if there is one. */
  function Body(e: Envelope): Option<Bytes> {
    if e.payload.Http? then e.payload.body else None
  }

  function WithBody(e: Envelope, body: Bytes): Envelope {
    if e.payload.Http? then e.(payload := e.payload.(body := Some(body))) else e
  }

  // ----- what is removed and what stays -----

  /** Sanitizing removes token, runtime secrets and exactly the headers named like a credential; the rest stays. */
  lemma SanitizeExactly(e: Envelope) returns (at: seq<nat>)
    ensures var c := Sanitize(e);
            && c.token.None? && c.runtimeSecrets == map[]
            && c.id == e.id && c.name == e.name && c.target == e.target && Body(c) == Body(e)
            && (e.payload.OtherPayload? ==> c.payload == e.payload)
            && (e.payload.Http? ==>
                  && c.payload.Http?
                  && SafePositions(e.payload.headers, at) && Picks(e.payload.headers, at, c.payload.headers))
  {
    at := [];
    if e.payload.Http? {
      at := KeepSafeKeepsExactlySafe(e.payload.headers);
    }
  }

  /** Nothing in the envelope can log anyone in. */
  ghost predicate NoCredentials(e: Envelope) {
    && e.token.None? && e.runtimeSecrets == map[]
    && (e.payload.Http? ==> forall i :: 0 <= i < |e.payload.headers| ==> !SensitiveHeader(e.payload.headers[i].0))
  }

  lemma SanitizedHasNoCredentials(e: Envelope)
    ensures NoCredentials(Sanitize(e))
  {
    var at := SanitizeExactly(e);
    hide SensitiveHeader, KeepSafe;
    if e.payload.Http? {
      var kept := Sanitize(e).payload.headers;
      forall i | 0 <= i < |kept| ensures !SensitiveHeader(kept[i].0) {
        assert at[i] in at;
      }
    }
  }

  lemma WithBodyHasNoCredentials(e: Envelope, body: Bytes)
    requires NoCredentials(e)
    ensures NoCredentials(WithBody(e, body))
  {}

  // ----- names of credentials -----

  lemma {:induction false} NormalizedAppend(a: string, b: string)
    ensures Normalized(a + b) == Normalized(a) + Normalized(b)
    decreases |a|
  {
    if a == "" {
      assert a + b == b;
    } else {
      assert (a + b)[1..] == a[1..] + b;
      NormalizedAppend(a[1..], b);
      NormalizedHead(a);
      NormalizedHead(a + b);
      hide Normalized;
      var head := Kept(a[0]);
      assert head + (Normalized(a[1..]) + Normalized(b)) == (head + Normalized(a[1..])) + Normalized(b);
    }
  }

  /** What one character contributes. */
  function Kept(c: char): string {
    if 'a' <= c <= 'z' || 'A' <= c <= 'Z' || '0' <= c <= '9' then [Lower(c)] else ""
  }

  lemma NormalizedHead(name: string)
    requires name != ""
    ensures Normalized(name) == Kept(name[0]) + Normalized(name[1..])
  {}

  lemma NormalizedChar(c: char)
    ensures Normalized([c]) == if 'a' <= c <= 'z' || 'A' <= c <= 'Z' || '0' <= c <= '9' then [Lower(c)] else ""
  {
    assert [c][1..] == "";
  }

  lemma NormalizedMiddle(a: string, c: char, b: string)
    ensures Normalized(a + [c] + b) == Normalized(a) + Normalized([c]) + Normalized(b)
  {
    NormalizedAppend(a + [c], b);
    NormalizedAppend(a, [c]);
  }

  lemma SameNormalized(a: string, b: string)
    requires Normalized(a) == Normalized(b)
    ensures SensitiveHeader(a) == SensitiveHeader(b)
  {}

  /** The case of a letter does not matter. */
  lemma CaseIgnored(a: string, c: char, d: char, b: string)
    requires 'A' <= c <= 'Z' && d as int == c as int + 32
    ensures SensitiveHeader(a + [c] + b) == SensitiveHeader(a + [d] + b)
  {
    NormalizedChar(c);
    NormalizedChar(d);
    NormalizedMiddle(a, c, b);
    NormalizedMiddle(a, d, b);
    hide SensitiveHeader, Normalized;
    SameNormalized(a + [c] + b, a + [d] + b);
  }

  /** Nor does punctuation. */
  lemma PunctuationIgnored(a: string, c: char, b: string)
    requires !('a' <= c <= 'z' || 'A' <= c <= 'Z' || '0' <= c <= '9')
    ensures SensitiveHeader(a + [c] + b) == SensitiveHeader(a + b)
  {
    NormalizedChar(c);
    NormalizedMiddle(a, c, b);
    NormalizedAppend(a, b);
    hide SensitiveHeader, Normalized;
    assert Normalized(a) + "" == Normalized(a);
    SameNormalized(a + [c] + b, a + b);
  }

  lemma {:induction false} NormalizedPlain(word: string)
    requires forall c :: c in word ==> 'a' <= c <= 'z'
    ensures Normalized(word) == word
    decreases |word|
  {
    if word != "" {
      assert word[0] in word && forall c :: c in word[1..] ==> c in word;
      NormalizedPlain(word[1..]);
      assert word == [word[0]] + word[1..];
    }
  }

  /** Plain words that are names of credentials. */
  lemma CredentialNames(word: string)
    requires forall c :: c in word ==> 'a' <= c <= 'z'
    requires word in {"authorization", "proxyauthorization", "cookie", "setcookie"}
    ensures SensitiveHeader(word)
  {
    NormalizedPlain(word);
    hide Normalized, EndsWith;
  }

  /** Plain words that make a credential of any name they end. */
  lemma CredentialEndings(prefix: string, word: string)
    requires forall c :: c in word ==> 'a' <= c <= 'z'
    requires word in {"apikey", "token", "secret", "password", "passwd"}
    ensures SensitiveHeader(prefix + word)
  {
    NormalizedPlain(word);
    NormalizedAppend(prefix, word);
    hide Normalized;
    var n := Normalized(prefix) + word;
    assert n[|n| - |word|..] == word;
    assert EndsWith(n, word);
    hide EndsWith;
  }

  /** An ordinary header is kept. */
  lemma OrdinaryName()
    ensures !SensitiveHeader("accept")
  {
    NormalizedPlain("accept");
    hide Normalized;
  }
}
