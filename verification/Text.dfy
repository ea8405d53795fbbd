/** String helpers the source takes from Rust's standard library. */
module Text {
  /** The characters with the Unicode `White_Space` property, which `str::trim` removes. */
  predicate IsWhitespace(c: char) {
    || '\U{0009}' <= c <= '\U{000D}'
    || c == ' ' || c == '\U{0085}' || c == '\U{00A0}' || c == '\U{1680}'
    || '\U{2000}' <= c <= '\U{200A}'
    || c == '\U{2028}' || c == '\U{2029}' || c == '\U{202F}' || c == '\U{205F}' || c == '\U{3000}'
  }

  function TrimStart(s: string): string {
    if s != [] && IsWhitespace(s[0]) then TrimStart(s[1..]) else s
  }

  function TrimEnd(s: string): string {
    if s != [] && IsWhitespace(s[|s| - 1]) then TrimEnd(s[..|s| - 1]) else s
  }

  function Trim(s: string): string {
    TrimEnd(TrimStart(s))
  }

  ghost predicate AllWhitespace(s: string) {
    forall c :: c in s ==> IsWhitespace(c)
  }

  /** What is trimmed is white space, and none is left at either end. */
  lemma TrimIs(s: string) returns (left: string, right: string)
    ensures s == left + Trim(s) + right && AllWhitespace(left) && AllWhitespace(right)
    ensures Trim(s) != "" ==> !IsWhitespace(Trim(s)[0]) && !IsWhitespace(Trim(s)[|Trim(s)| - 1])
  {
    left := TrimStartIs(s);
    right := TrimEndIs(TrimStart(s));
    var middle, trimmed := TrimStart(s), Trim(s);
    hide IsWhitespace, TrimStart, TrimEnd;
    assert middle == trimmed + right && s == left + middle;
    if trimmed != "" {
      assert middle[0] == trimmed[0];
    }
  }

  lemma {:induction false} TrimStartIs(s: string) returns (left: string)
    ensures s == left + TrimStart(s) && AllWhitespace(left)
    ensures TrimStart(s) != "" ==> !IsWhitespace(TrimStart(s)[0])
    decreases |s|
  {
    hide IsWhitespace;
    if s != [] && IsWhitespace(s[0]) {
      var rest := TrimStartIs(s[1..]);
      left := [s[0]] + rest;
    } else {
      left := "";
    }
  }

  lemma {:induction false} TrimEndIs(s: string) returns (right: string)
    ensures s == TrimEnd(s) + right && AllWhitespace(right)
    ensures TrimEnd(s) != "" ==> !IsWhitespace(TrimEnd(s)[|TrimEnd(s)| - 1])
    decreases |s|
  {
    hide IsWhitespace;
    if s != [] && IsWhitespace(s[|s| - 1]) {
      var rest := TrimEndIs(s[..|s| - 1]);
      right := rest + [s[|s| - 1]];
    } else {
      right := "";
    }
  }
}
