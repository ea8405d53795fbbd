/** JSON values with ordered object members, and JSON Pointer evaluation (RFC 6901). */
module Json {
  import opened Base

  datatype Json =
    | Null
    | Bool(truth: bool)
    | Num(number: int)
    | Str(text: string)
    | Arr(items: seq<Json>)
    | Obj(fields: seq<Field>)

  datatype Field = Field(key: string, value: Json)

  predicate Has(fields: seq<Field>, key: string) {
    exists i :: 0 <= i < |fields| && fields[i].key == key
  }

  /** The value of the first member with that name. */
  function Get(fields: seq<Field>, key: string): (v: Json)
    requires Has(fields, key)
    ensures exists i :: 0 <= i < |fields| && fields[i] == Field(key, v)
  {
    if fields[0].key == key then
      assert fields[0] == Field(key, fields[0].value);
      fields[0].value
    else
      var v := Get(fields[1..], key);
      assert exists i :: 0 <= i < |fields| && fields[i] == Field(key, v) by {
        var i :| 0 <= i < |fields[1..]| && fields[1..][i] == Field(key, v);
        assert fields[i + 1] == Field(key, v);
      }
      v
  }

  ghost predicate UniqueKeys(fields: seq<Field>) {
    forall i, j :: 0 <= i < j < |fields| ==> fields[i].key != fields[j].key
  }

  lemma GetUnique(fields: seq<Field>, i: nat)
    requires UniqueKeys(fields) && i < |fields|
    ensures Has(fields, fields[i].key) && Get(fields, fields[i].key) == fields[i].value
  {
    var k := fields[i].key;
    assert Has(fields, k);
    var j :| 0 <= j < |fields| && fields[j] == Field(k, Get(fields, k));
    assert i == j;
  }

  // ----- pointers -----

  predicate IsDigitChar(c: char) { '0' <= c <= '9' }

  function CharsValue(s: string): (n: nat)
    requires forall i :: 0 <= i < |s| ==> IsDigitChar(s[i])
  {
    if s == "" then 0
    else
      assert IsDigitChar(s[|s| - 1]);
      CharsValue(s[..|s| - 1]) * 10 + (s[|s| - 1] as int - 48)
  }

  const USIZE_MAX: int := 0xffff_ffff_ffff_ffff

  /** An array index as section 4 of RFC 6901 writes it: digits, no leading zero. */
  function ArrayIndex(token: string): Option<nat> {
    if token == "" || !(forall i :: 0 <= i < |token| ==> IsDigitChar(token[i])) then None
    else if token[0] == '0' && |token| > 1 then None
    else if CharsValue(token) > USIZE_MAX then None
    else Some(CharsValue(token))
  }

  /** One reference token applied to a value. */
  function Child(v: Json, token: string): Option<Json> {
    match v
    case Obj(fields) => if Has(fields, token) then Some(Get(fields, token)) else None
    case Arr(items) =>
      var i := ArrayIndex(token);
      if i.Some? && i.value < |items| then Some(items[i.value]) else None
    case _ => None
  }

  /** Section 4 of RFC 6901: apply the reference tokens one after another. */
  function Evaluate(v: Json, tokens: seq<string>): Option<Json> {
    if tokens == [] then Some(v)
    else
      var child := Child(v, tokens[0]);
      if child.None? then None else Evaluate(child.value, tokens[1..])
  }

  // ----- splitting and unescaping -----

  function Split(s: string, sep: char): (parts: seq<string>)
    ensures parts != []
  {
    if s == "" then [""]
    else
      var rest := Split(s[1..], sep);
      if s[0] == sep then [""] + rest else [[s[0]] + rest[0]] + rest[1..]
  }

  /** A part without separators comes out whole. */
  lemma {:induction false} SplitAfter(front: string, back: string)
    requires '/' !in front
    ensures Split(front, '/') == [front]
    ensures Split(front + "/" + back, '/') == [front] + Split(back, '/')
    decreases |front|
  {
    var all := front + "/" + back;
    if front == "" {
      assert all[1..] == back;
    } else {
      SplitAfter(front[1..], back);
      assert all[1..] == front[1..] + "/" + back;
      assert front == [front[0]] + front[1..];
      var parts := Split(all[1..], '/');
      assert parts[0] == front[1..] && parts[1..] == Split(back, '/');
    }
  }

  /** Replace every `~` followed by `code` with `c`, left to right. */
  function ReplaceTilde(s: string, code: char, c: char): string {
    if |s| < 2 then s
    else if s[0] == '~' && s[1] == code then [c] + ReplaceTilde(s[2..], code, c)
    else [s[0]] + ReplaceTilde(s[1..], code, c)
  }

  /** Section 4 of RFC 6901: first `~1` to `/`, then `~0` to `~`. */
  function Unescape(s: string): string {
    ReplaceTilde(ReplaceTilde(s, '1', '/'), '0', '~')
  }
}
