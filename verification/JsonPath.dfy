/**
 * The minimal JSONPath of assertions: `$.a.b[0].c` is compiled to a JSON Pointer, which is then
 * evaluated. Compiling and evaluating reaches what following the path step by step reaches.
 */
module JsonPath {
  import opened Base
  import opened Json
  import opened Text

  // ----- compiling -----

  /** The position of the first character in `stops`, or the length of the text. */
  function Find(s: string, stops: set<char>): (end: nat)
    ensures end <= |s| && (end < |s| ==> s[end] in stops)
    ensures forall i :: 0 <= i < end ==> s[i] !in stops
  {
    if s == "" || s[0] in stops then 0 else 1 + Find(s[1..], stops)
  }

  function ReplaceChar(s: string, c: char, text: string): string {
    if s == "" then "" else (if s[0] == c then text else [s[0]]) + ReplaceChar(s[1..], c, text)
  }

  /** Section 3 of RFC 6901: `~` is written `~0` and `/` is written `~1`. */
  function Escape(s: string): string {
    ReplaceChar(ReplaceChar(s, '~', "~0"), '/', "~1")
  }

  function AfterDot(s: string): string {
    if s != "" && s[0] == '.' then s[1..] else s
  }

  /** The pointer for the rest of a path, or none when a bracket is not closed. */
  function Compile(rest: string): Option<string>
    decreases |rest|
  {
    if rest == "" then Some("")
    else if rest[0] == '[' then
      var end := Find(rest, {']'});
      if end == |rest| then None else Prepend("/" + rest[1..end], Compile(rest[end + 1..]))
    else
      var end := Find(rest, {'.', '['});
      Prepend(SegmentPointer(rest[..end]), Compile(AfterDot(rest[end..])))
  }

  function SegmentPointer(segment: string): string {
    if segment == "" then "" else "/" + Escape(segment)
  }

  function Prepend(front: string, back: Option<string>): Option<string> {
    if back.None? then None else Some(front + back.value)
  }

  function ToPointer(path: string): Option<string> {
    var trimmed := Trim(path);
    if trimmed != "" && trimmed[0] == '/' then Some(trimmed)
    else Compile(AfterDot(AfterDollar(trimmed)))
  }

  function AfterDollar(s: string): string {
    if s != "" && s[0] == '$' then s[1..] else s
  }

  method ToJsonPointer(path: string) returns (r: Option<string>)
    ensures r == ToPointer(path)
  {
    var trimmed := Trim(path);
    if trimmed != "" && trimmed[0] == '/' {
      return Some(trimmed);
    }
    trimmed := AfterDollar(trimmed);
    if trimmed == "" || trimmed == "." {
      return Some("");
    }
    r := CompileLoop(AfterDot(trimmed));
  }

  /** The compile loop; it ends on every text. */
  method CompileLoop(start: string) returns (r: Option<string>)
    ensures r == Compile(start)
  {
    var pointer := "";
    var rest := start;
    PrependNothing(Compile(rest));
    hide Compile, Prepend, AfterDot, SegmentPointer;
    while rest != ""
      invariant Compile(start) == Prepend(pointer, Compile(rest))
      decreases |rest|
    {
      if rest[0] == '[' {
        CompileBracket(rest);
        var end := Find(rest, {']'});
        if end == |rest| {
          PrependNone(pointer);
          return None;
        }
        PrependTwice(pointer, "/" + rest[1..end], Compile(rest[end + 1..]));
        pointer := pointer + ("/" + rest[1..end]);
        rest := rest[end + 1..];
      } else {
        CompileSegment(rest);
        var end := Find(rest, {'.', '['});
        PrependTwice(pointer, SegmentPointer(rest[..end]), Compile(AfterDot(rest[end..])));
        pointer := pointer + SegmentPointer(rest[..end]);
        rest := AfterDot(rest[end..]);
      }
    }
    PrependEnd(pointer);
    r := Some(pointer);
  }

  lemma CompileBracket(rest: string)
    requires rest != "" && rest[0] == '['
    ensures var end := Find(rest, {']'});
            Compile(rest) == if end == |rest| then None else Prepend("/" + rest[1..end], Compile(rest[end + 1..]))
  {
    hide Find, Prepend;
  }

  lemma CompileSegment(rest: string)
    requires rest != "" && rest[0] != '['
    ensures var end := Find(rest, {'.', '['});
            && Compile(rest) == Prepend(SegmentPointer(rest[..end]), Compile(AfterDot(rest[end..])))
            && |AfterDot(rest[end..])| < |rest|
  {
    SegmentShrinks(rest);
    hide Find, Prepend, SegmentPointer, AfterDot;
  }

  /** A segment or the dot after it takes at least one character. */
  lemma SegmentShrinks(rest: string)
    requires rest != "" && rest[0] != '['
    ensures |AfterDot(rest[Find(rest, {'.', '['})..])| < |rest|
  {
    hide Find;
    var end := Find(rest, {'.', '['});
    if end == 0 {
      assert rest[0..] == rest && rest[0] == '.';
    }
  }

  lemma PrependNothing(back: Option<string>)
    ensures Prepend("", back) == back
  {
    if back.Some? {
      assert "" + back.value == back.value;
    }
  }

  lemma PrependNone(front: string)
    ensures Prepend(front, None) == None
  {}

  lemma PrependEnd(front: string)
    ensures Prepend(front, Compile("")) == Some(front)
  {
    assert front + "" == front;
  }

  lemma PrependTwice(a: string, b: string, back: Option<string>)
    ensures Prepend(a, Prepend(b, back)) == Prepend(a + b, back)
  {
    if back.Some? {
      assert a + (b + back.value) == (a + b) + back.value;
    }
  }

  // ----- evaluating -----

  function UnescapeAll(parts: seq<string>): (r: seq<string>)
    ensures |r| == |parts|
  {
    seq(|parts|, i requires 0 <= i < |parts| => Unescape(parts[i]))
  }

  /** A pointer applied to a value (sections 3 and 4 of RFC 6901). */
  function PointerGet(v: Json, pointer: string): Option<Json> {
    if pointer == "" then Some(v)
    else if pointer[0] != '/' then None
    else Evaluate(v, UnescapeAll(Split(pointer[1..], '/')))
  }

  // ----- paths as steps -----

  datatype PathStep = Member(name: string) | Index(index: nat)

  /** A member name that can be written in a path; `~` and `/` may occur in it. */
  predicate Writable(name: string) {
    name != "" && forall c :: c in name ==> c != '.' && c != '[' && !IsWhitespace(c)
  }

  predicate WritableSteps(steps: seq<PathStep>) {
    forall i :: 0 <= i < |steps| ==> (steps[i].Member? ==> Writable(steps[i].name))
  }

  function IndexText(n: nat): (s: string)
    ensures s != "" && forall i :: 0 <= i < |s| ==> IsDigitChar(s[i])
  {
    if n < 10 then [(48 + n) as char] else IndexText(n / 10) + [(48 + n % 10) as char]
  }

  function StepText(step: PathStep): string {
    match step
    case Member(name) => "." + name
    case Index(n) => "[" + IndexText(n) + "]"
  }

  function StepsText(steps: seq<PathStep>): string {
    if steps == [] then "" else StepText(steps[0]) + StepsText(steps[1..])
  }

  function PathText(steps: seq<PathStep>): string {
    "$" + StepsText(steps)
  }

  /** One step: a member of an object or an element of an array; either is found under its text. */
  function Follow(v: Json, step: PathStep): Option<Json> {
    match v
    case Obj(fields) =>
      var key := match step case Member(name) => name case Index(n) => IndexText(n);
      if Has(fields, key) then Some(Get(fields, key)) else None
    case Arr(items) =>
      var index := match step case Member(name) => ArrayIndex(name) case Index(n) => if n <= USIZE_MAX then Some(n) else None;
      if index.Some? && index.value < |items| then Some(items[index.value]) else None
    case _ => None
  }

  function Lookup(v: Json, steps: seq<PathStep>): Option<Json> {
    if steps == [] then Some(v)
    else
      var next := Follow(v, steps[0]);
      if next.None? then None else Lookup(next.value, steps[1..])
  }

  // ----- escaping -----

  lemma {:induction false} ReplaceCharAppend(a: string, b: string, c: char, text: string)
    ensures ReplaceChar(a + b, c, text) == ReplaceChar(a, c, text) + ReplaceChar(b, c, text)
    decreases |a|
  {
    if a == "" {
      assert a + b == b;
    } else {
      assert (a + b)[1..] == a[1..] + b;
      ReplaceCharAppend(a[1..], b, c, text);
    }
  }

  function EscapeChar(c: char): string {
    if c == '~' then "~0" else if c == '/' then "~1" else [c]
  }

  lemma EscapeHead(s: string)
    requires s != ""
    ensures ReplaceChar(s, '~', "~0") == (if s[0] == '~' then "~0" else [s[0]]) + ReplaceChar(s[1..], '~', "~0")
    ensures Escape(s) == EscapeChar(s[0]) + Escape(s[1..])
  {
    var head := if s[0] == '~' then "~0" else [s[0]];
    ReplaceCharAppend(head, ReplaceChar(s[1..], '~', "~0"), '/', "~1");
    EscapeOne(s[0]);
    hide ReplaceChar;
    assert ReplaceChar(head, '/', "~1") == EscapeChar(s[0]);
  }

  lemma EscapeOne(c: char)
    ensures ReplaceChar("~0", '/', "~1") == "~0"
    ensures ReplaceChar([c], '/', "~1") == if c == '/' then "~1" else [c]
  {
    assert "~0"[1..] == "0" && "0"[1..] == "" && [c][1..] == "";
  }

  lemma {:induction false} UnescapeSlash(s: string)
    ensures ReplaceTilde(Escape(s), '1', '/') == ReplaceChar(s, '~', "~0")
    decreases |s|
  {
    if s != "" {
      UnescapeSlash(s[1..]);
      EscapeHead(s);
      hide Escape, ReplaceChar;
      var rest := Escape(s[1..]);
      if s[0] == '~' {
        assert Escape(s) == ['~'] + (['0'] + rest);
        TildeSkip('~', ['0'] + rest, '1', '/');
        TildeSkip('0', rest, '1', '/');
      } else if s[0] == '/' {
        assert ("~1" + rest)[2..] == rest;
      } else {
        TildeSkip(s[0], rest, '1', '/');
      }
    } else {
      assert Escape(s) == "";
    }
  }

  /** A character that does not begin the sequence looked for is copied. */
  lemma TildeSkip(c: char, rest: string, code: char, to: char)
    requires c != '~' || (rest != "" && rest[0] != code)
    ensures ReplaceTilde([c] + rest, code, to) == [c] + ReplaceTilde(rest, code, to)
  {
    assert ([c] + rest)[1..] == rest;
    if rest == "" {
      assert [c] + rest == [c];
    }
  }

  lemma {:induction false} UnescapeTilde(s: string)
    ensures ReplaceTilde(ReplaceChar(s, '~', "~0"), '0', '~') == s
    decreases |s|
  {
    if s != "" {
      UnescapeTilde(s[1..]);
      var tail := ReplaceChar(s[1..], '~', "~0");
      assert s == [s[0]] + s[1..];
      if s[0] == '~' {
        assert ("~0" + tail)[2..] == tail;
      } else {
        TildeSkip(s[0], tail, '0', '~');
      }
    }
  }

  /** Escaping is undone by evaluation, and hides every separator. */
  lemma EscapeRoundTrip(s: string)
    ensures Unescape(Escape(s)) == s && '/' !in Escape(s)
  {
    UnescapeSlash(s);
    UnescapeTilde(s);
    NoneLeft(ReplaceChar(s, '~', "~0"), '/', "~1");
  }

  lemma {:induction false} NoneLeft(s: string, c: char, text: string)
    requires c !in text
    ensures c !in ReplaceChar(s, c, text)
    decreases |s|
  {
    if s != "" {
      NoneLeft(s[1..], c, text);
    }
  }

  // ----- indices -----

  lemma {:induction false} IndexTextValue(n: nat)
    ensures CharsValue(IndexText(n)) == n
    ensures if n == 0 then IndexText(n) == "0" else IndexText(n)[0] != '0'
    decreases n
  {
    var s := IndexText(n);
    if n < 10 {
      assert s[..0] == "";
    } else {
      IndexTextValue(n / 10);
      assert s[..|s| - 1] == IndexText(n / 10);
    }
  }

  lemma IndexRoundTrip(n: nat)
    ensures ArrayIndex(IndexText(n)) == if n <= USIZE_MAX then Some(n) else None
  {
    IndexTextValue(n);
  }

  /** Digits without a leading zero are the text of their value. */
  lemma {:induction false} CanonicalDigits(s: string)
    requires s != "" && (forall i :: 0 <= i < |s| ==> IsDigitChar(s[i])) && (s[0] == '0' ==> |s| == 1)
    ensures IndexText(CharsValue(s)) == s && (|s| > 1 ==> CharsValue(s) >= 10)
    decreases |s|
  {
    var n := |s| - 1;
    var front, last := s[..n], s[n] as int - 48;
    assert IsDigitChar(s[n]) && s == front + [s[n]];
    if n == 0 {
      assert CharsValue(front) == 0;
    } else {
      CanonicalDigits(front);
      var v := CharsValue(front);
      FrontValue(front);
      assert CharsValue(s) == v * 10 + last;
      assert (v * 10 + last) / 10 == v && (v * 10 + last) % 10 == last;
    }
  }

  lemma FrontValue(s: string)
    requires s != "" && (forall i :: 0 <= i < |s| ==> IsDigitChar(s[i])) && s[0] != '0'
    ensures CharsValue(s) >= 1
    decreases |s|
  {
    assert IsDigitChar(s[|s| - 1]);
    if |s| == 1 {
      assert s[..0] == "";
    } else {
      FrontValue(s[..|s| - 1]);
    }
  }

  /** A token is an array index exactly when it is how that index is written. */
  lemma ArrayIndexExactly(token: string, n: nat)
    ensures ArrayIndex(token) == Some(n) <==> token == IndexText(n) && n <= USIZE_MAX
  {
    IndexRoundTrip(n);
    if ArrayIndex(token) == Some(n) {
      CanonicalDigits(token);
    }
  }

  // ----- the compiled pointer -----

  function StepToken(step: PathStep): string {
    match step case Member(name) => name case Index(n) => IndexText(n)
  }

  function StepsPointer(steps: seq<PathStep>): string {
    if steps == [] then "" else "/" + StepPointer(steps[0]) + StepsPointer(steps[1..])
  }

  function StepPointer(step: PathStep): string {
    match step case Member(name) => Escape(name) case Index(n) => IndexText(n)
  }

  lemma {:induction false} FindAfter(front: string, back: string, stops: set<char>)
    requires forall c :: c in front ==> c !in stops
    requires back == "" || back[0] in stops
    ensures Find(front + back, stops) == |front|
    decreases |front|
  {
    if front == "" {
      assert front + back == back;
    } else {
      assert (front + back)[1..] == front[1..] + back;
      FindAfter(front[1..], back, stops);
    }
  }

  lemma CompileDot(s: string)
    ensures Compile("." + s) == Compile(s)
  {
    var rest := "." + s;
    assert rest[1..] == s && rest[0..] == rest && rest[..0] == "";
    if Compile(s).Some? {
      assert "" + Compile(s).value == Compile(s).value;
    }
  }

  lemma CompileAfterDot(s: string)
    ensures Compile(AfterDot(s)) == Compile(s)
  {
    if s != "" && s[0] == '.' {
      assert s == "." + s[1..];
      CompileDot(s[1..]);
    }
  }

  lemma StepsTextHead(steps: seq<PathStep>)
    ensures StepsText(steps) == "" || StepsText(steps)[0] == '.' || StepsText(steps)[0] == '['
  {}

  lemma CompileMember(name: string, rest: string)
    requires Writable(name) && (rest == "" || rest[0] == '.' || rest[0] == '[')
    ensures Compile("." + name + rest) == Prepend("/" + Escape(name), Compile(rest))
  {
    hide Compile, Prepend, Escape, Writable;
    CompileName(name, rest);
    CompileDot(name + rest);
    DotRegroups(name, rest);
  }

  lemma DotRegroups(name: string, rest: string)
    ensures "." + name + rest == "." + (name + rest)
  {}

  lemma CompileName(name: string, rest: string)
    requires Writable(name) && (rest == "" || rest[0] == '.' || rest[0] == '[')
    ensures Compile(name + rest) == Prepend("/" + Escape(name), Compile(rest))
  {
    hide Compile, Find, Prepend, AfterDot, Escape;
    NamePlain(name);
    hide Writable;
    FindAfter(name, rest, {'.', '['});
    CutAfter(name, rest);
    CompileAfterDot(rest);
    CompileSegment(name + rest);
    assert SegmentPointer(name) == "/" + Escape(name);
  }

  lemma CutAfter(front: string, back: string)
    requires front != ""
    ensures var all := front + back; all != "" && all[0] == front[0] && all[..|front|] == front && all[|front|..] == back
  {}

  lemma NamePlain(name: string)
    requires Writable(name)
    ensures name != "" && name[0] != '[' && forall c :: c in name ==> c !in {'.', '['}
  {
    assert name[0] in name;
  }

  lemma CompileIndex(n: nat, rest: string)
    ensures Compile("[" + IndexText(n) + "]" + rest) == Prepend("/" + IndexText(n), Compile(rest))
  {
    var text := "[" + IndexText(n) + "]" + rest;
    var end := 1 + |IndexText(n)|;
    assert text == ("[" + IndexText(n)) + ("]" + rest);
    assert ']' !in IndexText(n);
    FindAfter("[" + IndexText(n), "]" + rest, {']'});
    assert text[1..end] == IndexText(n) && text[end + 1..] == rest;
  }

  lemma {:induction false} CompileSteps(steps: seq<PathStep>)
    requires WritableSteps(steps)
    ensures Compile(StepsText(steps)) == Some(StepsPointer(steps))
    decreases |steps|
  {
    if steps != [] {
      CompileSteps(steps[1..]);
      StepsTextHead(steps[1..]);
      match steps[0]
      case Member(name) => CompileMember(name, StepsText(steps[1..]));
      case Index(n) => CompileIndex(n, StepsText(steps[1..]));
    }
  }

  // ----- evaluating it -----

  lemma StepPointerPlain(step: PathStep)
    ensures '/' !in StepPointer(step) && Unescape(StepPointer(step)) == StepToken(step)
  {
    match step
    case Member(name) => EscapeRoundTrip(name);
    case Index(n) =>
      EscapeDigits(IndexText(n));
      EscapeRoundTrip(IndexText(n));
  }

  lemma {:induction false} EscapeDigits(s: string)
    requires '~' !in s && '/' !in s
    ensures Escape(s) == s
    decreases |s|
  {
    if s != "" {
      EscapeDigits(s[1..]);
      assert ([s[0]] + ReplaceChar(s[1..], '~', "~0"))[1..] == ReplaceChar(s[1..], '~', "~0");
      assert s == [s[0]] + s[1..];
    }
  }

  lemma FollowIsChild(v: Json, step: PathStep)
    ensures Follow(v, step) == Child(v, StepToken(step))
  {
    if step.Index? {
      IndexRoundTrip(step.index);
    }
  }

  lemma UnescapeAllHead(first: string, rest: seq<string>)
    ensures UnescapeAll([first] + rest) == [Unescape(first)] + UnescapeAll(rest)
  {
    hide Unescape;
    var all := [first] + rest;
    assert forall i :: 0 <= i < |rest| ==> all[i + 1] == rest[i];
  }

  function StepTokens(steps: seq<PathStep>): seq<string> {
    if steps == [] then [] else [StepToken(steps[0])] + StepTokens(steps[1..])
  }

  lemma StepsPointerUnfold(steps: seq<PathStep>)
    requires steps != []
    ensures var rest := StepsPointer(steps)[1..];
            && StepsPointer(steps)[0] == '/' && StepsPointer(steps) == "/" + rest
            && rest == StepPointer(steps[0]) + StepsPointer(steps[1..])
    ensures StepTokens(steps) == [StepToken(steps[0])] + StepTokens(steps[1..])
  {
    hide StepPointer, StepToken;
    assert StepsPointer(steps)[1..] == StepPointer(steps[0]) + StepsPointer(steps[1..]);
  }

  /** One token in front of a pointer, or alone. */
  lemma TokenInFront(step: PathStep, back: string)
    requires back == "" || back[0] == '/'
    ensures UnescapeAll(Split(StepPointer(step) + back, '/')) ==
            [StepToken(step)] + if back == "" then [] else UnescapeAll(Split(back[1..], '/'))
  {
    StepPointerPlain(step);
    hide Split, Unescape, StepPointer, StepToken;
    var front := StepPointer(step);
    if back == "" {
      assert front + back == front;
      SplitAfter(front, "");
      UnescapeAllHead(front, []);
      assert [front] + [] == [front];
    } else {
      assert front + back == front + "/" + back[1..];
      SplitAfter(front, back[1..]);
      UnescapeAllHead(front, Split(back[1..], '/'));
    }
  }

  /** A compiled pointer splits and unescapes into the steps' own tokens. */
  lemma {:induction false} PointerTokens(steps: seq<PathStep>)
    requires steps != []
    ensures StepsPointer(steps) != "" && StepsPointer(steps)[0] == '/'
    ensures UnescapeAll(Split(StepsPointer(steps)[1..], '/')) == StepTokens(steps)
    decreases |steps|
  {
    StepsPointerUnfold(steps);
    if |steps| == 1 {
      assert steps[1..] == [] && StepsPointer([]) == "" && StepTokens([]) == [];
      TokenInFront(steps[0], "");
    } else {
      PointerTokens(steps[1..]);
      TokenInFront(steps[0], StepsPointer(steps[1..]));
    }
    hide StepsPointer, StepTokens, StepPointer, StepToken, UnescapeAll, Split;
  }

  lemma {:induction false} LookupIsEvaluate(v: Json, steps: seq<PathStep>)
    ensures Lookup(v, steps) == Evaluate(v, StepTokens(steps))
    decreases |steps|
  {
    if steps != [] {
      FollowIsChild(v, steps[0]);
      hide Follow, Child;
      assert StepTokens(steps)[1..] == StepTokens(steps[1..]);
      if Follow(v, steps[0]).Some? {
        LookupIsEvaluate(Follow(v, steps[0]).value, steps[1..]);
      }
    }
  }

  lemma PointerFollowsSteps(v: Json, steps: seq<PathStep>)
    ensures PointerGet(v, StepsPointer(steps)) == Lookup(v, steps)
  {
    LookupIsEvaluate(v, steps);
    if steps != [] {
      PointerTokens(steps);
    }
  }

  // ----- whole paths -----

  lemma StepsTextEnd(steps: seq<PathStep>)
    requires WritableSteps(steps) && steps != []
    ensures StepsText(steps) != "" && !IsWhitespace(StepsText(steps)[|StepsText(steps)| - 1])
    decreases |steps|
  {
    if |steps| == 1 {
      assert steps[1..] == [];
      var text := StepText(steps[0]);
      assert StepsText(steps) == text;
      if steps[0].Member? {
        assert text[|text| - 1] in steps[0].name;
      }
    } else {
      StepsTextEnd(steps[1..]);
      var text, rest := StepsText(steps), StepsText(steps[1..]);
      assert text[|text| - 1] == rest[|rest| - 1];
    }
  }

  lemma PathTextTrimmed(steps: seq<PathStep>)
    requires WritableSteps(steps)
    ensures Trim(PathText(steps)) == PathText(steps)
  {
    var text := PathText(steps);
    assert text[0] == '$';
    if steps != [] {
      StepsTextEnd(steps);
      var rest := StepsText(steps);
      assert text[|text| - 1] == rest[|rest| - 1];
    } else {
      assert text == "$";
    }
  }

  lemma TrimmedAlready(s: string)
    requires s != "" && !IsWhitespace(s[0]) && !IsWhitespace(s[|s| - 1])
    ensures Trim(s) == s
  {}

  /** A path that is a pointer already is left as it is, and white space around a path does not matter. */
  lemma PointersPassThrough(pointer: string, path: string)
    requires pointer != "" && pointer[0] == '/' && !IsWhitespace(pointer[|pointer| - 1])
    requires Trim(path) == pointer
    ensures ToPointer(path) == ToPointer(pointer) == Some(pointer)
  {
    assert !IsWhitespace('/');
    TrimmedAlready(pointer);
  }

  /** A bracket that is never closed is an error. */
  lemma UnclosedBracket(steps: seq<PathStep>, rest: string)
    requires WritableSteps(steps) && ']' !in rest
    ensures Compile(StepsText(steps) + ("[" + rest)).None?
    decreases |steps|
  {
    hide Compile, Find, Prepend, Escape, StepText;
    var open := "[" + rest;
    if steps == [] {
      assert StepsText(steps) + open == open;
      FindAfter(open, "", {']'});
      assert open + "" == open;
      CompileBracket(open);
    } else {
      var more := StepsText(steps[1..]) + open;
      UnclosedBracket(steps[1..], rest);
      StepsTextHead(steps[1..]);
      assert more[0] == '.' || more[0] == '[' by {
        if StepsText(steps[1..]) == "" {
          assert more == open;
        }
      }
      StepInFront(steps[0], more);
      assert StepsText(steps) + open == StepText(steps[0]) + more;
    }
  }

  lemma StepInFront(step: PathStep, more: string)
    requires step.Member? ==> Writable(step.name)
    requires more != "" && (more[0] == '.' || more[0] == '[')
    ensures Compile(more).None? ==> Compile(StepText(step) + more).None?
  {
    match step
    case Member(name) => CompileMember(name, more);
    case Index(n) => CompileIndex(n, more);
  }

  /** Writing a path down, compiling it and evaluating the pointer is following the path. */
  lemma PathReachesLookup(v: Json, steps: seq<PathStep>)
    requires WritableSteps(steps)
    ensures ToPointer(PathText(steps)).Some?
    ensures PointerGet(v, ToPointer(PathText(steps)).value) == Lookup(v, steps)
  {
    PathTextTrimmed(steps);
    assert PathText(steps)[1..] == StepsText(steps);
    CompileAfterDot(StepsText(steps));
    CompileSteps(steps);
    PointerFollowsSteps(v, steps);
  }
}
