/** Secrets kept behind a write-through cache, and their masking in free text. Text is UTF-8 bytes. */
module Redact {
  import opened Base
  import opened Utf8

  const STAR: byte := 42
  const STARS: Bytes := [STAR, STAR, STAR]
  const MIN_SECRET: nat := 4

  predicate At(s: Bytes, text: Bytes, i: nat) {
    i + |s| <= |text| && text[i..i + |s|] == s
  }

  ghost predicate Occurs(s: Bytes, text: Bytes) {
    exists i: nat :: At(s, text, i)
  }

  /** Every occurrence, leftmost first and without overlaps, becomes `***`. */
  function Replace(text: Bytes, s: Bytes): Bytes
    requires s != []
  {
    if |text| < |s| then text
    else if text[..|s|] == s then STARS + Replace(text[|s|..], s)
    else [text[0]] + Replace(text[1..], s)
  }

  /** The cached values are masked one after another, in whatever order the cache lists them. */
  function RedactIn(text: Bytes, order: seq<Bytes>): Bytes {
    if order == [] then text
    else
      var before := RedactIn(text, order[..|order| - 1]);
      var s := order[|order| - 1];
      if |s| >= MIN_SECRET then Replace(before, s) else before
  }

  /** A secret no mask can complete: no star at either end, no three stars inside. */
  ghost predicate Sturdy(s: Bytes) {
    s != [] && s[0] != STAR && s[|s| - 1] != STAR && !Occurs(STARS, s)
  }

  // ----- positions -----

  lemma AtCons(s: Bytes, head: byte, rest: Bytes, i: nat)
    ensures At(s, [head] + rest, i + 1) <==> At(s, rest, i)
  {
    if i + |s| <= |rest| {
      assert ([head] + rest)[i + 1..i + 1 + |s|] == rest[i..i + |s|];
    }
  }

  lemma AtAfter(s: Bytes, front: Bytes, rest: Bytes, i: nat)
    ensures At(s, front + rest, |front| + i) <==> At(s, rest, i)
  {
    if i + |s| <= |rest| {
      assert (front + rest)[|front| + i..|front| + i + |s|] == rest[i..i + |s|];
    }
  }

  lemma OccursAfter(s: Bytes, front: Bytes, rest: Bytes)
    requires Occurs(s, rest)
    ensures Occurs(s, front + rest)
  {
    var i: nat :| At(s, rest, i);
    AtAfter(s, front, rest, i);
  }

  lemma OccursTail(s: Bytes, text: Bytes, n: nat)
    requires n <= |text| && Occurs(s, text[n..])
    ensures Occurs(s, text)
  {
    OccursAfter(s, text[..n], text[n..]);
    assert text[..n] + text[n..] == text;
  }

  // ----- a mask never completes a sturdy secret -----

  /** The end of a sturdy secret. */
  ghost predicate SturdyEnd(p: Bytes) {
    (p == [] || p[|p| - 1] != STAR) && !Occurs(STARS, p)
  }

  lemma SturdyEndTail(p: Bytes)
    requires p != [] && SturdyEnd(p)
    ensures SturdyEnd(p[1..])
  {
    if Occurs(STARS, p[1..]) {
      OccursTail(STARS, p, 1);
    }
  }

  /** A text that begins with a mask does not begin with a sturdy end. */
  lemma StarsPrefix(p: Bytes, rest: Bytes)
    requires p != [] && |p| <= |STARS + rest| && (STARS + rest)[..|p|] == p
    ensures !SturdyEnd(p)
  {
    if |p| >= 3 {
      assert p[0..3] == STARS;
      assert At(STARS, p, 0);
    } else {
      assert p[|p| - 1] == STAR;
    }
  }

  lemma AtStars(s: Bytes, rest: Bytes, i: nat)
    requires s != [] && i < 3 && At(s, STARS + rest, i)
    ensures s[0] == STAR
  {
    assert s[0] == (STARS + rest)[i];
  }

  /** What a masked text begins with and could end a sturdy secret, the text itself began with. */
  lemma {:induction false} PrefixKept(text: Bytes, r: Bytes, p: Bytes)
    requires r != [] && SturdyEnd(p)
    requires |p| <= |Replace(text, r)| && Replace(text, r)[..|p|] == p
    ensures |p| <= |text| && text[..|p|] == p
    decreases |text|
  {
    if p != [] && |text| >= |r| {
      var out := Replace(text, r);
      if text[..|r|] == r {
        StarsPrefix(p, Replace(text[|r|..], r));
      } else {
        var rest := Replace(text[1..], r);
        assert out[..|p|][1..] == rest[..|p| - 1];
        SturdyEndTail(p);
        PrefixKept(text[1..], r, p[1..]);
        assert p == [p[0]] + p[1..] && text[..|p|] == [text[0]] + text[1..][..|p| - 1];
      }
    }
  }

  /** A sturdy secret found in a masked text was in the text before, and is not what was masked. */
  lemma {:induction false} OccurrenceKept(text: Bytes, r: Bytes, s: Bytes, i: nat)
    requires r != [] && Sturdy(s) && At(s, Replace(text, r), i)
    ensures Occurs(s, text)
    ensures r != s
    decreases |text|
  {
    var out := Replace(text, r);
    if |text| < |r| {
      assert At(s, text, i);
    } else if text[..|r|] == r {
      var rest := Replace(text[|r|..], r);
      if i < 3 {
        AtStars(s, rest, i);
      } else {
        AtAfter(s, STARS, rest, i - 3);
        OccurrenceKept(text[|r|..], r, s, i - 3);
        OccursTail(s, text, |r|);
      }
    } else if i == 0 {
      assert out[0..|s|] == out[..|s|];
      PrefixKept(text, r, s);
      assert text[0..|s|] == text[..|s|];
      assert At(s, text, 0);
    } else {
      AtCons(s, text[0], Replace(text[1..], r), i - 1);
      OccurrenceKept(text[1..], r, s, i - 1);
      OccursTail(s, text, 1);
    }
  }

  /** Whatever the order, the text and the other secrets: a sturdy cached secret is gone. */
  lemma {:induction false} RedactHides(text: Bytes, order: seq<Bytes>, s: Bytes)
    requires s in order && |s| >= MIN_SECRET && Sturdy(s)
    ensures !Occurs(s, RedactIn(text, order))
    decreases |order|
  {
    var n := |order| - 1;
    var before := RedactIn(text, order[..n]);
    if order[n] != s {
      assert s in order[..n];
      RedactHides(text, order[..n], s);
    }
    if |order[n]| >= MIN_SECRET && Occurs(s, Replace(before, order[n])) {
      var i: nat :| At(s, Replace(before, order[n]), i);
      OccurrenceKept(before, order[n], s, i);
    }
  }

  // ----- and sturdiness is exactly what it takes -----

  lemma AtTail(s: Bytes, text: Bytes, p: nat)
    requires text != []
    ensures At(s, text[1..], p) <==> At(s, text, p + 1)
  {
    AtCons(s, text[0], text[1..], p);
    assert [text[0]] + text[1..] == text;
  }

  lemma ReplaceKeepsHead(text: Bytes, s: Bytes)
    requires s != [] && |s| <= |text| && !At(s, text, 0)
    ensures Replace(text, s) == [text[0]] + Replace(text[1..], s)
  {
    assert text[0..|s|] == text[..|s|];
  }

  /** Text before the first occurrence is copied. */
  lemma {:induction false} ReplaceSkips(text: Bytes, s: Bytes, n: nat)
    requires s != [] && n + |s| <= |text|
    requires forall p: nat :: p < n ==> !At(s, text, p)
    ensures Replace(text, s) == text[..n] + Replace(text[n..], s)
    decreases n
  {
    hide At, Replace;
    if n == 0 {
      assert text[..0] == [] && text[0..] == text;
      assert [] + Replace(text, s) == Replace(text, s);
    } else {
      ReplaceKeepsHead(text, s);
      var rest := text[1..];
      forall p: nat | p < n - 1 ensures !At(s, rest, p) {
        AtTail(s, text, p);
      }
      ReplaceSkips(rest, s, n - 1);
      assert rest[n - 1..] == text[n..];
      assert text[..n] == [text[0]] + rest[..n - 1];
      var more := Replace(text[n..], s);
      assert [text[0]] + (rest[..n - 1] + more) == ([text[0]] + rest[..n - 1]) + more;
    }
  }

  /** A secret at the end of the text, or with less than a secret after it. */
  lemma ReplaceOne(s: Bytes, rest: Bytes)
    requires s != [] && |rest| < |s|
    ensures Replace(s + rest, s) == STARS + rest
  {
    var text := s + rest;
    assert text[..|s|] == s && text[|s|..] == rest;
  }

  lemma AtIndex(s: Bytes, text: Bytes, p: nat, j: nat)
    requires At(s, text, p) && j < |s|
    ensures text[p + j] == s[j]
  {
    assert text[p..p + |s|][j] == text[p + j];
  }

  /** An earlier occurrence in `s[..n] + s` means that `s` repeats with a period of at most `n`. */
  lemma EarlierRepeats(s: Bytes, n: nat, tail: Bytes, p: nat)
    requires p < n <= |s| && At(s, s[..n] + (s + tail), p)
    ensures forall j: nat :: n - p + j < |s| ==> s[n - p + j] == s[j]
    ensures forall j: nat :: j < n - p ==> s[j] == s[p + j]
  {
    var text := s[..n] + (s + tail);
    forall j: nat | n - p + j < |s| ensures s[n - p + j] == s[j] {
      AtIndex(s, text, p, n - p + j);
      assert text[n + j] == s[j];
    }
    forall j: nat | j < n - p ensures s[j] == s[p + j] {
      AtIndex(s, text, p, j);
    }
  }

  lemma LeadingStarLeaks(s: Bytes)
    requires s != [] && s[0] == STAR
    ensures Occurs(s, Replace(s + s[1..], s))
  {
    ReplaceOne(s, s[1..]);
    var out := STARS + s[1..];
    assert out[2..2 + |s|] == s;
    assert At(s, out, 2);
  }

  /** The secret behind a part of itself: masking it can put it together again. */
  lemma LeaksBehind(s: Bytes, n: nat, rest: Bytes)
    requires s != [] && n <= |s| && |rest| < |s|
    requires forall p: nat :: p < n ==> !At(s, s[..n] + (s + rest), p)
    requires |s| <= n + 3 + |rest| && s == (s[..n] + (STARS + rest))[..|s|]
    ensures Occurs(s, Replace(s[..n] + (s + rest), s))
  {
    hide At, Replace, Occurs;
    var text := s[..n] + (s + rest);
    ReplaceSkips(text, s, n);
    assert text[..n] == s[..n] && text[n..] == s + rest;
    ReplaceOne(s, rest);
    WholeOccurs(s, s[..n] + (STARS + rest));
  }

  lemma EarlierJoinsEnds(s: Bytes, p: nat)
    requires p + 1 < |s| && At(s, s[..|s| - 1] + (s + []), p)
    ensures s[0] == s[|s| - 1]
  {
    var n := |s| - 1;
    EarlierRepeats(s, n, [], p);
    assert s[n - p + p] == s[p] && s[0] == s[p + 0];
  }

  lemma TrailingStarLeaks(s: Bytes)
    requires s != [] && s[0] != STAR && s[|s| - 1] == STAR
    ensures Occurs(s, Replace(s[..|s| - 1] + (s + []), s))
  {
    hide At, Replace, Occurs;
    var n := |s| - 1;
    forall p: nat | p < n ensures !At(s, s[..n] + (s + []), p) {
      if At(s, s[..n] + (s + []), p) {
        EarlierJoinsEnds(s, p);
      }
    }
    LastStar(s);
    LeaksBehind(s, n, []);
  }

  lemma LastStar(s: Bytes)
    requires s != [] && s[|s| - 1] == STAR
    ensures s == (s[..|s| - 1] + (STARS + []))[..|s|]
  {}

  lemma WholeOccurs(s: Bytes, out: Bytes)
    requires |s| <= |out| && s == out[..|s|]
    ensures Occurs(s, out)
  {
    assert out[0..|s|] == out[..|s|];
    assert At(s, out, 0);
  }

  /** The first three stars of a text that has some. */
  lemma {:induction false} FirstStars(s: Bytes, i: nat) returns (n: nat)
    requires At(STARS, s, i)
    ensures At(STARS, s, n) && forall p: nat :: p < n ==> !At(STARS, s, p)
    decreases i
  {
    n := i;
    if p: nat :| p < i && At(STARS, s, p) {
      n := FirstStars(s, p);
    }
  }

  lemma StarsAt(s: Bytes, n: nat)
    requires n + 3 <= |s|
    ensures At(STARS, s, n) <==> s[n] == STAR && s[n + 1] == STAR && s[n + 2] == STAR
  {
    if At(STARS, s, n) {
      AtIndex(STARS, s, n, 0);
      AtIndex(STARS, s, n, 1);
      AtIndex(STARS, s, n, 2);
    }
  }

  lemma NoEarlierThanFirstStars(s: Bytes, n: nat, p: nat)
    requires At(STARS, s, n) && p < n && At(s, s[..n] + (s + s[n + 3..]), p)
    ensures exists q: nat :: q < n && At(STARS, s, q)
  {
    EarlierRepeats(s, n, s[n + 3..], p);
    StarsAt(s, n);
    var k := n - p;
    assert forall j: nat :: k + j < |s| ==> s[k + j] == s[j];
    StarsAt(s, if k <= 3 then n - k else p);
    assert s[k + (n - k)] == s[n - k] && s[k + (n - k + 1)] == s[n - k + 1] && s[k + (n - k + 2)] == s[n - k + 2];
    StarsAt(s, n - k);
  }

  lemma InnerStarsLeak(s: Bytes) returns (text: Bytes)
    requires Occurs(STARS, s)
    ensures Occurs(s, Replace(text, s))
    ensures ValidUtf8(s) ==> ValidUtf8(text)
  {
    var i: nat :| At(STARS, s, i);
    var n := FirstStars(s, i);
    StarsAt(s, n);
    var rest := s[n + 3..];
    text := s[..n] + (s + rest);
    forall p: nat | p < n ensures !At(s, text, p) {
      if At(s, text, p) {
        NoEarlierThanFirstStars(s, n, p);
      }
    }
    hide At, Replace, Occurs, ValidUtf8;
    assert s[..n] + (STARS + rest) == s && s[..|s|] == s;
    LeaksBehind(s, n, rest);
    if ValidUtf8(s) {
      ValidAroundStars(s, n);
      ValidJoin(s, rest);
      ValidJoin(s[..n], s + rest);
    }
  }

  lemma ValidAfterStar(s: Bytes)
    requires ValidUtf8(s) && s != [] && s[0] == STAR
    ensures ValidUtf8(s[1..])
  {}

  lemma ValidAroundStars(s: Bytes, n: nat)
    requires ValidUtf8(s) && n + 3 <= |s| && s[n] == STAR && s[n + 1] == STAR && s[n + 2] == STAR
    ensures ValidUtf8(s[..n]) && ValidUtf8(s[n + 3..])
  {
    ValidCut(s, n);
    ValidCut(s, n + 2);
    ValidAfterStar(s[n + 2..]);
    assert s[n + 2..][1..] == s[n + 3..];
  }

  /** The leaking text is well-formed whenever the secret is. */
  lemma UnsturdyLeaks(s: Bytes) returns (text: Bytes)
    requires s != [] && !Sturdy(s)
    ensures Occurs(s, Replace(text, s))
    ensures ValidUtf8(s) ==> ValidUtf8(text)
  {
    if s[0] == STAR {
      LeadingStarLeaks(s);
      text := s + s[1..];
      if ValidUtf8(s) {
        ValidAfterStar(s);
        ValidJoin(s, s[1..]);
      }
    } else if s[|s| - 1] == STAR {
      TrailingStarLeaks(s);
      text := s[..|s| - 1] + (s + []);
      if ValidUtf8(s) {
        ValidCut(s, |s| - 1);
        assert s + [] == s;
        ValidJoin(s[..|s| - 1], s);
      }
    } else {
      text := InnerStarsLeak(s);
    }
  }

  /** A text without the secret is left as it is. */
  lemma {:induction false} ReplaceNothing(text: Bytes, s: Bytes)
    requires s != [] && !Occurs(s, text)
    ensures Replace(text, s) == text
    decreases |text|
  {
    if |text| >= |s| {
      assert !At(s, text, 0);
      ReplaceKeepsHead(text, s);
      if Occurs(s, text[1..]) {
        OccursTail(s, text, 1);
      }
      ReplaceNothing(text[1..], s);
      assert [text[0]] + text[1..] == text;
    }
  }

  /** Masking leaves a text alone in which no cached secret of at least 4 bytes occurs. */
  lemma {:induction false} RedactNothing(text: Bytes, order: seq<Bytes>)
    requires forall s :: s in order && |s| >= MIN_SECRET ==> !Occurs(s, text)
    ensures RedactIn(text, order) == text
    decreases |order|
  {
    hide Occurs, Replace;
    if order != [] {
      var n := |order| - 1;
      assert order[n] in order && forall s :: s in order[..n] ==> s in order;
      RedactNothing(text, order[..n]);
      if |order[n]| >= MIN_SECRET {
        ReplaceNothing(text, order[n]);
      }
    }
  }

  lemma RedactSingle(text: Bytes, s: Bytes)
    requires |s| >= MIN_SECRET
    ensures RedactIn(text, [s]) == Replace(text, s)
  {
    assert [s][..0] == [];
  }

  /**
   * Masking hides a secret in every text if and only if the secret is sturdy; for a secret that is
   * UTF-8, as secrets are, the texts that are UTF-8 decide it already.
   */
  lemma HidesExactlySturdy(s: Bytes)
    requires |s| >= MIN_SECRET
    ensures Sturdy(s) <==> forall text: Bytes :: !Occurs(s, RedactIn(text, [s]))
    ensures ValidUtf8(s) ==> (Sturdy(s) <==> forall text: Bytes :: ValidUtf8(text) ==> !Occurs(s, RedactIn(text, [s])))
  {
    hide Occurs, RedactIn, Replace, ValidUtf8;
    if Sturdy(s) {
      forall text: Bytes ensures !Occurs(s, RedactIn(text, [s])) {
        RedactHides(text, [s], s);
      }
    } else {
      var text := UnsturdyLeaks(s);
      RedactSingle(text, s);
      assert Occurs(s, RedactIn(text, [s]));
    }
  }

  // ----- the store -----

  class SecretStore {
    const persistent: bool
    var keychain: map<string, Bytes>
    var cache: map<string, Bytes>

    /** With a keychain behind it the cache is a part of the keychain. */
    ghost predicate Valid() reads this {
      persistent ==> forall name :: name in cache ==> name in keychain && keychain[name] == cache[name]
    }

    constructor (persistent: bool, keychain: map<string, Bytes>)
      ensures Valid() && cache == map[] && this.persistent == persistent && this.keychain == keychain
    {
      this.persistent, this.keychain, cache := persistent, keychain, map[];
    }

    method PutRef(name: string, value: Bytes)
      requires Valid()
      modifies this
      ensures Valid() && cache == old(cache)[name := value]
      ensures keychain == if persistent then old(keychain)[name := value] else old(keychain)
    {
      if persistent {
        keychain := keychain[name := value];
      }
      cache := cache[name := value];
    }

    /** A value handed out is in the cache from then on, so it is masked from then on. */
    method Resolve(name: string) returns (r: Option<Bytes>)
      requires Valid()
      modifies this
      ensures Valid() && keychain == old(keychain)
      ensures r.Some? <==> name in old(cache) || (persistent && name in keychain)
      ensures r.Some? ==> cache == old(cache)[name := r.value] && (persistent ==> keychain[name] == r.value)
      ensures name in old(cache) ==> r == Some(old(cache)[name])
      ensures r.None? ==> cache == old(cache)
    {
      if name in cache {
        assert cache == cache[name := cache[name]];
        return Some(cache[name]);
      }
      if persistent && name in keychain {
        cache := cache[name := keychain[name]];
        return Some(keychain[name]);
      }
      r := None;
    }

    method Delete(name: string)
      requires Valid()
      modifies this
      ensures Valid() && cache == old(cache) - {name}
      ensures keychain == if persistent then old(keychain) - {name} else old(keychain)
    {
      if persistent {
        keychain := keychain - {name};
      }
      cache := cache - {name};
    }

    /** The values are taken in an arbitrary order. */
    method Redact(text: Bytes) returns (out: Bytes)
      ensures forall name :: name in cache && |cache[name]| >= MIN_SECRET && Sturdy(cache[name]) ==> !Occurs(cache[name], out)
      ensures exists order: seq<Bytes> :: out == RedactIn(text, order) && forall s :: s in order <==> s in cache.Values
    {
      out := text;
      ghost var order: seq<Bytes> := [];
      var left := cache.Keys;
      while left != {}
        invariant left <= cache.Keys
        invariant out == RedactIn(text, order)
        invariant forall s :: s in order ==> s in cache.Values
        invariant forall name :: name in cache.Keys - left ==> cache[name] in order
        decreases left
      {
        var name :| name in left;
        var value := cache[name];
        if |value| >= MIN_SECRET {
          out := Replace(out, value);
        }
        assert (order + [value])[..|order|] == order;
        order := order + [value];
        left := left - {name};
      }
      forall name | name in cache && |cache[name]| >= MIN_SECRET && Sturdy(cache[name]) ensures !Occurs(cache[name], out) {
        RedactHides(text, order, cache[name]);
      }
    }
  }
}
