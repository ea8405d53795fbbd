/**
 * Dereferencing OpenAPI documents: every `$ref` is replaced by its target, members next to it
 * override the target's, and nesting, nodes, references and documents are budgeted. URL resolution,
 * percent decoding and document loading are parameters.
 */
module OpenApi {
  import opened Base
  import opened Json

  /** The text behind a URI: its value (parsed if it can be) and its size in bytes. */
  datatype Document = Document(root: Json, size: nat)

  /**
   * The surroundings of an import: URL resolution, percent decoding, the documents already parsed
   * when the traversal starts (the main one among them) and the loader for all others.
   */
  datatype Env = Env(
    canonical: (string, string) -> string,
    decode: string -> Option<string>,
    given: map<string, Json>,
    load: string -> Option<Document>)

  datatype DerefError = Cyclic(identity: string) | Unresolvable | OverBudget | NotAnObject

  const REF: string := "$ref"

  // ----- references -----

  /** A reference at its first `#`: what comes before, and the rest with the `#`. */
  function Separate(ref: string): (parts: (string, string))
    ensures parts.0 + parts.1 == ref
    ensures '#' !in parts.0 && (parts.1 == "" || parts.1[0] == '#')
  {
    if ref == "" then ("", "")
    else if ref[0] == '#' then ("", ref)
    else
      var rest := Separate(ref[1..]);
      ([ref[0]] + rest.0, rest.1)
  }

  function Walk(env: Env, v: Json, segments: seq<string>): Option<Json> {
    if segments == [] then Some(v)
    else
      var segment := env.decode(segments[0]);
      if segment.None? || !v.Obj? || !Has(v.fields, Unescape(segment.value)) then None
      else Walk(env, Get(v.fields, Unescape(segment.value)), segments[1..])
  }

  function PointerValue(env: Env, root: Json, fragment: string): Option<Json> {
    if fragment == "" || fragment == "#" then Some(root)
    else if |fragment| < 2 || fragment[..2] != "#/" then None
    else Walk(env, root, Split(fragment[2..], '/'))
  }

  datatype Target = Target(uri: string, fragment: string)

  function TargetOf(env: Env, ref: string, uri: string): Target {
    var (document, fragment) := Separate(ref);
    Target(if document == "" then uri else env.canonical(document, uri), fragment)
  }

  function Identity(t: Target): string {
    t.uri + t.fragment
  }

  /** The document a URI stands for: a given one, or a loadable text that is an object. */
  function Library(env: Env, uri: string): Option<Json> {
    if uri in env.given then Some(env.given[uri])
    else
      var document := env.load(uri);
      if document.None? || !document.value.root.Obj? then None else Some(document.value.root)
  }

  /** What a reference points at, if its document exists and holds it. */
  function Resolve(env: Env, t: Target): Option<Json> {
    var root := Library(env, t.uri);
    if root.None? then None else PointerValue(env, root.value, t.fragment)
  }

  /** The string under `$ref`, if the object is a reference. */
  function RefOf(fields: seq<Field>): Option<string> {
    if Has(fields, REF) && Get(fields, REF).Str? then Some(Get(fields, REF).text) else None
  }

  function Siblings(fields: seq<Field>): seq<Field> {
    if fields == [] then []
    else
      var last := fields[|fields| - 1];
      var front := Siblings(fields[..|fields| - 1]);
      if last.key == REF then front else front + [last]
  }

  /** `{...a, ...b}`: members of `a` keep their place and take `b`'s value, then `b`'s own members. */
  function Merge(a: seq<Field>, b: seq<Field>): seq<Field> {
    Override(a, b) + NewFields(a, b)
  }

  function Override(a: seq<Field>, b: seq<Field>): seq<Field> {
    if a == [] then []
    else
      var last := a[|a| - 1];
      Override(a[..|a| - 1], b) + [if Has(b, last.key) then Field(last.key, Get(b, last.key)) else last]
  }

  function NewFields(a: seq<Field>, b: seq<Field>): seq<Field> {
    if b == [] then []
    else
      var last := b[|b| - 1];
      var front := NewFields(a, b[..|b| - 1]);
      if Has(a, last.key) then front else front + [last]
  }

  // ----- the meaning of a document: substitution without budgets or cycle detection -----

  /** Replace references by their expanded targets, up to `fuel` of them nested in one another. */
  function Expand(env: Env, v: Json, uri: string, fuel: nat): Option<Json>
    decreases 2 * fuel, v, 1
  {
    match v
    case Arr(items) =>
      var xs := ExpandItems(env, items, uri, fuel);
      if xs.None? then None else Some(Arr(xs.value))
    case Obj(fields) =>
      var others := ExpandFields(env, fields, uri, fuel);
      if others.None? then None
      else if RefOf(fields).None? then Some(Obj(others.value))
      else
        var resolved := if fuel == 0 then None else ExpandTarget(env, TargetOf(env, RefOf(fields).value, uri), fuel - 1);
        if resolved.None? then None else Some(Combine(resolved.value, others.value))
    case _ => Some(v)
  }

  /** The target is read in its own document. */
  function ExpandTarget(env: Env, t: Target, fuel: nat): Option<Json>
    decreases 2 * fuel + 1, Null, 0
  {
    var target := Resolve(env, t);
    if target.None? then None else Expand(env, target.value, t.uri, fuel)
  }

  /** A target with the members that stood beside the reference. */
  function Combine(resolved: Json, siblings: seq<Field>): Json {
    if siblings == [] then resolved
    else if !resolved.Obj? then Obj(siblings)
    else Obj(Merge(resolved.fields, siblings))
  }

  function ExpandItems(env: Env, items: seq<Json>, uri: string, fuel: nat): Option<seq<Json>>
    decreases 2 * fuel, items, 0
  {
    if items == [] then Some([])
    else
      var front := ExpandItems(env, items[..|items| - 1], uri, fuel);
      var last := Expand(env, items[|items| - 1], uri, fuel);
      if front.None? || last.None? then None else Some(front.value + [last.value])
  }

  /** Every member expanded; a string under `$ref` is a reference, not a member. */
  function ExpandFields(env: Env, fields: seq<Field>, uri: string, fuel: nat): Option<seq<Field>>
    decreases 2 * fuel, fields, 0
  {
    if fields == [] then Some([])
    else
      var front := ExpandFields(env, fields[..|fields| - 1], uri, fuel);
      var last := fields[|fields| - 1];
      if last.key == REF && last.value.Str? then front
      else
        var value := Expand(env, last.value, uri, fuel);
        if front.None? || value.None? then None else Some(front.value + [Field(last.key, value.value)])
  }
}
