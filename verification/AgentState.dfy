/** agent_state.py: identifiers, relative-path scopes, capability sets, and the record table. */
module AgentState {
  import opened Sequences

  const CAPABILITIES := {"read", "modify", "test", "deploy", "publish", "secrets", "iam", "unknown"}
  const MAX_IDENTIFIER := 128
  const MAX_SCOPES := 128
  const MAX_SCOPE_CHARS := 1024

  predicate IdentifierChar(c: char) {
    'A' <= c <= 'Z' || 'a' <= c <= 'z' || '0' <= c <= '9' || c in {'_', '.', ':', '@', '-'}
  }

  predicate IsIdentifier(s: string) {
    1 <= |s| <= MAX_IDENTIFIER && forall i :: 0 <= i < |s| ==> IdentifierChar(s[i])
  }

  predicate HexChar(c: char) { '0' <= c <= '9' || 'a' <= c <= 'f' }

  predicate IsHex32(s: string) { |s| == 32 && forall i :: 0 <= i < |s| ==> HexChar(s[i]) }

  // uuid.uuid4().hex
  type Uuid = s: string | IsHex32(s) witness "00000000000000000000000000000000"

  // ----- Paths: pathlib's view of a POSIX path -----

  datatype Path = Path(absolute: bool, parts: seq<string>) {
    // path.is_relative_to(prefix)
    predicate IsRelativeTo(prefix: Path) {
      absolute == prefix.absolute && prefix.parts <= parts
    }
  }

  // pathlib drops empty and "." components; ".." stays.
  function ParsePath(text: string): Path {
    Path(text != "" && text[0] == '/', Filter(Split(text, '/'), (part: string) => part != "" && part != "."))
  }

  predicate LiteralRelative(text: string) {
    !ParsePath(text).absolute && ".." !in ParsePath(text).parts
  }

  predicate IsScope(text: string) {
    && text != ""
    && LiteralRelative(text)
    && (forall c :: c in text ==> c !in {'*', '?', '[', ']', '\\', '\0', '\n', '\r'})
    && |text| <= MAX_SCOPE_CHARS
  }

  // path.as_posix() of a relative path
  function AsPosix(path: Path): string
    requires !path.absolute
  {
    if path.parts == [] then "." else Join(path.parts, '/')
  }

  // `scopes`: None is the ControlError.
  function Scopes(values: seq<string>): Option<set<string>> {
    if values == [] || |values| > MAX_SCOPES || exists v :: v in values && !IsScope(v) then None
    else Some(set v | v in values && IsScope(v) :: AsPosix(ParsePath(v)))
  }

  predicate Contained(resource: string, prefixes: set<string>) {
    LiteralRelative(resource) &&
    exists p :: p in prefixes && ParsePath(resource).IsRelativeTo(ParsePath(p))
  }

  // A resource as the caller names it, with what resolving it under the repository root gave:
  // None is a path outside the root or one that cannot be resolved.
  datatype Resource = Resource(text: string, resolved: Option<string>)

  predicate ResourceWithin(resource: Resource, prefixes: set<string>) {
    LiteralRelative(resource.text) && resource.resolved.Some? && Contained(resource.resolved.value, prefixes)
  }

  predicate ResourcesWithin(resources: seq<Resource>, prefixes: set<string>) {
    resources != [] && forall r :: r in resources ==> ResourceWithin(r, prefixes)
  }

  method CheckResources(resources: seq<Resource>, prefixes: set<string>) returns (ok: bool)
    ensures ok == ResourcesWithin(resources, prefixes)
  {
    for i := 0 to |resources|
      invariant forall k :: 0 <= k < i ==> ResourceWithin(resources[k], prefixes)
    {
      var r := resources[i];
      assert r in resources;
      if !LiteralRelative(r.text) {
        return false;
      }
      if r.resolved.None? {
        return false;
      }
      if !Contained(r.resolved.value, prefixes) {
        return false;
      }
    }
    return resources != [];
  }

  // Named by a relative path without "..", and resolved to one that lies under one of the prefixes.
  ghost predicate Confined(r: Resource, prefixes: set<string>) {
    && NoWayUp(r.text) && r.resolved.Some? && NoWayUp(r.resolved.value)
    && exists p :: p in prefixes && ParsePath(p).parts <= ParsePath(r.resolved.value).parts && !ParsePath(p).absolute
  }

  ghost predicate NoWayUp(text: string) { (text == "" || text[0] != '/') && ".." !in Split(text, '/') }

  lemma LiteralExact(text: string)
    ensures LiteralRelative(text) <==> NoWayUp(text)
  {
    FilterMembers(Split(text, '/'), (part: string) => part != "" && part != ".");
  }

  // Resources are accepted exactly when there is one and every one of them is confined.
  lemma ResourcesExact(resources: seq<Resource>, prefixes: set<string>)
    ensures ResourcesWithin(resources, prefixes)
            <==> resources != [] && forall r :: r in resources ==> Confined(r, prefixes)
  {
    forall r | r in resources ensures ResourceWithin(r, prefixes) <==> Confined(r, prefixes) {
      LiteralExact(r.text);
      if r.resolved.Some? {
        LiteralExact(r.resolved.value);
      }
    }
  }

  // `capabilities`: None is the ControlError.
  function Capabilities(values: set<string>): Option<set<string>> {
    if values == {} || !(values <= CAPABILITIES) then None else Some(values)
  }

  // Prefix containment is transitive: a path inside one of the child's scopes is inside one of the
  // parent's whenever every scope of the child is.
  lemma ContainedTransitive(resource: string, child: set<string>, parent: set<string>)
    requires Contained(resource, child)
    requires forall c :: c in child ==> Contained(c, parent)
    ensures Contained(resource, parent)
  {
    var c :| c in child && ParsePath(resource).IsRelativeTo(ParsePath(c));
    var p :| p in parent && ParsePath(c).IsRelativeTo(ParsePath(p));
    assert ParsePath(resource).IsRelativeTo(ParsePath(p));
  }

  lemma PartsAreClean(text: string)
    ensures forall part :: part in ParsePath(text).parts ==> part != "" && part != "." && '/' !in part
  {
    FilterMembers(Split(text, '/'), (part: string) => part != "" && part != ".");
    PiecesAreFree(text, '/');
  }

  // Storing a scope as text loses nothing: it parses back to the path it was written from.
  lemma ScopeRoundTrip(text: string)
    requires !ParsePath(text).absolute
    ensures ParsePath(AsPosix(ParsePath(text))) == ParsePath(text)
  {
    var path := ParsePath(text);
    var keep := (part: string) => part != "" && part != ".";
    PartsAreClean(text);
    if path.parts == [] {
      SplitFree(".", '/');
      assert Filter(["."], keep) == [];
    } else {
      var joined := Join(path.parts, '/');
      SplitInvertsJoin(path.parts, '/');
      FilterAll(path.parts, keep);
      assert joined[0] == path.parts[0][0];
      assert path.parts[0] in path.parts;
    }
  }

  // Every stored scope is again a literal relative path, and confines exactly what the text the
  // caller wrote confines.
  lemma ScopesKeepMeaning(values: seq<string>, resource: string)
    requires Scopes(values).Some?
    ensures forall s :: s in Scopes(values).value ==> LiteralRelative(s)
    ensures Contained(resource, Scopes(values).value)
            <==> LiteralRelative(resource) && exists v :: v in values && ParsePath(resource).IsRelativeTo(ParsePath(v))
  {
    var stored := Scopes(values).value;
    forall v | v in values
      ensures AsPosix(ParsePath(v)) in stored && ParsePath(AsPosix(ParsePath(v))) == ParsePath(v) && IsScope(v)
    {
      ScopeRoundTrip(v);
    }
    if Contained(resource, stored) {
      var s :| s in stored && ParsePath(resource).IsRelativeTo(ParsePath(s));
      var v :| v in values && s == AsPosix(ParsePath(v));
      assert ParsePath(resource).IsRelativeTo(ParsePath(v));
    }
    if LiteralRelative(resource) && exists v :: v in values && ParsePath(resource).IsRelativeTo(ParsePath(v)) {
      var v :| v in values && ParsePath(resource).IsRelativeTo(ParsePath(v));
      assert ParsePath(resource).IsRelativeTo(ParsePath(AsPosix(ParsePath(v))));
    }
  }

  lemma ScopesGiven(values: seq<string>)
    ensures Scopes(values).Some? <==> 1 <= |values| <= MAX_SCOPES && forall v :: v in values ==> IsScope(v)
    ensures Scopes(values).Some? ==>
              forall x :: x in Scopes(values).value <==>
                exists v :: v in values && IsScope(v) && x == AsPosix(ParsePath(v))
  {
  }

  lemma NothingShared<T>(a: set<T>, b: set<T>)
    requires a * b == {}
    ensures a !! b
  {
    assert forall x :: x in a && x in b ==> x in a * b;
  }

  lemma NothingSharedExact<T>(a: set<T>, b: set<T>)
    ensures a * b == {} <==> a !! b
  {
    if a * b == {} {
      NothingShared(a, b);
    }
  }

  // ----- Records of one namespace, with their insertion (rowid) order -----

  datatype Table<R> = Table(rows: map<string, R>, order: seq<string>) {
    ghost predicate Valid() {
      Distinct(order) && (forall id :: id in order <==> id in rows)
    }

    // INSERT: the primary key refuses an id that is already there.
    function Insert(id: string, record: R): Option<Table<R>> {
      if id in rows then None else Some(Table(rows[id := record], order + [id]))
    }

    // UPDATE: exactly one row must be hit.
    function Update(id: string, record: R): Option<Table<R>> {
      if id !in rows then None else Some(Table(rows[id := record], order))
    }
  }

  function EmptyTable<R>(): Table<R> { Table(map[], []) }

  lemma InsertValid<R>(t: Table<R>, id: string, record: R)
    requires t.Valid() && t.Insert(id, record).Some?
    ensures var t' := t.Insert(id, record).value;
            t'.Valid() && t'.rows.Keys == t.rows.Keys + {id} && |t'.order| == |t.order| + 1
  {
  }
}
