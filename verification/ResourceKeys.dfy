/** Route keys of API resources. */
module ResourceKeys {
  import opened Basics
  import opened Percent
  import opened Text

  /** What encodeURIComponent leaves as it is. */
  predicate Unreserved(c: char) {
    'A' <= c <= 'Z' || 'a' <= c <= 'z' || '0' <= c <= '9' || c in "-_.!~*'()"
  }

  datatype Triple = Triple(group: string, version: string, resource: string)

  function EncodeResourceKey(t: Triple): string {
    Encode(Join([t.group, t.version, t.resource], '/'), Unreserved)
  }

  /** Only the first three pieces count; a missing or empty one makes the key invalid. */
  function DecodeResourceKey(key: string): Option<Triple> {
    match Decode(key)
    case None => None
    case Some(decoded) =>
      var parts := Split(decoded, '/');
      if |parts| < 3 || parts[0] == "" || parts[1] == "" || parts[2] == "" then None
      else Some(Triple(parts[0], parts[1], parts[2]))
  }

  predicate WellFormed(t: Triple) {
    && t.group != "" && t.version != "" && t.resource != ""
    && Free(t.group, '/') && Free(t.version, '/') && Free(t.resource, '/')
  }

  /** A key leads back to its triple exactly when no component is empty or has a slash. */
  lemma KeyRoundTrip(t: Triple)
    ensures DecodeResourceKey(EncodeResourceKey(t)) == Some(t) <==> WellFormed(t)
  {
    var parts := [t.group, t.version, t.resource];
    DecodeEncode(Join(parts, '/'), Unreserved);
    if WellFormed(t) {
      SplitJoin(parts, '/');
    }
  }

  /** So two well-formed triples never share a key. */
  lemma KeysAreDistinct(t: Triple, u: Triple)
    requires WellFormed(t) && WellFormed(u)
    ensures EncodeResourceKey(t) == EncodeResourceKey(u) <==> t == u
  {
    KeyRoundTrip(t);
    KeyRoundTrip(u);
  }

  lemma CountFree(s: string)
    ensures Free(s, '/') <==> multiset(s)['/'] == 0
  {
    if Free(s, '/') {
      assert '/' !in s;
    } else {
      var i :| 0 <= i < |s| && s[i] == '/';
      assert '/' in s;
    }
  }

  lemma JoinedTriple(t: Triple)
    ensures Join([t.group, t.version, t.resource], '/') == t.group + ['/'] + (t.version + ['/'] + t.resource)
  {
    var rest, last := [t.version, t.resource], [t.resource];
    assert [t.group, t.version, t.resource][1..] == rest && rest[1..] == last;
    assert Join(last, '/') == t.resource;
    assert Join(rest, '/') == t.version + ['/'] + Join(last, '/');
  }

  /** A triple without empty components that has the key of a well-formed one is that one. */
  lemma KeyIsUnique(t: Triple, u: Triple)
    requires WellFormed(t) && u.group != "" && u.version != "" && u.resource != ""
    requires EncodeResourceKey(t) == EncodeResourceKey(u)
    ensures t == u
  {
    hide Free, Join, Encode, Decode;
    DecodeEncode(Join([t.group, t.version, t.resource], '/'), Unreserved);
    DecodeEncode(Join([u.group, u.version, u.resource], '/'), Unreserved);
    JoinedTriple(t);
    JoinedTriple(u);
    CountFree(t.group);
    CountFree(t.version);
    CountFree(t.resource);
    CountFree(u.group);
    CountFree(u.version);
    CountFree(u.resource);
    assert multiset(t.group + ['/'] + (t.version + ['/'] + t.resource))['/'] == 2;
    KeysAreDistinct(t, u);
  }

  /******* Keys, said outright *******/

  /** What stays as it is in a key: Latin letters, digits and nine marks. */
  predicate KeptInKeys(c: char) {
    || 'A' <= c <= 'Z' || 'a' <= c <= 'z' || '0' <= c <= '9'
    || c == '-' || c == '_' || c == '.' || c == '!' || c == '~' || c == '*' || c == '\'' || c == '(' || c == ')'
  }

  /** A triple of such characters is legible in its key, with escaped slashes in between. */
  lemma KeyText(t: Triple)
    requires All(t.group, KeptInKeys) && All(t.version, KeptInKeys) && All(t.resource, KeptInKeys)
    ensures EncodeResourceKey(t) == t.group + "%2F" + t.version + "%2F" + t.resource
  {
    hide Encode, Join;
    JoinedTriple(t);
    EncodePlain(t.group, Unreserved);
    EncodePlain(t.version, Unreserved);
    EncodePlain(t.resource, Unreserved);
    EncodeAcrossSlash(t.group, t.version + ['/'] + t.resource, Unreserved);
    EncodeAcrossSlash(t.version, t.resource, Unreserved);
  }

  /** And no key has any other character but the percent sign, so it is one segment of a route. */
  lemma KeyIsClean(t: Triple)
    ensures forall i :: 0 <= i < |EncodeResourceKey(t)| ==>
              EncodeResourceKey(t)[i] == '%' || KeptInKeys(EncodeResourceKey(t)[i])
  {
    EncodeClean(Join([t.group, t.version, t.resource], '/'), Unreserved);
  }

  /** The page's lookup: the first listed resource with the decoded triple. */
  method FindResource(resources: seq<Triple>, key: string) returns (found: Option<nat>)
    ensures found.Some? ==>
              found.value < |resources| && DecodeResourceKey(key) == Some(resources[found.value])
    ensures found.None? ==> forall i :: 0 <= i < |resources| ==> DecodeResourceKey(key) != Some(resources[i])
    ensures forall i :: 0 <= i < |resources| && WellFormed(resources[i]) && EncodeResourceKey(resources[i]) == key ==>
              found.Some? && resources[found.value] == resources[i]
  {
    forall i | 0 <= i < |resources| && WellFormed(resources[i]) && EncodeResourceKey(resources[i]) == key
      ensures DecodeResourceKey(key) == Some(resources[i])
    {
      KeyRoundTrip(resources[i]);
    }
    var decoded := DecodeResourceKey(key);
    if decoded.None? { return None; }
    var i := 0;
    while i < |resources|
      invariant i <= |resources|
      invariant forall j :: 0 <= j < i ==> resources[j] != decoded.value
    {
      if resources[i] == decoded.value { return Some(i); }
      i := i + 1;
    }
    return None;
  }
}
