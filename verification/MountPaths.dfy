/** The published mount URL and the proxy that serves it. */
module MountPaths {
  import opened Basics
  import opened Text
  import opened MountProtocol

  /** The pieces between the first n - 1 separators, and everything after them. */
  function SplitN(s: string, sep: char, n: nat): seq<string>
    requires n >= 1
  {
    var i := IndexOf(s, sep);
    if n == 1 || i == |s| then [s] else [s[..i]] + SplitN(s[i + 1..], sep, n - 1)
  }

  datatype Routed = Routed(ns: string, name: string, upstream: string)

  /** Which mount a request goes to, and the path it has there; nothing for a bad request. */
  function Route(path: string): Option<Routed> {
    var parts := SplitN(TrimPrefix(path, "/mounts/"), '/', 3);
    if |parts| < 3 then None else Some(Routed(parts[0], parts[1], "/" + parts[2]))
  }

  function JoinURLPath(basePath: string, requestPath: string): string {
    if HasSuffix(basePath, "/") && HasPrefix(requestPath, "/") then basePath + TrimPrefix(requestPath, "/")
    else if !HasSuffix(basePath, "/") && !HasPrefix(requestPath, "/") then basePath + "/" + requestPath
    else basePath + requestPath
  }

  /** The path of an absolute URL: what follows the scheme, "://" and the authority. */
  function PathOf(url: string): string {
    var colon := IndexOf(url, ':');
    if colon + 3 > |url| then ""
    else
      var rest := url[colon + 3..];
      rest[IndexOf(rest, '/')..]
  }

  lemma SplitNFirst(a: string, sep: char, rest: string, n: nat)
    requires Free(a, sep) && n >= 2
    ensures SplitN(a + [sep] + rest, sep, n) == [a] + SplitN(rest, sep, n - 1)
  {
    IndexOfFirst(a, sep, rest);
    var s := a + [sep] + rest;
    assert s[..|a|] == a && s[|a| + 1..] == rest;
  }

  predicate Spells(path: string, r: Routed) {
    && Free(r.ns, '/') && Free(r.name, '/') && HasPrefix(r.upstream, "/")
    && TrimPrefix(path, "/mounts/") == r.ns + "/" + r.name + r.upstream
  }

  lemma SpelledIsRouted(path: string, r: Routed)
    requires Spells(path, r)
    ensures Route(path) == Some(r)
  {
    var rest := r.upstream[1..];
    assert r.upstream == "/" + rest;
    assert TrimPrefix(path, "/mounts/") == r.ns + ['/'] + (r.name + ['/'] + rest);
    SplitNFirst(r.ns, '/', r.name + ['/'] + rest, 3);
    SplitNFirst(r.name, '/', rest, 2);
    assert SplitN(rest, '/', 1) == [rest];
  }

  /** Takes the first piece off again. */
  lemma SplitNOnce(s: string, sep: char, n: nat) returns (a: string, rest: string)
    requires n >= 2 && |SplitN(s, sep, n)| >= 2
    ensures Free(a, sep) && s == a + [sep] + rest && SplitN(s, sep, n) == [a] + SplitN(rest, sep, n - 1)
  {
    var i := IndexOf(s, sep);
    a, rest := s[..i], s[i + 1..];
  }

  lemma RoutedIsSpelled(path: string)
    requires Route(path).Some?
    ensures Spells(path, Route(path).value)
  {
    var s := TrimPrefix(path, "/mounts/");
    var a, t := SplitNOnce(s, '/', 3);
    var b, u := SplitNOnce(t, '/', 2);
    assert SplitN(u, '/', 1) == [u];
    assert Route(path).value == Routed(a, b, "/" + u);
    hide SplitN, IndexOf, Free, TrimPrefix, Route;
    var upstream := "/" + u;
    assert upstream[..1] == "/";
    assert a + ['/'] + (b + ['/'] + u) == a + "/" + b + upstream;
  }

  /** A request is routed to a mount exactly when its path spells that mount out; the reading is unique. */
  lemma RoutingIsExact(path: string, r: Routed)
    ensures Route(path) == Some(r) <==> Spells(path, r)
  {
    if Spells(path, r) {
      SpelledIsRouted(path, r);
    }
    if Route(path).Some? {
      RoutedIsSpelled(path);
    }
  }

  lemma PathOfMount(scheme: string, authority: string, path: string)
    requires Free(scheme, ':') && Free(authority, '/') && HasPrefix(path, "/")
    ensures PathOf(scheme + "://" + authority + path) == path
  {
    var url, tail := scheme + "://" + authority + path, path[1..];
    assert path == "/" + tail;
    assert url == scheme + [':'] + ("//" + authority + path);
    IndexOfFirst(scheme, ':', "//" + authority + path);
    IndexOfFirst(authority, '/', tail);
    hide IndexOf, Free;
    assert url[|scheme| + 3..] == authority + ['/'] + tail;
    assert (authority + ['/'] + tail)[|authority|..] == path;
  }

  lemma BaseWithoutSlash(authority: string, head: string, slash: bool)
    requires authority != "" && Free(authority, '/')
    ensures TrimSuffix(head + authority + (if slash then "/" else ""), "/") == head + authority
  {
    var base := head + authority + (if slash then "/" else "");
    if slash {
      assert base[|base| - 1..] == "/" && base[..|base| - 1] == head + authority;
    } else {
      assert base[|base| - 1..] == [authority[|authority| - 1]];
    }
  }

  /**
   * For a proxy base URL without a path, a request below the published URL of an object is routed to that object,
   * and reaches the workload cluster with the rest of the path behind the target's own path.
   */
  lemma {:induction false} PublishedURLIsServed(c: Config, k: Key, scheme: string, authority: string, slash: bool,
                                                 rest: string, target: string)
    requires c.proxyBase == scheme + "://" + authority + (if slash then "/" else "")
    requires Free(scheme, ':') && authority != "" && Free(authority, '/') && Free(k.ns, '/') && Free(k.name, '/')
    ensures Route(PathOf(MountURL(c, k)) + "/" + rest) == Some(Routed(k.ns, k.name, "/" + rest))
    ensures JoinURLPath(target, "/" + rest) == TrimSuffix(target, "/") + "/" + rest
  {
    var path := "/mounts/" + k.ns + "/" + k.name;
    BaseWithoutSlash(authority, scheme + "://", slash);
    assert MountURL(c, k) == scheme + "://" + authority + path;
    PathOfMount(scheme, authority, path);
    RequestSpells(k, rest);
    hide Free, PathOf, MountURL, Route, Spells, JoinURLPath, TrimSuffix, TrimPrefix;
    SpelledIsRouted(path + "/" + rest, Routed(k.ns, k.name, "/" + rest));
    JoinsOnce(target, rest);
  }

  lemma RequestSpells(k: Key, rest: string)
    requires Free(k.ns, '/') && Free(k.name, '/')
    ensures Spells("/mounts/" + k.ns + "/" + k.name + "/" + rest, Routed(k.ns, k.name, "/" + rest))
  {
    hide Free;
    var request := "/mounts/" + k.ns + "/" + k.name + "/" + rest;
    assert request[..8] == "/mounts/" && request[8..] == k.ns + "/" + k.name + ("/" + rest);
    assert ("/" + rest)[..1] == "/";
  }

  lemma JoinsOnce(target: string, rest: string)
    ensures JoinURLPath(target, "/" + rest) == TrimSuffix(target, "/") + "/" + rest
  {
    var request := "/" + rest;
    assert request[1..] == rest && request[..1] == "/";
    assert HasPrefix(request, "/") && TrimPrefix(request, "/") == rest;
    hide HasPrefix, TrimPrefix;
    if HasSuffix(target, "/") {
      var head := target[..|target| - 1];
      assert target == head + "/" && TrimSuffix(target, "/") == head;
    } else {
      assert TrimSuffix(target, "/") == target;
      assert target + request == target + "/" + rest;
    }
  }
}
