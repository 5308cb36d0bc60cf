/** Host and port as the kubeconfig download handles them; brackets follow section 3.2.2 of RFC 3986. */
module Hosts {
  import opened Basics
  import opened Percent
  import opened Text

  datatype HostPort = HostPort(host: string, port: string)

  function LastIndexOf(s: string, c: char): (i: int)
    ensures -1 <= i < |s|
  {
    if s == "" then -1
    else if s[|s| - 1] == c then |s| - 1
    else LastIndexOf(s[..|s| - 1], c)
  }

  /** Go's net.SplitHostPort. */
  function SplitHostPort(hostport: string): Result<HostPort> {
    var i := LastIndexOf(hostport, ':');
    if i < 0 then Err
    else if hostport[0] == '[' then
      var end := IndexOf(hostport, ']');
      if end == |hostport| || end + 1 != i then Err
      else if !Free(hostport[1..], '[') || !Free(hostport[end + 1..], ']') then Err
      else Ok(HostPort(hostport[1..end], hostport[i + 1..]))
    else if !Free(hostport[..i], ':') then Err
    else if !Free(hostport, '[') || !Free(hostport, ']') then Err
    else Ok(HostPort(hostport[..i], hostport[i + 1..]))
  }

  /** Go's net.JoinHostPort. */
  function JoinHostPort(host: string, port: string): string {
    if Free(host, ':') then host + ":" + port else "[" + host + "]:" + port
  }

  function TrimBrackets(s: string): string {
    Trim(s, c => c == '[' || c == ']')
  }

  /** urlHost stands for the host part of a full URL, which url.Parse finds; it fails on malformed ones. */
  function HostWithoutPort(text: string, urlHost: string -> Result<string>): Result<string> {
    var hostport := TrimSpace(TrimQuotes(text));
    if hostport == "" then Err
    else if Contains(hostport, "://") then
      match urlHost(hostport)
      case Err => Err
      case Ok(h) => Ok(StripPort(h))
    else Ok(StripPort(hostport))
  }

  function StripPort(hostport: string): string {
    var split := SplitHostPort(hostport);
    if split.Ok? && split.value.port != "" then split.value.host
    else if HasPrefix(hostport, "[") then TrimBrackets(hostport)
    else hostport
  }

  /** What Go's URL printing leaves as it is in a host. */
  predicate PlainInHost(c: char) {
    'A' <= c <= 'Z' || 'a' <= c <= 'z' || '0' <= c <= '9' || c in "-_.~!$&'()*+,;=:[]<>\""
  }

  function ExternalBaseURLForHost(host: string, scheme: string, port: string, urlHost: string -> Result<string>)
    : Result<string>
  {
    if host == "" || scheme == "" || port == "" then Err
    else
      match HostWithoutPort(host, urlHost)
      case Err => Err
      case Ok(clean) => Ok(scheme + "://" + Encode(JoinHostPort(clean, port), PlainInHost))
  }

  /******* Properties *******/

  predicate IsPlainHost(h: string) {
    && h != "" && !Contains(h, "://")
    && Free(h, '[') && Free(h, ']') && Free(h, '"') && forall i :: 0 <= i < |h| ==> !IsSpace(h[i])
  }

  predicate IsPort(p: string) {
    p != "" && forall i :: 0 <= i < |p| ==> '0' <= p[i] <= '9'
  }

  /** The last colon of a text that ends in a colon and something colon-free. */
  lemma {:induction false} LastColon(a: string, b: string)
    requires Free(b, ':')
    ensures LastIndexOf(a + ":" + b, ':') == |a|
  {
    var s := a + ":" + b;
    if b != "" {
      var init := b[..|b| - 1];
      assert s[..|s| - 1] == a + ":" + init;
      LastColon(a, init);
    }
  }

  lemma {:induction false} NoColon(s: string)
    requires Free(s, ':')
    ensures LastIndexOf(s, ':') == -1
  {
    if s != "" {
      NoColon(s[..|s| - 1]);
    }
  }

  lemma BracketedCuts(h: string, port: string)
    ensures var s := "[" + h + "]:" + port;
            && s[0] == '[' && s[1..|h| + 1] == h && s[|h| + 3..] == port
            && s[1..] == h + ("]:" + port) && s[|h| + 2..] == ":" + port
  {
  }

  lemma FreeJoined(a: string, b: string, c: char)
    ensures Free(a + b, c) <==> Free(a, c) && Free(b, c)
  {
    assert Free(a + b, c) ==> (forall i :: 0 <= i < |a| ==> (a + b)[i] == a[i]);
    assert forall i :: 0 <= i < |b| ==> (a + b)[|a| + i] == b[i];
  }

  /** How a bracketed host with a port is taken apart, given where its marks are. */
  lemma BracketedSplit(s: string, h: string, port: string)
    requires |s| == |h| + |port| + 3 && s[0] == '[' && s[1..|h| + 1] == h && s[|h| + 3..] == port && port != ""
    requires LastIndexOf(s, ':') == |h| + 2 && IndexOf(s, ']') == |h| + 1
    requires Free(s[1..], '[') && Free(s[|h| + 2..], ']')
    ensures StripPort(s) == h
  {
    hide Free, IndexOf, LastIndexOf, TrimBrackets;
  }

  lemma StripBracketed(h: string, port: string)
    requires Free(h, '[') && Free(h, ']') && Free(port, ':') && Free(port, '[') && Free(port, ']') && port != ""
    ensures StripPort("[" + h + "]:" + port) == h
  {
    var s := "[" + h + "]:" + port;
    assert Free("[", ']') && Free("]:", '[') && Free(":", ']');
    hide Free, IndexOf, LastIndexOf, StripPort;
    BracketedCuts(h, port);
    FreeJoined("[", h, ']');
    FreeJoined("]:", port, '[');
    FreeJoined(h, "]:" + port, '[');
    FreeJoined(":", port, ']');
    assert s == ("[" + h + "]") + ":" + port && s == ("[" + h) + [']'] + (":" + port);
    LastColon("[" + h + "]", port);
    IndexOfFirst("[" + h, ']', ":" + port);
    BracketedSplit(s, h, port);
  }

  lemma StripUnbracketed(h: string, port: string)
    requires h != "" && Free(h, ':') && Free(h, '[') && Free(h, ']')
    requires Free(port, ':') && Free(port, '[') && Free(port, ']') && port != ""
    ensures StripPort(h + ":" + port) == h
  {
    var s := h + ":" + port;
    LastColon(h, port);
    assert s[..|h|] == h && s[|h| + 1..] == port && s[0] == h[0];
    assert Free(s, '[') && Free(s, ']') && s[0] != '[';
    hide Free, LastIndexOf;
    assert SplitHostPort(s) == Ok(HostPort(h, port));
  }

  lemma StripJoined(h: string, port: string)
    requires IsPlainHost(h) && IsPort(port)
    ensures StripPort(JoinHostPort(h, port)) == h
  {
    assert Free(port, ':') && Free(port, '[') && Free(port, ']');
    if Free(h, ':') {
      StripUnbracketed(h, port);
    } else {
      StripBracketed(h, port);
    }
  }

  /** Text whose ends are neither quotes nor space, without "://", goes to the port stripping as it is. */
  lemma Untrimmed(s: string, urlHost: string -> Result<string>)
    requires s != "" && s[0] != '"' && s[|s| - 1] != '"' && !IsSpace(s[0]) && !IsSpace(s[|s| - 1])
    requires !Contains(s, "://")
    ensures HostWithoutPort(s, urlHost) == Ok(StripPort(s))
  {
    TrimSolid(s, c => c == '"');
    TrimSolid(s, IsSpace);
  }

  lemma SchemeMark(s: string, i: nat)
    ensures OccursAt(s, "://", i) <==> i + 3 <= |s| && s[i] == ':' && s[i + 1] == '/' && s[i + 2] == '/'
  {
    if i + 3 <= |s| {
      var t := s[i..i + 3];
      assert t[0] == s[i] && t[1] == s[i + 1] && t[2] == s[i + 2];
      assert t == [t[0], t[1], t[2]];
    }
  }

  /** Brackets and ports around a host do not make it look like a URL. */
  lemma OccursInside(left: string, h: string, right: string)
    requires !Contains(h, "://") && Free(left, ':') && Free(right, '/')
    ensures !Contains(left + h + right, "://")
  {
    var s := left + h + right;
    forall i | 0 <= i <= |s| ensures !OccursAt(s, "://", i) {
      SchemeMark(s, i);
      if i < |left| {
        assert s[i] == left[i];
      } else if i + 3 <= |left| + |h| {
        SchemeMark(h, i - |left|);
        assert !OccursAt(h, "://", i - |left|);
        assert s[i] == h[i - |left|] && s[i + 1] == h[i + 1 - |left|] && s[i + 2] == h[i + 2 - |left|];
      } else if i + 2 < |s| {
        assert s[i + 2] == right[i + 2 - |left| - |h|];
      }
    }
  }

  lemma JoinedIsUntrimmed(h: string, port: string, urlHost: string -> Result<string>)
    requires IsPlainHost(h) && IsPort(port)
    ensures HostWithoutPort(JoinHostPort(h, port), urlHost) == Ok(StripPort(JoinHostPort(h, port)))
  {
    var s := JoinHostPort(h, port);
    if Free(h, ':') {
      assert s == "" + h + (":" + port);
      OccursInside("", h, ":" + port);
    } else {
      assert s == "[" + h + ("]:" + port);
      OccursInside("[", h, "]:" + port);
    }
    assert s[|s| - 1] == port[|port| - 1];
    Untrimmed(s, urlHost);
  }

  /** Stripping undoes joining. */
  lemma StripUndoesJoin(h: string, port: string, urlHost: string -> Result<string>)
    requires IsPlainHost(h) && IsPort(port)
    ensures HostWithoutPort(JoinHostPort(h, port), urlHost) == Ok(h)
  {
    StripJoined(h, port);
    JoinedIsUntrimmed(h, port, urlHost);
  }

  lemma StripBracketsAlone(h: string)
    requires h != "" && Free(h, '[') && Free(h, ']')
    ensures StripPort("[" + h + "]") == h
  {
    var s := "[" + h + "]";
    IndexOfFirst("[" + h, ']', "");
    assert s == ("[" + h) + [']'] + "";
    var drop := c => c == '[' || c == ']';
    assert Solid(h, drop) && All("[", drop) && All("]", drop);
    TrimPadded("[", h, "]", drop);
    assert s[0] == '[' && s[..1] == "[" && LastIndexOf(s, ':') < |s|;
    hide Free, IndexOf, LastIndexOf, Trim;
    assert SplitHostPort(s).Err?;
    assert TrimBrackets(s) == h;
  }

  /** A bracketed host without a port loses just its brackets. */
  lemma BracketedAlone(h: string, urlHost: string -> Result<string>)
    requires IsPlainHost(h)
    ensures HostWithoutPort("[" + h + "]", urlHost) == Ok(h)
  {
    StripBracketsAlone(h);
    OccursInside("[", h, "]");
    hide StripPort, IsPlainHost, Contains;
    Untrimmed("[" + h + "]", urlHost);
  }

  predicate OneColon(h: string) {
    exists i :: 0 <= i < |h| && ColonOnlyAt(h, i)
  }

  predicate ColonOnlyAt(h: string, i: nat)
    requires i < |h|
  {
    h[i] == ':' && Free(h[..i], ':') && Free(h[i + 1..], ':')
  }

  /** Cuts a text at its last colon, if it has one. */
  lemma {:induction false} CutAtLast(s: string) returns (a: string, b: string)
    ensures !Free(s, ':') ==> s == a + ":" + b && Free(b, ':') && LastIndexOf(s, ':') == |a|
  {
    if s == "" {
      a, b := "", "";
    } else if s[|s| - 1] == ':' {
      a, b := s[..|s| - 1], "";
    } else {
      a, b := CutAtLast(s[..|s| - 1]);
      b := b + [s[|s| - 1]];
    }
  }

  lemma OneColonCut(h: string, a: string, b: string)
    requires h == a + ":" + b && Free(b, ':')
    ensures OneColon(h) <==> Free(a, ':')
  {
    assert h[..|a|] == a && h[|a| + 1..] == b && h[|a|] == ':';
    if Free(a, ':') {
      assert ColonOnlyAt(h, |a|);
    } else {
      var k :| 0 <= k < |a| && a[k] == ':';
      assert h[k] == ':';
      forall i | 0 <= i < |h| ensures !ColonOnlyAt(h, i) {
        if i > k {
          assert h[..i][k] == ':';
        } else {
          assert h[i + 1..][|a| - i - 1] == ':';
        }
      }
    }
  }

  lemma StripBare(h: string)
    requires h != "" && Free(h, '[') && Free(h, ']')
    ensures StripPort(h) == h <==> !OneColon(h) || h[|h| - 1] == ':'
  {
    if Free(h, ':') {
      NoColon(h);
    } else {
      var a, b := CutAtLast(h);
      OneColonCut(h, a, b);
      assert h[..|a|] == a && h[|a| + 1..] == b && h[0] != '[' && !HasPrefix(h, "[");
      assert b != "" ==> h[|h| - 1] == b[|b| - 1];
      hide Free, LastIndexOf, OneColon;
      assert SplitHostPort(h) == if Free(a, ':') then Ok(HostPort(a, b)) else Err;
    }
  }

  /** A bare host keeps its spelling exactly when it cannot be read as host and port. */
  lemma BareHost(h: string, urlHost: string -> Result<string>)
    requires IsPlainHost(h)
    ensures HostWithoutPort(h, urlHost) == Ok(h) <==> !OneColon(h) || h[|h| - 1] == ':'
  {
    StripBare(h);
    hide StripPort, OneColon, Contains;
    Untrimmed(h, urlHost);
  }

  lemma StripKeepsOut(h: string)
    requires h != "" && Free(h, '[')
    ensures Free(StripPort(h), '[')
  {
    var i := LastIndexOf(h, ':');
    assert h[0] != '[' && !HasPrefix(h, "[");
    if i >= 0 {
      assert forall k :: 0 <= k < i ==> h[..i][k] == h[k];
    }
  }

  lemma JoinBegins(host: string, port: string)
    requires Free(host, '[')
    ensures JoinHostPort(host, port)[0] == '[' <==> !Free(host, ':')
  {
  }

  /** Different hosts are joined to different texts, with the same port. */
  lemma JoinedApart(a: string, b: string, port: string)
    requires Free(a, '[') && Free(b, '[') && JoinHostPort(a, port) == JoinHostPort(b, port)
    ensures a == b
  {
    var x, y := JoinHostPort(a, port), JoinHostPort(b, port);
    JoinBegins(a, port);
    JoinBegins(b, port);
    if Free(a, ':') && Free(b, ':') {
      assert x[..|x| - |port| - 1] == a && y[..|y| - |port| - 1] == b;
    } else if !Free(a, ':') && !Free(b, ':') {
      assert x[1..|x| - |port| - 2] == a && y[1..|y| - |port| - 2] == b;
    }
  }

  /** So different hosts get different base URLs. */
  lemma URLsApart(a: string, b: string, scheme: string, port: string)
    requires Free(a, '[') && Free(b, '[')
    requires scheme + "://" + Encode(JoinHostPort(a, port), PlainInHost)
          == scheme + "://" + Encode(JoinHostPort(b, port), PlainInHost)
    ensures a == b
  {
    var x, y := JoinHostPort(a, port), JoinHostPort(b, port);
    var front := scheme + "://";
    assert (front + Encode(x, PlainInHost))[|front|..] == Encode(x, PlainInHost);
    assert (front + Encode(y, PlainInHost))[|front|..] == Encode(y, PlainInHost);
    DecodeEncode(x, PlainInHost);
    DecodeEncode(y, PlainInHost);
    JoinedApart(a, b, port);
  }

  /**
   * The bracketed and the joined spelling of a host always give one external base URL; the bare spelling gives the
   * same exactly when it cannot be read as host and port, or when there is no URL at all.
   */
  lemma {:induction false} SpellingsAgree(h: string, p: string, scheme: string, port: string,
                                           urlHost: string -> Result<string>)
    requires IsPlainHost(h) && IsPort(p)
    ensures ExternalBaseURLForHost("[" + h + "]", scheme, port, urlHost)
            == ExternalBaseURLForHost(JoinHostPort(h, p), scheme, port, urlHost)
    ensures ExternalBaseURLForHost(h, scheme, port, urlHost)
            == ExternalBaseURLForHost("[" + h + "]", scheme, port, urlHost)
            <==> !OneColon(h) || h[|h| - 1] == ':' || scheme == "" || port == ""
  {
    BareHost(h, urlHost);
    BracketedAlone(h, urlHost);
    StripUndoesJoin(h, p, urlHost);
    Untrimmed(h, urlHost);
    StripKeepsOut(h);
    hide StripPort, OneColon, Contains, HostWithoutPort, JoinHostPort, Encode;
    if scheme != "" && port != "" &&
       ExternalBaseURLForHost(h, scheme, port, urlHost) == ExternalBaseURLForHost("[" + h + "]", scheme, port, urlHost)
    {
      URLsApart(StripPort(h), h, scheme, port);
    }
  }

  /** Latin letters, digits, dots, dashes, underscores and colons, as in host names and addresses. */
  predicate InHostNames(c: char) {
    'A' <= c <= 'Z' || 'a' <= c <= 'z' || '0' <= c <= '9' || c == '.' || c == '-' || c == '_' || c == ':'
  }

  /** For a host name or an address with any port, the base URL has the new port, and brackets around colons. */
  lemma BaseURLText(h: string, p: string, scheme: string, port: string, urlHost: string -> Result<string>)
    requires IsPlainHost(h) && IsPort(p) && IsPort(port) && scheme != "" && All(h, InHostNames)
    ensures ExternalBaseURLForHost(JoinHostPort(h, p), scheme, port, urlHost)
         == Ok(scheme + "://" + if Free(h, ':') then h + ":" + port else "[" + h + "]:" + port)
    ensures ExternalBaseURLForHost("[" + h + "]", scheme, port, urlHost)
         == Ok(scheme + "://" + if Free(h, ':') then h + ":" + port else "[" + h + "]:" + port)
    ensures JoinHostPort(h, p) == if Free(h, ':') then h + ":" + p else "[" + h + "]:" + p
  {
    hide HostWithoutPort, Encode;
    StripUndoesJoin(h, p, urlHost);
    BracketedAlone(h, urlHost);
    forall i | 0 <= i < |JoinHostPort(h, port)| ensures PlainInHost(JoinHostPort(h, port)[i]) {
    }
    EncodePlain(JoinHostPort(h, port), PlainInHost);
  }
}
