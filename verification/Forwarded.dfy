/** The host a request was meant for: the Forwarded header (section 4 of RFC 7239) and its fallbacks. */
module Forwarded {
  import opened Basics
  import opened Text

  const HOST := "host="

  function Lower(c: char): char {
    if 'A' <= c <= 'Z' then (c as int + 32) as char else c
  }

  predicate EqualFold(a: string, b: string) {
    |a| == |b| && forall i :: 0 <= i < |a| ==> Lower(a[i]) == Lower(b[i])
  }

  /** Whether a trimmed part names a host. */
  predicate NamesHost(part: string) {
    |part| >= 5 && EqualFold(part[..5], HOST)
  }

  function HostIn(part: string): string
    requires |part| >= 5
  {
    TrimQuotes(TrimSpace(part[5..]))
  }

  /** All parts of all entries, trimmed, in order. */
  function Flatten(entries: seq<string>): seq<string> {
    if entries == [] then [] else Trimmed(Split(entries[0], ';')) + Flatten(entries[1..])
  }

  function Trimmed(parts: seq<string>): (r: seq<string>)
    ensures |r| == |parts| && forall i :: 0 <= i < |r| ==> r[i] == TrimSpace(parts[i])
  {
    seq(|parts|, i requires 0 <= i < |parts| => TrimSpace(parts[i]))
  }

  function Parts(value: string): seq<string> {
    Flatten(Split(value, ','))
  }

  function FirstHost(parts: seq<string>): string {
    if parts == [] then ""
    else if NamesHost(parts[0]) then HostIn(parts[0])
    else FirstHost(parts[1..])
  }

  lemma FirstHostMore(part: string, rest: seq<string>)
    ensures FirstHost([part] + rest) == if NamesHost(part) then HostIn(part) else FirstHost(rest)
  {
    assert ([part] + rest)[1..] == rest;
  }

  /** What the loops still have to look at: the parts of one entry from p on, and then the rest. */
  function Remaining(parts: seq<string>, p: nat, rest: seq<string>): seq<string>
    requires p <= |parts|
  {
    Trimmed(parts[p..]) + rest
  }

  lemma RemainingMore(parts: seq<string>, p: nat, rest: seq<string>)
    requires p < |parts|
    ensures FirstHost(Remaining(parts, p, rest))
            == if NamesHost(TrimSpace(parts[p])) then HostIn(TrimSpace(parts[p]))
               else FirstHost(Remaining(parts, p + 1, rest))
  {
    hide NamesHost, TrimSpace;
    assert Trimmed(parts[p..]) == [TrimSpace(parts[p])] + Trimmed(parts[p + 1..]);
    assert Remaining(parts, p, rest) == [TrimSpace(parts[p])] + Remaining(parts, p + 1, rest);
    FirstHostMore(TrimSpace(parts[p]), Remaining(parts, p + 1, rest));
  }

  lemma RemainingEnds(entries: seq<string>, e: nat, parts: seq<string>)
    requires e < |entries| && parts == Split(entries[e], ';')
    ensures Remaining(parts, 0, Flatten(entries[e + 1..])) == Flatten(entries[e..])
    ensures Remaining(parts, |parts|, Flatten(entries[e + 1..])) == Flatten(entries[e + 1..])
  {
    assert entries[e..][1..] == entries[e + 1..] && parts[0..] == parts;
  }

  /** The loops: entries between commas, parts between semicolons, the first part that names a host. */
  method ForwardedHeaderHost(value: string) returns (host: string)
    ensures host == FirstHost(Parts(value))
  {
    var entries := Split(value, ',');
    assert entries[0..] == entries;
    hide FirstHost, EqualFold, TrimSpace, TrimQuotes, Split, Flatten, Remaining;
    var e := 0;
    while e < |entries|
      invariant e <= |entries| && FirstHost(Parts(value)) == FirstHost(Flatten(entries[e..]))
    {
      var parts := Split(entries[e], ';');
      ghost var rest := Flatten(entries[e + 1..]);
      RemainingEnds(entries, e, parts);
      var p := 0;
      while p < |parts|
        invariant p <= |parts| && FirstHost(Parts(value)) == FirstHost(Remaining(parts, p, rest))
      {
        RemainingMore(parts, p, rest);
        var part := TrimSpace(parts[p]);
        if |part| < 5 || !EqualFold(part[..5], HOST) {
          p := p + 1;
          continue;
        }
        return TrimQuotes(TrimSpace(part[5..]));
      }
      e := e + 1;
    }
    NoParts();
    return "";
  }

  lemma NoParts()
    ensures FirstHost(Flatten([])) == ""
  {
  }

  /******* Printing a header *******/

  /** before and after are the white space around a pair. */
  datatype Pair = Pair(name: string, value: string, quoted: bool, before: string, after: string)

  /** A header: elements between commas, each a list of pairs between semicolons. */
  type Header = seq<seq<Pair>>

  function Core(p: Pair): string {
    p.name + "=" + Shown(p)
  }

  function Shown(p: Pair): string {
    if p.quoted then "\"" + p.value + "\"" else p.value
  }

  function PrintPair(p: Pair): string {
    p.before + Core(p) + p.after
  }

  function PrintElement(e: seq<Pair>): string {
    Join(Printed(e), ';')
  }

  function Printed(e: seq<Pair>): (r: seq<string>)
    ensures |r| == |e| && forall i :: 0 <= i < |r| ==> r[i] == PrintPair(e[i])
  {
    seq(|e|, i requires 0 <= i < |e| => PrintPair(e[i]))
  }

  function PrintedElements(h: Header): (r: seq<string>)
    ensures |r| == |h| && forall i :: 0 <= i < |r| ==> r[i] == PrintElement(h[i])
  {
    seq(|h|, i requires 0 <= i < |h| => PrintElement(h[i]))
  }

  function Print(h: Header): string {
    Join(PrintedElements(h), ',')
  }

  predicate Plain(c: char) {
    c != ',' && c != ';' && c != '"'
  }

  /** A name without separators; a value without separators, and without white space unless it is quoted. */
  predicate SimplePair(p: Pair) {
    && p.name != "" && Free(p.name, '=') && All(p.name, Plain) && All(p.value, Plain)
    && (forall i :: 0 <= i < |p.name| ==> !IsSpace(p.name[i]))
    && (!p.quoted ==> forall i :: 0 <= i < |p.value| ==> !IsSpace(p.value[i]))
    && All(p.before, IsSpace) && All(p.after, IsSpace)
  }

  predicate SimpleElement(e: seq<Pair>) {
    forall j :: 0 <= j < |e| ==> SimplePair(e[j])
  }

  predicate SimpleHeader(h: Header) {
    forall i :: 0 <= i < |h| ==> SimpleElement(h[i])
  }

  /** The value of the first pair that is called host, in any letter case. */
  function FirstHostIn(pairs: seq<Pair>): string {
    if pairs == [] then ""
    else if EqualFold(pairs[0].name, "host") then pairs[0].value
    else FirstHostIn(pairs[1..])
  }

  function AllPairs(h: Header): seq<Pair> {
    if h == [] then [] else h[0] + AllPairs(h[1..])
  }

  /******* Parsing undoes printing *******/

  lemma HostPair(p: Pair)
    requires SimplePair(p)
    ensures TrimSpace(PrintPair(p)) == Core(p)
    ensures NamesHost(Core(p)) <==> EqualFold(p.name, "host")
    ensures NamesHost(Core(p)) ==> HostIn(Core(p)) == p.value
  {
    CoreIsSolid(p);
    TrimPadded(p.before, Core(p), p.after, IsSpace);
    NameDecides(p.name, Shown(p));
    if NamesHost(Core(p)) {
      assert Core(p)[5..] == Shown(p);
      ShownValue(p);
    }
  }

  lemma CoreIsSolid(p: Pair)
    requires SimplePair(p)
    ensures Core(p) != "" && Solid(Core(p), IsSpace)
  {
    var text := Core(p);
    assert text[0] == p.name[0];
    assert text[|text| - 1] == if p.quoted then '"' else if p.value == "" then '=' else p.value[|p.value| - 1];
  }

  lemma NameDecides(name: string, shown: string)
    requires Free(name, '=')
    ensures NamesHost(name + "=" + shown) <==> EqualFold(name, "host")
  {
    var text := name + "=" + shown;
    assert text[|name|] == '=';
    if |name| == 4 {
      assert text[..5] == name + "=" && HOST == "host" + "=";
      assert forall i :: 0 <= i < 4 ==> (name + "=")[i] == name[i] && HOST[i] == "host"[i];
      assert (name + "=")[4] == '=' && HOST[4] == '=';
    } else if |text| >= 5 {
      assert |name| < 4 ==> text[..5][|name|] == '=' && Lower(HOST[|name|]) != '=';
      assert |name| > 4 ==> text[..5][4] == name[4] && Lower(name[4]) != '=';
    }
  }

  /** The printed value comes back, with or without quotes. */
  lemma ShownValue(p: Pair)
    requires SimplePair(p)
    ensures TrimQuotes(TrimSpace(Shown(p))) == p.value
  {
    if p.quoted {
      QuotesComeOff(p.value);
    } else {
      TrimSolid(p.value, IsSpace);
      TrimSolid(p.value, c => c == '"');
    }
  }

  lemma QuotesComeOff(v: string)
    requires Solid(v, c => c == '"')
    ensures TrimQuotes(TrimSpace("\"" + v + "\"")) == v
  {
    var quoted := "\"" + v + "\"";
    TrimSolid(quoted, IsSpace);
    if v == "" {
      TrimAll(quoted, c => c == '"');
    } else {
      TrimPadded("\"", v, "\"", c => c == '"');
    }
  }

  lemma PairIsFree(p: Pair, c: char)
    requires SimplePair(p) && (c == ',' || c == ';')
    ensures Free(PrintPair(p), c)
  {
  }

  function Cores(e: seq<Pair>): (r: seq<string>)
    ensures |r| == |e| && forall i :: 0 <= i < |r| ==> r[i] == Core(e[i])
  {
    seq(|e|, i requires 0 <= i < |e| => Core(e[i]))
  }

  /** The parts of a printed element are its pairs without their white space; an empty one has an empty part. */
  lemma PartsOfElement(e: seq<Pair>)
    requires SimpleElement(e)
    ensures Free(PrintElement(e), ',')
    ensures Trimmed(Split(PrintElement(e), ';')) == if e == [] then [""] else Cores(e)
  {
    forall j | 0 <= j < |e|
      ensures Free(PrintPair(e[j]), ',') && Free(PrintPair(e[j]), ';') && TrimSpace(PrintPair(e[j])) == Core(e[j])
    {
      PairIsFree(e[j], ',');
      PairIsFree(e[j], ';');
      HostPair(e[j]);
    }
    if e != [] {
      hide PrintPair, Free, SimplePair, TrimSpace, Core;
      JoinFree(Printed(e), ';', ',');
      SplitJoin(Printed(e), ';');
    }
  }

  /** Pairs in front of what is known already. */
  lemma {:induction false} FirstHostAfter(e: seq<Pair>, parts: seq<string>, pairs: seq<Pair>)
    requires SimpleElement(e) && FirstHost(parts) == FirstHostIn(pairs)
    ensures FirstHost(Cores(e) + parts) == FirstHostIn(e + pairs)
  {
    if e == [] {
      assert Cores(e) + parts == parts && e + pairs == pairs;
    } else {
      hide Core, SimplePair, NamesHost, HostIn, EqualFold, TrimSpace, PrintPair, FirstHost, FirstHostIn;
      HostPair(e[0]);
      FirstHostAfter(e[1..], parts, pairs);
      CoresMore(e, parts);
      FirstHostMore(Core(e[0]), Cores(e[1..]) + parts);
      PairsMore(e, pairs);
    }
  }

  lemma PairsMore(e: seq<Pair>, pairs: seq<Pair>)
    requires e != []
    ensures FirstHostIn(e + pairs)
         == if EqualFold(e[0].name, "host") then e[0].value else FirstHostIn(e[1..] + pairs)
  {
    hide EqualFold;
    assert (e + pairs)[0] == e[0] && (e + pairs)[1..] == e[1..] + pairs;
  }

  lemma CoresMore(e: seq<Pair>, parts: seq<string>)
    requires e != []
    ensures Cores(e) + parts == [Core(e[0])] + (Cores(e[1..]) + parts)
  {
    hide Core;
  }

  lemma {:induction false} FirstHostPrinted(h: Header)
    requires SimpleHeader(h)
    ensures FirstHost(Flatten(PrintedElements(h))) == FirstHostIn(AllPairs(h))
  {
    if h != [] {
      var first, rest := h[0], h[1..];
      PartsOfElement(first);
      FirstHostPrinted(rest);
      hide SimplePair, PrintElement, PrintPair, Split, TrimSpace, FirstHost, FirstHostIn;
      assert PrintedElements(h)[1..] == PrintedElements(rest);
      var after := Flatten(PrintedElements(rest));
      FirstHostAfter(first, after, AllPairs(rest));
      FirstHostMore("", after);
      assert first == [] ==> first + AllPairs(rest) == AllPairs(rest);
    }
  }

  /** The name host, in any letter case. */
  predicate CalledHost(name: string) {
    && |name| == 4
    && (name[0] == 'h' || name[0] == 'H') && (name[1] == 'o' || name[1] == 'O')
    && (name[2] == 's' || name[2] == 'S') && (name[3] == 't' || name[3] == 'T')
  }

  lemma LowerOutright(c: char, d: char)
    requires 'a' <= d <= 'z'
    ensures Lower(c) == d <==> c == d || (c as int + 32 == d as int)
  {
  }

  lemma CalledOutright(name: string)
    ensures EqualFold(name, "host") <==> CalledHost(name)
  {
    if |name| == 4 {
      LowerOutright(name[0], 'h');
      LowerOutright(name[1], 'o');
      LowerOutright(name[2], 's');
      LowerOutright(name[3], 't');
      assert "host"[0] == 'h' && "host"[1] == 'o' && "host"[2] == 's' && "host"[3] == 't';
      assert Lower('h') == 'h' && Lower('o') == 'o' && Lower('s') == 's' && Lower('t') == 't';
    }
  }

  predicate HostAt(h: Header, i: nat, j: nat) {
    i < |h| && j < |h[i]| && CalledHost(h[i][j].name)
  }

  /** The first pair that is called host, element by element. */
  ghost predicate FirstHostAt(h: Header, i: nat, j: nat) {
    HostAt(h, i, j) && forall a: nat, b: nat :: a < i || (a == i && b < j) ==> !HostAt(h, a, b)
  }

  lemma {:induction false} InElement(e: seq<Pair>, pairs: seq<Pair>, j: nat)
    ensures j < |e| && CalledHost(e[j].name) && (forall b :: 0 <= b < j ==> !CalledHost(e[b].name)) ==>
              FirstHostIn(e + pairs) == e[j].value
    ensures (forall b :: 0 <= b < |e| ==> !CalledHost(e[b].name)) ==> FirstHostIn(e + pairs) == FirstHostIn(pairs)
  {
    if e == [] {
      assert e + pairs == pairs;
    } else {
      CalledOutright(e[0].name);
      PairsMore(e, pairs);
      hide CalledHost, EqualFold, FirstHostIn;
      InElement(e[1..], pairs, if j == 0 then 0 else j - 1);
      assert forall b :: 0 < b < |e| ==> e[b] == e[1..][b - 1];
    }
  }

  lemma {:induction false} FirstHostOutright(h: Header, i: nat, j: nat)
    ensures FirstHostAt(h, i, j) ==> FirstHostIn(AllPairs(h)) == h[i][j].value
    ensures (forall a: nat, b: nat :: !HostAt(h, a, b)) ==> FirstHostIn(AllPairs(h)) == ""
  {
    if h != [] {
      var first, rest := h[0], h[1..];
      hide CalledHost, FirstHostIn;
      InElement(first, AllPairs(rest), j);
      FirstHostOutright(rest, if i == 0 then 0 else i - 1, j);
      forall a: nat, b: nat ensures HostAt(rest, a, b) <==> HostAt(h, a + 1, b) {
      }
      if FirstHostAt(h, i, j) && i > 0 {
        forall b | 0 <= b < |first| ensures !CalledHost(first[b].name) {
          assert !HostAt(h, 0, b);
        }
        forall a: nat, b: nat | a < i - 1 || (a == i - 1 && b < j) ensures !HostAt(rest, a, b) {
          assert !HostAt(h, a + 1, b);
        }
      }
      if FirstHostAt(h, i, j) && i == 0 {
        forall b | 0 <= b < j ensures !CalledHost(first[b].name) {
          assert !HostAt(h, 0, b);
        }
      }
      if forall a: nat, b: nat :: !HostAt(h, a, b) {
        forall b | 0 <= b < |first| ensures !CalledHost(first[b].name) {
          assert !HostAt(h, 0, b);
        }
      }
    }
  }

  /** Of a printed header, the loops return the value of the first pair called host, and nothing if there is none. */
  lemma ParsingUndoesPrinting(h: Header)
    requires SimpleHeader(h)
    ensures FirstHost(Parts(Print(h))) == FirstHostIn(AllPairs(h))
    ensures IsHostOf(h, FirstHost(Parts(Print(h))))
  {
    hide *;
    PrintedParses(h);
    HostOutright(h);
  }

  /** The value of the first pair that is called host, or nothing if there is none. */
  ghost predicate IsHostOf(h: Header, host: string) {
    && (forall i: nat, j: nat :: FirstHostAt(h, i, j) ==> host == h[i][j].value)
    && ((forall i: nat, j: nat :: !HostAt(h, i, j)) ==> host == "")
  }

  lemma HostOutright(h: Header)
    ensures IsHostOf(h, FirstHostIn(AllPairs(h)))
  {
    hide FirstHostIn, AllPairs;
    FirstHostOutright(h, 0, 0);
    forall i: nat, j: nat | FirstHostAt(h, i, j) ensures FirstHostIn(AllPairs(h)) == h[i][j].value {
      FirstHostOutright(h, i, j);
    }
  }

  lemma PrintedParses(h: Header)
    requires SimpleHeader(h)
    ensures FirstHost(Parts(Print(h))) == FirstHostIn(AllPairs(h))
  {
    if h == [] {
      FirstHostMore("", []);
    } else {
      forall i | 0 <= i < |h| ensures Free(PrintElement(h[i]), ',') {
        PartsOfElement(h[i]);
      }
      SplitJoin(PrintedElements(h), ',');
      FirstHostPrinted(h);
    }
  }

  /******* Quoted values *******/

  predicate AtSeparator(s: string) {
    s == "" || s[0] == ',' || s[0] == ';'
  }

  /** The first entry reaches up to the first comma. */
  lemma FirstEntry(part: string, tail: string)
    requires Free(part, ',')
    ensures Split(part + tail, ',')[0] == part + tail[..IndexOf(tail, ',')]
  {
    hide Split;
    var i := IndexOf(tail, ',');
    var entry := part + tail[..i];
    assert Free(entry, ',');
    if i < |tail| {
      assert part + tail == entry + [','] + tail[i + 1..];
      SplitFirst(entry, ',', tail[i + 1..]);
    } else {
      assert entry == part + tail;
      SplitFirst(entry, ',', "");
    }
  }

  lemma FirstPiece(part: string, rest: string)
    requires Free(part, ';') && (rest == "" || rest[0] == ';')
    ensures Split(part + rest, ';')[0] == part
  {
    hide Split, Free;
    if rest == "" {
      assert part + rest == part;
      SplitFirst(part, ';', "");
    } else {
      assert part + rest == part + [';'] + rest[1..];
      SplitFirst(part, ';', rest[1..]);
    }
  }

  /** The first part reaches up to the first separator, quotes or not. */
  lemma FirstPart(part: string, tail: string)
    requires Free(part, ',') && Free(part, ';') && AtSeparator(tail)
    ensures Parts(part + tail) != [] && Parts(part + tail)[0] == TrimSpace(part)
  {
    hide Split, Free, TrimSpace;
    var i := IndexOf(tail, ',');
    FirstEntry(part, tail);
    FirstPiece(part, tail[..i]);
    assert Parts(part + tail)[0] == TrimSpace(Split(part + tail[..i], ';')[0]);
  }

  /** A value without its closing quote comes out no longer than it is. */
  lemma CutValue(u: string)
    ensures var part := TrimSpace(HOST + "\"" + u); NamesHost(part) && |HostIn(part)| <= |u|
  {
    var front, kept := HOST + "\"", TrimRight(u, IsSpace);
    TrimRightKeeps(front, u, IsSpace);
    var part := TrimSpace(front + u);
    assert part == front + kept;
    assert part[..5] == HOST && part[5..] == "\"" + kept;
    TrimRightEnds(u, IsSpace);
    TrimRightKeeps("\"", kept, IsSpace);
    var rest := TrimSpace(part[5..]);
    TrimRightEnds(kept, IsSpace);
    assert rest[0] == '"' && |rest| <= |kept| + 1;
    TrimEnds(rest, c => c == '"');
  }

  /**
   * A quoted value comes back exactly when it has no comma and no semicolon, which are taken for separators even in
   * quotes, and no quote of its own at either end.
   */
  lemma QuotedValueComesBack(v: string)
    ensures FirstHost(Parts("host=" + "\"" + v + "\"")) == v <==>
            Free(v, ',') && Free(v, ';') && Solid(v, c => c == '"')
  {
    var text := HOST + "\"" + v + "\"";
    if Free(v, ',') && Free(v, ';') {
      assert text + "" == text;
      FirstPart(text, "");
      TrimSolid(text, IsSpace);
      assert text[..5] == HOST && text[5..] == "\"" + v + "\"";
      TrimEnds(TrimSpace(text[5..]), c => c == '"');
      if Solid(v, c => c == '"') {
        QuotesComeOff(v);
      }
    } else {
      var i, j := IndexOf(v, ','), IndexOf(v, ';');
      var m := if i < j then i else j;
      var tail := v[m..] + "\"";
      assert text == HOST + "\"" + v[..m] + tail;
      FirstPart(HOST + "\"" + v[..m], tail);
      CutValue(v[..m]);
    }
  }

  /******* The fallbacks *******/

  function FirstForwardedHost(value: string): string {
    TrimSpace(value[..IndexOf(value, ',')])
  }

  method ForwardedOrRequestHost(forwarded: string, xForwardedHost: string, requestHost: string) returns (host: string)
    ensures host == FirstNonEmpty(FirstHost(Parts(forwarded)),
                                  FirstNonEmpty(FirstForwardedHost(xForwardedHost), requestHost))
  {
    host := ForwardedHeaderHost(forwarded);
    if host != "" { return; }
    host := FirstForwardedHost(xForwardedHost);
    if host != "" { return; }
    host := requestHost;
  }

  /** Which of the three sources decides, for any printed Forwarded header and any list of forwarded hosts. */
  lemma {:induction false} SourcesInOrder(h: Header, hosts: seq<string>, requestHost: string)
    requires SimpleHeader(h) && hosts != []
    requires forall i :: 0 <= i < |hosts| ==> Free(hosts[i], ',')
    ensures FirstNonEmpty(FirstHost(Parts(Print(h))),
                          FirstNonEmpty(FirstForwardedHost(Join(hosts, ',')), requestHost))
            == if FirstHostIn(AllPairs(h)) != "" then FirstHostIn(AllPairs(h))
               else if TrimSpace(hosts[0]) != "" then TrimSpace(hosts[0])
               else requestHost
  {
    ParsingUndoesPrinting(h);
    var value := Join(hosts, ',');
    if |hosts| == 1 {
      IndexOfNone(hosts[0], ',');
      assert value[..|value|] == hosts[0];
    } else {
      IndexOfFirst(hosts[0], ',', Join(hosts[1..], ','));
      assert value[..|hosts[0]|] == hosts[0];
    }
  }
}
