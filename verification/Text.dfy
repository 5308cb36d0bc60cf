/** Searching, splitting and trimming text, as the string packages of Go and JavaScript do it. */
module Text {

  predicate Free(s: string, c: char) {
    forall i :: 0 <= i < |s| ==> s[i] != c
  }

  /** The first place of a character, or the length when it does not occur. */
  function IndexOf(s: string, c: char): (i: nat)
    ensures i <= |s| && Free(s[..i], c) && (i < |s| ==> s[i] == c)
  {
    if s == "" then 0
    else if s[0] == c then 0
    else
      var j := IndexOf(s[1..], c);
      assert s[..j + 1] == [s[0]] + s[1..][..j];
      j + 1
  }

  /** The pieces between the separators; there is always at least one. */
  function Split(s: string, sep: char): (parts: seq<string>)
    ensures |parts| >= 1 && forall i :: 0 <= i < |parts| ==> Free(parts[i], sep)
  {
    var i := IndexOf(s, sep);
    if i == |s| then
      assert s[..|s|] == s;
      [s]
    else [s[..i]] + Split(s[i + 1..], sep)
  }

  function Join(parts: seq<string>, sep: char): string {
    if parts == [] then ""
    else if |parts| == 1 then parts[0]
    else parts[0] + [sep] + Join(parts[1..], sep)
  }

  lemma {:induction false} IndexOfFirst(a: string, c: char, rest: string)
    requires Free(a, c)
    ensures IndexOf(a + [c] + rest, c) == |a|
  {
    if a != "" {
      IndexOfFirst(a[1..], c, rest);
      assert (a + [c] + rest)[1..] == a[1..] + [c] + rest;
    }
  }

  lemma IndexOfNone(a: string, c: char)
    requires Free(a, c)
    ensures IndexOf(a, c) == |a|
  {
  }

  /** Splitting takes off the first piece. */
  lemma SplitFirst(a: string, sep: char, rest: string)
    requires Free(a, sep)
    ensures Split(a + [sep] + rest, sep) == [a] + Split(rest, sep)
    ensures Split(a, sep) == [a]
  {
    IndexOfFirst(a, sep, rest);
    IndexOfNone(a, sep);
    var s := a + [sep] + rest;
    assert s[..|a|] == a && s[|a| + 1..] == rest;
  }

  /** Splitting undoes joining. */
  lemma {:induction false} SplitJoin(parts: seq<string>, sep: char)
    requires parts != [] && forall i :: 0 <= i < |parts| ==> Free(parts[i], sep)
    ensures Split(Join(parts, sep), sep) == parts
  {
    var rest := parts[1..];
    assert parts == [parts[0]] + rest;
    assert Join(parts, sep) == if rest == [] then parts[0] else parts[0] + [sep] + Join(rest, sep);
    hide Join, Split;
    SplitFirst(parts[0], sep, Join(rest, sep));
    if rest != [] {
      assert forall i :: 0 <= i < |rest| ==> rest[i] == parts[i + 1];
      SplitJoin(rest, sep);
    }
  }

  lemma {:induction false} JoinFree(parts: seq<string>, sep: char, c: char)
    requires sep != c && forall i :: 0 <= i < |parts| ==> Free(parts[i], c)
    ensures Free(Join(parts, sep), c)
  {
    if |parts| > 1 {
      JoinFree(parts[1..], sep, c);
    }
  }

  predicate OccursAt(s: string, sub: string, i: nat) {
    i + |sub| <= |s| && s[i..i + |sub|] == sub
  }

  predicate Contains(s: string, sub: string) {
    exists i :: 0 <= i <= |s| && OccursAt(s, sub, i)
  }

  /******* Trimming *******/

  /** White space in Unicode's sense. */
  predicate IsSpace(c: char) {
    || '\t' <= c <= '\r' || c == ' ' || c == '\U{85}' || c == '\U{A0}' || c == '\U{1680}'
    || '\U{2000}' <= c <= '\U{200A}' || c == '\U{2028}' || c == '\U{2029}' || c == '\U{202F}'
    || c == '\U{205F}' || c == '\U{3000}'
  }

  function TrimLeft(s: string, drop: char -> bool): string {
    if s != "" && drop(s[0]) then TrimLeft(s[1..], drop) else s
  }

  function TrimRight(s: string, drop: char -> bool): string {
    if s != "" && drop(s[|s| - 1]) then TrimRight(s[..|s| - 1], drop) else s
  }

  function Trim(s: string, drop: char -> bool): string {
    TrimRight(TrimLeft(s, drop), drop)
  }

  function TrimSpace(s: string): string {
    Trim(s, IsSpace)
  }

  function TrimQuotes(s: string): string {
    Trim(s, c => c == '"')
  }

  /** Both ends are kept. */
  predicate Solid(s: string, drop: char -> bool) {
    s != "" ==> !drop(s[0]) && !drop(s[|s| - 1])
  }

  lemma TrimSolid(s: string, drop: char -> bool)
    requires Solid(s, drop)
    ensures Trim(s, drop) == s
  {
  }

  predicate All(s: string, p: char -> bool) {
    forall i :: 0 <= i < |s| ==> p(s[i])
  }

  lemma {:induction false} TrimAll(s: string, drop: char -> bool)
    requires All(s, drop)
    ensures Trim(s, drop) == ""
  {
    if s != "" {
      TrimAll(s[1..], drop);
    }
  }

  /** Trimming finds the solid part between two runs of dropped characters. */
  lemma {:induction false} TrimPadded(left: string, s: string, right: string, drop: char -> bool)
    requires All(left, drop) && All(right, drop) && Solid(s, drop) && s != ""
    ensures Trim(left + s + right, drop) == s
  {
    TrimLeftPadded(left, s + right, drop);
    assert left + s + right == left + (s + right);
    TrimRightPadded(s, right, drop);
  }

  lemma {:induction false} TrimLeftPadded(left: string, s: string, drop: char -> bool)
    requires All(left, drop) && s != "" && !drop(s[0])
    ensures TrimLeft(left + s, drop) == s
  {
    if left == "" {
      assert left + s == s;
    } else {
      assert (left + s)[1..] == left[1..] + s;
      TrimLeftPadded(left[1..], s, drop);
    }
  }

  lemma {:induction false} TrimRightPadded(s: string, right: string, drop: char -> bool)
    requires All(right, drop) && s != "" && !drop(s[|s| - 1])
    ensures TrimRight(s + right, drop) == s
  {
    if right == "" {
      assert s + right == s;
    } else {
      var init := right[..|right| - 1];
      assert (s + right)[..|s + right| - 1] == s + init;
      TrimRightPadded(s, init, drop);
    }
  }

  lemma {:induction false} TrimLeftEnds(s: string, drop: char -> bool)
    ensures |TrimLeft(s, drop)| <= |s| && (s != "" && drop(s[0]) ==> |TrimLeft(s, drop)| < |s|)
    ensures TrimLeft(s, drop) != "" ==> !drop(TrimLeft(s, drop)[0])
  {
    if s != "" && drop(s[0]) {
      TrimLeftEnds(s[1..], drop);
    }
  }

  lemma {:induction false} TrimRightEnds(s: string, drop: char -> bool)
    ensures TrimRight(s, drop) <= s
    ensures TrimRight(s, drop) != "" ==> !drop(TrimRight(s, drop)[|TrimRight(s, drop)| - 1])
    ensures s != "" && !drop(s[0]) ==> TrimRight(s, drop) != ""
  {
    if s != "" && drop(s[|s| - 1]) {
      TrimRightEnds(s[..|s| - 1], drop);
    }
  }

  /** What trimming leaves keeps both its ends, and is shorter if there was something to drop in front. */
  lemma TrimEnds(s: string, drop: char -> bool)
    ensures Solid(Trim(s, drop), drop) && |Trim(s, drop)| <= |s|
    ensures s != "" && drop(s[0]) ==> |Trim(s, drop)| < |s|
  {
    TrimLeftEnds(s, drop);
    TrimRightEnds(TrimLeft(s, drop), drop);
  }

  /** Trimming at the end stops at a character that is kept. */
  lemma {:induction false} TrimRightKeeps(a: string, b: string, drop: char -> bool)
    requires a != "" && !drop(a[|a| - 1])
    ensures TrimRight(a + b, drop) == a + TrimRight(b, drop)
  {
    if b != "" && drop(b[|b| - 1]) {
      assert (a + b)[..|a + b| - 1] == a + b[..|b| - 1];
      TrimRightKeeps(a, b[..|b| - 1], drop);
    } else if b == "" {
      assert a + b == a;
    }
  }
}
