/** Sidebar labels: the kind alone, or with the group when several resources have that kind. */
module ResourceLabels {
  import opened ResourceIndex
  import opened Text

  /** The names every plain JavaScript object answers to without having been given them. */
  const INHERITED := {"constructor", "hasOwnProperty", "isPrototypeOf", "propertyIsEnumerable", "toLocaleString",
                      "toString", "valueOf", "__proto__", "__defineGetter__", "__defineSetter__",
                      "__lookupGetter__", "__lookupSetter__"}

  predicate Inherited(name: string) {
    name in INHERITED
  }

  /** What the counting object holds for a kind: a number, or a text once something inherited was added to. */
  datatype Count = Number(n: nat) | NoNumber

  /** Reading from a plain object; inherited members are neither null nor numbers. */
  function Read(counts: map<string, Count>, kind: string): Count {
    if kind in counts then counts[kind]
    else if Inherited(kind) then NoNumber
    else Number(0)
  }

  function Incremented(c: Count): Count {
    match c
    case Number(n) => Number(n + 1)
    case NoNumber => NoNumber
  }

  predicate MoreThanOne(c: Count) {
    c.Number? && c.n > 1
  }

  function CountOf(rs: seq<Meta>, kind: string): nat {
    if rs == [] then 0 else CountOf(rs[..|rs| - 1], kind) + if rs[|rs| - 1].kind == kind then 1 else 0
  }

  predicate Ambiguous(rs: seq<Meta>, kind: string) {
    exists i, j :: 0 <= i < j < |rs| && rs[i].kind == kind && rs[j].kind == kind
  }

  function Label(rs: seq<Meta>, r: Meta): string {
    if Ambiguous(rs, r.kind) && !Inherited(r.kind) then Lengthened(r) else r.kind
  }

  function Lengthened(r: Meta): string {
    r.kind + " (" + r.triple.group + ")"
  }

  /** What the counting object answers after the resources have gone through it. */
  function Tally(rs: seq<Meta>, kind: string): Count {
    if Inherited(kind) then NoNumber else Number(CountOf(rs, kind))
  }

  lemma ProtoIsInherited()
    ensures Inherited("__proto__")
  {
  }

  method CountKinds(rs: seq<Meta>) returns (counts: map<string, Count>)
    ensures forall kind :: Read(counts, kind) == Tally(rs, kind)
  {
    hide Inherited;
    counts := map[];
    for n := 0 to |rs|
      invariant forall kind :: Read(counts, kind) == Tally(rs[..n], kind)
    {
      assert rs[..n + 1][..n] == rs[..n];
      ProtoIsInherited();
      var kind := rs[n].kind;
      var next := Incremented(Read(counts, kind));
      ghost var before := counts;
      if kind != "__proto__" {   // assigning a text to __proto__ has no effect
        counts := counts[kind := next];
      }
      forall k ensures Read(counts, k) == Tally(rs[..n + 1], k) {
        assert Read(before, k) == Tally(rs[..n], k);
      }
    }
    assert rs[..|rs|] == rs;
  }

  predicate LastOfKey(rs: seq<Meta>, i: nat, n: nat)
    requires i < n <= |rs|
  {
    forall j :: i < j < n ==> rs[j].key != rs[i].key
  }

  predicate HasKey(rs: seq<Meta>, key: string, n: nat)
    requires n <= |rs|
  {
    exists i :: 0 <= i < n && rs[i].key == key
  }

  /** Another resource of the list has the kind of this one. */
  predicate SharesKind(rs: seq<Meta>, i: nat)
    requires i < |rs|
  {
    exists j :: 0 <= j < |rs| && j != i && rs[j].kind == rs[i].kind
  }

  /** Its kind, with the group when another resource has that kind and the kind is no inherited name. */
  predicate IsLabel(rs: seq<Meta>, i: nat, text: string)
    requires i < |rs|
  {
    text == if SharesKind(rs, i) && !Inherited(rs[i].kind) then rs[i].kind + " (" + rs[i].triple.group + ")"
             else rs[i].kind
  }

  lemma LabelOutright(rs: seq<Meta>, i: nat)
    requires i < |rs|
    ensures IsLabel(rs, i, Label(rs, rs[i]))
  {
    hide Inherited;
    if SharesKind(rs, i) {
      var j :| 0 <= j < |rs| && j != i && rs[j].kind == rs[i].kind;
      assert Ambiguous(rs, rs[i].kind) by {
        assert if i < j then rs[i].kind == rs[j].kind else rs[j].kind == rs[i].kind;
      }
    }
    if Ambiguous(rs, rs[i].kind) {
      var a, b :| 0 <= a < b < |rs| && rs[a].kind == rs[i].kind && rs[b].kind == rs[i].kind;
      assert a != i || b != i;
    }
  }

  /** The last resource with a key decides its label. */
  method MakeResourceLabelMap(rs: seq<Meta>) returns (labels: map<string, string>)
    ensures forall k :: k in labels <==> HasKey(rs, k, |rs|)
    ensures forall i :: 0 <= i < |rs| && LastOfKey(rs, i, |rs|) ==>
              rs[i].key in labels && IsLabel(rs, i, labels[rs[i].key])
  {
    hide Label, IsLabel, Read, MoreThanOne, Tally;
    var counts := CountKinds(rs);
    labels := map[];
    for n := 0 to |rs|
      invariant forall k :: k in labels <==> HasKey(rs, k, n)
      invariant forall i :: 0 <= i < n && LastOfKey(rs, i, n) ==>
                  rs[i].key in labels && labels[rs[i].key] == Label(rs, rs[i])
    {
      var r := rs[n];
      CountsDecide(rs, counts, r);
      labels := labels[r.key := if MoreThanOne(Read(counts, r.kind)) then Lengthened(r) else r.kind];
      LastOfMore(rs, n);
    }
    forall i | 0 <= i < |rs| ensures IsLabel(rs, i, Label(rs, rs[i])) {
      LabelOutright(rs, i);
    }
  }

  lemma LastOfMore(rs: seq<Meta>, n: nat)
    requires n < |rs|
    ensures forall i :: 0 <= i < n && LastOfKey(rs, i, n + 1) ==> LastOfKey(rs, i, n) && rs[i].key != rs[n].key
    ensures forall k :: HasKey(rs, k, n + 1) <==> HasKey(rs, k, n) || rs[n].key == k
  {
  }

  lemma CountsDecide(rs: seq<Meta>, counts: map<string, Count>, r: Meta)
    requires Read(counts, r.kind) == Tally(rs, r.kind)
    ensures Label(rs, r) == if MoreThanOne(Read(counts, r.kind)) then Lengthened(r) else r.kind
  {
    CountIsAmbiguity(rs, r.kind);
  }

  lemma {:induction false} CountIsAmbiguity(rs: seq<Meta>, kind: string)
    ensures CountOf(rs, kind) > 1 <==> Ambiguous(rs, kind)
    ensures CountOf(rs, kind) > 0 <==> exists i :: 0 <= i < |rs| && rs[i].kind == kind
  {
    if rs != [] {
      var init := rs[..|rs| - 1];
      CountIsAmbiguity(init, kind);
      if i :| 0 <= i < |init| && init[i].kind == kind {
        assert rs[i].kind == kind;
      }
    }
  }

  /**
   * Two different resources with space-free kinds share a label exactly when the kinds agree, and the groups
   * agree too or the kind is an inherited name.
   */
  lemma LabelsSeparate(rs: seq<Meta>, i: nat, j: nat)
    requires i < j < |rs| && Free(rs[i].kind, ' ') && Free(rs[j].kind, ' ')
    ensures Label(rs, rs[i]) == Label(rs, rs[j]) <==>
              rs[i].kind == rs[j].kind && (rs[i].triple.group == rs[j].triple.group || Inherited(rs[i].kind))
  {
    var a, b := rs[i], rs[j];
    if a.kind == b.kind {
      assert Ambiguous(rs, a.kind);
      SuffixDecides(a.kind, a.triple.group, b.triple.group);
    } else {
      LabelStartsWithKind(rs, a);
      LabelStartsWithKind(rs, b);
    }
  }

  lemma SuffixDecides(kind: string, g: string, h: string)
    ensures kind + " (" + g + ")" == kind + " (" + h + ")" <==> g == h
  {
    var a, b := kind + " (" + g + ")", kind + " (" + h + ")";
    if a == b {
      assert a[|kind| + 2..|a| - 1] == g && b[|kind| + 2..|b| - 1] == h;
    }
  }

  /** The kind can be read off a label. */
  lemma LabelStartsWithKind(rs: seq<Meta>, r: Meta)
    requires Free(r.kind, ' ')
    ensures Label(rs, r)[..IndexOf(Label(rs, r), ' ')] == r.kind
  {
    var rest := "(" + r.triple.group + ")";
    assert r.kind + " (" + r.triple.group + ")" == r.kind + [' '] + rest;
    IndexOfFirst(r.kind, ' ', rest);
    IndexOfNone(r.kind, ' ');
    assert (r.kind + [' '] + rest)[..|r.kind|] == r.kind;
    assert r.kind[..|r.kind|] == r.kind;
  }
}
