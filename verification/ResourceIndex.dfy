/** The index of the API resources that a workspace's bindings make available. */
module ResourceIndex {
  import opened Basics
  import opened ResourceKeys
  import opened Sorting

  /******* What the API server answers *******/

  datatype Bound = Bound(group: Option<string>, storageVersions: seq<string>, resource: Option<string>)

  datatype APIBinding = APIBinding(name: Option<string>, bound: seq<Bound>)

  /** What discovery says about one resource. */
  datatype Discovered = Discovered(kind: Option<string>, name: Option<string>, namespaced: Option<bool>,
                                   singularName: Option<string>)

  datatype Meta = Meta(key: string, id: string, triple: Triple, kind: string, singularName: string,
                       pluralName: string, isNamespaced: bool, bindingNames: seq<string>)

  function OrEmpty(s: Option<string>): string {
    if s.Some? then s.value else ""
  }

  /** One mention of a resource by a binding. */
  datatype Mention = Mention(binding: string, triple: Triple)

  function MentionOf(b: APIBinding, i: nat): Mention
    requires i < |b.bound|
  {
    var r := b.bound[i];
    Mention(OrEmpty(b.name), Triple(OrEmpty(r.group), if r.storageVersions == [] then "" else r.storageVersions[0],
                                    OrEmpty(r.resource)))
  }

  predicate Counts(m: Mention) {
    m.triple.group != "" && m.triple.version != "" && m.triple.resource != ""
  }

  /** The mentions that count in the first n bound resources of a binding, in order. */
  function MentionsIn(b: APIBinding, n: nat): seq<Mention>
    requires n <= |b.bound|
  {
    if n == 0 then []
    else MentionsIn(b, n - 1) + if Counts(MentionOf(b, n - 1)) then [MentionOf(b, n - 1)] else []
  }

  function Mentions(bindings: seq<APIBinding>): seq<Mention> {
    if bindings == [] then []
    else
      var last := bindings[|bindings| - 1];
      Mentions(bindings[..|bindings| - 1]) + MentionsIn(last, |last.bound|)
  }

  function KeyOf(m: Mention): string {
    EncodeResourceKey(m.triple)
  }

  /******* What the index should be *******/

  predicate Has(ms: seq<Mention>, key: string) {
    exists i :: 0 <= i < |ms| && KeyOf(ms[i]) == key
  }

  /** The keys, by first mention. */
  function Keys(ms: seq<Mention>): seq<string> {
    if ms == [] then []
    else
      var before, last := ms[..|ms| - 1], ms[|ms| - 1];
      Keys(before) + if Has(before, KeyOf(last)) then [] else [KeyOf(last)]
  }

  /** The names of the bindings that mention a key, by first mention and without the empty name. */
  function Names(ms: seq<Mention>, key: string): seq<string> {
    if ms == [] then []
    else
      var before, last := Names(ms[..|ms| - 1], key), ms[|ms| - 1];
      if KeyOf(last) == key && last.binding != "" && last.binding !in before then before + [last.binding] else before
  }

  function FirstTriple(ms: seq<Mention>, key: string): Triple
    requires Has(ms, key)
  {
    var before := ms[..|ms| - 1];
    if Has(before, key) then FirstTriple(before, key)
    else
      assert ms == before + [ms[|ms| - 1]];
      ms[|ms| - 1].triple
  }

  /** Letters, digits, dashes and underscores stay; every other UTF-16 unit becomes a dash. */
  function Sanitized(s: string): string {
    if s == "" then ""
    else
      var c := s[0];
      (if 'a' <= c <= 'z' || 'A' <= c <= 'Z' || '0' <= c <= '9' || c == '_' || c == '-' then [c]
       else if c as int < 0x1_0000 then "-" else "--") + Sanitized(s[1..])
  }

  function BaseEntry(key: string, t: Triple, names: seq<string>): Meta {
    Meta(key, Sanitized(t.group + "__" + t.version + "__" + t.resource), t, t.resource, t.resource, t.resource,
         true, names)
  }

  function EntryFor(ms: seq<Mention>, key: string): Meta
    requires Has(ms, key)
  {
    BaseEntry(key, FirstTriple(ms, key), Names(ms, key))
  }

  /** By kind, then by group, in the collation of the locale. */
  function Compare(collate: (string, string) -> int): (Meta, Meta) -> int {
    (a: Meta, b: Meta) =>
      if collate(a.kind, b.kind) != 0 then collate(a.kind, b.kind) else collate(a.triple.group, b.triple.group)
  }

  /******* Facts about the specification *******/

  lemma HasMore(ms: seq<Mention>, m: Mention, key: string)
    ensures Has(ms + [m], key) <==> Has(ms, key) || KeyOf(m) == key
  {
    var more := ms + [m];
    assert more[|ms|] == m;
    if Has(ms, key) {
      var i :| 0 <= i < |ms| && KeyOf(ms[i]) == key;
      assert more[i] == ms[i];
    }
  }

  /** The keys are distinct, and they are exactly those of the resources that are mentioned. */
  lemma {:induction false} KeysExact(ms: seq<Mention>)
    ensures forall i, j :: 0 <= i < j < |Keys(ms)| ==> Keys(ms)[i] != Keys(ms)[j]
    ensures forall k :: k in Keys(ms) <==> Has(ms, k)
  {
    if ms != [] {
      var before, last := ms[..|ms| - 1], ms[|ms| - 1];
      assert ms == before + [last];
      KeysExact(before);
      forall k ensures k in Keys(ms) <==> Has(ms, k) {
        HasMore(before, last, k);
      }
    }
  }

  predicate FirstNamed(ms: seq<Mention>, key: string, name: string, i: nat) {
    i < |ms| && KeyOf(ms[i]) == key && ms[i].binding == name &&
    forall j :: 0 <= j < i ==> !(KeyOf(ms[j]) == key && ms[j].binding == name)
  }

  ghost predicate Named(ms: seq<Mention>, key: string, name: string) {
    exists i :: 0 <= i < |ms| && KeyOf(ms[i]) == key && ms[i].binding == name
  }

  /** The names are exactly the non-empty ones that mention the key, each once. */
  lemma {:induction false} NamesExact(ms: seq<Mention>, key: string)
    ensures forall n :: n in Names(ms, key) <==> n != "" && Named(ms, key, n)
    ensures forall a, b :: 0 <= a < b < |Names(ms, key)| ==> Names(ms, key)[a] != Names(ms, key)[b]
  {
    if ms != [] {
      var before, last := ms[..|ms| - 1], ms[|ms| - 1];
      assert before + [last] == ms;
      NamesExact(before, key);
      forall n ensures Named(ms, key, n) <==> Named(before, key, n) || (KeyOf(last) == key && last.binding == n) {
        NamedMore(before, last, key, n);
      }
      hide Named, KeyOf;
    }
  }

  /** They come in the order of their first mention. */
  lemma {:induction false} NamesInOrder(ms: seq<Mention>, key: string, a: nat, b: nat, i: nat, j: nat)
    requires a < b < |Names(ms, key)|
    requires FirstNamed(ms, key, Names(ms, key)[a], i) && FirstNamed(ms, key, Names(ms, key)[b], j)
    ensures i < j
  {
    var before, last := ms[..|ms| - 1], ms[|ms| - 1];
    var names, earlier := Names(ms, key), Names(before, key);
    assert names == earlier || names == earlier + [last.binding];
    NamesExact(before, key);
    hide Names, KeyOf;
    assert names[a] == earlier[a] && Named(before, key, names[a]);
    FirstNamedBefore(ms, key, names[a], i);
    if b < |earlier| {
      assert names[b] == earlier[b] && Named(before, key, names[b]);
      FirstNamedBefore(ms, key, names[b], j);
      NamesInOrder(before, key, a, b, i, j);
    } else {
      NotNamedBefore(ms, key, names[b], j);
    }
  }

  lemma FirstNamedBefore(ms: seq<Mention>, key: string, name: string, i: nat)
    requires ms != [] && Named(ms[..|ms| - 1], key, name) && FirstNamed(ms, key, name, i)
    ensures i < |ms| - 1 && FirstNamed(ms[..|ms| - 1], key, name, i)
  {
    hide KeyOf;
    var before := ms[..|ms| - 1];
    var w :| 0 <= w < |before| && KeyOf(before[w]) == key && before[w].binding == name;
    assert ms[w] == before[w];
  }

  lemma NotNamedBefore(ms: seq<Mention>, key: string, name: string, j: nat)
    requires ms != [] && !Named(ms[..|ms| - 1], key, name) && FirstNamed(ms, key, name, j)
    ensures j == |ms| - 1
  {
    hide KeyOf;
    var before := ms[..|ms| - 1];
    assert forall i :: 0 <= i < |before| ==> before[i] == ms[i];
  }

  lemma NamedMore(ms: seq<Mention>, m: Mention, key: string, n: string)
    ensures Named(ms + [m], key, n) <==> Named(ms, key, n) || (KeyOf(m) == key && m.binding == n)
  {
    var more := ms + [m];
    assert more[|ms|] == m;
    if i :| 0 <= i < |ms| && KeyOf(ms[i]) == key && ms[i].binding == n {
      assert more[i] == ms[i];
    }
  }

  /** With slash-free triples, an entry's own triple is what its key stands for. */
  lemma {:induction false} TripleOfKey(ms: seq<Mention>, t: Triple)
    requires Has(ms, EncodeResourceKey(t)) && WellFormed(t)
    requires forall i :: 0 <= i < |ms| ==> WellFormed(ms[i].triple)
    ensures FirstTriple(ms, EncodeResourceKey(t)) == t
  {
    var before, key := ms[..|ms| - 1], EncodeResourceKey(t);
    if Has(before, key) {
      TripleOfKey(before, t);
    } else {
      assert ms == before + [ms[|ms| - 1]];
      HasMore(before, ms[|ms| - 1], key);
      hide Has, WellFormed;
      KeysAreDistinct(ms[|ms| - 1].triple, t);
    }
  }

  /******* The loops *******/

  /** accumulators with the order of insertion, as a JavaScript Map keeps it. */
  ghost predicate Accumulated(ms: seq<Mention>, accs: map<string, Meta>, order: seq<string>) {
    order == Keys(ms) && forall k :: RightAt(ms, accs, k)
  }

  ghost predicate RightAt(ms: seq<Mention>, accs: map<string, Meta>, k: string) {
    (k in accs <==> Has(ms, k)) && (k in accs ==> accs[k] == EntryFor(ms, k))
  }

  /** How one more mention changes the entry of a key. */
  lemma EntryMore(ms: seq<Mention>, m: Mention, key: string)
    ensures Has(ms + [m], key) <==> Has(ms, key) || KeyOf(m) == key
    ensures Has(ms, key) ==>
              EntryFor(ms + [m], key) == EntryFor(ms, key).(bindingNames := Names(ms + [m], key))
    ensures !Has(ms, key) && KeyOf(m) == key ==>
              EntryFor(ms + [m], key) == BaseEntry(key, m.triple, MoreNames([], m.binding))
    ensures KeyOf(m) != key ==> Names(ms + [m], key) == Names(ms, key)
  {
    var more := ms + [m];
    assert more[..|ms|] == ms && more[|ms|] == m;
    HasMore(ms, m, key);
    if !Has(ms, key) {
      NoNames(ms, key);
    }
    hide Has, KeyOf;
  }

  function MoreNames(names: seq<string>, name: string): seq<string> {
    if name != "" && name !in names then names + [name] else names
  }

  lemma AccumulateOld(ms: seq<Mention>, m: Mention, accs: map<string, Meta>, order: seq<string>)
    requires Accumulated(ms, accs, order) && KeyOf(m) in accs
    ensures var entry := accs[KeyOf(m)];
            Accumulated(ms + [m],
                        accs[KeyOf(m) := entry.(bindingNames := MoreNames(entry.bindingNames, m.binding))], order)
  {
    var more, key := ms + [m], KeyOf(m);
    assert more[..|ms|] == ms && more[|ms|] == m;
    assert RightAt(ms, accs, key);
    var accs' := accs[key := accs[key].(bindingNames := MoreNames(accs[key].bindingNames, m.binding))];
    assert Names(more, key) == MoreNames(Names(ms, key), m.binding);
    hide Names, Has, KeyOf;
    forall k ensures RightAt(more, accs', k) {
      assert RightAt(ms, accs, k);
      EntryMore(ms, m, k);
    }
  }

  lemma AccumulateNew(ms: seq<Mention>, m: Mention, accs: map<string, Meta>, order: seq<string>)
    requires Accumulated(ms, accs, order) && KeyOf(m) !in accs
    ensures Accumulated(ms + [m], accs[KeyOf(m) := BaseEntry(KeyOf(m), m.triple, MoreNames([], m.binding))],
                        order + [KeyOf(m)])
  {
    var more, key := ms + [m], KeyOf(m);
    assert more[..|ms|] == ms && more[|ms|] == m;
    assert RightAt(ms, accs, key);
    var accs' := accs[key := BaseEntry(key, m.triple, MoreNames([], m.binding))];
    hide Names, Has, KeyOf, BaseEntry;
    forall k ensures RightAt(more, accs', k) {
      assert RightAt(ms, accs, k);
      EntryMore(ms, m, k);
    }
  }

  lemma {:induction false} NoNames(ms: seq<Mention>, key: string)
    requires !Has(ms, key)
    ensures Names(ms, key) == []
  {
    if ms != [] {
      var before := ms[..|ms| - 1];
      assert ms == before + [ms[|ms| - 1]];
      HasMore(before, ms[|ms| - 1], key);
      NoNames(before, key);
    }
  }

  /** The entries in the order of their keys. */
  function Entries(ms: seq<Mention>): (r: seq<Meta>)
    ensures |r| == |Keys(ms)| && forall i :: 0 <= i < |r| ==> Has(ms, Keys(ms)[i]) && r[i] == EntryFor(ms, Keys(ms)[i])
  {
    KeysExact(ms);
    seq(|Keys(ms)|, i requires 0 <= i < |Keys(ms)| => EntryFor(ms, Keys(ms)[i]))
  }

  function Values(accs: map<string, Meta>, order: seq<string>): (r: seq<Meta>)
    requires forall i :: 0 <= i < |order| ==> order[i] in accs
    ensures |r| == |order| && forall i :: 0 <= i < |r| ==> r[i] == accs[order[i]]
  {
    seq(|order|, i requires 0 <= i < |order| => accs[order[i]])
  }

  lemma ValuesAreEntries(ms: seq<Mention>, accs: map<string, Meta>, order: seq<string>)
    requires Accumulated(ms, accs, order)
    ensures forall i :: 0 <= i < |order| ==> order[i] in accs
    ensures Values(accs, order) == Entries(ms)
  {
    KeysExact(ms);
    hide Has, Keys;
    forall i | 0 <= i < |order| ensures order[i] in accs && accs[order[i]] == EntryFor(ms, order[i]) {
      assert RightAt(ms, accs, order[i]);
    }
  }

  /** The innermost step: a new key gets an entry, a known one at most one more binding name. */
  method Accumulate(ghost ms: seq<Mention>, m: Mention, accs: map<string, Meta>, order: seq<string>)
    returns (accs': map<string, Meta>, order': seq<string>)
    requires Accumulated(ms, accs, order)
    ensures Accumulated(ms + [m], accs', order')
  {
    var key := KeyOf(m);
    accs', order' := accs, order;
    if key in accs {
      AccumulateOld(ms, m, accs, order);
      hide Accumulated, KeyOf;
      var names := accs[key].bindingNames;
      if m.binding != "" && m.binding !in names {
        accs' := accs[key := accs[key].(bindingNames := MoreNames(names, m.binding))];
      } else {
        assert accs[key := accs[key].(bindingNames := names)] == accs;
      }
    } else {
      AccumulateNew(ms, m, accs, order);
      hide Accumulated, KeyOf, BaseEntry;
      accs' := accs[key := BaseEntry(key, m.triple, MoreNames([], m.binding))];
      order' := order + [key];
    }
  }

  lemma MentionsMore(bindings: seq<APIBinding>, b: nat)
    requires b < |bindings|
    ensures Mentions(bindings[..b + 1]) == Mentions(bindings[..b]) + MentionsIn(bindings[b], |bindings[b].bound|)
  {
    assert bindings[..b + 1][..b] == bindings[..b];
  }

  lemma MentionsInMore(b: APIBinding, i: nat, before: seq<Mention>)
    requires i < |b.bound|
    ensures before + MentionsIn(b, i + 1)
            == before + MentionsIn(b, i) + if Counts(MentionOf(b, i)) then [MentionOf(b, i)] else []
  {
    hide Counts, MentionOf;
  }

  lemma NoMentionsYet(b: APIBinding, before: seq<Mention>)
    ensures before + MentionsIn(b, 0) == before
  {
  }

  /******* The index, said outright *******/

  /** A bound resource of a binding that names a whole triple; those that leave out a part do not count. */
  predicate Binds(bindings: seq<APIBinding>, b: nat, i: nat, t: Triple) {
    && b < |bindings| && i < |bindings[b].bound|
    && bindings[b].bound[i].group == Some(t.group) && t.group != ""
    && bindings[b].bound[i].resource == Some(t.resource) && t.resource != ""
    && bindings[b].bound[i].storageVersions != []
    && bindings[b].bound[i].storageVersions[0] == t.version && t.version != ""
  }

  /** A binding of that name has, as its i-th bound resource, one with that key. */
  predicate NamesKey(bindings: seq<APIBinding>, key: string, name: string, b: nat, i: nat, t: Triple) {
    Binds(bindings, b, i, t) && EncodeResourceKey(t) == key && bindings[b].name == Some(name)
  }

  ghost predicate NamedBy(bindings: seq<APIBinding>, key: string, name: string) {
    exists b, i, t :: NamesKey(bindings, key, name, b, i, t)
  }

  /** Some binding of the first name has the key before the given place. */
  ghost predicate NamedBefore(bindings: seq<APIBinding>, key: string, name: string, b: nat, i: nat) {
    exists b': nat, i': nat, t :: NamesKey(bindings, key, name, b', i', t) && (b' < b || (b' == b && i' < i))
  }

  /** The sidebar's id: whatever is no letter, digit, dash or underscore becomes a dash. */
  predicate IsId(text: string, id: string) {
    (forall i :: 0 <= i < |text| ==> text[i] as int < 0x1_0000) ==>
      && |id| == |text|
      && forall i :: 0 <= i < |text| ==>
           id[i] == if 'a' <= text[i] <= 'z' || 'A' <= text[i] <= 'Z' || '0' <= text[i] <= '9'
                       || text[i] == '_' || text[i] == '-' then text[i] else '-'
  }

  /** One listed resource: it is bound, is called by its name, and has the names of its bindings in their order. */
  ghost predicate EntryFits(bindings: seq<APIBinding>, e: Meta) {
    && (exists b, i :: Binds(bindings, b, i, e.triple)) && e.key == EncodeResourceKey(e.triple)
    && e.kind == e.triple.resource && e.singularName == e.triple.resource && e.pluralName == e.triple.resource
    && e.isNamespaced && IsId(e.triple.group + "__" + e.triple.version + "__" + e.triple.resource, e.id)
    && (forall n :: n in e.bindingNames <==> n != "" && NamedBy(bindings, e.key, n))
    && (forall x, y :: 0 <= x < y < |e.bindingNames| ==> e.bindingNames[x] != e.bindingNames[y])
    && (forall x, y, b, i, t :: 0 <= x < y < |e.bindingNames| && NamesKey(bindings, e.key, e.bindingNames[y], b, i, t)
          ==> NamedBefore(bindings, e.key, e.bindingNames[x], b, i))
  }

  /** A list of resources is the index of the bindings. */
  ghost predicate Indexes(bindings: seq<APIBinding>, rs: seq<Meta>) {
    && (forall x, y :: 0 <= x < y < |rs| ==> rs[x].key != rs[y].key)
    && (forall x :: 0 <= x < |rs| ==> EntryFits(bindings, rs[x]))
    && (forall b, i, t :: Binds(bindings, b, i, t) ==>
          exists x :: 0 <= x < |rs| && rs[x].key == EncodeResourceKey(t) && (WellFormed(t) ==> rs[x].triple == t))
  }

  /** By kind and then by group, as the collation has them. */
  ghost predicate InOrder(rs: seq<Meta>, collate: (string, string) -> int) {
    forall x, y :: 0 <= x < y < |rs| ==>
      || collate(rs[x].kind, rs[y].kind) < 0
      || (collate(rs[x].kind, rs[y].kind) == 0 && collate(rs[x].triple.group, rs[y].triple.group) <= 0)
  }

  /** Where the i-th bound resource of the b-th binding stands among the mentions. */
  function Position(bindings: seq<APIBinding>, b: nat, i: nat): nat
    requires b < |bindings| && i <= |bindings[b].bound|
  {
    |Mentions(bindings[..b])| + |MentionsIn(bindings[b], i)|
  }

  lemma {:induction false} MentionsInAt(b: APIBinding, i: nat, n: nat)
    requires i < n <= |b.bound| && Counts(MentionOf(b, i))
    ensures |MentionsIn(b, i)| < |MentionsIn(b, n)| && MentionsIn(b, n)[|MentionsIn(b, i)|] == MentionOf(b, i)
  {
    hide Counts, MentionOf;
    if i < n - 1 {
      MentionsInAt(b, i, n - 1);
    }
  }

  lemma {:induction false} MentionsGrow(bindings: seq<APIBinding>, b: nat, n: nat)
    requires b <= n <= |bindings|
    ensures Mentions(bindings[..b]) <= Mentions(bindings[..n])
  {
    hide Mentions, MentionsIn;
    if b < n {
      MentionsGrow(bindings, b, n - 1);
      MentionsMore(bindings, n - 1);
    }
  }

  /** Every bound resource that counts is a mention, at its position. */
  lemma BindsIsMention(bindings: seq<APIBinding>, b: nat, i: nat, t: Triple)
    requires Binds(bindings, b, i, t)
    ensures Position(bindings, b, i) < |Mentions(bindings)|
    ensures Mentions(bindings)[Position(bindings, b, i)] == Mention(OrEmpty(bindings[b].name), t)
  {
    assert MentionOf(bindings[b], i) == Mention(OrEmpty(bindings[b].name), t);
    assert Counts(MentionOf(bindings[b], i));
    hide Mentions, MentionsIn, Counts, MentionOf;
    MentionsInAt(bindings[b], i, |bindings[b].bound|);
    MentionsMore(bindings, b);
    MentionsGrow(bindings, b + 1, |bindings|);
    assert bindings[..|bindings|] == bindings;
  }

  lemma {:induction false} MentionInIsBinds(b: APIBinding, n: nat, k: nat) returns (i: nat)
    requires n <= |b.bound| && k < |MentionsIn(b, n)|
    ensures i < n && |MentionsIn(b, i)| == k && Counts(MentionOf(b, i)) && MentionsIn(b, n)[k] == MentionOf(b, i)
  {
    hide Counts, MentionOf;
    if k < |MentionsIn(b, n - 1)| {
      i := MentionInIsBinds(b, n - 1, k);
    } else {
      i := n - 1;
    }
  }

  /** And every mention is one. */
  lemma {:induction false} MentionIsBinds(bindings: seq<APIBinding>, k: nat) returns (b: nat, i: nat)
    requires k < |Mentions(bindings)|
    ensures Binds(bindings, b, i, Mentions(bindings)[k].triple) && Position(bindings, b, i) == k
    ensures Mentions(bindings)[k].binding == OrEmpty(bindings[b].name)
  {
    var n := |bindings| - 1;
    var init := bindings[..n];
    MentionsMore(bindings, n);
    assert bindings[..n + 1] == bindings;
    if k < |Mentions(init)| {
      b, i := MentionIsBinds(init, k);
      assert init[..b] == bindings[..b] && init[b] == bindings[b];
    } else {
      b := n;
      i := MentionInIsBinds(bindings[n], |bindings[n].bound|, k - |Mentions(init)|);
    }
  }

  lemma {:induction false} MentionsInGrow(b: APIBinding, i: nat, n: nat)
    requires i <= n <= |b.bound|
    ensures |MentionsIn(b, i)| <= |MentionsIn(b, n)|
  {
    if i < n {
      MentionsInGrow(b, i, n - 1);
    }
  }

  /** Positions follow the order of the bindings and of their bound resources. */
  lemma PositionsGrow(bindings: seq<APIBinding>, b: nat, i: nat, b': nat, i': nat)
    requires b < |bindings| && i < |bindings[b].bound| && b' < |bindings| && i' < |bindings[b'].bound|
    requires b < b' || (b == b' && i <= i')
    ensures Position(bindings, b, i) <= Position(bindings, b', i')
  {
    hide Mentions, MentionsIn;
    if b == b' {
      MentionsInGrow(bindings[b], i, i');
    } else {
      MentionsInGrow(bindings[b], i, |bindings[b].bound|);
      MentionsMore(bindings, b);
      MentionsGrow(bindings, b + 1, b');
    }
  }

  /** A key is mentioned under a name exactly when a binding of that name has it, and in the same order. */
  lemma NamedOutright(bindings: seq<APIBinding>, key: string, name: string)
    requires name != ""
    ensures Named(Mentions(bindings), key, name) <==> NamedBy(bindings, key, name)
  {
    var ms := Mentions(bindings);
    hide Mentions, Position, Binds;
    if k :| 0 <= k < |ms| && KeyOf(ms[k]) == key && ms[k].binding == name {
      var b, i := MentionIsBinds(bindings, k);
      BoundName(bindings, b, i, ms[k].triple, name);
      assert NamesKey(bindings, key, name, b, i, ms[k].triple);
    }
    if b: nat, i: nat, t :| NamesKey(bindings, key, name, b, i, t) {
      InBounds(bindings, b, i, t);
      BindsIsMention(bindings, b, i, t);
      assert KeyOf(ms[Position(bindings, b, i)]) == key;
    }
  }

  lemma BoundName(bindings: seq<APIBinding>, b: nat, i: nat, t: Triple, name: string)
    requires Binds(bindings, b, i, t) && OrEmpty(bindings[b].name) == name && name != ""
    ensures bindings[b].name == Some(name)
  {
  }

  lemma FirstNamedAt(ms: seq<Mention>, key: string, name: string) returns (i: nat)
    requires Named(ms, key, name)
    ensures FirstNamed(ms, key, name, i)
  {
    hide KeyOf;
    var some :| 0 <= some < |ms| && KeyOf(ms[some]) == key && ms[some].binding == name;
    i := 0;
    while !(KeyOf(ms[i]) == key && ms[i].binding == name)
      invariant i <= some && forall j :: 0 <= j < i ==> !(KeyOf(ms[j]) == key && ms[j].binding == name)
      decreases some - i
    {
      i := i + 1;
    }
  }

  lemma NamesFollowBindings(bindings: seq<APIBinding>, key: string, x: nat, y: nat, b: nat, i: nat, t: Triple)
    requires var names := Names(Mentions(bindings), key);
             x < y < |names| && NamesKey(bindings, key, names[y], b, i, t)
    ensures NamedBefore(bindings, key, Names(Mentions(bindings), key)[x], b, i)
  {
    var ms := Mentions(bindings);
    var names := Names(ms, key);
    hide Mentions, Names, KeyOf, Position, Binds;
    NamesExact(ms, key);
    assert names[x] in names && names[y] in names;
    var first := FirstNamedAt(ms, key, names[x]);
    var second := FirstNamedAt(ms, key, names[y]);
    NamesInOrder(ms, key, x, y, first, second);
    BindsIsMention(bindings, b, i, t);
    NotEarlier(bindings, key, names[y], b, i, t, second);
    var b0, i0 := MentionIsBinds(bindings, first);
    BoundName(bindings, b0, i0, ms[first].triple, names[x]);
    NamedThere(bindings, key, names[x], b0, i0, ms[first]);
    if !(b0 < b || (b0 == b && i0 < i)) {
      InBounds(bindings, b, i, t);
      InBounds(bindings, b0, i0, ms[first].triple);
      PositionsGrow(bindings, b, i, b0, i0);
    }
  }

  lemma InBounds(bindings: seq<APIBinding>, b: nat, i: nat, t: Triple)
    requires Binds(bindings, b, i, t)
    ensures b < |bindings| && i < |bindings[b].bound|
  {
  }

  lemma NamedThere(bindings: seq<APIBinding>, key: string, name: string, b: nat, i: nat, m: Mention)
    requires Binds(bindings, b, i, m.triple) && bindings[b].name == Some(name) && KeyOf(m) == key
    ensures NamesKey(bindings, key, name, b, i, m.triple)
  {
  }

  lemma NotEarlier(bindings: seq<APIBinding>, key: string, name: string, b: nat, i: nat, t: Triple, first: nat)
    requires NamesKey(bindings, key, name, b, i, t) && FirstNamed(Mentions(bindings), key, name, first)
    ensures first <= Position(bindings, b, i)
  {
    hide Mentions, Position;
    BindsIsMention(bindings, b, i, t);
  }

  lemma {:induction false} SanitizedIsId(s: string)
    ensures IsId(s, Sanitized(s))
  {
    if s != "" {
      SanitizedIsId(s[1..]);
    }
  }

  lemma {:induction false} FirstTripleIsMentioned(ms: seq<Mention>, key: string) returns (k: nat)
    requires Has(ms, key)
    ensures k < |ms| && KeyOf(ms[k]) == key && ms[k].triple == FirstTriple(ms, key)
  {
    var before := ms[..|ms| - 1];
    if Has(before, key) {
      k := FirstTripleIsMentioned(before, key);
    } else {
      assert ms == before + [ms[|ms| - 1]];
      HasMore(before, ms[|ms| - 1], key);
      k := |ms| - 1;
    }
  }

  lemma KeyOutright(m: Mention)
    ensures KeyOf(m) == EncodeResourceKey(m.triple)
  {
  }

  lemma EntryFitsFor(bindings: seq<APIBinding>, key: string)
    requires Has(Mentions(bindings), key)
    ensures EntryFits(bindings, EntryFor(Mentions(bindings), key))
  {
    hide Mentions, Names, KeyOf, Position, Binds, IsId, Has, NamedBy, NamedBefore, Named, NamesKey, FirstTriple;
    var ms := Mentions(bindings);
    var e := EntryFor(ms, key);
    var k := FirstTripleIsMentioned(ms, key);
    KeyOutright(ms[k]);
    assert e.triple == ms[k].triple && e.key == key == EncodeResourceKey(e.triple);
    SanitizedIsId(e.triple.group + "__" + e.triple.version + "__" + e.triple.resource);
    assert e.bindingNames == Names(ms, key);
    var b, i := MentionIsBinds(bindings, k);
    NamesExact(ms, key);
    forall n ensures n in e.bindingNames <==> n != "" && NamedBy(bindings, key, n) {
      if n != "" {
        NamedOutright(bindings, key, n);
      }
    }
    forall x, y, b, i, t | 0 <= x < y < |e.bindingNames| && NamesKey(bindings, key, e.bindingNames[y], b, i, t)
      ensures NamedBefore(bindings, key, e.bindingNames[x], b, i)
    {
      NamesFollowBindings(bindings, key, x, y, b, i, t);
    }
  }

  lemma EntriesIndex(bindings: seq<APIBinding>)
    ensures Indexes(bindings, Entries(Mentions(bindings)))
  {
    hide Mentions, Keys, Has, EntryFits, Binds, EntryFor;
    var ms := Mentions(bindings);
    var rs := Entries(ms);
    KeysExact(ms);
    forall x | 0 <= x < |rs| ensures EntryFits(bindings, rs[x]) && rs[x].key == Keys(ms)[x] {
      EntryFitsFor(bindings, Keys(ms)[x]);
      EntryKey(ms, Keys(ms)[x]);
    }
    forall b, i, t | Binds(bindings, b, i, t)
      ensures exists x :: 0 <= x < |rs| && rs[x].key == EncodeResourceKey(t) && (WellFormed(t) ==> rs[x].triple == t)
    {
      var key := EncodeResourceKey(t);
      InBounds(bindings, b, i, t);
      BindsIsMention(bindings, b, i, t);
      HasAt(ms, Position(bindings, b, i), key);
      assert key in Keys(ms);
      var x :| 0 <= x < |Keys(ms)| && Keys(ms)[x] == key;
      if WellFormed(t) {
        TripleOutright(bindings, rs[x], t);
      }
    }
  }

  lemma EntryKey(ms: seq<Mention>, key: string)
    requires Has(ms, key)
    ensures EntryFor(ms, key).key == key
  {
  }

  lemma HasAt(ms: seq<Mention>, k: nat, key: string)
    requires k < |ms| && EncodeResourceKey(ms[k].triple) == key
    ensures Has(ms, key)
  {
    assert KeyOf(ms[k]) == key;
  }

  lemma TripleOutright(bindings: seq<APIBinding>, e: Meta, t: Triple)
    requires EntryFits(bindings, e) && WellFormed(t) && e.key == EncodeResourceKey(t)
    ensures e.triple == t
  {
    hide EncodeResourceKey, WellFormed, NamedBy, IsId;
    var b, i :| Binds(bindings, b, i, e.triple);
    KeyIsUnique(t, e.triple);
  }

  lemma {:induction false} MapWhole(rs: seq<Meta>)
    ensures Map(rs, Whole) == rs
  {
    forall i | 0 <= i < |rs| ensures Map(rs, Whole)[i] == rs[i] {
    }
  }

  lemma SortedKeepsAll(rs: seq<Meta>, compare: (Meta, Meta) -> int)
    ensures multiset(Sorted(rs, compare)) == multiset(rs)
    ensures forall e :: e in Sorted(rs, compare) <==> e in rs
  {
    hide Sorted;
    SortedPermutes(rs, compare, Whole);
    MapWhole(rs);
    MapWhole(Sorted(rs, compare));
    forall e ensures e in Sorted(rs, compare) <==> e in rs {
      assert e in multiset(rs) <==> e in rs;
      assert e in multiset(Sorted(rs, compare)) <==> e in Sorted(rs, compare);
    }
  }

  predicate Distinct<T(==)>(s: seq<T>) {
    forall x, y :: 0 <= x < y < |s| ==> s[x] != s[y]
  }

  /** Whether something occurs twice can be told from the multiset. */
  lemma {:induction false} DistinctCounts<T>(s: seq<T>, t: seq<T>)
    requires multiset(s) == multiset(t) && Distinct(s)
    ensures Distinct(t)
  {
    forall x, y | 0 <= x < y < |t| ensures t[x] != t[y] {
      if t[x] == t[y] {
        CountTwo(t, x, y);
        CountOnce(s, t[x]);
        assert false;
      }
    }
  }

  lemma CountTwo<T>(t: seq<T>, x: nat, y: nat)
    requires x < y < |t| && t[x] == t[y]
    ensures multiset(t)[t[x]] >= 2
  {
    assert t == t[..x] + [t[x]] + t[x + 1..y] + [t[y]] + t[y + 1..];
  }

  lemma {:induction false} CountOnce<T>(s: seq<T>, v: T)
    requires Distinct(s)
    ensures multiset(s)[v] <= 1
  {
    if s != [] {
      var init, last := s[..|s| - 1], s[|s| - 1];
      assert s == init + [last];
      CountOnce(init, v);
      if last == v {
        assert v !in init;
      }
    }
  }

  lemma SortedIndexes(bindings: seq<APIBinding>, rs: seq<Meta>, compare: (Meta, Meta) -> int)
    requires Indexes(bindings, rs)
    ensures Indexes(bindings, Sorted(rs, compare))
  {
    hide Sorted, EntryFits, Binds, EncodeResourceKey, WellFormed;
    var sorted := Sorted(rs, compare);
    SortedKeepsAll(rs, compare);
    SortedPermutes(rs, compare, Key);
    assert Distinct(Map(rs, Key));
    DistinctCounts(Map(rs, Key), Map(sorted, Key));
    forall x, y | 0 <= x < y < |sorted| ensures sorted[x].key != sorted[y].key {
      assert Map(sorted, Key)[x] != Map(sorted, Key)[y];
    }
    forall x | 0 <= x < |sorted| ensures EntryFits(bindings, sorted[x]) {
      assert sorted[x] in rs;
    }
    forall b, i, t | Binds(bindings, b, i, t)
      ensures exists x :: 0 <= x < |sorted| && sorted[x].key == EncodeResourceKey(t) &&
                (WellFormed(t) ==> sorted[x].triple == t)
    {
      var x :| 0 <= x < |rs| && rs[x].key == EncodeResourceKey(t) && (WellFormed(t) ==> rs[x].triple == t);
      assert rs[x] in sorted;
      var y :| 0 <= y < |sorted| && sorted[y] == rs[x];
    }
  }

  lemma AscendingInOrder(rs: seq<Meta>, collate: (string, string) -> int)
    requires Orders(collate) && Ascending(rs, Compare(collate))
    ensures InOrder(rs, collate)
  {
    hide Orders;
    forall x, y | 0 <= x < y < |rs|
      ensures collate(rs[x].kind, rs[y].kind) < 0 ||
              (collate(rs[x].kind, rs[y].kind) == 0 && collate(rs[x].triple.group, rs[y].triple.group) <= 0)
    {
      assert Compare(collate)(rs[x], rs[y]) <= 0;
    }
  }

  /** The specified list is the index of the bindings, in order. */
  lemma IndexIsExact(bindings: seq<APIBinding>, collate: (string, string) -> int)
    ensures Indexes(bindings, Sorted(Entries(Mentions(bindings)), Compare(collate)))
    ensures Orders(collate) ==> InOrder(Sorted(Entries(Mentions(bindings)), Compare(collate)), collate)
  {
    hide Indexes, Sorted, Entries, Mentions, Compare, Orders, Ascending, InOrder;
    EntriesIndex(bindings);
    SortedIndexes(bindings, Entries(Mentions(bindings)), Compare(collate));
    if Orders(collate) {
      CompareOrders(collate);
      SortedAscends(Entries(Mentions(bindings)), Compare(collate));
      AscendingInOrder(Sorted(Entries(Mentions(bindings)), Compare(collate)), collate);
    }
  }

  method BuildBaseAPIBindingResources(bindings: seq<APIBinding>, collate: (string, string) -> int)
    returns (resources: seq<Meta>)
    ensures resources == Sorted(Entries(Mentions(bindings)), Compare(collate))
    ensures Indexes(bindings, resources) && (Orders(collate) ==> InOrder(resources, collate))
  {
    hide Indexes, InOrder, Orders;
    IndexIsExact(bindings, collate);
    var accs: map<string, Meta>, order: seq<string> := map[], [];
    ghost var seen: seq<Mention> := [];
    assert Accumulated(seen, accs, order);
    assert Mentions(bindings[..0]) == [];
    hide Accumulated, MentionOf, Counts, Entries, Sorted, Mentions, MentionsIn, Values;
    for b := 0 to |bindings|
      invariant seen == Mentions(bindings[..b]) && Accumulated(seen, accs, order)
    {
      var binding := bindings[b];
      MentionsMore(bindings, b);
      ghost var before := seen;
      NoMentionsYet(binding, before);
      for i := 0 to |binding.bound|
        invariant seen == before + MentionsIn(binding, i) && Accumulated(seen, accs, order)
      {
        MentionsInMore(binding, i, before);
        var m := MentionOf(binding, i);
        if !Counts(m) { continue; }
        accs, order := Accumulate(seen, m, accs, order);
        seen := seen + [m];
      }
    }
    assert bindings[..|bindings|] == bindings;
    ValuesAreEntries(seen, accs, order);
    resources := Sorted(Values(accs, order), Compare(collate));
  }

  /******* Discovery data *******/

  function Refined(d: map<string, Option<Discovered>>): Meta -> Meta {
    (r: Meta) =>
      if r.key !in d || d[r.key].None? then r
      else
        var found := d[r.key].value;
        r.(kind := if found.kind.Some? then found.kind.value else r.kind,
           isNamespaced := if found.namespaced.Some? then found.namespaced.value else r.isNamespaced,
           singularName := FirstNonEmpty(OrEmpty(found.singularName), r.singularName),
           pluralName := FirstNonEmpty(OrEmpty(found.name), r.pluralName))
  }

  function MergeDiscovered(resources: seq<Meta>, d: map<string, Option<Discovered>>,
                           collate: (string, string) -> int): seq<Meta> {
    Sorted(Map(resources, Refined(d)), Compare(collate))
  }

  /** What discovery may not touch. */
  datatype Identity = Identity(key: string, id: string, triple: Triple, bindingNames: seq<string>)

  function IdentityOf(r: Meta): Identity {
    Identity(r.key, r.id, r.triple, r.bindingNames)
  }

  function Whole(r: Meta): Meta {
    r
  }

  function Key(r: Meta): string {
    r.key
  }

  lemma CompareOrders(collate: (string, string) -> int)
    requires Orders(collate)
    ensures Orders(Compare(collate))
  {
    var compare := Compare(collate);
    forall a: string, b: string ensures collate(a, b) == 0 <==> collate(b, a) == 0
      ensures collate(a, b) < 0 <==> collate(b, a) > 0
    {
      assert collate(a, b) <= 0 <==> collate(b, a) >= 0;
      assert collate(b, a) <= 0 <==> collate(a, b) >= 0;
    }
    forall a: Meta, b: Meta ensures compare(a, b) <= 0 <==> compare(b, a) >= 0 {
      assert collate(a.kind, b.kind) == 0 <==> collate(b.kind, a.kind) == 0;
      assert collate(a.triple.group, b.triple.group) <= 0 <==> collate(b.triple.group, a.triple.group) >= 0;
    }
    forall a: Meta, b: Meta, c: Meta | compare(a, b) <= 0 && compare(b, c) <= 0 ensures compare(a, c) <= 0 {
      assert collate(a.kind, b.kind) <= 0 && collate(b.kind, c.kind) <= 0;
      assert collate(a.kind, c.kind) <= 0;
      if collate(a.kind, c.kind) == 0 {
        assert collate(c.kind, a.kind) <= 0;
        assert collate(b.kind, a.kind) <= 0 && collate(c.kind, b.kind) <= 0;
      }
    }
  }

  /** The base list is sorted by kind and then group, holds exactly the specified entries, and has distinct keys. */
  lemma {:induction false} BaseListIsSorted(bindings: seq<APIBinding>, collate: (string, string) -> int)
    requires Orders(collate)
    ensures var entries := Entries(Mentions(bindings)); var r := Sorted(entries, Compare(collate));
            && Ascending(r, Compare(collate))
            && multiset(Map(r, Whole)) == multiset(Map(entries, Whole))
            && multiset(Map(r, Key)) == multiset(Keys(Mentions(bindings)))
  {
    var ms := Mentions(bindings);
    var compare := Compare(collate);
    CompareOrders(collate);
    SortedAscends(Entries(ms), compare);
    SortedPermutes(Entries(ms), compare, Whole);
    SortedPermutes(Entries(ms), compare, Key);
    assert Map(Entries(ms), Key) == Keys(ms);
  }

  lemma RefinedKeepsIdentities(resources: seq<Meta>, d: map<string, Option<Discovered>>)
    ensures Map(Map(resources, Refined(d)), IdentityOf) == Map(resources, IdentityOf)
  {
    var refined := Map(resources, Refined(d));
    forall i | 0 <= i < |resources| ensures Map(refined, IdentityOf)[i] == Map(resources, IdentityOf)[i] {
      assert IdentityOf(Refined(d)(resources[i])) == IdentityOf(resources[i]);
    }
  }

  /** Merging discovery data in gives a re-sorted permutation that keeps every entry's identity. */
  lemma {:induction false} MergeKeepsIdentities(resources: seq<Meta>, d: map<string, Option<Discovered>>,
                                                 collate: (string, string) -> int)
    requires Orders(collate)
    ensures Ascending(MergeDiscovered(resources, d, collate), Compare(collate))
    ensures multiset(Map(MergeDiscovered(resources, d, collate), IdentityOf)) == multiset(Map(resources, IdentityOf))
  {
    CompareOrders(collate);
    RefinedKeepsIdentities(resources, d);
    hide Orders, Ascending, Sorted, Map;
    SortedAscends(Map(resources, Refined(d)), Compare(collate));
    SortedPermutes(Map(resources, Refined(d)), Compare(collate), IdentityOf);
  }

  /** What discovery makes of one resource, said outright: each thing it has found replaces what was there. */
  predicate Refines(d: map<string, Option<Discovered>>, r: Meta, r': Meta) {
    && r'.key == r.key && r'.id == r.id && r'.triple == r.triple && r'.bindingNames == r.bindingNames
    && (r.key !in d || d[r.key].None? ==> r' == r)
    && (r.key in d && d[r.key].Some? ==>
          var found := d[r.key].value;
          && (if found.kind.Some? then Some(r'.kind) == found.kind else r'.kind == r.kind)
          && (if found.namespaced.Some? then Some(r'.isNamespaced) == found.namespaced
              else r'.isNamespaced == r.isNamespaced)
          && (if found.singularName.Some? && found.singularName.value != "" then
                Some(r'.singularName) == found.singularName
              else r'.singularName == r.singularName)
          && (if found.name.Some? && found.name.value != "" then Some(r'.pluralName) == found.name
              else r'.pluralName == r.pluralName))
  }

  /** Every resource is refined, and nothing else is listed. */
  ghost predicate Merges(resources: seq<Meta>, d: map<string, Option<Discovered>>, merged: seq<Meta>) {
    && |merged| == |resources|
    && (forall r :: r in resources ==> exists r' :: r' in merged && Refines(d, r, r'))
    && (forall r' :: r' in merged ==> exists r :: r in resources && Refines(d, r, r'))
  }

  /** Merging refines every resource and puts the list in order again. */
  lemma MergeRefines(resources: seq<Meta>, d: map<string, Option<Discovered>>, collate: (string, string) -> int)
    ensures Merges(resources, d, MergeDiscovered(resources, d, collate))
    ensures Orders(collate) ==> InOrder(MergeDiscovered(resources, d, collate), collate)
  {
    hide Sorted, Compare, Orders, Ascending, InOrder, Refines;
    var refined := Map(resources, Refined(d));
    var merged := Sorted(refined, Compare(collate));
    SortedKeepsAll(refined, Compare(collate));
    assert |merged| == |multiset(merged)| == |refined|;
    forall r | r in resources ensures exists r' :: r' in merged && Refines(d, r, r') {
      var i :| 0 <= i < |resources| && resources[i] == r;
      RefinedRefines(d, r);
      assert refined[i] in merged;
    }
    forall r' | r' in merged ensures exists r :: r in resources && Refines(d, r, r') {
      var i :| 0 <= i < |refined| && refined[i] == r';
      RefinedRefines(d, resources[i]);
    }
    if Orders(collate) {
      CompareOrders(collate);
      SortedAscends(refined, Compare(collate));
      AscendingInOrder(merged, collate);
    }
  }

  lemma RefinedRefines(d: map<string, Option<Discovered>>, r: Meta)
    ensures Refines(d, r, Refined(d)(r))
  {
  }
}
