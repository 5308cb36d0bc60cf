/** Names of mounted workspaces, derived from the tenant's own object coordinates. */
module MountNames {

  /** The first four bytes of a SHA-1 sum in hexadecimal, of which only the length matters here. */
  type Digest = d: string | |d| == 8 witness "00000000"

  predicate IsDefault(ns: string) {
    ns == "" || ns == "default"
  }

  function Sum(digest: string -> Digest, name: string, ns: string): string {
    digest(ns + "/" + name)
  }

  function DeriveMountedWorkspaceName(digest: string -> Digest, name: string, ns: string): string {
    if IsDefault(ns) then name else name + "-" + Sum(digest, name, ns)
  }

  /**
   * When two objects share a mount name: by their names alone in the default namespace, by names and digests
   * outside it, and across the two when one object's name already spells the other's mount name.
   */
  lemma NameCollision(digest: string -> Digest, name1: string, ns1: string, name2: string, ns2: string)
    ensures DeriveMountedWorkspaceName(digest, name1, ns1) == DeriveMountedWorkspaceName(digest, name2, ns2)
            <==>
            var default1, default2 := ns1 == "" || ns1 == "default", ns2 == "" || ns2 == "default";
            var sum1, sum2 := digest(ns1 + "/" + name1), digest(ns2 + "/" + name2);
            if default1 then name1 == if default2 then name2 else name2 + "-" + sum2
            else if default2 then name2 == name1 + "-" + sum1
            else name1 == name2 && sum1 == sum2
  {
    Suffixed(name1, Sum(digest, name1, ns1), name2, Sum(digest, name2, ns2));
  }

  /** A suffix of fixed length can be cut off again. */
  lemma Suffixed(name1: string, d1: string, name2: string, d2: string)
    requires |d1| == |d2| == 8
    ensures name1 + "-" + d1 == name2 + "-" + d2 <==> name1 == name2 && d1 == d2
  {
    var m1, m2 := name1 + "-" + d1, name2 + "-" + d2;
    if m1 == m2 {
      assert m1[..|m1| - 9] == name1 && m2[..|m2| - 9] == name2;
      assert m1[|m1| - 8..] == d1 && m2[|m2| - 8..] == d2;
    }
  }
}
