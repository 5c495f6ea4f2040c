/** Identifiers derived from a prefix, a domain and a name by hashing. */
module Identity {
  import opened Text

  /** The text tables and the hash that identifiers are made with. */
  datatype Naming = Naming(u: Unicode, hash: string -> string)
  {
    ghost predicate Injective() {
      forall a: string, b: string :: hash(a) == hash(b) ==> a == b
    }

    /** The hash is written with digits and letters. */
    ghost predicate Hexadecimal() {
      forall s: string :: hash(s) != "" && var h := hash(s); '0' <= h[|h| - 1] <= '9' || 'a' <= h[|h| - 1] <= 'z'
    }

    function StableId(prefix: string, domain: string, name: string): string {
      prefix + "_" + hash(u.Trim(domain) + "\0" + u.Trim(name))
    }
  }

  /** Within a kind and a domain, equal identifiers come from names equal up to outer white space. */
  lemma StableIdNames(n: Naming, prefix: string, domain: string, a: string, b: string)
    requires n.Injective()
    ensures n.StableId(prefix, domain, a) == n.StableId(prefix, domain, b) <==> n.u.Trim(a) == n.u.Trim(b)
  {
    if n.StableId(prefix, domain, a) == n.StableId(prefix, domain, b) {
      var d := n.u.Trim(domain) + "\0";
      var x, y := d + n.u.Trim(a), d + n.u.Trim(b);
      assert n.StableId(prefix, domain, a)[|prefix| + 1..] == n.hash(x);
      assert n.StableId(prefix, domain, b)[|prefix| + 1..] == n.hash(y);
      assert x[|d|..] == n.u.Trim(a) && y[|d|..] == n.u.Trim(b);
    }
  }

  /** Identifiers of kinds with different initials never meet. */
  lemma StableIdKinds(n: Naming, p: string, q: string, domain: string, a: string, b: string)
    requires p != "" && q != "" && p[0] != q[0]
    ensures n.StableId(p, domain, a) != n.StableId(q, domain, b) && n.StableId(p, domain, a) != ""
  {
    assert n.StableId(p, domain, a)[0] == p[0] && n.StableId(q, domain, b)[0] == q[0];
  }

  lemma StableIdTrimmed(n: Naming, prefix: string, domain: string, name: string)
    requires n.u.Lawful() && n.Hexadecimal() && prefix != "" && 'a' <= prefix[0] <= 'z'
    ensures Trimmed(n.u, n.StableId(prefix, domain, name)) && n.StableId(prefix, domain, name) != ""
  {
    var h := n.hash(n.u.Trim(domain) + "\0" + n.u.Trim(name));
    var id := n.StableId(prefix, domain, name);
    assert id[0] == prefix[0] && id[|id| - 1] == h[|h| - 1];
  }
}
