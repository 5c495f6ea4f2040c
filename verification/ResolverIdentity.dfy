/** The identity key: what it stands for, and why merging never changes it. */
module ResolverIdentity {
  import opened Text
  import opened Sorting
  import opened GraphModel
  import opened EntityResolver

  /** What an entity is identified by, before it is packed into one key string. */
  datatype Identity = Business(typeId: string, key: string) | Named(typeId: string, name: string) | Unnamed(id: string)

  function IdentityOf(u: Unicode, e: Entity): Identity {
    if !u.Blank(e.businessKey) then Business(e.typeId, u.Normalize(e.businessKey))
    else if LeastName(u, Names(e)) == "" then Unnamed(e.id)
    else Named(e.typeId, LeastName(u, Names(e)))
  }

  // ---------- The packed key is injective ----------

  lemma LastColonSplits(a: string, m: string, b: string, n: string)
    requires ':' !in m && ':' !in n
    requires a + ":" + m == b + ":" + n
    ensures a == b && m == n
  {
    var s, t := a + ":" + m, b + ":" + n;
    assert s[|a|] == ':' && t[|b|] == ':';
    assert forall i :: |a| < i < |s| ==> s[i] in m;
    assert forall i :: |b| < i < |t| ==> t[i] in n;
    assert |a| == |b|;
    assert a == s[..|a|] && b == t[..|b|];
    assert m == s[|a| + 1..] && n == t[|b| + 1..];
  }

  lemma {:induction false} LeastNameHasNoColon(u: Unicode, names: seq<string>)
    requires u.Lawful()
    ensures ':' !in LeastName(u, names)
  {
    if names != [] {
      LeastNameHasNoColon(u, names[..|names| - 1]);
      LettersHaveNoColon(u, u.Trim(names[|names| - 1]));
    }
  }

  lemma TypedKeysSplit(prefix: string, s: string, m: string, t: string, n: string)
    requires ':' !in m && ':' !in n
    requires prefix + s + ":" + m == prefix + t + ":" + n
    ensures s == t && m == n
  {
    LastColonSplits(prefix + s, m, prefix + t, n);
    assert s == (prefix + s)[|prefix|..] && t == (prefix + t)[|prefix|..];
  }

  /** Two entities get the same key string exactly when kind of identity, type and normalized text agree. */
  lemma KeyStandsForIdentity(u: Unicode, e: Entity, f: Entity)
    requires u.Lawful()
    ensures IdentityKey(u, e) == IdentityKey(u, f) <==> IdentityOf(u, e) == IdentityOf(u, f)
  {
    LettersHaveNoColon(u, u.Trim(e.businessKey));
    LettersHaveNoColon(u, u.Trim(f.businessKey));
    LeastNameHasNoColon(u, Names(e));
    LeastNameHasNoColon(u, Names(f));
    var k, l := IdentityKey(u, e), IdentityKey(u, f);
    assert k[0] == (match IdentityOf(u, e) case Business(_, _) => 'b' case Named(_, _) => 'n' case Unnamed(_) => 'i');
    assert l[0] == (match IdentityOf(u, f) case Business(_, _) => 'b' case Named(_, _) => 'n' case Unnamed(_) => 'i');
    if k == l {
      match IdentityOf(u, e) {
        case Business(s, m) =>
          TypedKeysSplit("business:", s, m, f.typeId, u.Normalize(f.businessKey));
        case Named(s, m) =>
          TypedKeysSplit("name:", s, m, f.typeId, LeastName(u, Names(f)));
        case Unnamed(id) =>
          assert k[3..] == e.id && l[3..] == f.id;
      }
    }
  }

  // ---------- The least name depends only on the set of names ----------

  ghost predicate IsLeast(u: Unicode, names: seq<string>, m: string) {
    && (m == "" ==> forall n :: n in names ==> u.Normalize(n) == "")
    && (m != "" ==>
          && (exists n :: n in names && u.Normalize(n) == m)
          && (forall n :: n in names && u.Normalize(n) != "" ==> !Before(u.Normalize(n), m)))
  }

  lemma {:induction false} LeastNameIsLeast(u: Unicode, names: seq<string>)
    ensures IsLeast(u, names, LeastName(u, names))
  {
    hide Unicode.Normalize;
    if names != [] {
      var init, last := names[..|names| - 1], names[|names| - 1];
      LeastNameIsLeast(u, init);
      assert names == init + [last];
      var m := LeastName(u, init);
      var x := u.Normalize(last);
      var r := LeastName(u, names);
      if r != "" {
        if r == x {
          assert last in names;
        }
        forall n | n in names && u.Normalize(n) != ""
          ensures !Before(u.Normalize(n), r)
        {
          BeforeIsStrictWeak(u.Normalize(n), m, x);
          BeforeIsStrictWeak(u.Normalize(n), x, m);
          BeforeIsStrictWeak(x, m, x);
        }
      }
    }
  }

  lemma LeastIsUnique(u: Unicode, names: seq<string>, m: string)
    requires IsLeast(u, names, m)
    ensures m == LeastName(u, names)
  {
    hide Unicode.Normalize;
    hide LeastName;
    LeastNameIsLeast(u, names);
    var l := LeastName(u, names);
    BeforeTotal(m, l);
  }

  lemma NormalizedAlias(u: Unicode, dst: Entity, src: Entity, n: string)
    requires u.Lawful() && n in Names(Merge(u, dst, src))
    ensures exists x :: (x in Names(dst) || x in Names(src)) && u.Normalize(x) == u.Normalize(n)
  {
    var all := dst.aliases + src.aliases + [src.name];
    if n == dst.name {
      assert n in Names(dst);
    } else {
      SortMembers(UniqueNonEmpty(u, all), StringOrder());
      UniqueMembers(u, all);
      var x :| x in all && u.Trim(x) == n;
      NormalizeIgnoresTrim(u, x);
      assert x in Names(dst) || x in Names(src);
    }
  }

  lemma KeptName(u: Unicode, dst: Entity, src: Entity, x: string)
    requires u.Lawful() && x in Names(dst) && u.Normalize(x) != ""
    ensures exists n :: n in Names(Merge(u, dst, src)) && u.Normalize(n) == u.Normalize(x)
  {
    if x == dst.name {
      assert x in Names(Merge(u, dst, src));
    } else {
      var all := dst.aliases + src.aliases + [src.name];
      NormalizeIgnoresTrim(u, x);
      SortMembers(UniqueNonEmpty(u, all), StringOrder());
      UniqueMembers(u, all);
      assert u.Trim(x) in Names(Merge(u, dst, src));
    }
  }

  lemma MergeKeepsLeastName(u: Unicode, dst: Entity, src: Entity)
    requires u.Lawful() && LeastName(u, Names(dst)) == LeastName(u, Names(src))
    ensures LeastName(u, Names(Merge(u, dst, src))) == LeastName(u, Names(dst))
  {
    hide LeastName;
    hide Unicode.Normalize;
    hide Merge;
    var m := LeastName(u, Names(dst));
    var names := Names(Merge(u, dst, src));
    LeastNameIsLeast(u, Names(dst));
    LeastNameIsLeast(u, Names(src));
    if m != "" {
      var x :| x in Names(dst) && u.Normalize(x) == m;
      KeptName(u, dst, src, x);
    }
    forall n | n in names
      ensures m == "" ==> u.Normalize(n) == ""
      ensures m != "" && u.Normalize(n) != "" ==> !Before(u.Normalize(n), m)
    {
      NormalizedAlias(u, dst, src, n);
    }
    LeastIsUnique(u, names, m);
  }

  /** Merging two entities with one key grows the aliases of the first but never changes its key. */
  lemma MergeKeepsKey(u: Unicode, dst: Entity, src: Entity)
    requires u.Lawful() && IdentityKey(u, dst) == IdentityKey(u, src)
    ensures IdentityKey(u, Merge(u, dst, src)) == IdentityKey(u, dst)
  {
    KeyStandsForIdentity(u, dst, src);
    if u.Blank(dst.businessKey) {
      MergeKeepsLeastName(u, dst, src);
    }
  }
}
