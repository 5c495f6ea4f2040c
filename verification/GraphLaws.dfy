/**
 What a normalized graph holds, in terms of the extracted nodes and relations: how attributes are read, what
 becomes of a node, and which relations there are and on which chunks they rest.
 */
module GraphLaws {
  import opened Wrappers
  import opened Text
  import opened Sorting
  import opened Identity
  import opened GraphModel
  import opened TemplateCompiler
  import opened GraphNormalizer
  import opened TemplateTheorems

  // ---------- Attributes ----------

  /** The text splits at its first equals sign into two parts that trim to these. */
  ghost predicate SplitsInto(u: Unicode, s: string, key: string, value: string) {
    exists a, b :: s == a + "=" + b && '=' !in a && u.Trim(a) == key && u.Trim(b) == value
  }

  /** The attribute reads `key = value`, up to white space around both. */
  ghost predicate Assigns(u: Unicode, attribute: string, key: string, value: string) {
    SplitsInto(u, u.Trim(attribute), key, value)
  }

  /** The attribute is this word alone. */
  predicate States(u: Unicode, attribute: string, word: string) {
    u.Trim(attribute) == word && word != "" && '=' !in word
  }

  /** The attribute gives the property the value. */
  ghost predicate Gives(u: Unicode, attribute: string, key: string, v: Value) {
    || (States(u, attribute, key) && v == Value("bool", "true"))
    || (v.kind == "string" && Assigns(u, attribute, key, v.text) && key != "" && !("__" <= key))
  }

  /** The attribute sets one of the keys kept for the normalizer. */
  ghost predicate Sets(u: Unicode, attribute: string, key: string, value: string) {
    Assigns(u, attribute, key, value) && "__" <= key
  }

  /** The last attribute to give the property gives it this value. */
  ghost predicate GivenLast(u: Unicode, attributes: seq<string>, key: string, v: Value) {
    exists i :: 0 <= i < |attributes| && Gives(u, attributes[i], key, v)
                && forall j, w :: i < j < |attributes| ==> !Gives(u, attributes[j], key, w)
  }

  ghost predicate SetLast(u: Unicode, attributes: seq<string>, key: string, value: string) {
    exists i :: 0 <= i < |attributes| && Sets(u, attributes[i], key, value)
                && forall j, w :: i < j < |attributes| ==> !Sets(u, attributes[j], key, w)
  }

  lemma NoEquals(s: string)
    ensures IndexOf(s, '=') <= |s| && (IndexOf(s, '=') == |s| <==> '=' !in s)
  {
    IndexOfBounds(s, '=');
  }

  lemma FirstEquals(s: string, a: string, b: string)
    requires s == a + "=" + b && '=' !in a
    ensures IndexOf(s, '=') == |a| < |s| && s[..|a|] == a && s[|a| + 1..] == b
  {
    IndexOfBounds(s, '=');
    assert s[|a|] == '=' && forall i :: 0 <= i < |a| ==> s[i] == a[i];
  }

  lemma SplitsOnce(u: Unicode, s: string, key: string, value: string)
    ensures var at := IndexOf(s, '=');
            at <= |s| && (SplitsInto(u, s, key, value) <==>
                          at < |s| && u.Trim(s[..at]) == key && u.Trim(s[at + 1..]) == value)
  {
    hide Unicode.Trim;
    hide IndexOf;
    IndexOfBounds(s, '=');
    var at := IndexOf(s, '=');
    if at < |s| {
      assert s == s[..at] + "=" + s[at + 1..];
      assert forall i :: 0 <= i < |s[..at]| ==> s[..at][i] == s[i];
    }
    if a, b :| s == a + "=" + b && '=' !in a && u.Trim(a) == key && u.Trim(b) == value {
      FirstEquals(s, a, b);
    }
  }

  /** Reading one more attribute. */
  lemma OneMoreAttribute(u: Unicode, a: Attributes, attribute: string, key: string, v: Value, value: string)
    ensures var t := WithAttribute(u, a, attribute);
            && (Gives(u, attribute, key, v) ==> key in t.props && t.props[key] == v)
            && ((forall w :: !Gives(u, attribute, key, w)) ==>
                  (key in t.props <==> key in a.props) && (key in a.props ==> t.props[key] == a.props[key]))
            && (Sets(u, attribute, key, value) ==> key in t.reserved && t.reserved[key] == value)
            && ((forall w :: !Sets(u, attribute, key, w)) ==>
                  && (key in t.reserved <==> key in a.reserved)
                  && (key in a.reserved ==> t.reserved[key] == a.reserved[key]))
  {
    hide Unicode.Trim;
    var s := u.Trim(attribute);
    var at := IndexOf(s, '=');
    IndexOfBounds(s, '=');
    NoEquals(s);
    SplitsOnce(u, s, key, v.text);
    SplitsOnce(u, s, key, value);
    if at < |s| {
      SplitsOnce(u, s, u.Trim(s[..at]), u.Trim(s[at + 1..]));
      SplitsOnce(u, s, key, u.Trim(s[at + 1..]));
      var given := Value("string", u.Trim(s[at + 1..]));
      assert u.Trim(s[..at]) == key && key != "" && !("__" <= key) ==> Gives(u, attribute, key, given);
      assert u.Trim(s[..at]) == key && "__" <= key ==> Sets(u, attribute, key, given.text);
    } else if s != "" {
      assert key == s ==> Gives(u, attribute, key, Value("bool", "true"));
    }
  }

  /** A key of the result is one that some attribute gives, with the value of the last to give it. */
  lemma {:induction false} AttributesReadLast(u: Unicode, attributes: seq<string>, key: string, v: Value, value: string)
    ensures var p := Parsed(u, attributes);
            && (key in p.props && p.props[key] == v <==> GivenLast(u, attributes, key, v))
            && (key in p.reserved && p.reserved[key] == value <==> SetLast(u, attributes, key, value))
  {
    hide Gives;
    hide Sets;
    hide WithAttribute;
    if attributes != [] {
      var init, last := attributes[..|attributes| - 1], attributes[|attributes| - 1];
      assert attributes == init + [last];
      AttributesReadLast(u, init, key, v, value);
      OneMoreAttribute(u, Parsed(u, init), last, key, v, value);
      if w :| Gives(u, last, key, w) {
        OneMoreAttribute(u, Parsed(u, init), last, key, w, value);
        assert Gives(u, attributes[|init|], key, w);
      } else {
        GivenBefore(u, init, last, key, v);
      }
      if w :| Sets(u, last, key, w) {
        OneMoreAttribute(u, Parsed(u, init), last, key, v, w);
        assert Sets(u, attributes[|init|], key, w);
      } else {
        SetBefore(u, init, last, key, value);
      }
    }
  }

  lemma GivenBefore(u: Unicode, init: seq<string>, last: string, key: string, v: Value)
    requires forall w :: !Gives(u, last, key, w)
    ensures GivenLast(u, init + [last], key, v) <==> GivenLast(u, init, key, v)
  {
    hide Gives;
    var all := init + [last];
    assert forall i :: 0 <= i < |init| ==> all[i] == init[i];
    if GivenLast(u, init, key, v) {
      var i :| 0 <= i < |init| && Gives(u, init[i], key, v)
               && forall j, w :: i < j < |init| ==> !Gives(u, init[j], key, w);
      assert Gives(u, all[i], key, v);
      forall j, w | i < j < |all|
        ensures !Gives(u, all[j], key, w)
      {
        assert all[j] == if j < |init| then init[j] else last;
      }
    }
  }

  lemma SetBefore(u: Unicode, init: seq<string>, last: string, key: string, value: string)
    requires forall w :: !Sets(u, last, key, w)
    ensures SetLast(u, init + [last], key, value) <==> SetLast(u, init, key, value)
  {
    hide Sets;
    var all := init + [last];
    assert forall i :: 0 <= i < |init| ==> all[i] == init[i];
    if SetLast(u, init, key, value) {
      var i :| 0 <= i < |init| && Sets(u, init[i], key, value)
               && forall j, w :: i < j < |init| ==> !Sets(u, init[j], key, w);
      assert Sets(u, all[i], key, value);
      forall j, w | i < j < |all|
        ensures !Sets(u, all[j], key, w)
      {
        assert all[j] == if j < |init| then init[j] else last;
      }
    }
  }

  // ---------- Lists of names ----------

  const MARKS := [',', '，', ';', '；', '|']

  /** The stretch from one place to the other lies between two of these marks, or an end, and holds none. */
  predicate Stretch(s: string, i: int, j: int) {
    && 0 <= i <= j <= |s|
    && (i == 0 || s[i - 1] in MARKS) && (j == |s| || s[j] in MARKS)
    && forall k :: i <= k < j ==> s[k] !in MARKS
  }

  lemma MarksSeparate(c: char)
    ensures Separator(c) <==> c in MARKS
  {
    assert MARKS[0] == ',' && MARKS[1] == '，' && MARKS[2] == ';' && MARKS[3] == '；' && MARKS[4] == '|';
  }

  function Cut(s: string, i: int, j: int): string {
    if 0 <= i <= j <= |s| then s[i..j] else ""
  }

  /** The text read before goes on with the first stretch. */
  ghost predicate First(s: string, word: string, w: string) {
    exists j :: Stretch(s, 0, j) && w == word + Cut(s, 0, j)
  }

  ghost predicate Later(s: string, w: string) {
    exists i, j :: i > 0 && Stretch(s, i, j) && w == Cut(s, i, j)
  }

  lemma StretchShifts(s: string, i: int, j: int)
    requires s != "" && i >= 0 && (i > 0 || s[0] in MARKS)
    ensures Stretch(s, i + 1, j + 1) <==> Stretch(s[1..], i, j)
    ensures Stretch(s, i + 1, j + 1) ==> Cut(s, i + 1, j + 1) == Cut(s[1..], i, j)
  {
    if Stretch(s[1..], i, j) {
      forall k | i + 1 <= k < j + 1
        ensures s[k] !in MARKS
      {
        assert s[k] == s[1..][k - 1];
      }
    }
    if Stretch(s, i + 1, j + 1) {
      forall k | i <= k < j
        ensures s[1..][k] !in MARKS
      {
        assert s[k + 1] == s[1..][k];
      }
    }
  }

  lemma LaterShifts(s: string, w: string)
    requires s != ""
    ensures Later(s, w) <==> Later(s[1..], w) || (s[0] in MARKS && First(s[1..], "", w))
  {
    hide Stretch;
    hide Cut;
    var rest := s[1..];
    if Later(s, w) {
      var i, j :| i > 0 && Stretch(s, i, j) && w == Cut(s, i, j);
      if i > 1 {
        StretchShifts(s, i - 1, j - 1);
        assert Stretch(rest, i - 1, j - 1);
      } else {
        StretchAfterMark(s, j);
        StretchShifts(s, 0, j - 1);
        assert Stretch(rest, 0, j - 1) && "" + Cut(rest, 0, j - 1) == w;
      }
    }
    if Later(rest, w) {
      var i, j :| i > 0 && Stretch(rest, i, j) && w == Cut(rest, i, j);
      StretchShifts(s, i, j);
    }
    if s[0] in MARKS && First(rest, "", w) {
      var j :| Stretch(rest, 0, j) && w == "" + Cut(rest, 0, j);
      StretchShifts(s, 0, j);
      assert Stretch(s, 1, j + 1) && Cut(s, 1, j + 1) == w;
    }
  }

  lemma StretchAfterMark(s: string, j: int)
    requires Stretch(s, 1, j)
    ensures s != "" && s[0] in MARKS
  {
  }

  lemma FirstShifts(s: string, word: string, w: string)
    requires s != ""
    ensures s[0] in MARKS ==> (First(s, word, w) <==> w == word)
    ensures s[0] !in MARKS ==> (First(s, word, w) <==> First(s[1..], word + [s[0]], w))
  {
    var rest := s[1..];
    if s[0] in MARKS {
      assert Stretch(s, 0, 0) && word + Cut(s, 0, 0) == word;
      assert forall j :: Stretch(s, 0, j) ==> j == 0;
    } else {
      if First(s, word, w) {
        var j :| Stretch(s, 0, j) && w == word + Cut(s, 0, j);
        assert j > 0;
        assert forall k :: 0 <= k < j - 1 ==> rest[k] == s[k + 1];
        assert Stretch(rest, 0, j - 1) && word + [s[0]] + Cut(rest, 0, j - 1) == w;
      }
      if First(rest, word + [s[0]], w) {
        var j :| Stretch(rest, 0, j) && w == word + [s[0]] + Cut(rest, 0, j);
        assert forall k :: 0 < k < j + 1 ==> s[k] == rest[k - 1];
        assert Stretch(s, 0, j + 1) && word + Cut(s, 0, j + 1) == w;
      }
    }
  }

  /** The fields are the first stretch, after what was read before, and all later ones. */
  lemma {:induction false} FieldsAreStretches(s: string, word: string, w: string)
    ensures w in Fields(s, word) <==> First(s, word, w) || Later(s, w)
  {
    if s == "" {
      assert Stretch(s, 0, 0) && word + Cut(s, 0, 0) == word;
    } else {
      hide Separator;
      hide First;
      hide Later;
      MarksSeparate(s[0]);
      FirstShifts(s, word, w);
      LaterShifts(s, w);
      if s[0] in MARKS {
        FieldsAreStretches(s[1..], "", w);
      } else {
        FieldsAreStretches(s[1..], word + [s[0]], w);
      }
    }
  }

  /** The name is one of those listed in the text. */
  ghost predicate Lists(u: Unicode, s: string, name: string) {
    name != "" && exists i, j :: Stretch(s, i, j) && u.Trim(Cut(s, i, j)) == name
  }

  lemma ListedNames(u: Unicode, s: string)
    ensures var names := SplitList(u, s);
            && Sorted(names, StringOrder()) && NoRepeats(names)
            && forall name :: name in names <==> Lists(u, s, name)
  {
    hide UniqueSorted;
    hide Stretch;
    hide Cut;
    hide Fields;
    UniqueSortedListing(u, Fields(s, ""));
    forall w
      ensures w in Fields(s, "") <==> exists i, j :: Stretch(s, i, j) && w == Cut(s, i, j)
    {
      FieldsAreStretches(s, "", w);
      WholeStretches(s, w);
    }
    if u.Blank(s) {
      forall i, j | Stretch(s, i, j)
        ensures u.Trim(Cut(s, i, j)) == ""
      {
        BlankParts(u, s, i, j);
      }
    } else {
      hide Unicode.Trim;
      forall name
        ensures name in SplitList(u, s) <==> Lists(u, s, name)
      {
        if Lists(u, s, name) {
          var i, j :| Stretch(s, i, j) && u.Trim(Cut(s, i, j)) == name;
          assert Cut(s, i, j) in Fields(s, "");
        }
      }
    }
  }

  lemma WholeStretches(s: string, w: string)
    ensures First(s, "", w) || Later(s, w) <==> exists i, j :: Stretch(s, i, j) && w == Cut(s, i, j)
  {
    if First(s, "", w) {
      var j :| Stretch(s, 0, j) && w == "" + Cut(s, 0, j);
      assert Cut(s, 0, j) == w;
    }
    if i, j :| Stretch(s, i, j) && w == Cut(s, i, j) {
      assert i == 0 ==> "" + Cut(s, 0, j) == w;
    }
  }

  lemma {:induction false} BlankIsAllSpace(u: Unicode, s: string)
    ensures u.Blank(s) <==> forall k :: 0 <= k < |s| ==> u.isSpace(s[k])
  {
    if s != "" && u.isSpace(s[0]) {
      BlankIsAllSpace(u, s[1..]);
      assert u.Blank(s) <==> u.Blank(s[1..]);
      assert forall k :: 0 < k < |s| ==> s[k] == s[1..][k - 1];
      assert forall k :: 0 <= k < |s[1..]| ==> s[1..][k] == s[k + 1];
    } else if s != "" {
      TrimRightKeepsHead(u, s);
    }
  }

  lemma {:induction false} TrimRightKeepsHead(u: Unicode, s: string)
    requires s != "" && !u.isSpace(s[0])
    ensures u.TrimRight(s) != ""
  {
    if u.isSpace(s[|s| - 1]) {
      TrimRightKeepsHead(u, s[..|s| - 1]);
    }
  }

  lemma BlankParts(u: Unicode, s: string, i: int, j: int)
    requires u.Blank(s)
    ensures u.Trim(Cut(s, i, j)) == ""
  {
    BlankIsAllSpace(u, s);
    BlankIsAllSpace(u, Cut(s, i, j));
    hide Unicode.Trim;
  }

  // ---------- Nodes ----------

  /** The node carries the chunk, up to white space around it. */
  ghost predicate Carries(u: Unicode, raw: GraphNode, chunk: string) {
    chunk != "" && exists x :: x in raw.chunks && u.Trim(x) == chunk
  }

  /** The text the node sets last for the key, "" if there is none. */
  ghost predicate Declares(u: Unicode, raw: GraphNode, key: string, text: string) {
    if exists value :: SetLast(u, raw.attributes, key, value) then SetLast(u, raw.attributes, key, text) else text == ""
  }

  lemma ReservedIsDeclared(u: Unicode, raw: GraphNode, key: string)
    ensures var a := Parsed(u, raw.attributes);
            && Declares(u, raw, key, ReservedText(u, a, key))
            && ReservedText(u, a, key) == if key in a.reserved then a.reserved[key] else ""
  {
    hide Parsed;
    hide SetLast;
    hide Unicode.Trim;
    var a := Parsed(u, raw.attributes);
    var none := Value("", "");
    forall value
      ensures key in a.reserved && a.reserved[key] == value <==> SetLast(u, raw.attributes, key, value)
    {
      AttributesReadLast(u, raw.attributes, key, none, value);
    }
    if key in a.reserved {
      SetValuesAreTrimmed(u, raw.attributes, key, a.reserved[key]);
    } else {
      EmptyIsTrimmed(u);
    }
  }

  lemma EmptyIsTrimmed(u: Unicode)
    ensures u.Trim("") == ""
  {
  }

  lemma SetValuesAreTrimmed(u: Unicode, attributes: seq<string>, key: string, value: string)
    requires SetLast(u, attributes, key, value)
    ensures u.Trim(value) == value
  {
    hide Unicode.Trim;
    var i :| 0 <= i < |attributes| && Sets(u, attributes[i], key, value);
    var a, b :| u.Trim(attributes[i]) == a + "=" + b && '=' !in a && u.Trim(a) == key && u.Trim(b) == value;
    TrimIdempotent(u, b);
  }

  lemma DeclaredOnce(u: Unicode, raw: GraphNode, key: string, a: string, b: string)
    requires Declares(u, raw, key, a) && Declares(u, raw, key, b)
    ensures a == b
  {
    hide SetLast;
    var none := Value("", "");
    AttributesReadLast(u, raw.attributes, key, none, a);
    AttributesReadLast(u, raw.attributes, key, none, b);
  }

  /** Evidence for each of these chunks once, in order. */
  ghost predicate Cites(n: Naming, env: Envelope, prefix: string, evidence: seq<Evidence>, chunks: iset<string>) {
    && (forall i :: 0 <= i < |evidence| ==>
          evidence[i] == Evidence(n.StableId(prefix, DomainOf(n.u, env), env.knowledgeId + "\0" + evidence[i].chunkId),
                                  "weknora", "", evidence[i].chunkId))
    && (forall i, j :: 0 <= i < j < |evidence| ==> Before(evidence[i].chunkId, evidence[j].chunkId))
    && (forall c :: c in chunks <==> exists i :: 0 <= i < |evidence| && evidence[i].chunkId == c)
  }

  lemma ChunksAreCited(n: Naming, env: Envelope, prefix: string, listed: seq<string>, chunks: iset<string>)
    requires Sorted(listed, StringOrder()) && NoRepeats(listed) && forall c :: c in chunks <==> c in listed
    ensures Cites(n, env, prefix, ChunkEvidence(n, DomainOf(n.u, env), env.knowledgeId, prefix, listed), chunks)
  {
    var evidence := ChunkEvidence(n, DomainOf(n.u, env), env.knowledgeId, prefix, listed);
    forall i, j | 0 <= i < j < |evidence|
      ensures Before(evidence[i].chunkId, evidence[j].chunkId)
    {
      BeforeTotal(listed[i], listed[j]);
      assert !StringOrder()(listed[j], listed[i]);
    }
    forall c
      ensures c in chunks <==> exists i :: 0 <= i < |evidence| && evidence[i].chunkId == c
    {
      if c in chunks {
        var i :| 0 <= i < |listed| && listed[i] == c;
        assert evidence[i].chunkId == c;
      }
    }
  }

  /** Named and identified by what the node declares, or by a derived id and the unclassified type for want of it. */
  ghost predicate Identifies(n: Naming, env: Envelope, raw: GraphNode, e: Entity) {
    var u, domain := n.u, DomainOf(n.u, env);
    && e.name == u.Trim(raw.name)
    && (exists declared :: Declares(u, raw, "__type__", declared)
                           && e.businessType == if declared == "" then UNCLASSIFIED else declared)
    && e.typeId == n.StableId("cls", domain, e.businessType)
    && (exists declared :: Declares(u, raw, "__id__", declared)
                           && e.id == if declared == "" then n.StableId("ent", domain, e.businessType + "\0" + raw.name)
                                      else declared)
    && Declares(u, raw, "__business_key__", e.businessKey)
  }

  /** With the aliases listed, each property as it was last given, and evidence for each chunk. */
  ghost predicate Describes(n: Naming, env: Envelope, raw: GraphNode, e: Entity) {
    && (exists declared :: Declares(n.u, raw, "__aliases__", declared)
                           && forall name :: name in e.aliases <==> Lists(n.u, declared, name))
    && Sorted(e.aliases, StringOrder()) && NoRepeats(e.aliases)
    && (forall key, v :: key in e.properties && e.properties[key] == v <==> GivenLast(n.u, raw.attributes, key, v))
    && Cites(n, env, "ev", e.evidence, iset c | Carries(n.u, raw, c))
  }

  lemma NodeIsIdentified(n: Naming, env: Envelope, raw: GraphNode)
    ensures Identifies(n, env, raw, NodeEntity(n, env, raw))
  {
    ReservedIsDeclared(n.u, raw, "__type__");
    ReservedIsDeclared(n.u, raw, "__id__");
    ReservedIsDeclared(n.u, raw, "__business_key__");
    hide Declares;
    hide SplitList;
    hide ChunkEvidence;
    hide UniqueSorted;
    hide Parsed;
    hide ReservedText;
    hide Naming.StableId;
    hide Unicode.Trim;
  }

  lemma NodeIsDescribed(n: Naming, env: Envelope, raw: GraphNode)
    ensures Describes(n, env, raw, NodeEntity(n, env, raw))
  {
    hide *;
    var u, e, a := n.u, NodeEntity(n, env, raw), Parsed(n.u, raw.attributes);
    ReservedIsDeclared(u, raw, "__aliases__");
    var declared := ReservedText(u, a, "__aliases__");
    ListedNames(u, declared);
    CarriedChunks(u, raw);
    ChunksAreCited(n, env, "ev", UniqueSorted(u, raw.chunks), iset c | Carries(u, raw, c));
    PartsOfEntity(n, env, raw);
    forall key, v
      ensures key in e.properties && e.properties[key] == v <==> GivenLast(u, raw.attributes, key, v)
    {
      AttributesReadLast(u, raw.attributes, key, v, "");
    }
    DescribedByParts(n, env, raw, e, declared);
  }

  lemma DescribedByParts(n: Naming, env: Envelope, raw: GraphNode, e: Entity, declared: string)
    requires Declares(n.u, raw, "__aliases__", declared)
    requires forall name :: name in e.aliases <==> Lists(n.u, declared, name)
    requires Sorted(e.aliases, StringOrder()) && NoRepeats(e.aliases)
    requires forall key, v :: key in e.properties && e.properties[key] == v <==> GivenLast(n.u, raw.attributes, key, v)
    requires Cites(n, env, "ev", e.evidence, iset c | Carries(n.u, raw, c))
    ensures Describes(n, env, raw, e)
  {
    hide Declares;
    hide Lists;
    hide GivenLast;
    hide Cites;
    hide Carries;
  }

  lemma PartsOfEntity(n: Naming, env: Envelope, raw: GraphNode)
    ensures var e, a := NodeEntity(n, env, raw), Parsed(n.u, raw.attributes);
            && e.aliases == SplitList(n.u, ReservedText(n.u, a, "__aliases__"))
            && e.properties == a.props
            && e.evidence == ChunkEvidence(n, DomainOf(n.u, env), env.knowledgeId, "ev", UniqueSorted(n.u, raw.chunks))
  {
    ReservedIsDeclared(n.u, raw, "__aliases__");
    hide SplitList;
    hide ChunkEvidence;
    hide UniqueSorted;
    hide Parsed;
    hide ReservedText;
    hide Naming.StableId;
    hide Unicode.Trim;
  }

  lemma CarriedChunks(u: Unicode, raw: GraphNode)
    ensures Sorted(UniqueSorted(u, raw.chunks), StringOrder()) && NoRepeats(UniqueSorted(u, raw.chunks))
    ensures forall c :: c in UniqueSorted(u, raw.chunks) <==> Carries(u, raw, c)
  {
    UniqueSortedListing(u, raw.chunks);
    hide UniqueSorted;
    hide Unicode.Trim;
  }

  lemma NodeEntityMembers(n: Naming, env: Envelope, e: Entity)
    ensures e in Normalized(n, env).entities <==> exists raw :: raw in env.nodes && e == NodeEntity(n, env, raw)
  {
    hide NodeEntity;
    hide NodeRelations;
    hide Sort;
    var all := NodeEntities(n, env);
    SortMembers(all, EntityOrder());
    if raw :| raw in env.nodes && e == NodeEntity(n, env, raw) {
      var i :| 0 <= i < |env.nodes| && env.nodes[i] == raw;
      assert all[i] == e;
    }
    if e in all {
      var i :| 0 <= i < |all| && all[i] == e;
      assert env.nodes[i] in env.nodes;
    }
  }

  /** There is an entity for each node, and they come by id. */
  lemma EntitiesOfNodes(n: Naming, env: Envelope, raw: GraphNode, e: Entity)
    ensures var g := Normalized(n, env);
            && g.domain == (if n.u.Blank(env.domain) then "default" else n.u.Trim(env.domain))
            && |g.entities| == |env.nodes|
            && (forall i, j :: 0 <= i < j < |g.entities| ==> !Before(g.entities[j].id, g.entities[i].id))
    ensures raw in env.nodes ==>
              exists x :: x in Normalized(n, env).entities && Identifies(n, env, raw, x) && Describes(n, env, raw, x)
    ensures e in Normalized(n, env).entities ==>
              exists x :: x in env.nodes && Identifies(n, env, x, e) && Describes(n, env, x, e)
  {
    EntitiesInOrder(n, env);
    hide *;
    if raw in env.nodes {
      NodeEntityMembers(n, env, NodeEntity(n, env, raw));
      NodeIsIdentified(n, env, raw);
      NodeIsDescribed(n, env, raw);
    }
    if e in Normalized(n, env).entities {
      NodeEntityMembers(n, env, e);
      var x :| x in env.nodes && e == NodeEntity(n, env, x);
      NodeIsIdentified(n, env, x);
      NodeIsDescribed(n, env, x);
    }
  }

  lemma EntitiesInOrder(n: Naming, env: Envelope)
    ensures var g := Normalized(n, env);
            && g.domain == (if n.u.Blank(env.domain) then "default" else n.u.Trim(env.domain))
            && |g.entities| == |env.nodes|
            && (forall i, j :: 0 <= i < j < |g.entities| ==> !Before(g.entities[j].id, g.entities[i].id))
  {
    hide NodeEntity;
    hide NodeRelations;
    hide Sort;
    var all := NodeEntities(n, env);
    var g := Normalized(n, env);
    SortMultiset(all, EntityOrder());
    KeyOrderIsStrictWeak((e: Entity) => e.id, EntityOrder());
    SortSorted(all, EntityOrder());
    forall i, j | 0 <= i < j < |g.entities|
      ensures !Before(g.entities[j].id, g.entities[i].id)
    {
      assert !EntityOrder()(g.entities[j], g.entities[i]);
    }
  }

  // ---------- Relations ----------

  /** The last node of this name. */
  ghost predicate Called(u: Unicode, nodes: seq<GraphNode>, name: string, raw: GraphNode) {
    exists i :: 0 <= i < |nodes| && nodes[i] == raw && u.Trim(raw.name) == name
                && forall j :: i < j < |nodes| ==> u.Trim(nodes[j].name) != name
  }

  lemma {:induction false} NamedIsCalled(u: Unicode, nodes: seq<GraphNode>, name: string, raw: GraphNode)
    ensures NamedNode(u, nodes, name) == Some(raw) <==> Called(u, nodes, name, raw)
  {
    hide Unicode.Trim;
    if nodes != [] {
      var init, last := nodes[..|nodes| - 1], nodes[|nodes| - 1];
      NamedIsCalled(u, init, name, raw);
      if u.Trim(last.name) == name {
        assert nodes[|init|] == last;
      } else if Called(u, init, name, raw) {
        var i :| 0 <= i < |init| && init[i] == raw && u.Trim(raw.name) == name
                 && forall j :: i < j < |init| ==> u.Trim(init[j].name) != name;
        assert nodes[i] == raw;
      }
    }
  }

  /** The chunks both nodes carry, or if there are none all that one of them does. */
  ghost function Support(u: Unicode, source: GraphNode, target: GraphNode): iset<string> {
    if exists c :: Carries(u, source, c) && Carries(u, target, c) then
      iset c | Carries(u, source, c) && Carries(u, target, c)
    else iset c | Carries(u, source, c) || Carries(u, target, c)
  }

  lemma SupportIsListed(u: Unicode, source: GraphNode, target: GraphNode)
    ensures forall c :: c in Support(u, source, target) <==>
              c in Listing(SupportingChunks(ChunksOf(u, source), ChunksOf(u, target)))
  {
    hide Carries;
    hide Listing;
    CarriedChunks(u, source);
    CarriedChunks(u, target);
    hide UniqueSorted;
    var left, right := ChunksOf(u, source), ChunksOf(u, target);
    if left * right != {} {
      var c :| c in left * right;
      assert Carries(u, source, c) && Carries(u, target, c);
    } else {
      forall c
        ensures !(Carries(u, source, c) && Carries(u, target, c))
      {
        assert c in left && c in right ==> c in left * right;
      }
    }
  }

  /**
   A relation between the last nodes of these names becomes one between their entities, and rests on the
   chunks they share or else on all of theirs.
   */
  ghost predicate Connects(n: Naming, env: Envelope, raw: GraphRelation, x: Relation) {
    var u, domain := n.u, DomainOf(n.u, env);
    exists source, target ::
      && Called(u, env.nodes, u.Trim(raw.node1), source) && Called(u, env.nodes, u.Trim(raw.node2), target)
      && x.sourceId == NodeEntity(n, env, source).id && x.targetId == NodeEntity(n, env, target).id
      && x.businessType == u.Trim(raw.kind) && x.typeId == n.StableId("obj", domain, x.businessType)
      && x.id == n.StableId("rel", domain, x.sourceId + "\0" + x.businessType + "\0" + x.targetId)
      && Cites(n, env, "evrel", x.evidence, Support(u, source, target))
  }

  lemma RelationConnects(n: Naming, env: Envelope, raw: GraphRelation, source: GraphNode, target: GraphNode)
    requires Called(n.u, env.nodes, n.u.Trim(raw.node1), source) && Called(n.u, env.nodes, n.u.Trim(raw.node2), target)
    ensures Connects(n, env, raw, RelationOfNodes(n, env, n.u.Trim(raw.kind), source, target))
  {
    SupportIsListed(n.u, source, target);
    ChunksAreCited(n, env, "evrel", Listing(SupportingChunks(ChunksOf(n.u, source), ChunksOf(n.u, target))),
                   Support(n.u, source, target));
    hide Called;
    hide NodeEntity;
    hide ChunkEvidence;
    hide Listing;
    hide Support;
    hide Cites;
    hide Unicode.Trim;
  }

  /** One relation for each extracted one with both end points known, by id. */
  lemma RelationsOfGraph(n: Naming, env: Envelope)
    ensures var g := Normalized(n, env);
            && (forall x :: x in g.relations ==> exists raw :: raw in env.relations && Connects(n, env, raw, x))
            && (forall raw, s, t :: raw in env.relations && Called(n.u, env.nodes, n.u.Trim(raw.node1), s)
                                    && Called(n.u, env.nodes, n.u.Trim(raw.node2), t) ==>
                  exists x :: x in g.relations && Connects(n, env, raw, x))
            && (forall i, j :: 0 <= i < j < |g.relations| ==> !Before(g.relations[j].id, g.relations[i].id))
  {
    hide Connects;
    hide RelationOfNodes;
    hide NodeRelations;
    hide NodeEntities;
    hide Called;
    hide Sort;
    hide Unicode.Trim;
    var g, all := Normalized(n, env), NodeRelations(n, env, env.relations);
    SortMembers(all, RelationIdOrder());
    KeyOrderIsStrictWeak((x: Relation) => x.id, RelationIdOrder());
    SortSorted(all, RelationIdOrder());
    forall x | x in g.relations
      ensures exists raw :: raw in env.relations && Connects(n, env, raw, x)
    {
      var raw := RelationFrom(n, env, env.relations, x);
    }
    forall raw, s, t | raw in env.relations && Called(n.u, env.nodes, n.u.Trim(raw.node1), s)
                       && Called(n.u, env.nodes, n.u.Trim(raw.node2), t)
      ensures exists x :: x in g.relations && Connects(n, env, raw, x)
    {
      RelationTaken(n, env, env.relations, raw, s, t);
      RelationConnects(n, env, raw, s, t);
    }
    forall i, j | 0 <= i < j < |g.relations|
      ensures !Before(g.relations[j].id, g.relations[i].id)
    {
      assert !RelationIdOrder()(g.relations[j], g.relations[i]);
    }
  }

  lemma RelationFrom(n: Naming, env: Envelope, relations: seq<GraphRelation>, x: Relation) returns (raw: GraphRelation)
    requires x in NodeRelations(n, env, relations)
    ensures raw in relations && Connects(n, env, raw, x)
  {
    hide Connects;
    hide RelationOfNodes;
    hide Unicode.Trim;
    hide NamedNode;
    hide Called;
    NodeRelationMembers(n, env, relations, x);
    raw :| raw in relations && NamedNode(n.u, env.nodes, n.u.Trim(raw.node1)).Some?
           && NamedNode(n.u, env.nodes, n.u.Trim(raw.node2)).Some?
           && x == RelationOfNodes(n, env, n.u.Trim(raw.kind), NamedNode(n.u, env.nodes, n.u.Trim(raw.node1)).value,
                                   NamedNode(n.u, env.nodes, n.u.Trim(raw.node2)).value);
    var s := NamedNode(n.u, env.nodes, n.u.Trim(raw.node1)).value;
    var t := NamedNode(n.u, env.nodes, n.u.Trim(raw.node2)).value;
    NamedIsCalled(n.u, env.nodes, n.u.Trim(raw.node1), s);
    NamedIsCalled(n.u, env.nodes, n.u.Trim(raw.node2), t);
    RelationConnects(n, env, raw, s, t);
  }

  lemma RelationTaken(n: Naming, env: Envelope, relations: seq<GraphRelation>, raw: GraphRelation, s: GraphNode,
                      t: GraphNode)
    requires raw in relations
    requires Called(n.u, env.nodes, n.u.Trim(raw.node1), s) && Called(n.u, env.nodes, n.u.Trim(raw.node2), t)
    ensures RelationOfNodes(n, env, n.u.Trim(raw.kind), s, t) in NodeRelations(n, env, relations)
  {
    hide RelationOfNodes;
    hide Unicode.Trim;
    hide NamedNode;
    hide Called;
    NamedIsCalled(n.u, env.nodes, n.u.Trim(raw.node1), s);
    NamedIsCalled(n.u, env.nodes, n.u.Trim(raw.node2), t);
    NodeRelationMembers(n, env, relations, RelationOfNodes(n, env, n.u.Trim(raw.kind), s, t));
  }
}
