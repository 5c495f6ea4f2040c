/**
 String handling shared by the modelled services.

 Character classes and case mapping come from Unicode tables that are not part of this model. They are
 a parameter: a `Unicode` value supplies them, and `Lawful` lists the few facts about the real tables
 that some proofs need. Everything else holds for any choice of tables.
 */
module Text {
  datatype Unicode = Unicode(isSpace: char -> bool, isPunct: char -> bool, isSymbol: char -> bool, lower: char -> char)
  {
    /**
     A colon is punctuation, lower-casing keeps white space white space and small letters as they are, and
     neither letters and digits nor the marks used in templates and default names are white space.
     */
    ghost predicate Lawful() {
      && isPunct(':')
      && !isSpace('<') && !isSpace('>') && !isSpace('_') && !isSpace('=') && !isSpace('未') && !isSpace('体')
      && (forall c: char :: '0' <= c <= '9' || 'a' <= c <= 'z' ==> !isSpace(c))
      && (forall c: char :: 'a' <= c <= 'z' ==> lower(c) == c)
      && (forall c: char :: isSpace(c) ==> isSpace(lower(c)))
    }

    predicate Dropped(c: char) {
      isSpace(c) || isPunct(c) || isSymbol(c)
    }

    function TrimLeft(s: string): string {
      if s != "" && isSpace(s[0]) then TrimLeft(s[1..]) else s
    }

    function TrimRight(s: string): string {
      if s != "" && isSpace(s[|s| - 1]) then TrimRight(s[..|s| - 1]) else s
    }

    function Trim(s: string): string {
      TrimRight(TrimLeft(s))
    }

    predicate Blank(s: string) {
      Trim(s) == ""
    }

    function Lower(s: string): string {
      seq(|s|, i requires 0 <= i < |s| => lower(s[i]))
    }

    /** Lower-cases every character and drops white space, punctuation and symbols. */
    function Letters(s: string): string {
      if s == "" then ""
      else (if Dropped(lower(s[0])) then "" else [lower(s[0])]) + Letters(s[1..])
    }

    /** The key text under which names and values are compared. */
    function Normalize(s: string): string {
      Letters(Trim(s))
    }
  }

  /** The fields of a text joined without the white space between them. */
  function WithoutSpaces(u: Unicode, s: string): string {
    if s == "" then "" else (if u.isSpace(s[0]) then "" else [s[0]]) + WithoutSpaces(u, s[1..])
  }

  // ---------- Trimming ----------

  predicate Trimmed(u: Unicode, s: string) {
    s == "" || (!u.isSpace(s[0]) && !u.isSpace(s[|s| - 1]))
  }

  lemma {:induction false} TrimLeftHead(u: Unicode, s: string)
    ensures u.TrimLeft(s) == "" || !u.isSpace(u.TrimLeft(s)[0])
  {
    if s != "" && u.isSpace(s[0]) {
      TrimLeftHead(u, s[1..]);
    }
  }

  lemma {:induction false} TrimRightEnds(u: Unicode, s: string)
    ensures var t := u.TrimRight(s);
            && t <= s
            && (t == "" || !u.isSpace(t[|t| - 1]))
  {
    if s != "" && u.isSpace(s[|s| - 1]) {
      TrimRightEnds(u, s[..|s| - 1]);
    }
  }

  lemma TrimIsTrimmed(u: Unicode, s: string)
    ensures Trimmed(u, u.Trim(s))
  {
    TrimLeftHead(u, s);
    TrimRightEnds(u, u.TrimLeft(s));
  }

  lemma TrimmedIsFixed(u: Unicode, s: string)
    requires Trimmed(u, s)
    ensures u.Trim(s) == s
  {
  }

  lemma TrimIdempotent(u: Unicode, s: string)
    ensures u.Trim(u.Trim(s)) == u.Trim(s)
  {
    TrimIsTrimmed(u, s);
    TrimmedIsFixed(u, u.Trim(s));
  }

  // ---------- Normalization ----------

  lemma {:induction false} LettersConcat(u: Unicode, a: string, b: string)
    ensures u.Letters(a + b) == u.Letters(a) + u.Letters(b)
  {
    if a == "" {
      assert a + b == b;
    } else {
      assert (a + b)[1..] == a[1..] + b;
      LettersConcat(u, a[1..], b);
    }
  }

  lemma {:induction false} LettersOfTrimLeft(u: Unicode, s: string)
    requires u.Lawful()
    ensures u.Letters(u.TrimLeft(s)) == u.Letters(s)
  {
    if s != "" && u.isSpace(s[0]) {
      LettersOfTrimLeft(u, s[1..]);
    }
  }

  lemma {:induction false} LettersOfTrimRight(u: Unicode, s: string)
    requires u.Lawful()
    ensures u.Letters(u.TrimRight(s)) == u.Letters(s)
  {
    if s != "" && u.isSpace(s[|s| - 1]) {
      var init := s[..|s| - 1];
      assert s == init + [s[|s| - 1]];
      LettersConcat(u, init, [s[|s| - 1]]);
      LettersOfTrimRight(u, init);
    }
  }

  /** Outer white space never shows in a normalized key. */
  lemma NormalizeIgnoresTrim(u: Unicode, s: string)
    requires u.Lawful()
    ensures u.Normalize(u.Trim(s)) == u.Normalize(s)
  {
    TrimIdempotent(u, s);
  }

  lemma {:induction false} LettersHaveNoColon(u: Unicode, s: string)
    requires u.Lawful()
    ensures ':' !in u.Letters(s)
  {
    if s != "" {
      LettersHaveNoColon(u, s[1..]);
    }
  }

  // ---------- Places ----------

  /** The place of the first such character, or the length of the text. */
  function IndexOf(s: string, c: char): nat {
    if s == "" || s[0] == c then 0 else 1 + IndexOf(s[1..], c)
  }

  lemma {:induction false} IndexOfBounds(s: string, c: char)
    ensures IndexOf(s, c) <= |s|
    ensures IndexOf(s, c) < |s| ==> s[IndexOf(s, c)] == c
    ensures forall i :: 0 <= i < IndexOf(s, c) ==> s[i] != c
  {
    if s != "" && s[0] != c {
      IndexOfBounds(s[1..], c);
      forall i | 0 <= i < IndexOf(s, c)
        ensures s[i] != c
      {
        assert i > 0 ==> s[i] == s[1..][i - 1];
      }
    }
  }

  // ---------- Lists of names ----------

  /** Trims, drops blanks and keeps the first of equal values. */
  function UniqueNonEmpty(u: Unicode, values: seq<string>): seq<string> {
    if values == [] then []
    else
      var rest := UniqueNonEmpty(u, values[..|values| - 1]);
      var v := u.Trim(values[|values| - 1]);
      if v == "" || v in rest then rest else rest + [v]
  }

  lemma {:induction false} UniqueMembers(u: Unicode, values: seq<string>)
    ensures var r := UniqueNonEmpty(u, values);
            && (forall v :: v in r ==> v != "" && exists x :: x in values && u.Trim(x) == v)
            && (forall x :: x in values && u.Trim(x) != "" ==> u.Trim(x) in r)
  {
    if values != [] {
      var init := values[..|values| - 1];
      UniqueMembers(u, init);
      assert values == init + [values[|values| - 1]];
    }
  }

  // ---------- Lexicographic order ----------

  /** Strict code-point order on strings. */
  predicate Before(a: string, b: string) {
    b != "" && (a == "" || a[0] < b[0] || (a[0] == b[0] && Before(a[1..], b[1..])))
  }

  lemma {:induction false} BeforeIrreflexive(a: string)
    ensures !Before(a, a)
  {
    if a != "" {
      BeforeIrreflexive(a[1..]);
    }
  }

  lemma {:induction false} BeforeTransitive(a: string, b: string, c: string)
    requires Before(a, b) && Before(b, c)
    ensures Before(a, c)
  {
    if a != "" && a[0] == b[0] && b[0] == c[0] {
      BeforeTransitive(a[1..], b[1..], c[1..]);
    }
  }

  lemma {:induction false} BeforeTotal(a: string, b: string)
    ensures a == b || Before(a, b) || Before(b, a)
  {
    if a != "" && b != "" && a[0] == b[0] {
      BeforeTotal(a[1..], b[1..]);
      assert a == [a[0]] + a[1..];
      assert b == [b[0]] + b[1..];
    }
  }
}
