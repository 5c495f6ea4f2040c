/** What trimming, normalizing and comparing make of texts, character by character. */
module TextLaws {
  import opened Text

  ghost predicate AllSpace(u: Unicode, s: string) {
    forall i :: 0 <= i < |s| ==> u.isSpace(s[i])
  }

  lemma {:induction false} LeftSpace(u: Unicode, s: string)
    ensures exists a :: AllSpace(u, a) && s == a + u.TrimLeft(s)
  {
    if s != "" && u.isSpace(s[0]) {
      LeftSpace(u, s[1..]);
      var a :| AllSpace(u, a) && s[1..] == a + u.TrimLeft(s[1..]);
      assert AllSpace(u, [s[0]] + a);
      assert s == [s[0]] + a + u.TrimLeft(s);
    } else {
      assert AllSpace(u, "") && s == "" + s;
    }
  }

  lemma {:induction false} RightSpace(u: Unicode, s: string)
    ensures exists b :: AllSpace(u, b) && s == u.TrimRight(s) + b
  {
    if s != "" && u.isSpace(s[|s| - 1]) {
      var init, c := s[..|s| - 1], s[|s| - 1];
      RightSpace(u, init);
      var b :| AllSpace(u, b) && init == u.TrimRight(init) + b;
      assert AllSpace(u, b + [c]);
      assert s == u.TrimRight(s) + (b + [c]);
    } else {
      assert AllSpace(u, "") && s == s + "";
    }
  }

  /** A text is what trimming leaves, which has no white space at its ends, between two stretches of white space. */
  lemma TrimTakesSpace(u: Unicode, s: string)
    ensures Trimmed(u, u.Trim(s)) && exists a, b :: AllSpace(u, a) && AllSpace(u, b) && s == a + u.Trim(s) + b
  {
    TrimIsTrimmed(u, s);
    LeftSpace(u, s);
    RightSpace(u, u.TrimLeft(s));
    var a :| AllSpace(u, a) && s == a + u.TrimLeft(s);
    var b :| AllSpace(u, b) && u.TrimLeft(s) == u.TrimRight(u.TrimLeft(s)) + b;
    assert s == a + u.Trim(s) + b;
  }

  lemma {:induction false} KeptLetters(u: Unicode, s: string)
    requires forall i :: 0 <= i < |s| ==> !u.Dropped(u.lower(s[i]))
    ensures u.Letters(s) == u.Lower(s)
  {
    if s != "" {
      KeptLetters(u, s[1..]);
    }
  }

  /**
   White space, punctuation and symbols anywhere in a text do not change what it is normalized to, and a text
   without them, once lower-cased, is kept letter by letter.
   */
  lemma NormalizeDropsMarks(u: Unicode, a: string, c: char, b: string)
    requires u.Lawful()
    ensures u.Dropped(u.lower(c)) ==> u.Normalize(a + [c] + b) == u.Normalize(a + b)
    ensures (forall i :: 0 <= i < |a| ==> !u.Dropped(u.lower(a[i]))) ==>
              |u.Normalize(a)| == |a| && forall i :: 0 <= i < |a| ==> u.Normalize(a)[i] == u.lower(a[i])
  {
    NormalizeIsLetters(u, a + [c] + b);
    NormalizeIsLetters(u, a + b);
    NormalizeIsLetters(u, a);
    LettersConcat(u, a + [c], b);
    LettersConcat(u, a, [c]);
    LettersConcat(u, a, b);
    assert u.Dropped(u.lower(c)) ==> u.Letters([c]) == "";
    assert u.Letters(a) + "" == u.Letters(a);
    if forall i :: 0 <= i < |a| ==> !u.Dropped(u.lower(a[i])) {
      KeptLetters(u, a);
    }
  }

  lemma NormalizeIsLetters(u: Unicode, s: string)
    requires u.Lawful()
    ensures u.Normalize(s) == u.Letters(s)
  {
    LettersOfTrimLeft(u, s);
    LettersOfTrimRight(u, u.TrimLeft(s));
  }

  lemma SameHeads(a: string, b: string, i: nat)
    requires 0 < i <= |a| && i <= |b| && a[..i] == b[..i]
    ensures a[0] == b[0]
  {
    assert a[..i][0] == a[0] && b[..i][0] == b[0];
  }

  /** The order of texts: a shorter beginning first, or else by the first character that differs. */
  lemma {:induction false} BeforeIsLexicographic(a: string, b: string)
    ensures Before(a, b) <==> a < b || exists i :: 0 <= i < |a| && i < |b| && a[..i] == b[..i] && a[i] < b[i]
  {
    if a != "" && b != "" {
      BeforeIsLexicographic(a[1..], b[1..]);
      var r, s := a[1..], b[1..];
      if a[0] == b[0] {
        if i :| 0 <= i < |r| && i < |s| && r[..i] == s[..i] && r[i] < s[i] {
          assert a[..i + 1] == [a[0]] + r[..i] && b[..i + 1] == [b[0]] + s[..i];
        }
        if i :| 0 <= i < |a| && i < |b| && a[..i] == b[..i] && a[i] < b[i] {
          assert i > 0 && r[..i - 1] == a[..i][1..] && s[..i - 1] == b[..i][1..];
        }
        assert a == [a[0]] + r && b == [b[0]] + s;
      } else if a[0] < b[0] {
        assert a[..0] == b[..0];
      } else {
        assert !(a < b);
        forall i | 0 <= i < |a| && i < |b| && a[..i] == b[..i]
          ensures i == 0
        {
          if i > 0 {
            SameHeads(a, b, i);
          }
        }
      }
    }
  }
}
