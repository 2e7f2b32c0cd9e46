/** The natural key a flagger's stable identifier is derived from. */
module Identity {
  import opened Text
  import opened Calendar

  function Folded(s: string): string {
    Lower(Strip(s))
  }

  /** The text that is hashed into the identifier. */
  function Canonical(name: string, dscName: string, designated: Date): string {
    Folded(name) + "|" + Folded(dscName) + "|" + Iso(designated)
  }

  ghost predicate SameKey(name1: string, dsc1: string, date1: Date, name2: string, dsc2: string, date2: Date) {
    Folded(name1) == Folded(name2) && Folded(dsc1) == Folded(dsc2) && date1 == date2
  }

  lemma {:induction false} LowerOccurrences(s: string)
    ensures Occurrences(Lower(s), '|') == Occurrences(s, '|')
  {
    if s != "" {
      assert Lower(s)[..|s| - 1] == Lower(s[..|s| - 1]);
      LowerOccurrences(s[..|s| - 1]);
    }
  }

  lemma FoldedOccurrences(s: string)
    ensures Occurrences(Folded(s), '|') == Occurrences(s, '|')
  {
    var l, r := StripSplits(s);
    OccurrencesConcat(l + Strip(s), r, '|');
    OccurrencesConcat(l, Strip(s), '|');
    NoOccurrence(l, '|');
    NoOccurrence(r, '|');
    LowerOccurrences(Strip(s));
  }

  /** The last ten characters are the date, whatever bars the names contain. */
  lemma DateIsRecoverable(name: string, dscName: string, designated: Date)
    ensures var c := Canonical(name, dscName, designated);
      |c| >= 11 && c[|c| - 10..] == Iso(designated)
      && c[..|c| - 11] == Folded(name) + "|" + Folded(dscName)
  {
    var c := Canonical(name, dscName, designated);
    assert c == (Folded(name) + "|" + Folded(dscName)) + "|" + Iso(designated);
  }

  lemma ShorterIsPrefix(a: string, c: string, b: string, d: string)
    requires a + "|" + c == b + "|" + d && |a| < |b|
    ensures b[..|a| + 1] == a + "|"
    ensures |a| + 1 < |b| ==> c != "" && c[0] == b[|a| + 1]
  {
    var text := a + "|" + c;
    assert b == text[..|b|];
    assert a + "|" == text[..|a| + 1];
    assert c == text[|a| + 1..];
  }

  lemma ContinuedHasMoreBars(a: string, b: string)
    requires |a| < |b| && b[..|a| + 1] == a + "|"
    ensures Occurrences(a, '|') < Occurrences(b, '|')
  {
    var rest := b[|a| + 1..];
    OccurrencesConcat(a + "|", rest, '|');
    assert b == (a + "|") + rest;
    assert (a + "|")[..|a|] == a;
  }

  lemma SplitAtSameBar(a: string, c: string, b: string, d: string)
    requires a + "|" + c == b + "|" + d
    ensures |a| < |b| ==> Occurrences(a, '|') < Occurrences(b, '|')
  {
    if |a| < |b| {
      ShorterIsPrefix(a, c, b, d);
      ContinuedHasMoreBars(a, b);
    }
  }

  lemma SameLengthAgrees(a: string, c: string, b: string, d: string)
    requires a + "|" + c == b + "|" + d && |a| == |b|
    ensures a == b && c == d
  {
    var text := a + "|" + c;
    assert a == text[..|a|] && b == text[..|a|];
    assert c == text[|a| + 1..] && d == text[|a| + 1..];
  }

  /** Two keys share their canonical text and the number of bars in their names
      exactly when name, regulator and date all agree. */
  lemma CanonicalDecides(name1: string, dsc1: string, date1: Date, name2: string, dsc2: string, date2: Date)
    ensures Canonical(name1, dsc1, date1) == Canonical(name2, dsc2, date2)
            && Occurrences(name1, '|') == Occurrences(name2, '|')
      <==> SameKey(name1, dsc1, date1, name2, dsc2, date2)
  {
    FoldedOccurrences(name1);
    FoldedOccurrences(name2);
    if Canonical(name1, dsc1, date1) == Canonical(name2, dsc2, date2)
       && Occurrences(name1, '|') == Occurrences(name2, '|') {
      DateIsRecoverable(name1, dsc1, date1);
      DateIsRecoverable(name2, dsc2, date2);
      IsoInjective(date1, date2);
      var a, b, c, d := Folded(name1), Folded(dsc1), Folded(name2), Folded(dsc2);
      assert a + "|" + b == c + "|" + d;
      SplitAtSameBar(a, b, c, d);
      SplitAtSameBar(c, d, a, b);
      SameLengthAgrees(a, b, c, d);
    }
  }

  /** For names without a bar the canonical text alone decides, even when the regulator has bars. */
  lemma BarFreeNamesNeverCollide(name1: string, dsc1: string, date1: Date, name2: string, dsc2: string, date2: Date)
    requires '|' !in name1 && '|' !in name2
    ensures Canonical(name1, dsc1, date1) == Canonical(name2, dsc2, date2)
      <==> SameKey(name1, dsc1, date1, name2, dsc2, date2)
  {
    NoOccurrence(name1, '|');
    NoOccurrence(name2, '|');
    CanonicalDecides(name1, dsc1, date1, name2, dsc2, date2);
  }

  // ----- which names can collide -----

  /** Some regulators and dates give the two names one canonical text although the keys differ. */
  ghost predicate Collide(name1: string, name2: string) {
    exists dsc1: string, date1: Date, dsc2: string, date2: Date ::
      Colliding(name1, dsc1, date1, name2, dsc2, date2)
  }

  ghost predicate Colliding(name1: string, dsc1: string, date1: Date, name2: string, dsc2: string, date2: Date) {
    && Canonical(name1, dsc1, date1) == Canonical(name2, dsc2, date2)
    && !SameKey(name1, dsc1, date1, name2, dsc2, date2)
  }

  /** `b` continues `a` with a bar and then, if it goes on, with something other than white space. */
  predicate Continues(a: string, b: string) {
    |a| < |b| && b[..|a| + 1] == a + "|" && (|a| + 1 < |b| ==> !IsSpace(b[|a| + 1]))
  }

  lemma FoldedIsTrimmed(s: string)
    ensures Trimmed(Folded(s)) && Lower(Folded(s)) == Folded(s)
  {
    LowerStrip(s);
    StripIdempotent(Lower(s));
    LowerIdempotent(Strip(s));
  }

  lemma FoldedStays(s: string)
    requires Trimmed(s) && Lower(s) == s
    ensures Folded(s) == s
  {
    StripUnique("", s, "");
    assert "" + s + "" == s;
  }

  lemma PlainIsFolded(s: string)
    requires forall i :: 0 <= i < |s| ==> !IsSpace(s[i]) && LowerChar(s[i]) == s[i]
    ensures Folded(s) == s
  {
    FoldedStays(s);
  }

  lemma CommonText(name1: string, dsc1: string, date1: Date, name2: string, dsc2: string, date2: Date)
    requires Canonical(name1, dsc1, date1) == Canonical(name2, dsc2, date2)
    ensures Folded(name1) + "|" + Folded(dsc1) == Folded(name2) + "|" + Folded(dsc2) && date1 == date2
  {
    DateIsRecoverable(name1, dsc1, date1);
    DateIsRecoverable(name2, dsc2, date2);
    IsoInjective(date1, date2);
  }

  lemma ShorterIsContinued(a: string, c: string, b: string, d: string)
    requires a + "|" + c == b + "|" + d && |a| < |b| && Trimmed(c)
    ensures Continues(a, b)
  {
    ShorterIsPrefix(a, c, b, d);
  }

  /** A suffix of a folded text that white space does not open, with a bar and a letter behind it. */
  lemma SuffixIsFolded(b: string, n: nat)
    requires n <= |b| && Lower(b) == b && (n < |b| ==> !IsSpace(b[n]))
    ensures Folded(b[n..] + "|x") == b[n..] + "|x"
  {
    var s := b[n..] + "|x";
    forall i | 0 <= i < |s| ensures LowerChar(s[i]) == s[i] {
      assert i < |b| - n ==> s[i] == b[n + i] == Lower(b)[n + i];
    }
    assert Lower(s) == s;
    FoldedStays(s);
  }

  lemma ContinuedCollides(name1: string, name2: string, designated: Date)
    requires Continues(Folded(name1), Folded(name2))
    ensures exists dsc1, dsc2 :: Colliding(name1, dsc1, designated, name2, dsc2, designated)
  {
    var a, b := Folded(name1), Folded(name2);
    var rest := b[|a| + 1..];
    FoldedIsTrimmed(name2);
    SuffixIsFolded(b, |a| + 1);
    PlainIsFolded("x");
    assert b == a + "|" + rest;
    assert a + "|" + (rest + "|x") == b + "|" + "x";
    assert Colliding(name1, rest + "|x", designated, name2, "x", designated);
  }

  /** Two names collide for some regulators and dates exactly when one, folded, continues the other
      with a bar that no white space follows. */
  lemma NamesCollideIff(name1: string, name2: string)
    ensures Collide(name1, name2)
      <==> Continues(Folded(name1), Folded(name2)) || Continues(Folded(name2), Folded(name1))
  {
    var a, b := Folded(name1), Folded(name2);
    if Collide(name1, name2) {
      var dsc1, date1, dsc2, date2 :| Colliding(name1, dsc1, date1, name2, dsc2, date2);
      CommonText(name1, dsc1, date1, name2, dsc2, date2);
      FoldedIsTrimmed(dsc1);
      FoldedIsTrimmed(dsc2);
      if |a| < |b| {
        ShorterIsContinued(a, Folded(dsc1), b, Folded(dsc2));
      } else if |b| < |a| {
        ShorterIsContinued(b, Folded(dsc2), a, Folded(dsc1));
      } else {
        SameLengthAgrees(a, Folded(dsc1), b, Folded(dsc2));
      }
    }
    var some: Date := YearMonthDay(1, 1, 1);
    if Continues(a, b) {
      ContinuedCollides(name1, name2, some);
    }
    if Continues(b, a) {
      ContinuedCollides(name2, name1, some);
      var dsc2, dsc1 :| Colliding(name2, dsc2, some, name1, dsc1, some);
      assert Colliding(name1, dsc1, some, name2, dsc2, some);
    }
  }

  /** With a bar in a name, different keys can share one canonical text. */
  lemma BarInNameCollides(designated: Date)
    ensures Canonical("a|b", "c", designated) == Canonical("a", "b|c", designated)
    ensures !SameKey("a|b", "c", designated, "a", "b|c", designated)
  {
    PlainIsFolded("a|b");
    PlainIsFolded("c");
    PlainIsFolded("a");
    PlainIsFolded("b|c");
    assert "a|b" + "|" + "c" == "a" + "|" + "b|c";
  }
}
