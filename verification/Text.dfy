/** String operations the scraper relies on: `strip`, `lower`, `split`, `join`.
    White space is Python's full list; case folding covers ASCII letters only. */
module Text {

  predicate IsSpace(c: char) {
    var n := c as int;
    || 9 <= n <= 13 || 28 <= n <= 32 || n == 0x85 || n == 0xA0 || n == 0x1680
    || 0x2000 <= n <= 0x200A || n == 0x2028 || n == 0x2029 || n == 0x202F || n == 0x205F || n == 0x3000
  }

  function LowerChar(c: char): char {
    if 'A' <= c <= 'Z' then (c as int + 32) as char else c
  }

  function Lower(s: string): string {
    seq(|s|, i requires 0 <= i < |s| => LowerChar(s[i]))
  }

  function StripLeft(s: string): string {
    if s != "" && IsSpace(s[0]) then StripLeft(s[1..]) else s
  }

  function StripRight(s: string): string {
    if s != "" && IsSpace(s[|s| - 1]) then StripRight(s[..|s| - 1]) else s
  }

  function Strip(s: string): string {
    StripRight(StripLeft(s))
  }

  /** The position of the first `c`. */
  function IndexOf(s: string, c: char): (i: nat)
    requires c in s
    ensures i < |s| && s[i] == c && forall k :: 0 <= k < i ==> s[k] != c
  {
    if s[0] == c then 0 else 1 + IndexOf(s[1..], c)
  }

  /** `s.split(c)` for a one-character separator. */
  function SplitOn(s: string, c: char): (parts: seq<string>)
    ensures |parts| > 0
    ensures forall p :: p in parts ==> c !in p
    decreases |s|
  {
    if c !in s then [s]
    else
      var i := IndexOf(s, c);
      [s[..i]] + SplitOn(s[i + 1..], c)
  }

  /** `sep.join(xs)`. */
  function Join(xs: seq<string>, sep: string): string {
    if |xs| == 0 then "" else if |xs| == 1 then xs[0] else xs[0] + sep + Join(xs[1..], sep)
  }

  function Occurrences(s: string, c: char): nat {
    if s == "" then 0 else Occurrences(s[..|s| - 1], c) + if s[|s| - 1] == c then 1 else 0
  }

  // ----- case and white space -----

  /** The same character, or the two cases of one ASCII letter. */
  predicate SameLetter(c: char, d: char) {
    c == d || ('A' <= c <= 'Z' && d as int == c as int + 32) || ('A' <= d <= 'Z' && c as int == d as int + 32)
  }

  /** Two texts are lowered to the same one exactly when they are the same letter by letter, and a text
      without capitals stays. */
  lemma LowerMergesCases(s: string, t: string)
    requires |s| == |t|
    ensures Lower(s) == Lower(t) <==> forall i :: 0 <= i < |s| ==> SameLetter(s[i], t[i])
    ensures (forall i :: 0 <= i < |s| ==> !('A' <= s[i] <= 'Z')) ==> Lower(s) == s
  {
    if Lower(s) == Lower(t) {
      forall i | 0 <= i < |s| ensures SameLetter(s[i], t[i]) {
        assert Lower(s)[i] == Lower(t)[i];
      }
    }
  }

  /** Blanks, tabs and line ends are white space; visible ASCII characters are not. */
  lemma WhiteSpaceIsBlank(c: char)
    ensures c == ' ' || c == '\t' || c == '\n' || c == '\r' ==> IsSpace(c)
    ensures '!' <= c <= '~' ==> !IsSpace(c)
  {
  }

  // ----- strip -----

  ghost predicate Blank(s: string) {
    forall i :: 0 <= i < |s| ==> IsSpace(s[i])
  }

  ghost predicate Trimmed(s: string) {
    s == "" || (!IsSpace(s[0]) && !IsSpace(s[|s| - 1]))
  }

  lemma {:induction false} StripLeftBlank(l: string, s: string)
    requires Blank(l) && (s == "" || !IsSpace(s[0]))
    ensures StripLeft(l + s) == s
    decreases |l|
  {
    if l == "" {
      assert l + s == s;
    } else {
      assert (l + s)[1..] == l[1..] + s;
      StripLeftBlank(l[1..], s);
    }
  }

  lemma {:induction false} StripRightBlank(s: string, r: string)
    requires Blank(r) && (s == "" || !IsSpace(s[|s| - 1]))
    ensures StripRight(s + r) == s
    decreases |r|
  {
    if r == "" {
      assert s + r == s;
    } else {
      assert (s + r)[..|s + r| - 1] == s + r[..|r| - 1];
      StripRightBlank(s, r[..|r| - 1]);
    }
  }

  /** `strip` is the only trimmed text left after taking white space off both ends. */
  lemma StripUnique(l: string, m: string, r: string)
    requires Blank(l) && Trimmed(m) && Blank(r)
    ensures Strip(l + m + r) == m
  {
    if m == "" {
      assert l + m + r == (l + r) + "";
      StripLeftBlank(l + r, "");
    } else {
      assert l + m + r == l + (m + r);
      StripLeftBlank(l, m + r);
      StripRightBlank(m, r);
    }
  }

  lemma {:induction false} StripLeftSplits(s: string) returns (l: string)
    ensures Blank(l) && s == l + StripLeft(s)
    ensures StripLeft(s) == "" || !IsSpace(StripLeft(s)[0])
    decreases |s|
  {
    if s != "" && IsSpace(s[0]) {
      var rest := StripLeftSplits(s[1..]);
      l := [s[0]] + rest;
    } else {
      l := "";
    }
  }

  lemma {:induction false} StripRightSplits(s: string) returns (r: string)
    ensures Blank(r) && s == StripRight(s) + r
    ensures StripRight(s) == "" || !IsSpace(StripRight(s)[|StripRight(s)| - 1])
    decreases |s|
  {
    if s != "" && IsSpace(s[|s| - 1]) {
      var rest := StripRightSplits(s[..|s| - 1]);
      r := rest + [s[|s| - 1]];
    } else {
      r := "";
    }
  }

  lemma StripSplits(s: string) returns (l: string, r: string)
    ensures Blank(l) && Blank(r) && Trimmed(Strip(s)) && s == l + Strip(s) + r
  {
    l := StripLeftSplits(s);
    r := StripRightSplits(StripLeft(s));
    assert s == l + (Strip(s) + r);
    if Strip(s) != "" {
      assert StripLeft(s)[0] == Strip(s)[0];
    }
  }

  lemma StripIdempotent(s: string)
    ensures Trimmed(Strip(s)) && Strip(Strip(s)) == Strip(s)
  {
    var l, r := StripSplits(s);
    StripUnique("", Strip(s), "");
    assert "" + Strip(s) + "" == Strip(s);
  }

  lemma StripPadded(l: string, s: string, r: string)
    requires Blank(l) && Blank(r)
    ensures Strip(l + s + r) == Strip(s)
  {
    var a, b := StripSplits(s);
    assert l + s + r == (l + a) + Strip(s) + (b + r);
    StripUnique(l + a, Strip(s), b + r);
  }

  lemma LowerStrip(s: string)
    ensures Lower(Strip(s)) == Strip(Lower(s))
  {
    var l, r := StripSplits(s);
    assert Lower(s) == Lower(l) + Lower(Strip(s)) + Lower(r);
    StripUnique(Lower(l), Lower(Strip(s)), Lower(r));
  }

  lemma LowerIdempotent(s: string)
    ensures Lower(Lower(s)) == Lower(s)
  {
  }

  // ----- split and occurrences -----

  lemma IndexOfUnique(s: string, c: char, i: nat)
    requires i < |s| && s[i] == c && forall k :: 0 <= k < i ==> s[k] != c
    ensures IndexOf(s, c) == i
  {
    var j := IndexOf(s, c);
    assert !(j < i) && !(i < j);
  }

  lemma SplitAtFirst(s: string, c: char, i: nat)
    requires i < |s| && s[i] == c && forall k :: 0 <= k < i ==> s[k] != c
    ensures SplitOn(s, c) == [s[..i]] + SplitOn(s[i + 1..], c)
  {
    IndexOfUnique(s, c, i);
  }

  /** A character before the first separator goes to the first part. */
  lemma SplitPrefixed(x: char, s: string, c: char, i: nat)
    requires x != c && i < |s| && s[i] == c && forall k :: 0 <= k < i ==> s[k] != c
    ensures SplitOn([x] + s, c) == [[x] + s[..i]] + SplitOn(s[i + 1..], c)
  {
    var longer := [x] + s;
    assert longer[..i + 1] == [x] + s[..i];
    assert longer[i + 2..] == s[i + 1..];
    assert forall k :: 1 <= k < i + 1 ==> longer[k] == s[k - 1];
    SplitAtFirst(longer, c, i + 1);
  }

  lemma {:induction false} SplitConcat(a: string, b: string, c: char)
    ensures SplitOn(a + [c] + b, c) == SplitOn(a, c) + SplitOn(b, c)
    decreases |a|
  {
    var s := a + [c] + b;
    if c !in a {
      assert s[..|a|] == a && s[|a| + 1..] == b;
      SplitAtFirst(s, c, |a|);
    } else {
      var i := IndexOf(a, c);
      var rest := a[i + 1..];
      assert s[..i] == a[..i] && s[i + 1..] == rest + [c] + b;
      SplitAtFirst(s, c, i);
      SplitAtFirst(a, c, i);
      SplitConcat(rest, b, c);
      SeqAssociates([a[..i]], SplitOn(rest, c), SplitOn(b, c));
    }
  }

  lemma SeqAssociates<T>(x: seq<T>, y: seq<T>, z: seq<T>)
    ensures x + (y + z) == (x + y) + z
  {
  }

  lemma {:induction false} OccurrencesConcat(a: string, b: string, c: char)
    ensures Occurrences(a + b, c) == Occurrences(a, c) + Occurrences(b, c)
    decreases |b|
  {
    if b == "" {
      assert a + b == a;
    } else {
      assert (a + b)[..|a + b| - 1] == a + b[..|b| - 1];
      OccurrencesConcat(a, b[..|b| - 1], c);
    }
  }

  lemma {:induction false} NoOccurrence(s: string, c: char)
    ensures Occurrences(s, c) == 0 <==> c !in s
  {
    if s != "" {
      NoOccurrence(s[..|s| - 1], c);
      assert s == s[..|s| - 1] + [s[|s| - 1]];
    }
  }
}
