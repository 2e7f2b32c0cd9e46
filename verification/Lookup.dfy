/** Resolving a flagger by address or by the derived domain column. */
module Lookup {
  import opened Wrappers
  import opened Text
  import opened Flagger
  import opened Normalize

  predicate MatchesEmail(row: Row, email: string) {
    row.synced.email.Some? && Lower(row.synced.email.value) == Lower(Strip(email))
  }

  predicate MatchesDomain(row: Row, domain: string) {
    row.synced.emailDomain.Some? && Lower(row.synced.emailDomain.value) == Lower(Strip(domain))
  }

  function ByEmail(table: Table, email: string): set<Uuid> {
    set id | id in table && MatchesEmail(table[id], email)
  }

  function ByDomain(table: Table, domain: string): set<Uuid> {
    set id | id in table && MatchesDomain(table[id], domain)
  }

  lemma IndexOfLower(s: string)
    requires '@' in s
    ensures '@' in Lower(s) && IndexOf(Lower(s), '@') == IndexOf(s, '@')
  {
    var i := IndexOf(s, '@');
    assert Lower(s)[i] == '@';
    IndexOfUnique(Lower(s), '@', i);
  }

  lemma DomainIgnoresCase(s: string)
    ensures ExtractEmailDomain(Some(Lower(s))) == ExtractEmailDomain(Some(s))
  {
    if '@' in s {
      var i := IndexOf(s, '@');
      IndexOfLower(s);
      assert Lower(s)[i + 1..] == Lower(s[i + 1..]);
      LowerStrip(s[i + 1..]);
      LowerIdempotent(Strip(s[i + 1..]));
    } else {
      forall k | 0 <= k < |s| ensures Lower(s)[k] != '@' { assert s[k] in s; }
    }
  }

  lemma DomainIgnoresSpace(s: string)
    ensures ExtractEmailDomain(Some(Strip(s))) == ExtractEmailDomain(Some(s))
  {
    var l, r := StripSplits(s);
    var m := Strip(s);
    if '@' in m {
      var i := IndexOf(m, '@');
      assert s[|l| + i] == '@';
      forall k | 0 <= k < |l| + i ensures s[k] != '@' {
        if k < |l| { assert s[k] == l[k]; } else { assert s[k] == m[k - |l|]; }
      }
      IndexOfUnique(s, '@', |l| + i);
      assert s[|l| + i + 1..] == "" + m[i + 1..] + r;
      StripPadded("", m[i + 1..], r);
    } else {
      forall k | 0 <= k < |s| ensures s[k] != '@' {
        if k < |l| { assert s[k] == l[k]; }
        else if k < |l| + |m| { assert s[k] == m[k - |l|] && m[k - |l|] in m; }
        else { assert s[k] == r[k - |l| - |m|]; }
      }
    }
  }

  /** An address in any case and with any outer white space leads to the same rows
      by its domain as by itself, whenever it has a domain. */
  lemma EmailLookupImpliesDomainLookup(table: Table, email: string)
    requires forall id :: id in table ==> Derived(table[id].synced)
    ensures forall id :: id in ByEmail(table, email) ==>
      table[id].synced.emailDomain == ExtractEmailDomain(Some(email))
    ensures ExtractEmailDomain(Some(email)).Some? ==>
      ByEmail(table, email) <= ByDomain(table, ExtractEmailDomain(Some(email)).value)
  {
    var wanted := ExtractEmailDomain(Some(email));
    forall id | id in ByEmail(table, email) ensures table[id].synced.emailDomain == wanted {
      var stored := table[id].synced.email.value;
      DomainIgnoresCase(stored);
      DomainIgnoresCase(Strip(email));
      DomainIgnoresSpace(email);
    }
    if wanted.Some? {
      var rest := email[IndexOf(email, '@') + 1..];
      LowerStrip(rest);
      StripIdempotent(Lower(rest));
    }
  }

  /** Case and outer white space of the query never change either answer. */
  lemma LookupIgnoresCaseAndSpace(table: Table, l: string, query: string, r: string)
    requires Blank(l) && Blank(r)
    ensures ByEmail(table, l + query + r) == ByEmail(table, query) == ByEmail(table, Lower(query))
    ensures ByDomain(table, l + query + r) == ByDomain(table, query) == ByDomain(table, Lower(query))
  {
    StripPadded(l, query, r);
    LowerStrip(query);
    LowerIdempotent(Strip(query));
  }

  /** A query with any outer white space finds by address exactly the rows whose address it is up to
      case, and by domain exactly those whose domain it is up to case. */
  lemma LookupFindsExactly(table: Table, l: string, m: string, r: string, id: Uuid)
    requires Blank(l) && Trimmed(m) && Blank(r)
    ensures id in ByEmail(table, l + m + r)
      <==> id in table && table[id].synced.email.Some? && Lower(table[id].synced.email.value) == Lower(m)
    ensures id in ByDomain(table, l + m + r)
      <==> id in table && table[id].synced.emailDomain.Some? && Lower(table[id].synced.emailDomain.value) == Lower(m)
  {
    StripUnique(l, m, r);
  }

  /** The domain is what follows the first "@", trimmed and in lower case; without an "@", or with
      nothing behind it, there is none. */
  lemma DomainFollowsFirstAt(x: string, l: string, d: string, r: string)
    requires '@' !in x && Blank(l) && Trimmed(d) && Blank(r)
    ensures ExtractEmailDomain(Some(x + "@" + (l + d + r))) == if d == "" then None else Some(Lower(d))
    ensures ExtractEmailDomain(Some(x)) == None
  {
    var s := x + "@" + (l + d + r);
    assert s[|x|] == '@';
    IndexOfUnique(s, '@', |x|);
    assert s[|x| + 1..] == l + d + r;
    StripUnique(l, d, r);
    assert |Lower(d)| == |d|;
  }
}
