/**
 * The table of filter keywords. It is keyed by the keyword, so adding one
 * that is stored already replaces it by itself, and deleting one that is
 * absent does nothing: the table behaves as a set. An operation the
 * database refuses reports failure and leaves the table as it was.
 */
module Keywords {
  import opened Wrappers

  /** `ks` lists members of the set `s`, each at most once. */
  predicate IsPartialListing(ks: seq<string>, s: set<string>) {
    (forall i, j :: 0 <= i < j < |ks| ==> ks[i] != ks[j])
    && (forall k :: k in ks ==> k in s)
  }

  /** `ks` enumerates the set `s`: every member once, in some order. */
  predicate IsListing(ks: seq<string>, s: set<string>) {
    IsPartialListing(ks, s) && (forall k :: k in s ==> k in ks)
  }

  /**
   * What a scan of the table can return: everything when it runs to the
   * end, and when a step error (`stopsAfter == Some(n)`) ends it after `n`
   * rows, as many rows as were read, all of them when fewer than `n` exist.
   */
  predicate IsRead(ks: seq<string>, s: set<string>, stopsAfter: Option<nat>) {
    match stopsAfter
    case None => IsListing(ks, s)
    case Some(n) => IsPartialListing(ks, s) && |ks| <= n && (|ks| < n ==> IsListing(ks, s))
  }

  /** Every set has a listing. */
  lemma {:induction false} ListingExists(s: set<string>) returns (ks: seq<string>)
    ensures IsListing(ks, s)
    decreases |s|
  {
    if s == {} {
      ks := [];
    } else {
      var k :| k in s;
      var rest := ListingExists(s - {k});
      ks := rest + [k];
    }
  }

  /** Every scan, cut short or not, has an outcome: the first rows of some listing. */
  lemma ReadExists(s: set<string>, stopsAfter: Option<nat>) returns (ks: seq<string>)
    ensures IsRead(ks, s, stopsAfter)
  {
    ks := ListingExists(s);
    if stopsAfter.Some? && stopsAfter.value < |ks| {
      var full := ks;
      ks := full[..stopsAfter.value];
      assert forall k :: k in ks ==> k in full;
    }
  }

  class KeywordStore {
    var keywords: set<string>

    constructor(initial: set<string>)
      ensures keywords == initial
    {
      keywords := initial;
    }

    /** `addFilterKeyword`: upsert; `fails` is the database refusing the statement. */
    method Add(keyword: string, fails: bool) returns (ok: bool)
      modifies this
      ensures ok == !fails
      ensures keywords == if fails then old(keywords) else old(keywords) + {keyword}
    {
      if fails {
        return false;
      }
      keywords := keywords + {keyword};
      return true;
    }

    /** `removeFilterKeyword`: delete by key; `fails` is the database refusing the statement. */
    method Remove(keyword: string, fails: bool) returns (ok: bool)
      modifies this
      ensures ok == !fails
      ensures keywords == if fails then old(keywords) else old(keywords) - {keyword}
    {
      if fails {
        return false;
      }
      keywords := keywords - {keyword};
      return true;
    }

    /**
     * `getFilterKeywords`: the stored keywords one row at a time, in an
     * order the database chooses; `fails` is the query or a row scan
     * failing, which yields no list at all. `stopsAfter` is a step error
     * that makes `rows.Next()` report no more rows after that many; the
     * function does not ask `rows.Err()`, so it returns the rows read so far
     * as a complete list.
     */
    method List(fails: bool, stopsAfter: Option<nat>) returns (r: Option<seq<string>>)
      ensures fails ==> r == None
      ensures !fails ==> r.Some? && IsRead(r.value, keywords, stopsAfter)
    {
      if fails {
        return None;
      }
      var rows := keywords;
      var listed: seq<string> := [];
      while rows != {} && (stopsAfter.None? || |listed| < stopsAfter.value)
        invariant rows <= keywords
        invariant forall i, j :: 0 <= i < j < |listed| ==> listed[i] != listed[j]
        invariant forall k :: k in listed <==> k in keywords && k !in rows
        invariant stopsAfter.Some? ==> |listed| <= stopsAfter.value
        decreases |rows|
      {
        var keyword :| keyword in rows;
        listed := listed + [keyword];
        rows := rows - {keyword};
      }
      return Some(listed);
    }
  }
}
