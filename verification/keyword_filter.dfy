/** The keyword filter of the technology dashboard (tech_diagram.py lines
    115-116): when the keyword is non-empty, keep the technology identifiers
    that contain it, ignoring case, in their original order. */
module KeywordFilter {
  import opened Strings

  /** `keyword.lower() in str(tech_id).lower()`. */
  predicate Matches(techId: string, keyword: string)
  {
    Contains(Lower(techId), Lower(keyword))
  }

  /** `a` is an order-preserving subsequence of `b`. */
  predicate IsSubsequence<T(==)>(a: seq<T>, b: seq<T>)
    decreases |b|
  {
    if |a| == 0 then true
    else if |b| == 0 then false
    else (a[0] == b[0] && IsSubsequence(a[1..], b[1..])) || IsSubsequence(a, b[1..])
  }

  /** The list comprehension: the identifiers that match, in list order. It
      keeps every occurrence of a matching identifier and none of the
      others. */
  function Select(ids: seq<string>, keyword: string): (r: seq<string>)
    ensures IsSubsequence(r, ids)
    ensures forall x :: multiset(r)[x] == if Matches(x, keyword) then multiset(ids)[x] else 0
    decreases |ids|
  {
    if |ids| == 0 then []
    else
      var rest := Select(ids[1..], keyword);
      assert ids == [ids[0]] + ids[1..];
      if Matches(ids[0], keyword) then
        assert ([ids[0]] + rest)[1..] == rest;
        [ids[0]] + rest
      else rest
  }

  /** The dashboard's filter: the list is left alone for an empty keyword
      (`if keyword:`) and filtered otherwise. */
  function FilterIds(ids: seq<string>, keyword: string): (r: seq<string>)
    ensures keyword == "" ==> r == ids
    ensures IsSubsequence(r, ids)
    ensures forall x :: x in r ==> Matches(x, keyword)
    ensures forall x :: x in ids && Matches(x, keyword) ==> x in r
    ensures forall x :: multiset(r)[x] == if Matches(x, keyword) then multiset(ids)[x] else 0
  {
    if keyword == "" then
      SubsequenceReflexive(ids);
      ids
    else Select(ids, keyword)
  }

  /** Every list is a subsequence of itself. */
  lemma {:induction false} SubsequenceReflexive<T>(a: seq<T>)
    ensures IsSubsequence(a, a)
    decreases |a|
  {
    if |a| > 0 {
      SubsequenceReflexive(a[1..]);
    }
  }

  /** Every identifier contains the empty keyword, so the `if keyword:` guard
      changes nothing: the filter is the comprehension for every keyword. */
  lemma {:induction false} EmptyKeywordSelectsAll(ids: seq<string>)
    ensures Select(ids, "") == ids
    ensures forall k :: FilterIds(ids, k) == Select(ids, k)
    decreases |ids|
  {
    if |ids| > 0 {
      EmptyKeywordSelectsAll(ids[1..]);
      assert StartsWith(Lower(ids[0]), Lower(""));
      assert [ids[0]] + ids[1..] == ids;
    }
  }

  /** Filtering an already filtered list with the same keyword keeps it. */
  lemma FilterIdempotent(ids: seq<string>, keyword: string)
    ensures FilterIds(FilterIds(ids, keyword), keyword) == FilterIds(ids, keyword)
  {
    if keyword != "" {
      SelectKeepsMatching(Select(ids, keyword), keyword);
    }
  }

  /** A list whose every identifier matches is kept whole. */
  lemma {:induction false} SelectKeepsMatching(ids: seq<string>, keyword: string)
    requires forall i :: 0 <= i < |ids| ==> Matches(ids[i], keyword)
    ensures Select(ids, keyword) == ids
    decreases |ids|
  {
    if |ids| > 0 {
      SelectKeepsMatching(ids[1..], keyword);
      assert [ids[0]] + ids[1..] == ids;
    }
  }

  /** Matching ignores case: the keyword and its lower-case form filter the
      list alike. */
  lemma FilterIgnoresKeywordCase(ids: seq<string>, keyword: string)
    ensures FilterIds(ids, keyword) == FilterIds(ids, Lower(keyword))
  {
    LowerIdempotent(keyword);
    EmptyKeywordSelectsAll(ids);
    SelectSameMatches(ids, keyword, Lower(keyword));
  }

  /** Two keywords that match the same identifiers select the same list. */
  lemma {:induction false} SelectSameMatches(ids: seq<string>, k1: string, k2: string)
    requires Lower(k1) == Lower(k2)
    ensures Select(ids, k1) == Select(ids, k2)
    decreases |ids|
  {
    if |ids| > 0 {
      SelectSameMatches(ids[1..], k1, k2);
    }
  }
}
