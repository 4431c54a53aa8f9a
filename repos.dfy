/**
 * Repository records and the two list filters of the dashboard: dropping
 * forks after a fetch and narrowing the list by the search term.
 */
module Repos {
  import opened Text

  datatype Option<+T> = None | Some(value: T)

  /**
   * The fields of one entry of the repository-listing response that the
   * model reads; the card-only fields (stars, forks, URL, update time) are
   * not modelled.
   */
  datatype Repo = Repo(
    id: int,
    name: string,
    description: Option<string>,
    language: Option<string>,
    fork: bool)

  /** `Array.prototype.filter`: the elements satisfying `p`, left to right. */
  function Keep<T(!new)>(s: seq<T>, p: T -> bool): (r: seq<T>)
    ensures |r| <= |s|
    ensures forall x :: x in r <==> x in s && p(x)
  {
    if s == [] then [] else (if p(s[0]) then [s[0]] else []) + Keep(s[1..], p)
  }

  /** Filtering distributes over concatenation. */
  lemma {:induction false} KeepConcat<T(!new)>(a: seq<T>, b: seq<T>, p: T -> bool)
    ensures Keep(a + b, p) == Keep(a, p) + Keep(b, p)
  {
    if a == [] {
      assert a + b == b;
    } else {
      assert (a + b)[1..] == a[1..] + b;
      KeepConcat(a[1..], b, p);
    }
  }

  /** A filter returns its input unchanged exactly when every element passes. */
  lemma {:induction false} KeepIdentity<T(!new)>(s: seq<T>, p: T -> bool)
    ensures Keep(s, p) == s <==> forall x :: x in s ==> p(x)
  {
    if forall x :: x in s ==> p(x) {
      if s != [] {
        assert forall x :: x in s[1..] ==> x in s;
        KeepIdentity(s[1..], p);
      }
    }
  }

  /** Adds one to every index: the positions of `s[1..]` seen from `s`. */
  function Shift(idx: seq<int>): seq<int> {
    seq(|idx|, k requires 0 <= k < |idx| => idx[k] + 1)
  }

  /** The positions of `s` whose element satisfies `p`, in increasing order. */
  ghost function KeptIndices<T>(s: seq<T>, p: T -> bool): seq<int> {
    if s == [] then [] else (if p(s[0]) then [0] else []) + Shift(KeptIndices(s[1..], p))
  }

  /** `r` consists of the elements of `s` at the strictly increasing positions `idx`. */
  ghost predicate SelectedAt<T>(r: seq<T>, s: seq<T>, idx: seq<int>) {
    && |idx| == |r|
    && (forall k :: 0 <= k < |idx| ==> 0 <= idx[k] < |s| && r[k] == s[idx[k]])
    && (forall k, l :: 0 <= k < l < |idx| ==> idx[k] < idx[l])
  }

  /** Selection from the tail extends to the whole sequence, with the head kept or not. */
  lemma SelectedAtCons<T>(r: seq<T>, s: seq<T>, idx: seq<int>, keepHead: bool)
    requires s != [] && SelectedAt(r, s[1..], idx)
    ensures SelectedAt((if keepHead then [s[0]] else []) + r, s, (if keepHead then [0] else []) + Shift(idx))
  {
    var sh := Shift(idx);
    assert forall k :: 0 <= k < |sh| ==> 1 <= sh[k] < |s| && r[k] == s[sh[k]];
  }

  /** Position `j > 0` is among the shifted tail positions exactly when `j - 1` is a tail position. */
  lemma InShift(idx: seq<int>, j: int)
    ensures j in Shift(idx) <==> j - 1 in idx
  {
    if j - 1 in idx {
      var k :| 0 <= k < |idx| && idx[k] == j - 1;
      assert Shift(idx)[k] == j;
    }
  }

  /**
   * The filter is an order-preserving subsequence of its input, and the
   * positions it keeps are exactly those whose element satisfies `p`.
   */
  lemma {:induction false} KeepIsSubsequence<T(!new)>(s: seq<T>, p: T -> bool)
    ensures SelectedAt(Keep(s, p), s, KeptIndices(s, p))
    ensures forall j :: 0 <= j < |s| ==> (j in KeptIndices(s, p) <==> p(s[j]))
  {
    if s != [] {
      var ti := KeptIndices(s[1..], p);
      KeepIsSubsequence(s[1..], p);
      SelectedAtCons(Keep(s[1..], p), s, ti, p(s[0]));
      forall j | 0 <= j < |s|
        ensures j in KeptIndices(s, p) <==> p(s[j])
      {
        InShift(ti, j);
        if j > 0 {
          assert s[j] == s[1..][j - 1];
        } else {
          assert -1 !in ti;
        }
      }
    }
  }

  /** The fork test of `data.filter(repo => !repo.fork)`. */
  predicate IsOriginal(r: Repo) {
    !r.fork
  }

  /** The non-fork repositories of a response, in response order. */
  function NonForks(data: seq<Repo>): seq<Repo> {
    Keep(data, IsOriginal)
  }

  /** Fork exclusion keeps exactly the non-fork entries, in their original order. */
  lemma NonForksSpec(data: seq<Repo>)
    ensures forall r :: r in NonForks(data) <==> r in data && !r.fork
    ensures SelectedAt(NonForks(data), data, KeptIndices(data, IsOriginal))
    ensures forall j :: 0 <= j < |data| ==> (j in KeptIndices(data, IsOriginal) <==> !data[j].fork)
  {
    KeepIsSubsequence(data, IsOriginal);
  }

  /** JavaScript truthiness of an optional string: present and non-empty. */
  predicate Truthy(d: Option<string>) {
    d.Some? && d.value != ""
  }

  /**
   * The filter test: the lower-cased name includes the lower-cased term, or
   * the description is truthy and its lower-cased form includes it.
   */
  predicate Matches(r: Repo, term: string) {
    var q := Lower(term);
    Includes(Lower(r.name), q) || (Truthy(r.description) && Includes(Lower(r.description.value), q))
  }

  /** The filtered list derived from the full list and the search term. */
  function Filter(repoList: seq<Repo>, term: string): seq<Repo> {
    Keep(repoList, (r: Repo) => Matches(r, term))
  }

  /**
   * The filtered list is an order-preserving subsequence of the full list,
   * and a repository is in it exactly when it matches the term.
   */
  lemma FilterSpec(repoList: seq<Repo>, term: string)
    ensures forall r :: r in Filter(repoList, term) <==> r in repoList && Matches(r, term)
    ensures SelectedAt(Filter(repoList, term), repoList, KeptIndices(repoList, (r: Repo) => Matches(r, term)))
    ensures forall j :: 0 <= j < |repoList| ==>
              (j in KeptIndices(repoList, (r: Repo) => Matches(r, term)) <==> Matches(repoList[j], term))
  {
    KeepIsSubsequence(repoList, (r: Repo) => Matches(r, term));
  }

  /** The empty description counts as absent: with or without it the match is the same. */
  lemma MatchesIgnoresEmptyDescription(r: Repo, term: string)
    requires r.description == Some("")
    ensures Matches(r, term) == Matches(r.(description := None), term)
  {
  }

  /** Every repository matches the empty term, because every string includes "". */
  lemma MatchesEmptyTerm(r: Repo)
    ensures Matches(r, "")
  {
    IncludesEmpty(Lower(r.name));
  }

  /** Filtering with the empty term returns the full list unchanged. */
  lemma FilterEmptyTerm(repoList: seq<Repo>)
    ensures Filter(repoList, "") == repoList
  {
    forall r | r in repoList
      ensures Matches(r, "")
    {
      MatchesEmptyTerm(r);
    }
    KeepIdentity(repoList, (r: Repo) => Matches(r, ""));
  }

  /** The match does not depend on the case of the term. */
  lemma MatchesCaseInsensitive(r: Repo, term: string)
    ensures Matches(r, term) == Matches(r, Lower(term))
  {
    LowerIdempotent(term);
  }

  /** A name that includes the term itself, in any case, is kept. */
  lemma NameMatchKept(repoList: seq<Repo>, r: Repo, term: string)
    requires r in repoList
    requires Includes(r.name, term)
    ensures r in Filter(repoList, term)
  {
    IncludesLower(r.name, term);
  }
}
