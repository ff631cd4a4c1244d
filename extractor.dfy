/**
 * The role classifier and filter of backend/nlp/extractor.py: a title is a
 * target internship role when its lower-cased form contains one of a fixed
 * list of phrases, and the filter keeps the listings whose title is one.
 * The phrase list is a parameter; `TargetInternshipKeywords` is the list the
 * source uses.
 */
module Extractor {
  import opened Text
  import opened Records

  /** The fixed phrases the source matches against (all lower case). */
  const TargetInternshipKeywords: seq<string> := [
    "software engineer intern",
    "software development intern",
    "data engineering intern",
    "ai intern",
    "ml intern",
    "quantitative developer intern",
    "quantitative research intern",
    "cybersecurity intern"
  ]

  /** `any(keyword in text for keyword in keywords)`. */
  function AnyKeywordIn(keywords: seq<string>, text: string): (found: bool)
    ensures found <==> exists i :: 0 <= i < |keywords| && Contains(text, keywords[i])
    decreases |keywords|
  {
    if keywords == [] then false
    else
      var rest := AnyKeywordIn(keywords[1..], text);
      assert forall i :: 1 <= i < |keywords| ==> keywords[i] == keywords[1..][i - 1];
      Contains(text, keywords[0]) || rest
  }

  /** `is_target_internship_role`: an absent or empty title never matches;
      otherwise the title matches exactly when one of the phrases occurs in
      its lower-cased form. */
  function IsTargetRole(title: Option<string>, keywords: seq<string>): (matched: bool)
    ensures matched <==> title.Some? && title.value != "" &&
                         exists i :: 0 <= i < |keywords| && Contains(Lower(title.value), keywords[i])
    ensures title == None || title == Some("") ==> !matched
  {
    title.Some? && title.value != "" && AnyKeywordIn(keywords, Lower(title.value))
  }

  /** Only the lower-cased title is inspected, so titles that differ only in
      letter case classify the same. */
  lemma CaseInsensitive(a: string, b: string, keywords: seq<string>)
    requires SameIgnoringCase(a, b)
    ensures IsTargetRole(Some(a), keywords) == IsTargetRole(Some(b), keywords)
  {
    LowerOfSameIgnoringCase(a, b);
  }

  /** Lower-casing a title before classifying it changes nothing. */
  lemma LowerTitleClassifiesSame(t: string, keywords: seq<string>)
    ensures IsTargetRole(Some(Lower(t)), keywords) == IsTargetRole(Some(t), keywords)
  {
    LowerIdempotent(t);
  }

  /** Phrase `i` of the source's list ends in "intern". */
  lemma KeywordMentionsIntern(i: nat)
    requires i < |TargetInternshipKeywords|
    ensures Contains(TargetInternshipKeywords[i], "intern")
  {
    var k := TargetInternshipKeywords[i];
    assert k[|k| - 6..] == "intern";
    ContainsSuffix(k, "intern");
  }

  /** Every phrase of the source's list contains "intern". */
  lemma TargetKeywordsMentionIntern()
    ensures forall i :: 0 <= i < |TargetInternshipKeywords| ==>
              Contains(TargetInternshipKeywords[i], "intern")
  {
    forall i | 0 <= i < |TargetInternshipKeywords|
      ensures Contains(TargetInternshipKeywords[i], "intern")
    {
      KeywordMentionsIntern(i);
    }
  }

  /** When every phrase contains `sub`, a matching title's lower-cased form
      contains `sub`. */
  lemma MatchMentionsCommonPart(t: string, keywords: seq<string>, sub: string)
    requires forall i :: 0 <= i < |keywords| ==> Contains(keywords[i], sub)
    requires IsTargetRole(Some(t), keywords)
    ensures Contains(Lower(t), sub)
  {
    var i :| 0 <= i < |keywords| && Contains(Lower(t), keywords[i]);
    ContainsTransitive(Lower(t), keywords[i], sub);
  }

  /** With the source's list, every matching title mentions "intern". */
  lemma TargetRoleMentionsIntern(t: string)
    requires IsTargetRole(Some(t), TargetInternshipKeywords)
    ensures Contains(Lower(t), "intern")
  {
    TargetKeywordsMentionIntern();
    MatchMentionsCommonPart(t, TargetInternshipKeywords, "intern");
  }

  /** `filter_target_internship_jobs`: the listings whose title is a target
      role, in their original order. */
  function FilterTargetRoles(jobs: seq<Listing>, keywords: seq<string>): (kept: seq<Listing>)
    ensures |kept| <= |jobs|
    ensures forall j :: j in kept ==> j in jobs && IsTargetRole(j.title, keywords)
    decreases |jobs|
  {
    if jobs == [] then []
    else
      (if IsTargetRole(jobs[0].title, keywords) then [jobs[0]] else [])
      + FilterTargetRoles(jobs[1..], keywords)
  }

  /** One step of the filter: the first listing is judged, then the rest. */
  lemma FilterCons(j: Listing, rest: seq<Listing>, keywords: seq<string>)
    ensures FilterTargetRoles([j] + rest, keywords)
            == (if IsTargetRole(j.title, keywords) then [j] else []) + FilterTargetRoles(rest, keywords)
  {
    assert ([j] + rest)[0] == j && ([j] + rest)[1..] == rest;
  }

  /** A listing is kept exactly when it is in the input and its title passes. */
  lemma {:induction false} FilterMembership(jobs: seq<Listing>, keywords: seq<string>, j: Listing)
    ensures j in FilterTargetRoles(jobs, keywords) <==> j in jobs && IsTargetRole(j.title, keywords)
    decreases |jobs|
  {
    if jobs != [] {
      FilterMembership(jobs[1..], keywords, j);
      assert jobs == [jobs[0]] + jobs[1..];
    }
  }

  /** The output is the input with some listings deleted, in the same order. */
  lemma {:induction false} FilterIsSubsequence(jobs: seq<Listing>, keywords: seq<string>)
    ensures IsSubsequence(FilterTargetRoles(jobs, keywords), jobs)
    decreases |jobs|
  {
    if jobs != [] {
      var kept := FilterTargetRoles(jobs, keywords);
      var rest := FilterTargetRoles(jobs[1..], keywords);
      FilterIsSubsequence(jobs[1..], keywords);
      if IsTargetRole(jobs[0].title, keywords) {
        assert kept == [jobs[0]] + rest;
        assert kept[0] == jobs[0] && kept[1..] == rest;
      } else {
        assert kept == rest;
        if kept != [] {
          assert IsSubsequence(kept, jobs[1..]);
        }
      }
    }
  }

  /** Filtering distributes over concatenation: each listing is judged on its
      own title alone. */
  lemma {:induction false} FilterAppend(a: seq<Listing>, b: seq<Listing>, keywords: seq<string>)
    ensures FilterTargetRoles(a + b, keywords) == FilterTargetRoles(a, keywords) + FilterTargetRoles(b, keywords)
    decreases |a|
  {
    if a != [] {
      assert (a + b)[0] == a[0] && (a + b)[1..] == a[1..] + b;
      FilterAppend(a[1..], b, keywords);
    } else {
      assert a + b == b;
    }
  }

  /** A sequence in which every title passes is kept whole. */
  lemma {:induction false} FilterKeepsAllPassing(jobs: seq<Listing>, keywords: seq<string>)
    requires forall i :: 0 <= i < |jobs| ==> IsTargetRole(jobs[i].title, keywords)
    ensures FilterTargetRoles(jobs, keywords) == jobs
    decreases |jobs|
  {
    if jobs != [] {
      assert IsTargetRole(jobs[0].title, keywords);
      assert forall i :: 0 <= i < |jobs[1..]| ==> jobs[1..][i] == jobs[i + 1];
      FilterKeepsAllPassing(jobs[1..], keywords);
      assert jobs == [jobs[0]] + jobs[1..];
      FilterCons(jobs[0], jobs[1..], keywords);
    }
  }

  /** Filtering twice is the same as filtering once. */
  lemma FilterIdempotent(jobs: seq<Listing>, keywords: seq<string>)
    ensures FilterTargetRoles(FilterTargetRoles(jobs, keywords), keywords) == FilterTargetRoles(jobs, keywords)
  {
    var kept := FilterTargetRoles(jobs, keywords);
    assert forall i :: 0 <= i < |kept| ==> kept[i] in kept;
    FilterKeepsAllPassing(kept, keywords);
  }

  /** A sequence none of whose titles passes is dropped entirely. */
  lemma {:induction false} FilterDropsAllFailing(jobs: seq<Listing>, keywords: seq<string>)
    requires forall i :: 0 <= i < |jobs| ==> !IsTargetRole(jobs[i].title, keywords)
    ensures FilterTargetRoles(jobs, keywords) == []
    decreases |jobs|
  {
    if jobs != [] {
      FilterDropsAllFailing(jobs[1..], keywords);
    }
  }
}
