/**
 * Concrete classifications under the phrase list of backend/nlp/extractor.py.
 * They show that the phrases are matched literally and in full: a category
 * word next to "intern" does not make a title match unless a whole phrase
 * occurs.
 */
module ExtractorExamples {
  import opened Text
  import opened Records
  import opened Extractor

  /** A listing with only its title known. */
  function Titled(t: string): Listing {
    Listing(Some(t), None, None, None)
  }

  /** A title none of whose phrases occurs in its lower-cased form is not a
      target role. */
  lemma NoPhraseNotTarget(t: string, lower: string, keywords: seq<string>)
    requires Lower(t) == lower
    requires forall m :: 0 <= m < |keywords| ==> !Contains(lower, keywords[m])
    ensures !IsTargetRole(Some(t), keywords)
  {
  }

  lemma SoftwareEngineeringLower()
    ensures Lower("Software Engineering Intern") == "software engineering intern"
  {
  }

  lemma SoftwareEngineeringPairs()
    ensures !HasPair("software engineering intern", 'r', ' ')
    ensures !HasPair("software engineering intern", 'a', 'i')
  {
  }

  lemma SoftwareEngineeringChars()
    ensures 'd' !in "software engineering intern" && 'm' !in "software engineering intern"
    ensures 'c' !in "software engineering intern"
  {
  }

  /** "software engineering intern" contains no phrase; in particular not
      "software engineer intern", since "r " never occurs in it. The two
      "quantitative" phrases are longer than the title. */
  lemma SoftwareEngineeringContainsNoPhrase()
    ensures forall m :: 0 <= m < |TargetInternshipKeywords| ==>
              !Contains("software engineering intern", TargetInternshipKeywords[m])
  {
    var t, k := "software engineering intern", TargetInternshipKeywords;
    // Where each phrase holds a character, or a pair, the title lacks:
    // "r " at 16, 'd' at 9, 'd' at 0, "ai" at 0, 'm' at 0, (5 and 6 are
    // too long), 'c' at 0.
    var at: seq<nat> := [16, 9, 0, 0, 0, 0, 0, 0];
    SoftwareEngineeringPairs();
    SoftwareEngineeringChars();
    forall m | 0 <= m < |k| ensures !Contains(t, k[m]) {
      if m == 0 || m == 3 {
        AbsentPairExcludes(t, k[m], at[m]);
      } else if m != 5 && m != 6 {
        AbsentCharExcludes(t, k[m], at[m]);
      }
    }
  }

  lemma SoftwareEngineeringInternIsNotTarget()
    ensures !IsTargetRole(Some("Software Engineering Intern"), TargetInternshipKeywords)
  {
    SoftwareEngineeringLower();
    SoftwareEngineeringContainsNoPhrase();
    NoPhraseNotTarget("Software Engineering Intern", "software engineering intern", TargetInternshipKeywords);
  }

  lemma MarketingLower()
    ensures Lower("Marketing Intern") == "marketing intern"
  {
  }

  lemma MarketingFacts()
    ensures 'l' !in "marketing intern" && !HasPair("marketing intern", 'a', 'i')
  {
  }

  /** "marketing intern" contains neither "ai intern" nor "ml intern", and
      every other phrase is longer than it. */
  lemma MarketingContainsNoPhrase()
    ensures forall m :: 0 <= m < |TargetInternshipKeywords| ==>
              !Contains("marketing intern", TargetInternshipKeywords[m])
  {
    var t, k := "marketing intern", TargetInternshipKeywords;
    MarketingFacts();
    forall m | 0 <= m < |k| ensures !Contains(t, k[m]) {
      if m == 3 {
        AbsentPairExcludes(t, k[m], 0);
      } else if m == 4 {
        AbsentCharExcludes(t, k[m], 1);
      }
    }
  }

  lemma MarketingInternIsNotTarget()
    ensures !IsTargetRole(Some("Marketing Intern"), TargetInternshipKeywords)
  {
    MarketingLower();
    MarketingContainsNoPhrase();
    NoPhraseNotTarget("Marketing Intern", "marketing intern", TargetInternshipKeywords);
  }

  lemma DataScienceLower()
    ensures Lower("Data Science Intern") == "data science intern"
  {
  }

  lemma DataScienceFacts()
    ensures 'm' !in "data science intern" && !HasPair("data science intern", 'a', 'i')
  {
  }

  /** "data science intern" contains neither "ai intern" nor "ml intern", and
      every other phrase, "data engineering intern" included, is longer. */
  lemma DataScienceContainsNoPhrase()
    ensures forall m :: 0 <= m < |TargetInternshipKeywords| ==>
              !Contains("data science intern", TargetInternshipKeywords[m])
  {
    var t, k := "data science intern", TargetInternshipKeywords;
    DataScienceFacts();
    forall m | 0 <= m < |k| ensures !Contains(t, k[m]) {
      if m == 3 {
        AbsentPairExcludes(t, k[m], 0);
      } else if m == 4 {
        AbsentCharExcludes(t, k[m], 0);
      }
    }
  }

  lemma DataScienceInternIsNotTarget()
    ensures !IsTargetRole(Some("Data Science Intern"), TargetInternshipKeywords)
  {
    DataScienceLower();
    DataScienceContainsNoPhrase();
    NoPhraseNotTarget("Data Science Intern", "data science intern", TargetInternshipKeywords);
  }

  /** Filtering three listings keeps those whose titles pass, in order. */
  lemma FilterThree(a: Listing, b: Listing, c: Listing, keywords: seq<string>)
    ensures FilterTargetRoles([a, b, c], keywords)
            == (if IsTargetRole(a.title, keywords) then [a] else [])
             + (if IsTargetRole(b.title, keywords) then [b] else [])
             + (if IsTargetRole(c.title, keywords) then [c] else [])
  {
    assert [a, b, c] == [a] + [b, c] && [b, c] == [b] + [c] && [c] == [c] + [];
    FilterCons(c, [], keywords);
    FilterCons(b, [c], keywords);
    FilterCons(a, [b, c], keywords);
  }

  /** Three titles that an "intern plus a category word" rule would partly
      accept are all dropped by the fixed phrases. */
  lemma LooseMatchesAreDropped()
    ensures FilterTargetRoles([Titled("Software Engineering Intern"), Titled("Marketing Intern"),
                               Titled("Data Science Intern")], TargetInternshipKeywords) == []
  {
    SoftwareEngineeringInternIsNotTarget();
    MarketingInternIsNotTarget();
    DataScienceInternIsNotTarget();
    FilterThree(Titled("Software Engineering Intern"), Titled("Marketing Intern"),
                Titled("Data Science Intern"), TargetInternshipKeywords);
  }

  lemma SoftwareEngineerLower()
    ensures Lower("Software Engineer Intern") == "software engineer intern"
  {
  }

  lemma SoftwareEngineerInternIsTarget()
    ensures IsTargetRole(Some("Software Engineer Intern"), TargetInternshipKeywords)
  {
    SoftwareEngineerLower();
    assert OccursAt("software engineer intern", TargetInternshipKeywords[0], 0);
  }

  lemma RemoteMlLower()
    ensures Lower("Remote ML Intern") == "remote ml intern"
  {
  }

  lemma RemoteMlContainsPhrase()
    ensures TargetInternshipKeywords[4] == "ml intern"
    ensures Contains("remote ml intern", "ml intern")
  {
    var t := "remote ml intern";
    assert t[|t| - 9..] == "ml intern";
    ContainsSuffix(t, "ml intern");
  }

  lemma RemoteMlInternIsTarget()
    ensures IsTargetRole(Some("Remote ML Intern"), TargetInternshipKeywords)
  {
    RemoteMlLower();
    RemoteMlContainsPhrase();
  }

  /** Titles that contain a phrase, in any letter case, are kept in their
      order and the others dropped. */
  lemma ExactPhrasesAreKept()
    ensures FilterTargetRoles([Titled("Software Engineer Intern"), Titled("Marketing Intern"),
                               Titled("Remote ML Intern")], TargetInternshipKeywords)
            == [Titled("Software Engineer Intern"), Titled("Remote ML Intern")]
  {
    var a, b, c := Titled("Software Engineer Intern"), Titled("Marketing Intern"), Titled("Remote ML Intern");
    SoftwareEngineerInternIsTarget();
    MarketingInternIsNotTarget();
    RemoteMlInternIsTarget();
    FilterThree(a, b, c, TargetInternshipKeywords);
  }
}
