/**
 * The Internships page: its sample internships, the domain and location
 * options of its two selects, and what the shared listing filter yields on
 * them. The page's `filteredInternships` is `Listings.Filter` with the
 * internship's domain as the category.
 */
module Internships {
  import opened TextOps
  import opened Listings
  import PageHeader

  /** The sample internships, in page order. */
  const Internships: seq<Listing> :=
    [
    Listing(1, "Software Development Intern", "TechCorp Solutions", "Remote",
      InternshipTerms("3 months", "$1,200/month"), "Technology",
      "Work on real-world projects using React, Node.js, and cloud technologies.",
      ["Computer Science student", "JavaScript knowledge", "Git proficiency"], "2 days ago"),
    Listing(2, "Marketing Analytics Intern", "Digital Growth Agency", "New York, NY",
      InternshipTerms("4 months", "$1,000/month"), "Marketing",
      "Analyze marketing campaigns and create data-driven insights for client strategies.",
      ["Marketing/Business student", "Excel proficiency", "Analytics mindset"], "1 week ago"),
    Listing(3, "UX Design Intern", "Creative Studios Inc", "San Francisco, CA",
      InternshipTerms("6 months", "$1,500/month"), "Design",
      "Design user interfaces and conduct user research for mobile and web applications.",
      ["Design student", "Figma/Sketch skills", "Portfolio required"], "3 days ago"),
    Listing(4, "Financial Analyst Intern", "Investment Partners LLC", "Chicago, IL",
      InternshipTerms("3 months", "$1,300/month"), "Finance",
      "Assist with financial modeling, market research, and investment analysis.",
      ["Finance/Economics student", "Excel expertise", "Analytical skills"], "5 days ago"),
    Listing(5, "Content Writing Intern", "Media Hub", "Remote",
      InternshipTerms("4 months", "$800/month"), "Content",
      "Create engaging content for blogs, social media, and marketing campaigns.",
      ["English/Communications student", "Writing portfolio", "SEO knowledge"], "1 day ago"),
    Listing(6, "Data Science Intern", "Analytics Pro", "Austin, TX",
      InternshipTerms("5 months", "$1,400/month"), "Technology",
      "Work with big data, machine learning models, and statistical analysis.",
      ["STEM student", "Python/R skills", "Statistics background"], "4 days ago")
  ]

  /** The options of the Domain select. */
  const Domains: seq<string> := ["All", "Technology", "Marketing", "Design", "Finance", "Content"]

  /** The options of the Location select. */
  const Locations: seq<string> := ["All", "Remote", "New York, NY", "San Francisco, CA", "Chicago, IL", "Austin, TX"]

  /** Every sample internship's domain and location is one of the offered options. */
  lemma SampleValuesAreOptions()
    ensures forall i :: 0 <= i < |Internships| ==> Internships[i].category in Domains[1..]
    ensures forall i :: 0 <= i < |Internships| ==> Internships[i].location in Locations[1..]
  {
  }

  /** Of the sample internships, exactly the first and the last are in the "Technology" domain. */
  lemma TechnologyVerdicts()
    ensures forall i :: 0 <= i < |Internships| ==>
      [true, false, false, false, false, true][i] == Matches(Internships[i], Criteria("", "Technology", "All"))
  {
    forall i | 0 <= i < |Internships| {
      EmptySearchMatches(Internships[i]);
    }
  }

  /** The identifiers picked out by the verdicts on "Technology". */
  lemma TechnologySelected()
    ensures SelectedIds(Internships, [true, false, false, false, false, true]) == [1, 6]
  {
  }

  /** Domain "Technology" keeps internships 1 and 6, in that order. */
  lemma TechnologyDomain()
    ensures Ids(Filter(Internships, Criteria("", "Technology", "All"))) == [1, 6]
  {
    TechnologyVerdicts();
    TechnologySelected();
    IdsOfFilter(Internships, Criteria("", "Technology", "All"), [true, false, false, false, false, true]);
  }

  /** Of the sample internships, exactly the first and the fifth are remote. */
  lemma RemoteVerdicts()
    ensures forall i :: 0 <= i < |Internships| ==>
      [true, false, false, false, true, false][i] == Matches(Internships[i], Criteria("", "All", "Remote"))
  {
    forall i | 0 <= i < |Internships| {
      EmptySearchMatches(Internships[i]);
    }
  }

  /** The identifiers picked out by the verdicts on "Remote". */
  lemma RemoteSelected()
    ensures SelectedIds(Internships, [true, false, false, false, true, false]) == [1, 5]
  {
  }

  /** Location "Remote" keeps internships 1 and 5, in that order. */
  lemma RemoteLocation()
    ensures Ids(Filter(Internships, Criteria("", "All", "Remote"))) == [1, 5]
  {
    RemoteVerdicts();
    RemoteSelected();
    IdsOfFilter(Internships, Criteria("", "All", "Remote"), [true, false, false, false, true, false]);
  }

  /** Neither the title nor the company of internship 1 contains "data", in any case. */
  lemma NoData1()
    ensures !Contains(ToLower("Software Development Intern"), "data")
    ensures !Contains(ToLower("TechCorp Solutions"), "data")
  {
    AbsentPairIgnoringCase("Software Development Intern", "data", 'D', 'A');
    AbsentPairIgnoringCase("TechCorp Solutions", "data", 'D', 'A');
  }

  /** Neither the title nor the company of internship 2 contains "data", in any case. */
  lemma NoData2()
    ensures !Contains(ToLower("Marketing Analytics Intern"), "data")
    ensures !Contains(ToLower("Digital Growth Agency"), "data")
  {
    AbsentPairIgnoringCase("Marketing Analytics Intern", "data", 'D', 'A');
    AbsentPairIgnoringCase("Digital Growth Agency", "data", 'D', 'A');
  }

  /** Neither the title nor the company of internship 3 contains "data", in any case. */
  lemma NoData3()
    ensures !Contains(ToLower("UX Design Intern"), "data")
    ensures !Contains(ToLower("Creative Studios Inc"), "data")
  {
    AbsentPairIgnoringCase("UX Design Intern", "data", 'D', 'A');
    AbsentPairIgnoringCase("Creative Studios Inc", "data", 'D', 'A');
  }

  /** Neither the title nor the company of internship 4 contains "data", in any case. */
  lemma NoData4()
    ensures !Contains(ToLower("Financial Analyst Intern"), "data")
    ensures !Contains(ToLower("Investment Partners LLC"), "data")
  {
    AbsentPairIgnoringCase("Financial Analyst Intern", "data", 'D', 'A');
    AbsentPairIgnoringCase("Investment Partners LLC", "data", 'D', 'A');
  }

  /** Neither the title nor the company of internship 5 contains "data", in any case. */
  lemma NoData5()
    ensures !Contains(ToLower("Content Writing Intern"), "data")
    ensures !Contains(ToLower("Media Hub"), "data")
  {
    AbsentPairIgnoringCase("Content Writing Intern", "data", 'D', 'A');
    AbsentPairIgnoringCase("Media Hub", "data", 'D', 'A');
  }

  /** Search text "data" matches the title or company of the last sample internship only. */
  lemma DataVerdicts()
    ensures forall i :: 0 <= i < |Internships| ==>
      [false, false, false, false, false, true][i] == Matches(Internships[i], Criteria("data", "All", "All"))
  {
    ToLowerWithoutCapitals("data");
    forall i | 0 <= i < |Internships|
      ensures [false, false, false, false, false, true][i] == Matches(Internships[i], Criteria("data", "All", "All"))
    {
      if i == 0 {
        NoData1();
      } else if i == 1 {
        NoData2();
      } else if i == 2 {
        NoData3();
      } else if i == 3 {
        NoData4();
      } else if i == 4 {
        NoData5();
      } else {
        OccursIgnoringCase("Data Science Intern", "data", 0);
      }
    }
  }

  /** Searching "data" keeps internship 6 only. */
  lemma DataSearch()
    ensures Ids(Filter(Internships, Criteria("data", "All", "All"))) == [6]
  {
    DataVerdicts();
    IdsOfFilter(Internships, Criteria("data", "All", "All"), [false, false, false, false, false, true]);
  }

  /** Internship 2's description mentions "data-driven". */
  lemma DataInDescription2()
    ensures Contains(ToLower("Analyze marketing campaigns and create data-driven insights for client strategies."), "data")
  {
    OccursIgnoringCase("Analyze marketing campaigns and create data-driven insights for client strategies.", "data", 39);
  }

  /** Internship 2's description contains "data", yet the "data" search drops it: descriptions are not searched. */
  lemma DescriptionsAreNotSearched()
    ensures Contains(ToLower(Internships[1].description), "data")
    ensures Internships[1] !in Filter(Internships, Criteria("data", "All", "All"))
  {
    DataInDescription2();
    DataSearch();
  }

  /** Domain matching is case-sensitive: "technology" matches no sample internship. */
  lemma DomainIsCaseSensitive()
    ensures Filter(Internships, Criteria("", "technology", "All")) == []
  {
    SampleValuesAreOptions();
    assert "technology" !in Domains[1..];
    UnusedCategoryGivesEmpty(Internships, Criteria("", "technology", "All"));
  }

  /** The page heading: the accent word opens the title and occurs there once, so the title reads unchanged. */
  lemma Heading()
    ensures PageHeader.RenderTitle("Internship" + " Opportunities", PageHeader.Some("Internship")) == PageHeader.Accented("", "Internship", " Opportunities")
    ensures PageHeader.Displayed(PageHeader.RenderTitle("Internship" + " Opportunities", PageHeader.Some("Internship"))) == "Internship" + " Opportunities"
  {
    var title := "Internship" + " Opportunities";
    var w := "Internship";
    forall j | TextOps.OccursAt(title, w, j)
      ensures j == 0
    {
      assert title[j..j + |w|][0] == title[j];
    }
    PageHeader.SingleOccurrenceRoundTrips(title, w, 0);
    assert title[..0] == "";
    assert title[|w|..] == " Opportunities";
  }
}
