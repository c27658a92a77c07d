/**
 * The Employment page: its sample jobs, the level and location options of
 * its two selects, and what the shared listing filter yields on them. The
 * page's `filteredJobs` is `Listings.Filter` with the job's experience level
 * as the category.
 */
module Employment {
  import opened Listings
  import PageHeader

  /** The sample jobs, in page order. */
  const Jobs: seq<Listing> :=
    [
    Listing(1, "Frontend Developer", "TechFlow Inc", "Remote",
      JobTerms("$70,000 - $90,000", "Full-time"), "Entry Level",
      "Join our dynamic team to build responsive web applications using React and modern web technologies.",
      ["Bachelor's in Computer Science", "1-2 years React experience", "JavaScript proficiency"], "2 days ago"),
    Listing(2, "Marketing Coordinator", "Growth Marketing Solutions", "New York, NY",
      JobTerms("$50,000 - $65,000", "Full-time"), "Entry Level",
      "Support marketing campaigns, analyze performance metrics, and coordinate with cross-functional teams.",
      ["Marketing degree", "Google Analytics knowledge", "Strong communication skills"], "1 week ago"),
    Listing(3, "Product Manager", "Innovation Labs", "San Francisco, CA",
      JobTerms("$90,000 - $120,000", "Full-time"), "Mid Level",
      "Lead product development from conception to launch, working closely with engineering and design teams.",
      ["3+ years product experience", "Technical background", "Agile methodology knowledge"], "3 days ago"),
    Listing(4, "Data Analyst", "DataDriven Corp", "Chicago, IL",
      JobTerms("$60,000 - $80,000", "Full-time"), "Entry Level",
      "Analyze business data to provide insights and support data-driven decision making.",
      ["Statistics/Math degree", "SQL proficiency", "Python or R experience"], "5 days ago"),
    Listing(5, "UX Designer", "Creative Digital Agency", "Austin, TX",
      JobTerms("$65,000 - $85,000", "Full-time"), "Mid Level",
      "Design intuitive user experiences for web and mobile applications.",
      ["Design portfolio", "2+ years UX experience", "Figma expertise"], "1 day ago"),
    Listing(6, "Software Engineer", "CloudTech Systems", "Seattle, WA",
      JobTerms("$80,000 - $110,000", "Full-time"), "Entry Level",
      "Develop scalable software solutions using cloud technologies and modern programming languages.",
      ["Computer Science degree", "Programming experience", "Cloud platform knowledge"], "4 days ago")
  ]

  /** The options of the Experience Level select. */
  const Levels: seq<string> := ["All", "Entry Level", "Mid Level", "Senior Level"]

  /** The options of the Location select. */
  const Locations: seq<string> :=
    ["All", "Remote", "New York, NY", "San Francisco, CA", "Chicago, IL", "Austin, TX", "Seattle, WA"]

  /** Every sample job's level and location is one of the offered options. */
  lemma SampleValuesAreOptions()
    ensures forall i :: 0 <= i < |Jobs| ==> Jobs[i].category in Levels[1..]
    ensures forall i :: 0 <= i < |Jobs| ==> Jobs[i].location in Locations[1..]
  {
  }

  /** Of the sample jobs, exactly jobs 1, 2, 4 and 6 are at "Entry Level". */
  lemma EntryLevelVerdicts()
    ensures forall i :: 0 <= i < |Jobs| ==>
      [true, true, false, true, false, true][i] == Matches(Jobs[i], Criteria("", "Entry Level", "All"))
  {
    forall i | 0 <= i < |Jobs| {
      EmptySearchMatches(Jobs[i]);
    }
  }

  /** The identifiers picked out by the verdicts on "Entry Level". */
  lemma EntryLevelSelected()
    ensures SelectedIds(Jobs, [true, true, false, true, false, true]) == [1, 2, 4, 6]
  {
  }

  /** Level "Entry Level" keeps jobs 1, 2, 4 and 6, in that order. */
  lemma EntryLevel()
    ensures Ids(Filter(Jobs, Criteria("", "Entry Level", "All"))) == [1, 2, 4, 6]
  {
    EntryLevelVerdicts();
    EntryLevelSelected();
    IdsOfFilter(Jobs, Criteria("", "Entry Level", "All"), [true, true, false, true, false, true]);
  }

  /** Every sample job is at entry or mid level. */
  lemma JobLevels()
    ensures forall i :: 0 <= i < |Jobs| ==> Jobs[i].category == "Entry Level" || Jobs[i].category == "Mid Level"
  {
  }

  /**
   * "Senior Level" is offered by the select, but no sample job has it, so
   * selecting it shows nothing, whatever the search text and location.
   */
  lemma SeniorLevelIsEmpty(search: string, location: string)
    ensures "Senior Level" in Levels
    ensures Filter(Jobs, Criteria(search, "Senior Level", location)) == []
  {
    JobLevels();
    UnusedCategoryGivesEmpty(Jobs, Criteria(search, "Senior Level", location));
  }

  /** Under the cleared criteria all six jobs are shown, in page order. */
  lemma ClearedShowsAllJobs()
    ensures Filter(Jobs, Default) == Jobs
    ensures |Filter(Jobs, Default)| == 6
  {
    FilterDefaultIsIdentity(Jobs);
  }

  /** The page heading: the accent word opens the title and occurs there once, so the title reads unchanged. */
  lemma Heading()
    ensures PageHeader.RenderTitle("Employment" + " Opportunities", PageHeader.Some("Employment")) == PageHeader.Accented("", "Employment", " Opportunities")
    ensures PageHeader.Displayed(PageHeader.RenderTitle("Employment" + " Opportunities", PageHeader.Some("Employment"))) == "Employment" + " Opportunities"
  {
    var title := "Employment" + " Opportunities";
    var w := "Employment";
    forall j | TextOps.OccursAt(title, w, j)
      ensures j == 0
    {
      assert title[j..j + |w|][0] == title[j];
    }
    PageHeader.SingleOccurrenceRoundTrips(title, w, 0);
    assert title[..0] == "";
    assert title[|w|..] == " Opportunities";
  }
}
