# fynally.io — verified model of the site's page logic

fynally.io is a React marketing site that walks a student from learning to
earning. Almost all of it is markup. This project models its four pieces of
real logic in Dafny and proves what they do.

- **Listing filter** (`listings.dfy`, module `Listings`). Both listing pages
  narrow a fixed list of records with the same predicate. A record is kept when
  its lower-cased title or company contains the lower-cased search text, when
  its category (an internship's domain, a job's level) matches the selected
  value exactly or that value is `"All"`, and when its location matches in the
  same way. `Filter` is the `Array.filter` call. The class `FilterState` holds
  the three `useState` cells, their setters, and "Clear Filters".
- **Sample pages** (`internships.dfy`, `employment.dfy`). These hold each
  page's sample records and select options. Concrete lemmas give the filter's
  output on them, and each page's heading.
- **Journey indicator and mobile menu** (`navigation.dfy`, module
  `Navigation`). The current step is the first of four ordered journey steps
  whose path equals the current pathname, or -1 if none does. Each step is then
  active, completed or upcoming. Its icon, label and connector arrow take their
  colour tokens from that state. The class `MobileMenu` holds the `isOpen`
  state, the toggle, and the close-on-link-click.
- **Accent-word title** (`page_header.dfy`, module `PageHeader`). The header
  splits the title on the accent word. It shows piece 0, then the accent word
  in its accent colour, then piece 1.
- **Initials** (`about.dfy`, module `About`). A team member's avatar shows the
  first character of each space-separated piece of the name.
- **String primitives** (`text_ops.dfy`, module `TextOps`). These are the
  JavaScript string operations the logic relies on:
  - ASCII `toLowerCase`;
  - `includes`, modelled as `Contains`;
  - `indexOf`;
  - `split` with a non-empty separator: leftmost, non-overlapping pieces;
  - `join`.

Where the JavaScript reads a value that is not there, the model uses the
empty string. For `parts[1]` after a split with one piece, React renders the
`undefined` as nothing. For `n[0]` of an empty piece, `join` turns the
`undefined` into the empty string before React sees the text. Every operation
in the model is a pure function or a state change on a class. No operation
modifies the sample data.

## Model

| member | source | states |
|---|---|---|
| `TextOps.LowerChar` | fynally.io/src/pages/Internships.tsx:94-95 | A capital becomes the lower-case letter at the same place in the alphabet, a character that is not a capital is left as it is, and the result is never a capital. |
| `TextOps.ToLowerAlike` | fynally.io/src/pages/Internships.tsx:94-95 | Two strings lower-case alike exactly when they have the same length and differ, position by position, at most in ASCII letter case. |
| `TextOps.ToLowerIdempotent` | fynally.io/src/pages/Internships.tsx:94-95 | Lower-casing an already lower-cased string changes nothing. |
| `TextOps.IndexOfFinds` | fynally.io/src/components/ui/PageHeader.tsx:15 | A non-negative index is an occurrence with no earlier occurrence; -1 means there is no occurrence anywhere. |
| `TextOps.ContainsIffIndexOf` | fynally.io/src/pages/Internships.tsx:94-95 | `includes` holds exactly when the search finds a position. |
| `TextOps.ContainsEmpty` | fynally.io/src/pages/Internships.tsx:94-95 | Every string includes the empty string. |
| `TextOps.Split` | fynally.io/src/components/ui/PageHeader.tsx:15 | A split with a non-empty separator always yields at least one piece. |
| `TextOps.SplitPartsLackSeparator` | fynally.io/src/components/ui/PageHeader.tsx:15 | No piece of a split contains the separator. |
| `TextOps.JoinSplit` | fynally.io/src/components/ui/PageHeader.tsx:15 | Joining the pieces with the separator gives back the original string. |
| `TextOps.SplitWithoutSeparator` | fynally.io/src/components/ui/PageHeader.tsx:15 | The split is the string alone exactly when the separator does not occur, in both directions. |
| `Listings.Filter` | fynally.io/src/pages/Internships.tsx:93-100 | The result is no longer than the input, and each of its records meets the criteria and comes from the input. |
| `Listings.IdsOfFilter` | fynally.io/src/pages/Internships.tsx:93-100 | The identifiers the filter keeps are those of the records whose verdict is true, in input order. |
| `Listings.FilterIsSubsequence` | fynally.io/src/pages/Internships.tsx:93-100 | The result is a subsequence of the input: records are picked at strictly increasing positions and are not altered. |
| `Listings.FilterMembership` | fynally.io/src/pages/Internships.tsx:94-99 | A record is in the result exactly when it is in the input and its search, category and location tests all pass. |
| `Listings.FilterMultiplicity` | fynally.io/src/pages/Employment.tsx:94-101 | A matching record occurs in the result as often as in the input, and every other record occurs zero times. |
| `Listings.FilterKeepsAllMatching` | fynally.io/src/pages/Internships.tsx:93-100 | When every record matches, the result is the whole input. |
| `Listings.FilterDropsAllFailing` | fynally.io/src/pages/Employment.tsx:94-101 | When no record matches, the result is empty: an empty state, not an error. |
| `Listings.UnusedCategoryGivesEmpty` | fynally.io/src/pages/Employment.tsx:97 | Selecting a category other than "All" that no record has gives the empty result. |
| `Listings.UnmatchedSearchGivesEmpty` | fynally.io/src/pages/Employment.tsx:95-96 | Search text found in no title and no company gives the empty result. |
| `Listings.FilterIdempotent` | fynally.io/src/pages/Internships.tsx:93-100 | Filtering the result again with the same criteria gives the same result. |
| `Listings.EmptySearchMatches` | fynally.io/src/pages/Internships.tsx:94-95 | The empty search text matches every record. |
| `Listings.DefaultMatchesEverything` | fynally.io/src/pages/Internships.tsx:94-97 | The criteria ("", "All", "All") accept every record. |
| `Listings.FilterDefaultIsIdentity` | fynally.io/src/pages/Internships.tsx:94-97 | Under the criteria ("", "All", "All") the result equals the whole list. |
| `Listings.FilterCongruent` | fynally.io/src/pages/Internships.tsx:93-100 | Two criteria that accept the same records give the same result. |
| `Listings.SearchIsCaseInsensitive` | fynally.io/src/pages/Internships.tsx:94-95 | Search texts that agree once lower-cased give the same result, so the case of the search text never matters. |
| `Listings.CaseVariantSearchSameResult` | fynally.io/src/pages/Internships.tsx:94-95 | Search texts that differ only in the case of their letters give the same result. |
| `Listings.TechSearchIgnoresCase` | fynally.io/src/pages/Internships.tsx:94-95 | Searching "TECH" shows the same listings as searching "tech", for any list and selections. |
| `Listings.LowerCasedSearchSameResult` | fynally.io/src/pages/Internships.tsx:94-95 | Lower-casing the search text beforehand never changes the result. |
| `Listings.SelectorsMatchExactly` | fynally.io/src/pages/Internships.tsx:96-97 | A kept record's category and location equal the selected values character for character, unless the selection is "All". |
| `Listings.FilterState.constructor` | fynally.io/src/pages/Internships.tsx:9-11 | A page starts with the criteria ("", "All", "All"). |
| `Listings.FilterState.SetSearchTerm` | fynally.io/src/pages/Internships.tsx:115 | Typing replaces the search text and leaves both selections unchanged. |
| `Listings.FilterState.SetCategory` | fynally.io/src/pages/Internships.tsx:122 | Choosing a domain (or a level) replaces that selection only. |
| `Listings.FilterState.SetLocation` | fynally.io/src/pages/Internships.tsx:129 | Choosing a location replaces that selection only. |
| `Listings.FilterState.ClearFilters` | fynally.io/src/pages/Internships.tsx:133-137 | "Clear Filters" sets the criteria to ("", "All", "All"), whatever they were before. Every list is then shown whole. The same holds for the Employment page's handler at lines 182-186. |
| `Internships.SampleValuesAreOptions` | fynally.io/src/pages/Internships.tsx:14-90 | Every sample internship's domain and location is one of the offered options other than "All". |
| `Internships.TechnologyDomain` | fynally.io/src/pages/Internships.tsx:14-100 | Domain "Technology" yields internships 1 and 6, in that order. |
| `Internships.RemoteLocation` | fynally.io/src/pages/Internships.tsx:14-100 | Location "Remote" yields internships 1 and 5, in that order. |
| `Internships.DataSearch` | fynally.io/src/pages/Internships.tsx:14-100 | Searching "data" yields internship 6 only. |
| `Internships.DescriptionsAreNotSearched` | fynally.io/src/pages/Internships.tsx:35-95 | Internship 2's description contains "data", yet searching "data" drops it: only the title and the company are searched. |
| `Internships.DomainIsCaseSensitive` | fynally.io/src/pages/Internships.tsx:96 | Domain "technology" in lower case matches no sample internship: selector matching is exact. |
| `Internships.Heading` | fynally.io/src/pages/Internships.tsx:105-109 | The heading "Internship Opportunities", accented on "Internship", renders as "", "Internship", " Opportunities" and reads as the title unchanged. |
| `Employment.SampleValuesAreOptions` | fynally.io/src/pages/Employment.tsx:14-90 | Every sample job's level and location is one of the offered options other than "All". |
| `Employment.EntryLevel` | fynally.io/src/pages/Employment.tsx:14-101 | Level "Entry Level" yields jobs 1, 2, 4 and 6, in that order. |
| `Employment.JobLevels` | fynally.io/src/pages/Employment.tsx:14-87 | Every sample job is at entry or mid level. |
| `Employment.SeniorLevelIsEmpty` | fynally.io/src/pages/Employment.tsx:14-101 | "Senior Level" is a selectable option, yet selecting it yields no job, whatever the search text and location. |
| `Employment.ClearedShowsAllJobs` | fynally.io/src/pages/Employment.tsx:93-102 | Under the cleared criteria the result is all six jobs, in page order. |
| `Employment.Heading` | fynally.io/src/pages/Employment.tsx:154-158 | The heading "Employment Opportunities", accented on "Employment", renders as "", "Employment", " Opportunities" and reads as the title unchanged. |
| `Navigation.FindIndex` | fynally.io/src/components/Navigation.tsx:55-56 | `findIndex` returns the first position whose path equals the pathname, or -1 exactly when no step's path equals it. |
| `Navigation.CurrentStepIndex` | fynally.io/src/components/Navigation.tsx:55-58 | The current index lies in [-1, 4). When it is not -1, its step's path is the pathname. It is -1 exactly when no step matches. |
| `Navigation.PathsAreDistinct` | fynally.io/src/components/Navigation.tsx:23-52 | No two journey steps share a path. |
| `Navigation.AtMostOneStepMatches` | fynally.io/src/components/Navigation.tsx:55-56 | A step's path equals the pathname exactly when that step is the current one, so at most one step matches. |
| `Navigation.Classify` | fynally.io/src/components/Navigation.tsx:77-78 | A step is active exactly when it is the current one, completed exactly when the current index lies beyond it, and upcoming otherwise. |
| `Navigation.ActiveAndCompletedExclusive` | fynally.io/src/components/Navigation.tsx:143-144 | No step is both active and completed. |
| `Navigation.StatesAroundCurrent` | fynally.io/src/components/Navigation.tsx:77-78 | With a current step, the steps before it are completed, it alone is active, and the steps after it are upcoming. |
| `Navigation.OutsideJourneyAllUpcoming` | fynally.io/src/components/Navigation.tsx:77-78 | With index -1 every step is upcoming: none is active or completed. |
| `Navigation.ViewStep` | fynally.io/src/components/Navigation.tsx:81-107 | A step's view keeps its path and title, and carries an arrow exactly when the step is not the last one. |
| `Navigation.RenderSteps` | fynally.io/src/components/Navigation.tsx:75-110 | The desktop bar draws one view per step. |
| `Navigation.StylingFollowsState` | fynally.io/src/components/Navigation.tsx:87-97 | The icon bubble, icon and label take the step's own colours when it is active, dark grey when completed, and light grey when upcoming. |
| `Navigation.ArrowsFollowCompletion` | fynally.io/src/components/Navigation.tsx:103-106 | The arrow after a step is dark exactly when that step is completed, and the last step has no arrow. |
| `Navigation.ArrowCountIsOneLess` | fynally.io/src/components/Navigation.tsx:103-107 | A journey of n steps draws exactly n-1 connector arrows. |
| `Navigation.InternshipsPage` | fynally.io/src/components/Navigation.tsx:38-78 | On "/internships" the index is 2. Steps 0 and 1 are completed, step 2 is active and step 3 is upcoming. |
| `Navigation.PagesOutsideJourney` | fynally.io/src/components/Navigation.tsx:55-78 | "/" and "/about" give -1, and every step is then upcoming. |
| `Navigation.MobileMenu.constructor` | fynally.io/src/components/Navigation.tsx:19 | The mobile menu starts closed. |
| `Navigation.MobileMenu.Toggle` | fynally.io/src/components/Navigation.tsx:130 | The menu button flips `isOpen`, and with it the button's icon. |
| `Navigation.MobileMenu.LinkClicked` | fynally.io/src/components/Navigation.tsx:151 | A link click in the mobile bar closes the menu, which is then not rendered. The links in the menu at lines 184 and 188 do the same. |
| `PageHeader.RenderTitle` | fynally.io/src/components/ui/PageHeader.tsx:13-25 | The title is plain exactly when the accent word is absent or empty. A plain title is the title itself, and an accented title's span holds the accent word. |
| `PageHeader.NoAccentShowsTitle` | fynally.io/src/components/ui/PageHeader.tsx:13-24 | With no accent word, or the empty one, the heading shows the title unchanged. |
| `PageHeader.AccentSpanIsAccentWord` | fynally.io/src/components/ui/PageHeader.tsx:19 | With a non-empty accent word the title is always split into fragments, and the accent span holds exactly that word. |
| `PageHeader.BeforeIsPrefixBeforeFirst` | fynally.io/src/components/ui/PageHeader.tsx:15-18 | The first fragment is the title up to the first occurrence of the accent word, and does not contain that word. |
| `PageHeader.AbsentAccentIsAppended` | fynally.io/src/components/ui/PageHeader.tsx:15-21 | When the accent word does not occur, piece 1 is missing and the heading shows the title followed by the accent word. |
| `PageHeader.RestWithoutAccentRoundTrips` | fynally.io/src/components/ui/PageHeader.tsx:15-21 | When the text after the first occurrence does not contain the accent word, the fragments are the text before and after that occurrence, and the heading shows the title unchanged. |
| `PageHeader.OverlappingOccurrenceIsKept` | fynally.io/src/components/ui/PageHeader.tsx:15-21 | An occurrence overlapping the first one is not split off: "aaa" accented on "aa" renders as "", "aa", "a" and reads unchanged. |
| `PageHeader.SingleOccurrenceRoundTrips` | fynally.io/src/components/ui/PageHeader.tsx:15-21 | When the accent word occurs exactly once, the fragments are the text before and after it, and the heading shows the title unchanged. |
| `PageHeader.FragmentsAroundTwoOccurrences` | fynally.io/src/components/ui/PageHeader.tsx:15-21 | With first occurrence at k and the next non-overlapping one at m, the fragments are the text before k, the word, and the text between the two occurrences. |
| `PageHeader.LaterOccurrencesAreDropped` | fynally.io/src/components/ui/PageHeader.tsx:15-21 | When a second occurrence starts after the first one ends, the heading stops where that second occurrence begins: everything from it on is dropped, so the heading is shorter than the title. |
| `About.InitialsAreWordStarts` | fynally.io/src/pages/About.tsx:191 | The initials are exactly the characters that start a word (non-space, first or right after a space), in order, by an independent recursive definition. |
| `About.SingleWordInitial` | fynally.io/src/pages/About.tsx:191 | A name without a space yields its first character alone. |
| `About.LeadingSpaceIgnored` | fynally.io/src/pages/About.tsx:191 | A leading space adds an empty piece, which contributes nothing. |
| `About.TrailingSpaceInInitials` | fynally.io/src/pages/About.tsx:191 | A trailing space adds an empty piece, which contributes nothing. |
| `About.DoubledSpaceIgnored` | fynally.io/src/pages/About.tsx:191 | A doubled space gives the same initials as a single one. |
| `About.TwoWordInitials` | fynally.io/src/pages/About.tsx:191 | A name of two space-free non-empty words yields their two first characters. |
| `About.TeamInitials` | fynally.io/src/pages/About.tsx:33-52 | The team's avatars read "SJ", "MC" and "ER". |
| `About.Heading` | fynally.io/src/pages/About.tsx:89-93 | The heading "About Fynally", accented on "Fynally", renders as "About ", "Fynally", "": the last piece exists and is empty. |

## Left out

- Markup, Tailwind layout and framer-motion animations: these are presentation, and their timings are floating point. The model keeps only the colour tokens chosen by step state.
- Routing: the current pathname is a plain string input, and `useLocation`, `Link` and the routes table are library configuration.
- `useMemo` in the Employment page is an optimisation. The filter is modelled as a pure function of the list and the criteria, which is what the memoised value equals.
- `toLowerCase` is modelled for ASCII letters only. Full Unicode case mapping and UTF-16 code units are not modelled.
- The `"Apply"` and `onClick` handlers that only log to the console (I/O), and the footer's year from the system clock.
- `split` with the empty separator is not modelled. The header only splits on a truthy accent word, and the initials split on `' '`.
- The step's icon component is not modelled.
- The mobile progress bar (Navigation.tsx:141-167) uses the same `isActive`/`isCompleted` comparisons and colour chains as the desktop bar. It draws no arrows, and the model renders only the desktop bar's views.
- The `SearchFilter`, `ListingCard`, `FeatureCard`, `CTASection`, `Section` and `StatsGrid` components only render, and so do the other pages (HomePage, Learning, StudentResources). Entry-point mounting and re-exports are plumbing.
- Employment.ClearedShowsAllJobs: states the result as the whole job list, of length six, rather than as the list of identifiers 1 to 6. The two say the same, because every sample job is listed once.
- Listings.UnmatchedSearchGivesEmpty: stated for any list and any search text found in no title or company. No concrete unmatched search on the sample jobs is worked out.
