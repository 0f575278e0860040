# Article table of contents and index keys

This project models the logic in the `Article` and `ArticleHistory` records of
the blog engine:

- `Article.GenTOC` scans an article's Markdown-like content line by line.
  - A line is a heading when it matches `^\s{0,2}(#{1,6})\s(.*)$`.
  - Each heading becomes an `ArticleTOC` record. The record holds the title, a
    slug, the heading level and a show level (the display depth).
  - A single `currentToc` pointer and `Parent` back-links decide where each
    record goes: into the article's `Toc` list or onto some record's
    `SubTitles`.
- The tag hooks `BeforeSave` and `AfterFind` convert between the raw tag text
  and the tag list: split on `,` and join with `,`.
- The formatting helpers `SID`, `ToIndexData` and `GetIndexID` render `%d` and
  `"%d.%d"` for the search index. `ArticleHistory.GetIndexID` does the same.

The pointer structure of the table of contents is an arena:

- `tocNodes` holds every record the article has made.
- A record's `parent` is the index of an earlier record, or none.
- Its `subTitles` lists the indices of its children.
- `toc` lists the indices of the top-level records.

The module `Toc` describes one GenTOC step as a function, `Step`, and a whole
call as `Run`. The method `Articles.Article.GenTOC` loops over the lines as
the Go code does, and is proved to produce exactly `Run`. The properties of
the builder are proved about `Step` and `Run`:

- the invariants the builder keeps;
- where a new record goes;
- that records left by an earlier call stay untouched;
- the shape built for several kinds of heading sequences.

Modules: `Wrappers` (Option), `Text` (`strings.Split`, `strings.Join`),
`Format` (`%d`), `Scanner` (`titleRegex`), `Slug` (`whitespaces`), `Toc`,
`TocInvariants`, `TocProperties`, `TocScenarios`, `TocIntended` (the corrected
show level), `Articles`, `History`.

The design description of the builder and the code of article.go differ in
several places. The model follows the code:

- **Separator after the hashes.** It is any one of Go's `\s` characters (tab,
  newline, form feed, carriage return, space), not only a space.
- **Same-level heading.** A heading of the previous record's level goes under
  the previous record's own parent (article.go:132-137), not under that
  parent's parent.
- **Show level of such a heading.** It is the previous record's show level
  plus one (article.go:136), not the parent's plus one. See "## Findings".
- **Repeated calls.** GenTOC appends to `Toc` and never clears it, so a
  second call adds a second set of records (`TocScenarios.ExampleRerunAppends`).
- **Slug separators.** Inside `[\s|\.]` the `|` is a literal pipe, so runs of
  `|` also become `-`.

## Model

| member | source | states |
|---|---|---|
| Text.Split | article.go:83 | `strings.Split` with a one-character separator always yields at least one piece, and no piece contains the separator |
| Text.SplitCount | article.go:83 | there is exactly one more piece than there are separators in the string |
| Text.JoinSplit | article.go:82-89 | joining the pieces of a split with the same separator gives back the original string, for every string (AfterFind after BeforeSave restores RawTags) |
| Text.SplitJoin | article.go:82-89 | splitting a join gives back the list if and only if the list is non-empty and no element contains the separator |
| Format.Decimal | article.go:55 | `%d` of an unsigned value is a non-empty run of decimal digits with no leading zero except for 0 itself |
| Format.DecimalRoundTrip | article.go:55 | reading the digits `%d` printed gives back the number |
| Format.DecimalInjective | article.go:55 | different numbers print to different strings |
| Format.IndexIDShape | article_history.go:20 | a `"%d.%d"` key contains exactly one `.` and every other character is a decimal digit |
| Format.IndexIDRoundTrip | article_history.go:20 | splitting a key at its `.` and reading both halves gives back the identifier and the version |
| Format.IndexIDInjective | article_history.go:20 | distinct (identifier, version) pairs give distinct keys |
| Scanner.MatchUnique | article.go:91 | the heading pattern matches a line in at most one way: the indentation and the hash run are determined |
| Scanner.MatchIsParsed | article.go:100-107 | whenever the pattern matches, the scanner reports a heading whose level is the hash count and whose title is the rest of the line |
| Scanner.ParsedIsMatch | article.go:100-107 | every heading the scanner reports comes from a match of the pattern with at most two leading whitespace characters |
| Scanner.ParseHeadingMatches | article.go:100-107 | a line yields a heading if and only if the pattern matches it, with the level and title of that match |
| Scanner.IndentedThreeIsNotHeading | article.go:91 | three leading whitespace characters mean no heading |
| Scanner.SevenHashesIsNotHeading | article.go:91 | a run of seven or more `#` after the indentation means no heading |
| Scanner.NoSeparatorIsNotHeading | article.go:91 | a hash run that is not followed by a whitespace character means no heading |
| Scanner.Headings | article.go:96-103 | the headings of the split lines number at most the lines |
| Scanner.HeadingsSnoc | article.go:99-103 | one more line adds its heading, if it is one, after the headings of the earlier lines, and adds nothing otherwise |
| Scanner.HeadingLevels | article.go:105 | every heading found has a level from 1 to 6 |
| Scanner.NoHeadingLines | article.go:99-103 | text without heading lines yields no heading |
| Scanner.ExampleLevelTwo | article.go:100-107 | the line `## B` is a level-2 heading titled `B` |
| Slug.Slugify | article.go:108 | the slug is never longer than the title, is empty only for an empty title, and contains no whitespace, `.` or `\|` |
| Slug.SlugifyIsCollapse | article.go:92 | Slugify agrees with an independent one-pass reading of the replacement: a separator starting a run prints `-`, one inside a run prints nothing, anything else is copied |
| Slug.SlugifyKeepsPlainTitle | article.go:108 | a title without separators is its own slug |
| Slug.SlugifyIdempotent | article.go:108 | slugging a slug changes nothing |
| Slug.SlugifyKeepsText | article.go:108 | every character other than a separator or `-` survives into the slug, in order |
| Slug.SlugifyPlainPrefix | article.go:108 | a separator-free prefix is copied into the slug unchanged |
| Slug.SlugifyRunPrefix | article.go:92 | a whole run of separators, however long, becomes exactly one `-` |
| Slug.SlugifyThreeWords | article.go:108 | words separated by runs become the words joined by single hyphens |
| Slug.ExampleHelloWorld | article.go:108 | `Hello   World. Two` slugs to `Hello-World-Two` |
| Toc.NearestBelow | article.go:115-129 | the record found walking up the parent links has a level below the new heading's and is at or above the starting record |
| Toc.BoundedWalk | article.go:117-122 | the bounded ascending walk ends on a record in the arena or on none |
| Toc.ChooseParent | article.go:109-144 | the chosen parent is a record in the arena, and there is none for the first heading of a call |
| Toc.Attach | article.go:104-145 | the new record goes last with its title, slug, level, parent and show level; only the parent's child list (or the root list) gains its index; every other record is unchanged |
| Toc.Step | article.go:99-146 | one heading adds exactly one record and makes it the current one |
| Toc.Run | article.go:99-146 | a call adds one record per heading and leaves the last one current |
| TocInvariants.AscendingWalkNeverBinds | article.go:117-121 | when levels increase from parent to child, the `i := -1` loop bound never stops the walk: it ends at the nearest record above the previous one whose level is below the new heading's |
| TocInvariants.ParentLevelBelow | article.go:114-144 | the parent chosen in every case has a smaller level than the new heading |
| TocInvariants.StepLevels | article.go:114-144 | each step keeps every child's level strictly above its parent's |
| TocInvariants.StepShowLevels | article.go:106-142 | each step keeps roots at show level 2 and every child's show level above its parent's |
| TocInvariants.StepChildrenOf | article.go:110-143 | after a step the new record is the last child of its parent, or the last root, and of nothing else |
| TocInvariants.StepChildLists | article.go:109-145 | each step keeps every child list, and the root list, equal to the records linked to it, in document order |
| TocInvariants.StepWellFormed | article.go:104-145 | each step keeps the arena well formed (links point back, levels and show levels increase, lists match links) |
| TocInvariants.RunWellFormed | article.go:99-146 | a whole call keeps the arena well formed |
| TocInvariants.ListedExactlyOnce | article.go:110-143 | in a well-formed arena every record is listed exactly once: among the roots if and only if it has no parent, in a record's `SubTitles` if and only if that record is its parent |
| TocProperties.NearestBelowIsFirstOnChain | article.go:114-129 | the walk finds nothing exactly when no record on the chain from the start upward has a smaller level, and otherwise the first such record on the chain |
| TocProperties.ParentIsNearestBelow | article.go:115-144 | in all three cases the parent is the nearest record, from the previous record upward, with a level below the new heading's |
| TocProperties.NewRecordPlacement | article.go:106-133 | a new record is a root (show level 2) exactly when it is the first of the call or no record on the chain from the previous one upward has a smaller level; otherwise its parent is the first such record |
| TocProperties.RunRecords | article.go:99-108 | a call adds the headings' records in document order with their titles, slugs and levels, keeps every earlier record except its child list, and keeps the earlier roots as a prefix |
| TocProperties.RunLeavesEarlierRecords | article.go:98-112 | a call starts with no current record, so the records and roots left by earlier calls stay exactly as they were and no new record links to an old one |
| TocScenarios.StepDeeper | article.go:139-144 | a deeper heading becomes the previous record's last child with that record's show level plus one |
| TocScenarios.StepRoot | article.go:109-133 | a heading that finds no parent becomes the last root, with show level 2 |
| TocScenarios.StepSibling | article.go:130-138 | a same-level heading under a parent becomes that parent's last child with the previous record's show level plus one |
| TocScenarios.StepAscend | article.go:115-129 | a shallower heading whose walk finds a record becomes its last child with that record's show level plus one |
| TocScenarios.ExampleSiblingShowLevels | article.go:130-138 | `# A`, `## B`, `## C`, `# D` gives roots A and D, children B then C under A, and show levels 2, 3, 4, 2 |
| TocScenarios.ExampleSkippedLevel | article.go:115-129 | levels 1, 3, 2 put both later headings under the first, with show levels 2, 3, 3 |
| TocScenarios.ExampleRerunAppends | article.go:110 | a second call on `# A` adds a second identical record and lists both as roots |
| TocScenarios.DeeperHeadingsNest | article.go:139-144 | strictly deeper headings form one path, each record the only child of the one before, with show levels 2, 3, 4, ... |
| TocScenarios.SameLevelHeadingsAreRoots | article.go:130-133 | headings of one level are all roots, in order, with show level 2 and no children |
| TocIntended.StepIntended | article.go:127 | the corrected step adds exactly one record and makes it current |
| TocIntended.StepIntendedShowsDepth | article.go:142 | the corrected step keeps every show level at 2 for a root and at the parent's plus one below it |
| TocIntended.RunIntendedShowsDepth | article.go:136 | over any heading sequence the corrected builder keeps that relation |
| TocIntended.ParentIgnoresShowLevels | article.go:114-144 | the chosen parent never depends on show levels |
| TocIntended.RunsDifferOnlyInShowLevels | article.go:104-145 | the corrected builder and the builder as written file every record under the same parent and in the same lists; only show levels differ |
| TocIntended.SiblingBreaksDepthShown | article.go:136 | as written, `# A`, `## B`, `## C`, `# D` breaks the relation: C's show level is not A's plus one |
| TocIntended.SiblingIntendedShowLevels | article.go:136 | the corrected builder gives both children of A show level 3 in that example |
| Articles.Article.constructor | article.go:29-51 | a new article has its given fields, no tags and an empty, well-formed table of contents |
| Articles.Article.SID | article.go:54-56 | the identifier as non-empty decimal digits that read back as the identifier |
| Articles.Article.ToIndexData | article.go:67-74 | slug, title and content are copied and the version is rendered as digits that read back as the version |
| Articles.Article.GetIndexID | article.go:77-79 | the key holds exactly one `.` and parses back to the identifier and version |
| Articles.Article.BeforeSave | article.go:82-84 | the tags become the comma-split raw tags: one more than the commas, none with a comma, and joining them restores the raw text |
| Articles.Article.AfterFind | article.go:87-89 | the raw tags become the comma-join of the tags, and splitting them back gives the tags exactly when the list is non-empty and no tag has a comma |
| Articles.Article.GenTOC | article.go:95-147 | the records and roots become those of `Run` over the headings of the content's lines, starting from the article's previous records with no current record, and the arena stays well formed |
| Articles.Article.FileHeading | article.go:104-145 | the body of the line loop for one heading performs exactly one `Step` |
| Articles.Article.WalkUp | article.go:114-122 | the Go walk loop computes the bounded walk, and, when levels increase along links, the nearest record below the new level |
| Articles.LineSkipped | article.go:100-103 | a line that is not a heading leaves the builder unchanged |
| Articles.LineFiled | article.go:99-108 | a heading line is one more step of the builder |
| History.ArticleHistory.GetIndexID | article_history.go:19-21 | the key holds exactly one `.`, every other character is a digit, and it parses back to the article identifier and version |
| History.HistoryKeysDistinct | article_history.go:20 | revisions with different (article, version) pairs never share a key |
| History.HistoryKeyIgnoresText | article_history.go:19-21 | the key does not depend on the description, the content or the creation time |
| History.HistorySharesArticleKey | article_history.go:20 | a revision has the same key as an article if and only if it has the same identifier and version |

## Left out

- `BuildArticleIndex` (article.go:150-159) is left out. It queries the database, writes to the search index and panics on error: I/O over collaborators outside this model.
- Persistence is left out. This covers `gorm.Model` (only its `ID` is kept, as `id`), struct tags, `pq.StringArray`, and the `TemplateID`, `IsBook`, `ReadNum`, `CommentNum`, `BookRefer`, `Comments`, `ArticleHistories`, `Chapters`, `Book` and `SibilingArticle` fields. These are storage schema only.
- `ArticleHistory.Article` is left out. It is a relation loaded by the storage layer.
- Go's `regexp` engine in general is not modelled. The two fixed patterns are written as character predicates and a run-collapsing function.
- UTF-8 decoding is left out. Text is a sequence of characters, and `\s` is Go's ASCII class.
- `fmt.Sprintf` is modelled only for `%d` on unsigned values.
- `uint` and `int` widths are not modelled: identifiers, versions and levels are unbounded naturals. No value in this logic can come near the 64-bit limit. Levels are at most 6.
- `time.Time` is left out. `CreatedAt` is an opaque integer that no operation reads.
- JSON and gorm serialisation of the table of contents is left out.
- Pointer identity and aliasing of `ArticleTOC` records are modelled by arena indices. Go's slices appended through several pointers to one record become one sequence per record.
- Articles.Article.GenTOC: the well-formedness it keeps is assumed of the records an article already holds. The Go code does not check it, but only GenTOC ever builds those records, starting from an empty list.

## Findings

| source | as written | input that shows it | evidently intended | confidence | as-written member | corrected member |
|---|---|---|---|---|---|---|
| article.go:136 | a same-level heading under a parent gets the previous record's show level plus one, so the show level drifts with every further sibling | `# A`, `## B`, `## C`, `# D`: C, a child of the root A, gets show level 4 while its sibling B gets 3 | show level is the parent's plus one, as in the ascending and descending cases (article.go:127, 142): both B and C get 3 | not executed | TocIntended.SiblingBreaksDepthShown | TocIntended.RunIntendedShowsDepth |
