# williamfindlaycom content core in Dafny

This is a model of the content pipeline behind William Findlay's personal web site. It covers:

- how the Markdown posts, projects and the YAML résumé are loaded from the content directory, sorted and indexed;
- the snapshot register through which the load is published;
- the loop that mirrors the content repository with git and republishes the content;
- the configuration read from the environment;
- the `truncate` template helper and template lookup;
- the way the home, blog and project pages choose what they show.

Each Go file has a Dafny module, written in the form the Go code has:

- **`types.go` (`ContentTypes`, Types.dfy):** record shapes, the résumé date formatting and the polymorphic bullet decoder. These are pure functions.
- **`loader.go` (`Loader`, Loader.dfy):**
  - `LoadFromDir` and the whole pipeline.
  - The directory loop is a `while` loop over the listing.
  - Sorting is an in-place insertion sort on an array (Sorting.dfy). Go's `sort.Slice` promises only that the result is sorted and is a permutation of the input, so the sort is specified by exactly that.
  - The indexes are built by loops over the sorted posts.
  - `renderBullets` writes the bullet array in place and recurses into fresh arrays.
  - The résumé loops rewrite arrays of entries, presentations and sections.
  - Every method is proved against a specification function, and the properties are proved about that function.
- **`store.go` (`Store`, Store.dfy):** a class with one mutable field.
- **`sync.go` (`Sync`, Sync.dfy):** `auth`, `refName` and `CloneOrPull` are functions. One tick of `StartBackgroundSync` is a method on the store. The whole loop is a method that runs over a finite sequence of events.
- **`config.go` (`Config`, Config.dfy):** `Load` over an environment map.
- **`render.go` (`Render`, Render.dfy):** `truncate`, plus `Render` and `RenderFeed` lookup over a template map.
- **`handler.go`:** `Handler` (Handler.dfy) holds the shared page data.
- **`blog.go`, `home.go`, `project.go`:** `BlogHandler` (Blog.dfy), `HomeHandler` (Home.dfy) and `ProjectHandler` (Projects.dfy). Each handler is a method that reads the store and returns either the page (template name plus data) or the 404 outcome.

External behaviour becomes oracle inputs:

- **Libraries:**
  - goldmark with its front-matter extension (`Engines.convert`, `convertInline`, the front-matter decoders);
  - `yaml.Unmarshal` of the résumé;
  - `strconv.ParseFloat` and `time.ParseDuration` (`Parsers`).
- **File system:** `os.ReadDir`, `os.ReadFile` and `os.Stat` (`FileSystem`, `Git.stat`).
- **git:** `PlainClone`, `PlainOpen`, `Worktree` and `Pull` (`Git`).
- **Templates:** template execution (`Exec`).

Go's `time.Time` dates are modelled as `(year, month, day)` triples under lexicographic order. Strings are sequences of runes.

## Model

| member | source | states |
|---|---|---|
| ContentTypes.MonthTableShape | internal/content/types.go:129-133 | May, June and July have no period, month 9 is "Sept.", and the other eight months are 4 characters long and end in "." |
| ContentTypes.MonthNumberInverse | internal/content/types.go:129-133 | the month table is a bijection between 1..12 and twelve distinct abbreviations |
| ContentTypes.FormatDate | internal/content/types.go:135-141 | "Abbrev Year" for a month in 1..12, else the year alone; its meaning is stated by FormatDateRoundTrip and FormatDateNoDash |
| ContentTypes.FormatDateRoundTrip | internal/content/types.go:135-141 | parsing a formatted date gives back the date as shown: "Abbrev Year" for a month in 1..12, the year alone (month dropped) for any other month, including the omitted 0 |
| ContentTypes.FormatDateNoDash | internal/content/types.go:136-141 | a formatted date never contains the en dash, so the range separator is unambiguous |
| ContentTypes.FormatDateRange | internal/content/types.go:143-150 | start, " – " and the end or "Present"; its meaning is stated by FormatDateRangeRoundTrip |
| ContentTypes.FormatDateRangeRoundTrip | internal/content/types.go:143-150 | a formatted range splits at " – " (U+2013) into the start date and either "Present" (no end) or the end date |
| ContentTypes.FormatDateRangePresentExample | internal/content/types.go:144-148 | year 2024 without a month and no end gives "2024 – Present" |
| ContentTypes.FormatDateRangeClosedExample | internal/content/types.go:149 | {2015, 9} to {2020, 4} gives "Sept. 2015 – Apr. 2020" |
| ContentTypes.DecodeBullet | internal/content/types.go:111-115 | a scalar decodes to a bullet whose RawText is its value, with an empty RawSub; any decoded bullet has nothing rendered at any depth |
| ContentTypes.DecodeMapping | internal/content/types.go:117-126 | an object with a repeated key fails with yaml's "already defined" duplicate-key errors; otherwise a failing `sub` bullet aborts with its error wrapped once more; otherwise RawText is `text` (or "") and RawSub the decoded `sub` (or empty); every failure is wrapped as "decoding bullet" |
| ContentTypes.DecodeFieldsByLookup | internal/content/types.go:117-126 | field-by-field decoding of distinct keys equals looking each known key up, whatever the key order |
| ContentTypes.DuplicateKeyProblemsEmpty | internal/content/types.go:121 | yaml's duplicate-key check reports nothing exactly when the keys are distinct |
| ContentTypes.DecodeEncodeBullet | internal/content/types.go:111-127 | every raw bullet tree, at any depth, is decoded back from its YAML encoding |
| ContentTypes.DecodeEncodeList | internal/content/types.go:119 | the same for a list of bullets |
| Loader.RenderMarkdown | internal/content/loader.go:241-256 | a goldmark failure is returned as is; without front matter the metadata stays zero; a front-matter decoding failure is wrapped "decoding frontmatter: "; decoded front matter is returned with the HTML |
| Loader.DecodePost | internal/content/loader.go:93-102 | the decoded post carries the slug, the rendered HTML, and title, date, description and tags from the front matter; decoding succeeds exactly when rendering does |
| Loader.DecodePostMeta | internal/content/loader.go:93-102 | every outcome: a goldmark error as is; no front matter gives the zero post with slug and content; a front-matter error is wrapped "decoding frontmatter: "; decoded front matter m gives m with slug and content set |
| Loader.DecodeProject | internal/content/loader.go:124-133 | the same for a project, whose repo, url, status and featured flag also come from the front matter |
| Loader.DecodeProjectMeta | internal/content/loader.go:124-133 | every outcome of decoding a project, as DecodePostMeta states it for a post |
| Loader.LoadEntry | internal/content/loader.go:75-84 | one entry loads exactly when its file is read and decoded under its slug, with the decoder's value; every failure is prefixed "reading NAME: " or "parsing NAME: " |
| Loader.DirItems | internal/content/loader.go:60-90 | a missing directory gives no items; another ReadDir error is returned unchanged; the rest is stated by DirItemsMeaning, LoadAllSuccess and LoadAllFailure |
| Loader.LoadMarkdownDir | internal/content/loader.go:60-90 | the loop returns exactly DirItems: the fold of the listing in order that skips non-`.md` and directory entries and stops at the first failure |
| Loader.LoadOne | internal/content/loader.go:75-84 | reads one file and decodes it under its slug; a read error is wrapped "reading NAME" and a decode error "parsing NAME" |
| Loader.DirItemsMeaning | internal/content/loader.go:61-67 | a missing directory gives no items and no error; any other ReadDir error is returned; otherwise the items are those of the kept entries |
| Loader.LoadEntriesIsLoadAll | internal/content/loader.go:70-73 | filtering while loading equals loading the filtered listing |
| Loader.KeptMembers | internal/content/loader.go:71-73 | an entry is kept exactly when it is not a directory and its name ends in ".md" |
| Loader.KeptExample | internal/content/loader.go:71-73 | of post.md, readme.txt and the directory subdir, only post.md is kept |
| Loader.LoadAllSuccess | internal/content/loader.go:70-89 | loading succeeds exactly when every kept entry loads, and then the items are their results in listing order |
| Loader.LoadAllFailure | internal/content/loader.go:75-84 | a failed load reports the error of the first kept entry that fails, after which nothing is loaded |
| Loader.LoadEntriesFailureSticks | internal/content/loader.go:75-84 | once a prefix of the listing fails, the whole load fails with that error |
| Loader.LoadEntrySlug | internal/content/loader.go:80-81 | the slug is the file name without ".md", and appending ".md" gives the name back |
| Loader.LoadedSlugs | internal/content/loader.go:80 | since the names in one directory are distinct, the items' slugs are distinct and there is one item per kept entry |
| Loader.SortPosts | internal/content/loader.go:108-110 | the posts are a permutation of the loaded items, sorted newest first |
| Loader.SortProjects | internal/content/loader.go:139-141 | the same for projects |
| Loader.IndexPosts | internal/content/loader.go:112-118 | the loop builds exactly the slug index and the tag index of the sorted posts |
| Loader.IndexProjects | internal/content/loader.go:143-146 | the loop builds exactly the slug index of the sorted projects |
| Loader.LoadBlogPosts | internal/content/loader.go:92-121 | a directory failure is returned as is; otherwise the index holds a sorted permutation of the loaded posts and its slug and tag indexes |
| Loader.LoadProjects | internal/content/loader.go:123-149 | the same for projects and their slug index |
| Loader.SlugIndexKeys | internal/content/loader.go:114 | the slug index's keys are exactly the posts' slugs, and each maps to a post with that slug |
| Loader.SlugIndexFinds | internal/content/loader.go:112-114 | with distinct slugs every post is found under its own slug, and the index has exactly len(Posts) keys |
| Loader.DistinctSlugsPermutation | internal/content/loader.go:108-110 | sorting keeps slugs distinct |
| Loader.AddTagsEffect | internal/content/loader.go:115-117 | adding a post under its tags appends it to the bucket of t once per occurrence of t, and creates a key only for its own tags |
| Loader.TagIndexMeaning | internal/content/loader.go:112-118 | bucket t lists, in sorted order, each post once per occurrence of t in its tags; t is a key exactly when some post has it |
| Loader.TagBucketMembers | internal/content/loader.go:115-117 | a post is in bucket t exactly when it is loaded and has tag t, so a post without tags is in no bucket |
| Loader.PostNewerOrder | internal/content/loader.go:108-110 | "newer date" is a strict weak order, which is what sort.Slice requires of its less function |
| Loader.ProjectNewerOrder | internal/content/loader.go:139-141 | the same for projects |
| Loader.RenderInline | internal/content/loader.go:227-239 | "" renders as ""; the other cases are stated by RenderInlineFallback, RenderInlineParagraph and RenderInlineSinglePass |
| Loader.RenderInlineEmpty | internal/content/loader.go:228-230 | "" renders as "" whatever the renderer would do |
| Loader.RenderInlineFallback | internal/content/loader.go:232-234 | on a renderer error the HTML-escaped input is returned, and it contains no markup rune |
| Loader.RenderInlineParagraph | internal/content/loader.go:235-238 | goldmark's "<p>t</p>\n" comes back as t trimmed, when t holds no paragraph tag |
| Loader.RenderInlineSinglePass | internal/content/loader.go:236-237 | each removal is a single pass, so "<<p>p>" still leaves "<p>" |
| Loader.RenderOneShape | internal/content/loader.go:215-223 | a rendered bullet keeps its raw fields, has Text = render(RawText) and one Sub per RawSub, recursively |
| Loader.RenderedFromUnique | internal/content/loader.go:215-223 | that shape determines the rendered bullet completely |
| Loader.RenderTreeIdempotent | internal/content/loader.go:219-221 | rendering reads only the raw fields, so rendering twice equals rendering once |
| Loader.RenderBullets | internal/content/loader.go:215-223 | the in-place loop leaves every bullet of the array rendered from its old value; the raw tree is unchanged |
| Loader.RenderBulletAt | internal/content/loader.go:217-221 | one bullet rendered in place, including its copied and recursively rendered Sub; no other slot changes |
| Loader.RenderEntryAt | internal/content/loader.go:210-213 | one entry gets its date range and its rendered bullets; no other slot changes |
| Loader.RenderEntries | internal/content/loader.go:170-178 | every entry of a section is rendered in place |
| Loader.RenderEntryAllMeaning | internal/content/loader.go:210-213 | each rendered entry has DateRange = FormatDateRange(Start, End), its own other fields, and bullets of the same shape |
| Loader.RenderItems | internal/content/loader.go:189-192 | Items has the length of RawItems, rendered element-wise |
| Loader.RenderPresentations | internal/content/loader.go:181-184 | every venue is rendered and every date formatted in place |
| Loader.RenderPublications | internal/content/loader.go:187-193 | every publication section gets its rendered items |
| Loader.RenderOpenSource | internal/content/loader.go:196-204 | every open-source project gets its Bullets, one per RawBullet, rendered in place |
| Loader.PostProcess | internal/content/loader.go:166-204 | the sequence of post-processing loops equals ProcessResume |
| Loader.RenderEntrySection | internal/content/loader.go:170-178 | a section copied to an array, rendered, and read back equals RenderEntryAll |
| Loader.ProcessResume | internal/content/loader.go:166-204 | name, tagline, raw summary, skills and awards are kept and the entry sections keep their lengths; the rest is stated by ProcessResumeMeaning |
| Loader.ProcessResumeMeaning | internal/content/loader.go:166-204 | the summary, venues, publication items and open-source bullets are rendered element-wise with matching lengths; each entry section is rendered as renderEntry promises; presentation dates are formatted; the other fields are untouched |
| Loader.ProcessResumeIdempotent | internal/content/loader.go:166-204 | post-processing twice equals post-processing once |
| Loader.ResumeOf | internal/content/loader.go:151-208 | no résumé and no error exactly when resume.yaml does not exist; a résumé only when the file is read and decoded |
| Loader.LoadResume | internal/content/loader.go:151-208 | a missing resume.yaml gives no résumé and no error; another read error is returned; a YAML error is wrapped "parsing resume YAML"; otherwise the post-processed résumé |
| Loader.LoadFromDir | internal/content/loader.go:38-58 | the first failing stage (blog, projects, résumé) is reported with its "loading ..." prefix and no store; otherwise the store is a load of the directory |
| Loader.LoadedPosts | internal/content/loader.go:107-118 | a loaded store's posts are newest first; every post is found by its slug; PostsBySlug has len(Posts) keys; each tag bucket is TagBucket; tag keys are exactly the tags used |
| Loader.LoadedProjects | internal/content/loader.go:138-146 | a loaded store's projects are newest first, every project is found by its slug, and ProjectsBySlug has len(Projects) keys |
| Loader.EmptyContentDir | internal/content/loader.go:45-57 | a directory with no blog, projects or résumé loads without error into an empty store |
| Loader.NewestFirst | internal/content/loader.go:108-110 | loading two posts of different dates puts the newer one first, in either listing order |
| Store.AtomicStore.constructor | internal/content/store.go:11-13 | a new store holds nil |
| Store.AtomicStore.Load | internal/content/store.go:15-17 | returns what the store holds and changes nothing |
| Store.AtomicStore.Store | internal/content/store.go:19-21 | replaces the held snapshot wholesale |
| Store.FreshStoreIsEmpty | internal/content/store.go:11-17 | Load on a fresh store returns nil |
| Store.LoadAfterStore | internal/content/store.go:15-21 | after Store(cs), Load returns exactly cs, and so does a second Load |
| Store.LastStoreWins | internal/content/store.go:19-21 | after two Stores, Load returns the later value |
| Sync.Auth | internal/content/sync.go:24-32 | any credential has user name "git" |
| Sync.AuthRoundTrip | internal/content/sync.go:24-32 | an empty token gives no credentials; any other token is the credential's password |
| Sync.RefName | internal/content/sync.go:102-104 | a reference always starts with "refs/heads/" |
| Sync.RefNameRoundTrip | internal/content/sync.go:102-104 | the branch is read back from its reference |
| Sync.RefNameInjective | internal/content/sync.go:102-104 | distinct branches give distinct references |
| Sync.CloneOrPull | internal/content/sync.go:34-71 | one sync step; its meaning is stated by CloneOrPullSucceeds, CloneOrPullAction and CloneOrPullErrors |
| Sync.CloneOrPullSucceeds | internal/content/sync.go:34-71 | succeeds exactly for an accepted clone into a directory without .git, or for a pull that brought changes or was already up to date |
| Sync.CloneOrPullAction | internal/content/sync.go:39-65 | one shallow (depth 1), single-branch clone with the branch's reference and the token's credential exactly when .git is absent; one pull with the same reference and credential exactly when the repository and worktree open; no other git call |
| Sync.CloneOrPullErrors | internal/content/sync.go:35-70 | a Stat error other than absence gives "checking content dir" and no git call; the clone's error is returned; open and worktree errors are wrapped; a pull error other than up-to-date is returned unchanged |
| Sync.SyncTick | internal/content/sync.go:81-97 | publishes exactly when both sync and reload succeed, and then the store holds a load of the directory; otherwise the store is unchanged |
| Sync.FirstCancel | internal/content/sync.go:77-80 | the position of the first cancellation; every event before it is a tick |
| Sync.LastGood | internal/content/sync.go:81-93 | the last tick that succeeds, with no successful tick after it |
| Sync.TickAt | internal/content/sync.go:81-97 | one tick moves the store from the snapshot of the last good tick before it to the snapshot of the last good tick up to and including it |
| Sync.BackgroundSync | internal/content/sync.go:73-100 | consumes events up to the first cancellation; the store then holds the snapshot of the last successful tick, or what it held before when no tick succeeded |
| Config.ClampInt | internal/config/config.go:118-126 | with lo ≤ hi the result is in [lo, hi], and a value in range is kept |
| Config.ClampIntRange | internal/config/config.go:118-126 | with lo ≤ hi the result lies in [lo, hi], equals v when v is in range, and clamping is idempotent |
| Config.ClampFloat | internal/config/config.go:128-136 | with lo ≤ hi a non-NaN value ends in [lo, hi]; NaN stays NaN |
| Config.ClampFloatRange | internal/config/config.go:128-136 | the same for a non-NaN float |
| Config.ClampFloatNaN | internal/config/config.go:128-136 | NaN passes through the clamp out of range |
| Config.EnvOr | internal/config/config.go:85-90 | a set, non-empty variable's value is returned; an unset or empty variable gives the fallback |
| Config.EnvOrEmptyIsUnset | internal/config/config.go:85-90 | a variable set to "" reads the same as an unset one, namely the fallback |
| Config.EnvOrInt | internal/config/config.go:92-103 | an empty or unparsable value gives the fallback |
| Config.EnvOrIntRoundTrip | internal/config/config.go:92-103 | a variable holding the decimal form of a 64-bit n reads as n |
| Config.EnvOrFloatAsWritten | internal/config/config.go:105-116 | as written: an unset variable gives the fallback; otherwise the result is the fallback or whatever ParseFloat returned, NaN included |
| Config.EnvOrFloat | internal/config/config.go:105-116 | corrected: a NaN value falls back like an unparsable one, so a non-NaN fallback gives a non-NaN result |
| Config.SyncIntervalAsWritten | internal/config/config.go:44-51 | as written: an unset variable gives five minutes, and any accepted value is what ParseDuration returned, zero and negative durations included (see ZeroIntervalAsWritten, IntervalsAgree) |
| Config.SyncInterval | internal/config/config.go:44-51 | corrected: any interval that is accepted is positive |
| Config.Particles | internal/config/config.go:63-80 | each particle setting read with its default and clamped, then SizeMax raised to SizeMin; its bounds are stated by ParticlesInRange and, as written, by SizeMaxNaNAsWritten |
| Config.ParticlesInRange | internal/config/config.go:63-80 | corrected: Count is in [1, 500], ConnectDistance and PushRange are in [10, 1000], and 0.1 ≤ SizeMin ≤ SizeMax ≤ 20 |
| Config.LoadAsWritten | internal/config/config.go:38-83 | as written: succeeds exactly when CONTENT_REPO_URL is set and SYNC_INTERVAL parses (any duration), with the URL as given |
| Config.Load | internal/config/config.go:38-83 | corrected: succeeds exactly when CONTENT_REPO_URL is set and SYNC_INTERVAL is unset or a positive duration, with the URL as given and a positive interval |
| Config.LoadFailures | internal/config/config.go:38-51 | corrected: fails exactly when CONTENT_REPO_URL is empty or unset (checked first, "CONTENT_REPO_URL is required") or SYNC_INTERVAL is invalid; an unset interval gives 5 minutes; a parse error is reported with the quoted value |
| Config.Assemble | internal/config/config.go:53-62 | the Config record built from the settings; what each field holds is stated by LoadedConfig |
| Config.LoadedConfig | internal/config/config.go:53-82 | the repository URL, port, branch, content directory, token, site title, site URL and both particle colours come from their variables or defaults, DevMode holds iff DEV_MODE is exactly "true", the interval is positive, the integer settings are in range, and SizeMax ≥ SizeMin |
| Config.CorrectionsConservative | internal/config/config.go:38-83 | the corrected Load agrees with Load as written whenever no float setting is NaN and the interval is positive |
| Config.IntervalsAgree | internal/config/config.go:44-51 | the corrected interval step agrees with the written one whenever no non-positive duration is given |
| Config.SizeMaxNaNAsWritten | internal/config/config.go:65-80 | as written, PARTICLE_SIZE_MAX=NaN loads with SizeMax NaN, which is not ≥ SizeMin |
| Config.ZeroIntervalAsWritten | internal/config/config.go:44-51 | as written, SYNC_INTERVAL=0s loads with interval 0; the corrected Load refuses it |
| Render.Truncate | internal/render/render.go:30-36 | succeeds exactly when n ≥ 0; for n < 0 Go's slice panics, and the template engine reports it as "error calling truncate: runtime error: slice bounds out of range [:n]" (its template-position prefix is not modelled) |
| Render.TruncateMeaning | internal/render/render.go:30-36 | text of at most n runes is unchanged; longer text becomes its first n runes plus "..." (n+3 in all); the result always starts with the first min(n, \|s\|) runes |
| Render.TruncateStable | internal/render/render.go:30-36 | truncating the result to its own length changes nothing |
| Render.Render | internal/render/render.go:76-82 | succeeds only for a registered page; a missing page fails with "template \"NAME\" not found" |
| Render.RenderFeed | internal/render/render.go:84-90 | succeeds only when the feed page is registered; otherwise "feed template not found" |
| Render.RenderMissing | internal/render/render.go:76-80 | a page not in the map fails with "template \"NAME\" not found", whatever the data |
| Render.RenderReadsOneEntry | internal/render/render.go:76-82 | Render depends only on the named entry of the template map and succeeds only for a registered name |
| Render.RenderFeedMissing | internal/render/render.go:84-88 | without "templates/feed.xml" the feed fails with "feed template not found", whatever the data |
| Render.RenderFeedIsFeedPage | internal/render/render.go:84-90 | the feed executes the feed page's "feed" template, where Render executes "base" |
| Handler.BasePage | internal/handler/handler.go:36-46 | the base page carries the site URL and the active navigation entry, and has no canonical URL yet |
| BlogHandler.StringLessOrder | internal/handler/blog.go:50 | the rune-wise string order, which agrees with Go's byte-wise order because UTF-8 preserves code-point order, is a strict weak order, as sort.Strings needs |
| BlogHandler.SortedDistinctAscending | internal/handler/blog.go:47-50 | a sorted list without repetitions is strictly ascending |
| BlogHandler.KeySet | internal/handler/blog.go:43-46 | the tag set is exactly the keys of PostsByTag |
| BlogHandler.ListOf | internal/handler/blog.go:47-49 | the list holds each member of the set once |
| BlogHandler.SortStrings | internal/handler/blog.go:50 | sorting keeps the members and makes the list strictly ascending |
| BlogHandler.AllTags | internal/handler/blog.go:43-50 | AllTags is strictly ascending (sorted, no duplicates) and holds exactly the keys of PostsByTag |
| BlogHandler.BlogList | internal/handler/blog.go:22-55 | the "Blog" list page; a nil store shows no posts and no tags; a non-empty tag is the ActiveTag, and its bucket's posts are shown in bucket order (none for an unknown tag); no tag shows all posts; every tag is listed in ascending order |
| BlogHandler.BlogPostPage | internal/handler/blog.go:57-80 | not found exactly when the store is nil or the slug is unknown; otherwise the post, with its title, description and canonical URL SiteURL + "/blog/" + slug |
| BlogHandler.TagBucketSorted | internal/content/loader.go:112-117 | a tag bucket keeps the newest-first order of the posts |
| BlogHandler.TagListing | internal/handler/blog.go:31-38 | for a loaded store a tag page lists, newest first, exactly the posts that carry the tag |
| BlogHandler.EveryPostHasAPage | internal/handler/blog.go:67-72 | every loaded post is found at its own slug |
| HomeHandler.FeaturedMembers | internal/handler/home.go:36-40 | a project is featured on the home page exactly when it is loaded and marked Featured |
| HomeHandler.FeaturedConcat | internal/handler/home.go:36-40 | the filter distributes over concatenation, so it keeps the original order |
| HomeHandler.Featured | internal/handler/home.go:36-40 | the loop collects exactly FilterFeatured of the projects |
| HomeHandler.Home | internal/handler/home.go:15-45 | not found exactly for a path other than "/"; otherwise the home page with canonical URL SiteURL; a nil store shows nothing; otherwise the first min(5, len(Posts)) posts and the featured projects |
| HomeHandler.RecentAreNewest | internal/handler/home.go:30-34 | for a loaded store no post left off the home page is newer than one shown |
| ProjectHandler.ProjectList | internal/handler/project.go:19-35 | the "Projects" page with canonical URL SiteURL + "/projects", showing every loaded project unchanged, or none for a nil store |
| ProjectHandler.ProjectDetail | internal/handler/project.go:37-60 | not found exactly when the store is nil or the slug is unknown; otherwise the project, with its title, description and canonical URL SiteURL + "/projects/" + slug |
| ProjectHandler.EveryProjectHasAPage | internal/handler/project.go:47-53 | every loaded project is found at its own slug, and the list is newest first |
| Sorting.InsertionSort | internal/content/loader.go:108-110 | the array ends up sorted by the given strict weak order and is a permutation of its old contents |
| Sorting.Insert | internal/content/loader.go:108-110 | one outer pass extends the ordered prefix by an element and permutes the array |
| Text.TrimSuffix | internal/content/loader.go:80 | when s ends in the suffix the result plus the suffix is s; otherwise s is unchanged |
| Text.Quote | internal/config/config.go:48 | the quoted value is enclosed in double quotes and at least two runes longer |
| Text.QuotePlain | internal/config/config.go:48 | a value without quote or backslash is quoted as it is |
| Sorting.DistinctPermutation | internal/handler/blog.go:50 | a permutation of a list without repetitions has none |
| Text.TrimSpace | internal/content/loader.go:235 | the result is the window of s that starts and ends with a non-space rune, with only white space outside it |
| Text.TrimSpaceIdempotent | internal/content/loader.go:238 | trimming twice is trimming once |
| Text.RemoveAllAbsent | internal/content/loader.go:236-237 | removing a pattern that does not occur changes nothing |
| Text.HTMLEscapeRoundTrip | internal/content/loader.go:233 | html unescaping undoes the escape of any NUL-free string |
| Text.IntToStringAtoi | internal/config/config.go:97 | decimal formatting and Atoi are inverse on 64-bit integers |

## Left out

- goldmark, its front-matter extension and the highlighter are oracles. So are yaml.v3's `Unmarshal` of the résumé and the decoding of front-matter into a post or project. Only their success or failure and their results are modelled. The bullet decoder is modelled in full because the repository defines it.
- `os.ReadDir`, `os.ReadFile`, `os.Stat` and the git operations are oracles that report an outcome. The model takes the listing in the order it is given. The directory's names are assumed distinct where a lemma needs it (`ListingsDistinct`).
- `filepath.Join` is modelled as `dir + "/" + name`, without path cleaning.
- The atomicity of `atomic.Pointer` and all concurrency are left out. The store is a sequential register; handlers and the sync loop are never interleaved.
- The ticker, `select` and the context are reduced to a finite sequence of events. Wall-clock time and log output (`slog`) are not modelled.
- Sync.BackgroundSync: the requirement of a positive interval stands for the `time.NewTicker` panic; the ticker's timing is otherwise not modelled.
- Floating-point values are exact reals plus ±Inf and NaN. Rounding and the parsing of float and duration strings are left to the `Parsers` oracle.
- Text.Quote: only `"` and `\` are escaped, not the control and non-printable runes that Go's `%q` also escapes.
- `render.New`, which parses the templates, is not modelled; a `Renderer` is given as its template map. Template execution is an oracle. The date-formatting helpers, `join`, `safeHTML` and `currentYear` are not modelled.
- HTTP requests, responses, status codes, routing and the bytes written are not modelled. The 404 page is the `NotFound` outcome. JSON-LD, the particle settings in the page data, and the OGType, OGImage and Author values beyond `BasePage` are not modelled.
- The legacy `resume.md` test in internal/content/loader_test.go:188-217 reads a field that `Resume` does not have. The model follows the loader, which reads only resume.yaml.
- Markdown files are bytes (`seq<bv8>`) and their content is never inspected; the résumé's strings are strings of runes.
- Go's map iteration order is unspecified. In `BlogList`, keys are taken from the map in an arbitrary order (`:|`), and the contract does not depend on that order.
- ContentStore holds values where Go holds pointers into `Posts` and `Projects`. This is equivalent because nothing writes them after loading.

## Findings

| source | as written | input that shows it | evidently intended | confidence | as-written member | corrected member |
|---|---|---|---|---|---|---|
| internal/config/config.go:65-80 | `envOrFloat` returns whatever `strconv.ParseFloat` accepts, including NaN. `clampFloat` passes NaN through. `SizeMax < SizeMin` is false for NaN, so the fix-up never runs. | PARTICLE_SIZE_MAX=NaN | an invalid float falls back to its default, and SizeMax ≥ SizeMin holds after Load | not executed | Config.SizeMaxNaNAsWritten | Config.LoadedConfig |
| internal/config/config.go:44-51 | any duration that `time.ParseDuration` accepts is used, including zero and negative ones. `time.NewTicker` at internal/content/sync.go:74 panics on them when the background sync starts (internal/server/server.go:56, 75). | SYNC_INTERVAL=0s | Load rejects a non-positive interval | not executed | Config.ZeroIntervalAsWritten | Config.SyncInterval |
