# HTML proceedings generator, modelled in Dafny

The generator turns a conference's paper submissions into static HTML
proceedings. Its core does three things:

1. **Session helper.** It groups the accepted papers into sessions by the
   short title of their session. A paper without one goes to `No-Session`.
   Each session's papers are sorted by position. The sessions are then
   assigned to the tracks of a table-of-contents file: a session matches on
   the first word of its short title, and the last entry that lists it wins.
   The tracks are sorted by position.
2. **HTML builder.**
   - It looks up each paper's PDF and video with `find`, padding the id to
     three digits.
   - It joins author names with ` & `.
   - It merges a track's sessions according to a fixed rule table (`UP-YP02`
     into `UP-YP01`).
   - It writes the table of contents: a conference header whenever the
     conference changes, then one block per track, with an optional preface
     before or after the track header.
   - It writes a sidebar: one block per conference, in order of first
     appearance.
   - It writes one subpage per paper and per preface by replacing the
     template markers.
3. **Paper filter.** Before any of this, the entry point keeps only papers
   that have a DOI, are accepted and list their files.

Each file models one part of the source:

| Dafny file | source it models |
|---|---|
| `session_helper.dfy` | `lib/sessionhelper/index.js` |
| `html_builder.dfy` | `lib/htmlbuilder/index.js` |
| `build.dfy` | `filterPapers` in `build.js` |
| `session_helper_proofs.dfy`, `html_builder_proofs.dfy`, `html_layout_proofs.dfy` | the lemmas about the two modules above |
| `strings.dfy` | the JavaScript string operations the source relies on: `replace` with a string pattern (first occurrence, with `$` expansion), `split`, `join`, `trim`, and `split(p).join(r)` as replace-all |
| `stable_sort.dfy` | `Array.prototype.sort` with a numeric comparator, as a stable insertion sort |
| `sequences.dfy` | first-seen order, multiset sums and subsequences |
| `records.dfy` | the records |
| `wrappers.dfy` | `Option` |

The model has the source's shape.
- The `sessions` dictionary that `addPaperToSessions` and
  `sortPapersInSession` change in place is a class, `SessionTable`, with a
  field of buckets.
- The helpers' methods carry the source's loops, with invariants.
- Each method is proved equal to a specification function, and the
  properties are proved about those functions.
- JavaScript objects used as dictionaries are sequences of entries with
  distinct keys, in insertion order.

Details of the code that the model keeps:
- `getTrackForSession` keeps overwriting its result, so the last listing
  entry wins.
- `concatSessionsForTrack` walks backwards. Papers merged into a target are
  therefore appended in the order of the sources from last to first, and the
  result is not re-sorted.
- The merge assumes the target session exists. When it does not, the
  JavaScript throws. The model returns `None`, and the failure propagates to
  the track and to the whole table of contents.
- A paper subpage without a video keeps its `class="hidden"` and
  `{{VIDEOPATH}}` markers.
- A missing PDF path is `undefined`, and `join(undefined)` joins with `","`.
- The merge properties need the rule targets not to be rule keys
  (`TargetsAreNotKeys`). `SESSION_MATCHING` satisfies this.

## Model

| member | source | states |
|---|---|---|
| `SessionHelper.FirstToken` | lib/sessionhelper/index.js:11 | the token is a prefix of the short title, contains no space, and is followed by a space unless it is the whole title |
| `SessionHelper.LastMatch` | lib/sessionhelper/index.js:12-22 | `None` exactly when no entry lists the title; otherwise the descriptor of an entry that lists it and that no later entry follows in listing it |
| `SessionHelper.SessionHelper.GetTrackForSession` | lib/sessionhelper/index.js:8-24 | the loop returns the last-match descriptor for the first token of the short title |
| `SessionHelper.BucketIndex` | lib/sessionhelper/index.js:46 | a found bucket has the key; `None` means no bucket has it |
| `SessionHelper.SortedSessions` | lib/sessionhelper/index.js:26-37 | same number of buckets, each bucket replaced by its papers sorted by position in session |
| `SessionHelper.SessionHelper.SortPapersInSession` | lib/sessionhelper/index.js:26-37 | sorts the table's buckets in place and returns the same table |
| `SessionHelper.SessionHelper.AddPaperToSessions` | lib/sessionhelper/index.js:39-55 | the table becomes the old buckets with the paper added: a rejected paper changes nothing, an unknown key opens a bucket, a known key appends to its bucket |
| `SessionHelper.SessionHelper.GroupSessions` | lib/sessionhelper/index.js:57-65 | returns a fresh table holding the papers' sorted session list |
| `SessionHelper.SessionHelper.CreateSessionList` | lib/sessionhelper/index.js:67-70 | the same session list as `groupSessions` |
| `SessionHelper.TrackIndex` | lib/sessionhelper/index.js:85 | a found track has the id; `None` means no track has it |
| `SessionHelper.SessionHelper.AddSessionToTracks` | lib/sessionhelper/index.js:82-96 | one step of the first loop: the session joins the track its lookup names, which is created if new |
| `SessionHelper.SessionHelper.CollectTracks` | lib/sessionhelper/index.js:80-103 | the loop over all sessions builds the collected tracks |
| `SessionHelper.SessionHelper.ExtractTracks` | lib/sessionhelper/index.js:76-108 | returns the collected tracks of the papers' session list, sorted by position |
| `SessionHelper.SessionHelper.constructor` | lib/sessionhelper/index.js:72-74 | keeps the table-of-contents entries |
| `SessionHelper.SessionTable.constructor` | lib/sessionhelper/index.js:58 | starts with no buckets |
| `StableSort.SortSorted` | lib/sessionhelper/index.js:29-33 | the sort's result is in non-decreasing key order |
| `StableSort.SortPermutes` | lib/sessionhelper/index.js:29-33 | the result is a permutation of the input |
| `StableSort.SortStable` | lib/sessionhelper/index.js:104-106 | elements with equal keys keep their order |
| `StableSort.StableSortIsSortBy` | lib/sessionhelper/index.js:104-106 | any sorted arrangement that keeps the order within equal keys is the sort's result, so the model fixes the result |
| `StableSort.SortDistinctBy` | lib/sessionhelper/index.js:104-106 | sorting keeps distinct ids distinct |
| `SessionHelperProofs.AddPaperKeys` | lib/sessionhelper/index.js:46-52 | adding a paper keeps the bucket keys equal to the accepted keys in first-seen order |
| `SessionHelperProofs.AddPaperPapers` | lib/sessionhelper/index.js:53 | adding a paper keeps every bucket equal to the accepted papers with its key, in insertion order |
| `SessionHelperProofs.AddPaperTitles` | lib/sessionhelper/index.js:47-51 | adding a paper keeps every bucket non-empty and titled by its first paper's session title |
| `SessionHelperProofs.GroupedShape` | lib/sessionhelper/index.js:57-62 | after the loop the buckets have distinct keys in first-seen order, exactly the papers with their key, and their first paper's title |
| `SessionHelperProofs.PaperPlacement` | lib/sessionhelper/index.js:39-62 | an accepted paper lies in the bucket of its key; a paper lies only in that bucket and only if accepted; the keys are distinct |
| `SessionHelperProofs.UnsortedPaperPlacement` | lib/sessionhelper/index.js:43-45 | a paper with an empty short title is rewritten to `No-Session` and lies in that bucket |
| `SessionHelperProofs.SortedBucket` | lib/sessionhelper/index.js:29-33 | a sorted bucket is in position order, a permutation of the bucket, and stable |
| `SessionHelperProofs.SessionListShape` | lib/sessionhelper/index.js:57-70 | the session list has the first-seen keys; each session is non-empty, titled by its first inserted paper, sorted, a permutation of its inserted papers, and stable |
| `SessionHelperProofs.AddSessionIds` | lib/sessionhelper/index.js:85-94 | one step keeps the track ids equal to the looked-up ids in first-seen order |
| `SessionHelperProofs.AddSessionSessions` | lib/sessionhelper/index.js:95 | one step keeps every track holding exactly the sessions whose lookup returned its id |
| `SessionHelperProofs.AddSessionInfo` | lib/sessionhelper/index.js:86-93 | one step keeps every track carrying the descriptor of its first session |
| `SessionHelperProofs.CollectShape` | lib/sessionhelper/index.js:80-98 | the collected tracks have distinct ids in first-seen order, exactly their sessions, and their descriptors |
| `SessionHelperProofs.CollectedSession` | lib/sessionhelper/index.js:82-96 | an unresolved session is in no track; a resolved one is in the track with the looked-up id and in no other |
| `SessionHelperProofs.ExtractTracksMembership` | lib/sessionhelper/index.js:76-108 | the same holds of the sorted result of `extractTracks` |
| `SessionHelperProofs.SortedTracks` | lib/sessionhelper/index.js:104-106 | sorting the tracks orders them by position, stably, and keeps their ids distinct |
| `SessionHelperProofs.ExtractTracksOrder` | lib/sessionhelper/index.js:99-107 | the result is sorted by position, keeps first-encounter order among equal positions, and has pairwise distinct ids |
| `SessionHelperProofs.AddPaperBag` | lib/sessionhelper/index.js:39-55 | adding a paper adds exactly it, normalised, to the resolved papers when it is accepted and resolves; otherwise the resolved papers stay the same |
| `SessionHelperProofs.GroupedBag` | lib/sessionhelper/index.js:57-62 | the resolved buckets hold exactly the accepted, resolving papers, as a multiset |
| `SessionHelperProofs.SortedSessionsBag` | lib/sessionhelper/index.js:26-37 | sorting the buckets loses and duplicates no paper |
| `SessionHelperProofs.AddSessionBag` | lib/sessionhelper/index.js:95 | one step adds the session's papers to the tracks exactly when it resolves |
| `SessionHelperProofs.CollectBag` | lib/sessionhelper/index.js:80-98 | the tracks hold exactly the papers of the resolving sessions |
| `SessionHelperProofs.ExtractTracksPapers` | lib/sessionhelper/index.js:76-108 | the tracks of `extractTracks` hold exactly the accepted papers whose session resolves, none twice |
| `HtmlBuilder.Zeros` | lib/htmlbuilder/index.js:59-61 | `n` zeros |
| `HtmlBuilder.PaddedId` | lib/htmlbuilder/index.js:56-61 | an id of three or more characters is unchanged; otherwise it becomes three characters of leading zeros followed by the id |
| `HtmlBuilder.HTMLBuilder.PadSearchId` | lib/htmlbuilder/index.js:59-61 | the padding loop computes the padded id |
| `HtmlBuilder.HTMLBuilder.GetFileById` | lib/htmlbuilder/index.js:54-74 | the path extracted, by the corrected first-line reading, from the `find` output for the padded id; when `find` reports one file, exactly the path the source's reading of the whole output gives |
| `HtmlBuilder.Names` | lib/htmlbuilder/index.js:96-98 | the authors' names, in order |
| `HtmlBuilder.ConcatAuthors` | lib/htmlbuilder/index.js:91-100 | a single author gives its name, a one-element list gives that name, an empty list gives the empty string |
| `HtmlBuilder.SessionIndex` | lib/htmlbuilder/index.js:102-110 | a found index holds a session with the short title |
| `HtmlBuilder.SessionIndexFirst` | lib/htmlbuilder/index.js:102-110 | `None` exactly when no session has the short title; otherwise the first session that has it |
| `HtmlBuilder.HTMLBuilder.GetSessionByShortTitle` | lib/htmlbuilder/index.js:102-110 | the loop returns the first session with the short title, or `None` exactly when there is none |
| `HtmlBuilder.MergeStep` | lib/htmlbuilder/index.js:114-120 | a step that merges removes one session; other steps keep the count |
| `HtmlBuilder.HTMLBuilder.ConcatSessionsForTrack` | lib/htmlbuilder/index.js:112-123 | the backward loop computes the merged sessions, or fails where the source throws |
| `HtmlBuilder.SessionLines` | lib/htmlbuilder/index.js:134-141 | the session header, then one entry per paper in order |
| `HtmlBuilder.HTMLBuilder.CreateSessionEntryForTOC` | lib/htmlbuilder/index.js:134-141 | the loop joins those lines with newlines |
| `HtmlBuilder.HTMLBuilder.CreateSessionBlocks` | lib/htmlbuilder/index.js:153-155 | the loop over the merged sessions yields one session block per session, in order |
| `HtmlBuilder.HTMLBuilder.CreateTrackEntryForTOC` | lib/htmlbuilder/index.js:143-157 | the track block: merge, preface and track header, session blocks |
| `HtmlBuilder.HTMLBuilder.CreateTOCString` | lib/htmlbuilder/index.js:171-184 | the table-of-contents lines joined by newlines, or `None` when a track block fails |
| `HtmlBuilder.HTMLBuilder.BuildTOC` | lib/htmlbuilder/index.js:172-183 | the loop with `lastConference` produces the lines assembled from the track blocks and conference headers, joined by newlines |
| `HtmlBuilder.TocLinesAssemble` | lib/htmlbuilder/index.js:171-184 | the table of contents is the assembly of the track blocks and conference headers |
| `HtmlBuilder.TocFromStart` | lib/htmlbuilder/index.js:172-183 | the loop's result, which tracks the last conference, equals the assembly defined track by track from the previous track |
| `HtmlBuilder.TocFromPrefix` | lib/htmlbuilder/index.js:174-182 | the loop continued from any point whose lines so far are right produces the whole assembly |
| `HtmlBuilder.AssembleStep` | lib/htmlbuilder/index.js:177-181 | one more track adds its header when it opens a conference, then its block |
| `HtmlBuilder.AssembleFails` | lib/htmlbuilder/index.js:181 | a failing track block fails the whole assembly |
| `HtmlBuilder.AssemblePrefixFails` | lib/htmlbuilder/index.js:174-182 | a failing prefix fails the whole assembly |
| `HtmlBuilder.Links` | lib/htmlbuilder/index.js:196-199 | one link entry per track, in order |
| `HtmlBuilder.HTMLBuilder.CreateConferenceEntryForSidebar` | lib/htmlbuilder/index.js:193-201 | the loop produces the conference block with the links as its content |
| `HtmlBuilder.Conferences` | lib/htmlbuilder/index.js:207-208 | the tracks' conferences, in order |
| `HtmlBuilder.TracksOf` | lib/htmlbuilder/index.js:206-212 | only tracks of the input with that conference |
| `HtmlBuilder.GroupIndex` | lib/htmlbuilder/index.js:208 | a found group has the conference; `None` means no group has it |
| `HtmlBuilder.HTMLBuilder.GroupByConference` | lib/htmlbuilder/index.js:206-212 | the loop builds the conference groups |
| `HtmlBuilder.HTMLBuilder.CreateSidebarString` | lib/htmlbuilder/index.js:203-219 | one block per conference group, joined by newlines |
| `HtmlBuilder.ConferenceGroupsSnoc` | lib/htmlbuilder/index.js:207-211 | one more track updates the groups as the loop body does |
| `HtmlBuilder.ConferenceGroupsNew` | lib/htmlbuilder/index.js:208-210 | a track of a new conference opens a group at the end |
| `HtmlBuilder.ConferenceGroupsExisting` | lib/htmlbuilder/index.js:211 | a track of a known conference is appended to its group |
| `HtmlBuilder.HTMLBuilder.CreateSubpage` | lib/htmlbuilder/index.js:221-237 | the file name `p<id>.html` and the subpage text for the paper's video and PDF found by the corrected lookup; when each search reports one file, the text for the paths the source's lookup gives |
| `HtmlBuilder.HTMLBuilder.CreatePrefaceSubpage` | lib/htmlbuilder/index.js:239-248 | the file name `Vorwort-<id>.html` and the preface subpage text for its PDF found by the corrected lookup; when the search reports one file, the text for the path the source's lookup gives |
| `HtmlBuilder.HTMLBuilder.constructor` | lib/htmlbuilder/index.js:294-307 | keeps the templates, the search path and the two outside functions; uses the source's rule and preface tables |
| `HtmlBuilderProofs.SessionMatchingTargets` | lib/htmlbuilder/index.js:17-22 | the rule table's target is not itself a rule key |
| `HtmlBuilderProofs.MergeStepTitles` | lib/htmlbuilder/index.js:114-120 | a step on a non-key changes nothing; a step on a key removes exactly that session from the titles |
| `HtmlBuilderProofs.MergeFromTitles` | lib/htmlbuilder/index.js:113-121 | the remaining short titles are the non-key ones, in their order |
| `HtmlBuilderProofs.ConcatSessionsTitles` | lib/htmlbuilder/index.js:112-123 | after merging no rule key remains, and the other sessions keep their relative order |
| `HtmlBuilderProofs.MergeFromNoKeys` | lib/htmlbuilder/index.js:113-121 | with no key present the loop changes nothing |
| `HtmlBuilderProofs.ConcatSessionsIdempotent` | lib/htmlbuilder/index.js:113-121 | merging merged sessions again changes nothing |
| `HtmlBuilderProofs.MergeStepBag` | lib/htmlbuilder/index.js:117-119 | a step loses and duplicates no paper |
| `HtmlBuilderProofs.MergeFromBag` | lib/htmlbuilder/index.js:113-121 | the loop loses and duplicates no paper |
| `HtmlBuilderProofs.ConcatSessionsBag` | lib/htmlbuilder/index.js:112-123 | the merged sessions hold the same papers, so the paper count is kept |
| `HtmlBuilderProofs.MergeStepKeeps` | lib/htmlbuilder/index.js:119 | a step keeps the sessions before it and the set of non-key titles |
| `HtmlBuilderProofs.MergeStepFails` | lib/htmlbuilder/index.js:115-118 | a step fails exactly when its session is a key whose target no session has |
| `HtmlBuilderProofs.MergeFromFails` | lib/htmlbuilder/index.js:116-118 | the loop fails exactly when some key it reaches has no target session |
| `HtmlBuilderProofs.ConcatSessionsFails` | lib/htmlbuilder/index.js:112-123 | merging fails exactly when some session's rule target is absent |
| `HtmlBuilderProofs.MergeStepTarget` | lib/htmlbuilder/index.js:117-118 | a step appends the source's papers to its target's papers and leaves other targets' papers alone |
| `HtmlBuilderProofs.MergeStepAbsorbed` | lib/htmlbuilder/index.js:117-119 | a step does not change what the sessions before it still have to add |
| `HtmlBuilderProofs.MergeFromTarget` | lib/htmlbuilder/index.js:113-121 | a target ends with its old papers followed by the papers of its sources, from the last source to the first |
| `HtmlBuilderProofs.ConcatSessionsTarget` | lib/htmlbuilder/index.js:112-123 | the same for the whole merge |
| `HtmlLayoutProofs.SearchCommandShape` | lib/htmlbuilder/index.js:62-64 | for a search path and id without `{` and `$`, the command is `find <path> -name "*<id>.<extension>"` |
| `HtmlLayoutProofs.FileByIdSearches` | lib/htmlbuilder/index.js:54-70 | both the corrected lookup and the source's run `find` on that command with the padded id, and read its output |
| `HtmlLayoutProofs.ExtractPathShape` | lib/htmlbuilder/index.js:66-72 | `None` exactly for empty output; otherwise a path that starts with `Proceedings/` and has no newline |
| `HtmlLayoutProofs.ExtractPathAsWrittenBetween` | lib/htmlbuilder/index.js:69-70 | the source's extraction is `Proceedings/` followed by the text between the first and second `Proceedings/`, trimmed |
| `HtmlLayoutProofs.ExtractPathFirstLine` | lib/htmlbuilder/index.js:66-72 | the corrected extraction reads the first file's path |
| `HtmlBuilder.ExtractPathSingleFile` | lib/htmlbuilder/index.js:66-72 | when `find` reports one file, with or without a final newline, the corrected extraction and the source's agree |
| `HtmlBuilder.ExtractPathOneFile` | lib/htmlbuilder/index.js:66-72 | on any output that reports at most one file, the corrected extraction and the source's agree |
| `HtmlBuilder.FileByIdOneFile` | lib/htmlbuilder/index.js:54-74 | when the search reports at most one file, the corrected lookup resolves the path the source's `getFileByID` resolves |
| `HtmlLayoutProofs.ExtractPathTwoFiles` | lib/htmlbuilder/index.js:65-70 | when `find` reports two files, the source's extraction returns the first path, a newline and the next line's directory; the corrected one returns the first path |
| `HtmlLayoutProofs.ExtractPathIdSeven` | lib/htmlbuilder/index.js:56-70 | the concrete case of id `007` matching `p007.pdf` and `p1007.pdf` |
| `HtmlLayoutProofs.ConcatAuthorsSplit` | lib/htmlbuilder/index.js:96-99 | for a non-empty list of names without `&`, splitting the result at ` & ` gives back the names in order |
| `HtmlLayoutProofs.TrackTextLayout` | lib/htmlbuilder/index.js:146-155 | the track block starts with the preface entry then the header when `insertBefore` is set, with the header then the preface entry when it is not, and with the header alone when there is no preface; the block is those lines and then one block per merged session, in order, one per line |
| `HtmlLayoutProofs.LayoutSnoc` | lib/htmlbuilder/index.js:177-181 | the line layout carries over to one more track |
| `HtmlLayoutProofs.AssembleLayout` | lib/htmlbuilder/index.js:174-182 | lines assembled track by track have the layout |
| `HtmlLayoutProofs.TocLinesLayout` | lib/htmlbuilder/index.js:174-182 | the table has one block per track in order, and a conference header right before track `i` exactly when `i` is 0 or its conference differs from track `i-1`'s, and no other lines |
| `HtmlLayoutProofs.TocLinesFailure` | lib/htmlbuilder/index.js:181 | the table fails exactly when some track block fails |
| `HtmlLayoutProofs.ConferenceGroupsPartition` | lib/htmlbuilder/index.js:206-212 | the sidebar groups split the tracks, losing and duplicating none |
| `HtmlLayoutProofs.ConferenceGroupsShape` | lib/htmlbuilder/index.js:203-218 | distinct conferences, one for every track's conference, and each group holds tracks of its conference in input order |
| `HtmlLayoutProofs.TracksOfOrder` | lib/htmlbuilder/index.js:206-211 | a conference's tracks keep input order |
| `HtmlLayoutProofs.TracksOfComplete` | lib/htmlbuilder/index.js:206-211 | every track of the conference is in its group |
| `HtmlLayoutProofs.SubpageMarkersApart` | lib/htmlbuilder/index.js:231-235 | the five text markers cannot overlap `class="hidden"` or `{{VIDEOPATH}}` |
| `HtmlLayoutProofs.PaperSubpageWithoutVideo` | lib/htmlbuilder/index.js:227-235 | without a video, the hidden marker and the video marker survive into the subpage wherever the template has them |
| `HtmlLayoutProofs.MissingCharAbsent` | lib/htmlbuilder/index.js:231-235 | a text lacking one character of a marker holds no occurrence of it, so its `split(marker).join(text)` leaves the text as it is |
| `HtmlLayoutProofs.PaperSubpageOnlyPath` | lib/htmlbuilder/index.js:231-234 | on a template without the characters `I`, `S`, `U` and `D`, and without a video, the title, session, authors and DOI replacements change nothing |
| `HtmlLayoutProofs.PaperSubpageOnePath` | lib/htmlbuilder/index.js:227-235 | a template with one `{{PATH}}` and none of those characters, or `A`, around it becomes the template with the PDF path in place of the marker |
| `HtmlLayoutProofs.PrefaceSubpageOnePath` | lib/htmlbuilder/index.js:244-246 | the same for a preface subpage template |
| `HtmlLayoutProofs.PaperSubpageMarkerReappears` | lib/htmlbuilder/index.js:231-235 | the template `{{P{{PATH}}TH}}` with the PDF path `A` gives the subpage `{{PATH}}`: a replacement can form a new marker with the surrounding text, and that marker stays |
| `HtmlLayoutProofs.PrefaceSubpageMarkerReappears` | lib/htmlbuilder/index.js:244-246 | the same for a preface subpage |
| `Sequences.FirstSeenMembers` | lib/htmlbuilder/index.js:213-217 | the first-seen order lists every conference exactly once and nothing else |
| `Strings.ReplaceFirstAt` | lib/htmlbuilder/index.js:128-130 | `replace` with a string pattern substitutes the first occurrence only |
| `Strings.ReplaceFirstOnly` | lib/htmlbuilder/index.js:186-190 | a template with several occurrences of a marker keeps all but the first after `replace` |
| `Strings.ReplaceAllEvery` | lib/htmlbuilder/index.js:228-235 | `split(marker).join(text)` replaces every occurrence of the marker |
| `Strings.Split` | lib/htmlbuilder/index.js:69 | the pieces join back to the input, none contains the separator, and there is at least one |
| `Strings.SplitJoin` | lib/htmlbuilder/index.js:99 | splitting a join at a separator whose character the pieces lack gives back the pieces |
| `Strings.TrimStart` | lib/htmlbuilder/index.js:70 | removes exactly the leading whitespace |
| `Strings.TrimEnd` | lib/htmlbuilder/index.js:70 | removes exactly the trailing whitespace |
| `Strings.ReplaceAllKeeps` | lib/htmlbuilder/index.js:231-235 | replacing a marker keeps every other marker that cannot overlap it |
| `Build.FilterPapers` | build.js:55-60 | the filter never adds papers |
| `Build.FilterMembers` | build.js:55-60 | a paper survives exactly when it is among the input and has a DOI, `isAccepted` equal to `true` and a list of files |
| `Build.FilterOrder` | build.js:55 | the survivors are a subsequence of the input |
| `Build.FilterPartition` | build.js:55-61 | survivors and left-out papers together are the input; no left-out paper passes |
| `Build.DiscardedCount` | build.js:61 | the logged count is the number of left-out papers and adds up with the survivors to the input length |
| `Build.FilterKeepsPublishable` | build.js:55-60 | a list of passing papers is left unchanged |
| `Build.FilterIdempotent` | build.js:55-60 | filtering twice is filtering once |
| `Build.FilterAccepted` | build.js:57 | no survivor is rejected by the session helper's `isAccepted === 'false'` test |

## Left out

- File input and output are not modelled: reading the templates, writing the content and sidebar files and the subpages, and copying and removing directories. The templates are a `Templates` value. The subpage builders return the file name and the text instead of writing them. `createHTML`, `createSubpagesForPapers` and `createSubpagesForPrefaces` only loop over these I/O steps.
- The `find` shell call is a function parameter `find` from command to output. Neither the order in which `find` lists files nor the directory layout is modelled.
- `escape-html` is a function parameter `escape`, because its code is not part of this model.
- `path.join` is not modelled. The search path is given to the builder's constructor, and subpage file names are returned without their directory.
- The command-line options, XML parsing, loading the table-of-contents file and the Promise chain of `build.js` are plumbing and are not modelled.
- `parseInt` is not modelled: positions are integers already.
- Sorting assumes a stable `Array.prototype.sort`, as ECMAScript 2019 requires of it.
- JavaScript's key enumeration order (integer-like keys first) is not modelled. Dictionaries keep insertion order.
- The setters are not modelled. Their values are constructor parameters.
- HtmlBuilder.HTMLBuilder.ConcatSessionsForTrack: works on a value, so the source's in-place `splice` of the caller's array is not captured. Neither is `targetSession.papers = …` being visible through other references to the target session.
- SessionHelper.SessionHelper.AddPaperToSessions: the rewrite of `paper.session.shortTitle` to `No-Session` is modelled on the copy stored in the bucket. The caller's paper object is not changed; downstream code reads only `session.title`.
- HtmlBuilder.ConcatAuthors: its own contract covers single authors and lists of up to one name. Longer lists are covered by `HtmlLayoutProofs.ConcatAuthorsSplit`, for names without `&`.
- HtmlBuilder.HTMLBuilder.GetFileById: uses the corrected first-line extraction of the Findings below. It states the source's result only when `find` reports at most one file (`HtmlBuilder.FileByIdOneFile`); for two or more files the two differ, as `HtmlLayoutProofs.ExtractPathTwoFiles` and `HtmlLayoutProofs.ExtractPathIdSeven` show.
- HtmlBuilder.HTMLBuilder.CreateSubpage: its subpage is built from the corrected lookup. It equals the source's only when each search reports at most one file; otherwise it differs as `GetFileById` does.
- HtmlBuilder.HTMLBuilder.CreatePrefaceSubpage: the same as `CreateSubpage`, for the preface's PDF.
- HtmlLayoutProofs.FileByIdSearches: states the `find` command and hands its output to the two extractions. For the gap between them it relies on `GetFileById`'s line above.
- HtmlBuilder.PaperSubpage: there is no lemma that the subpage holds none of the markers `{{TITLE}}`, `{{SESSION}}`, `{{AUTHORS}}`, `{{DOI}}` and `{{PATH}}`, because that is false. Each `split(marker).join(text)` replaces every occurrence present when its turn comes (`Strings.ReplaceAllEvery`) and keeps the other markers (`Strings.ReplaceAllKeeps`). But a replacement can form a new marker with the template text around it (`HtmlLayoutProofs.PaperSubpageMarkerReappears`), even when no replacement text holds `{`.
- HtmlBuilder.PrefaceSubpage: the same, shown by `HtmlLayoutProofs.PrefaceSubpageMarkerReappears`.
- The `find` call through `execSync` throws when `find` exits with a non-zero status, for example on a missing search path (lib/htmlbuilder/index.js:65). The parameter `find` is a total function, so that error path is not modelled.
- JavaScript objects used as dictionaries inherit `Object.prototype`, and that is not modelled. The model's mappings are key-value maps and sequences, so every short title behaves like any other string. In the source:
  - a session short title `constructor`, `toString` or `__proto__` finds an inherited value at lib/sessionhelper/index.js:46, so no bucket is created and `.papers.push` throws;
  - the `hasOwnProperty` test at lib/sessionhelper/index.js:81 skips inherited keys, which the model's maps do not have;
  - `SESSION_MATCHING[session.shortTitle]` at lib/htmlbuilder/index.js:115 finds inherited members the same way.
- Records from XML are modelled with every field present, and parsing is not modelled. In the source, `paper.files.file` at build.js:58 throws for a paper without `files`. A paper without a `doi` has `undefined`, which passes `paper.doi !== ''` at build.js:56.
- HtmlLayoutProofs.PaperSubpageWithoutVideo: states that the markers survive without a video. For the case with a video it relies on `Strings.ReplaceAllEvery`, which states every occurrence is replaced, rather than having its own subpage-level lemma.
- `getFilePathForPaper`, `getFilePathForVideo` and `getFilePathForPreface` are the lookups `FileById(…, "pdf")`, `FileById(…, "mp4")` and `FileById(file, "pdf")` inside the subpage methods.
- `getPrefaceForTrack` is the function `PrefaceFor`.
- `createPaperEntryForTOC`, `createPrefaceEntry` and `createLinkEntryForSidebar` are pure chains of `replace`, modelled as the functions `PaperEntry`, `PrefaceEntry` and `LinkEntry`. What each `replace` does is stated by `Strings.ReplaceFirstAt`.
- `replacePlaceholderinFile` is file I/O around one `replace`, and is not modelled.

## Findings

| source | as written | input that shows it | evidently intended | confidence | as-written member | corrected member |
|---|---|---|---|---|---|---|
| lib/htmlbuilder/index.js:69-70 | keeps the text between the first and second `Proceedings/` of the whole `find` output | id `7` padded to `007`, with `a/p007.pdf` and `b/p1007.pdf` under `/out/Proceedings/`: `-name "*007.pdf"` matches both, and the result is `Proceedings/a/p007.pdf`, a newline, `/out/` | the path of one file, taken from the first line of the output | medium, not executed | `HtmlLayoutProofs.ExtractPathIdSeven` | `HtmlLayoutProofs.ExtractPathShape` |

The model's lookup, `FileById`, uses the corrected `ExtractPath`:
- `ExtractPathShape` proves that its result has no newline.
- `ExtractPathSingleFile` and `ExtractPathOneFile` prove that it agrees with the source whenever `find` reports a single file. `FileByIdOneFile` lifts this to the lookup, and `GetFileById`, `CreateSubpage` and `CreatePrefaceSubpage` state it in their contracts.
- The source as written is `ExtractPathAsWritten`.
- `ExtractPathTwoFiles` proves the discrepancy for any two reported files.

Which file `find` reports first is not modelled, so the corrected lookup may still return `p1007.pdf` for id 7.
