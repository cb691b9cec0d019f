# noita-updates-bot, modelled in Dafny

The Noita updates bot polls SteamCMD for the branches of Noita (app 881100).
For each branch it compares the reported `buildid` with the one in its
`saved_branches` store and records the new build. Then, depending on the case:

- an unchanged build is only logged;
- a changed build on a password-locked branch gets an announcement embed;
- `noitabeta`, when `public` was updated earlier in the same pass, is skipped;
- any other changed build is downloaded into `branches/<name>/new`, after the
  previous `new` has become `old`.

When both installs have a `_release_notes.txt`, the bot finds the lines added
since the previous build. It sorts them into sections (GENERAL, SPELLS, PERKS,
BUG FIXES, MODDING) and renders them twice:

- a Markdown message for Discord;
- a plain `patchnotes.txt`.

It writes the file, posts the announcement, and posts the message in chunks of
at most 2000 characters, cut at line feeds where possible.

The model covers the whole of `index.js` that computes something:

- `wrappers.dfy` (module `Wrappers`): `Option`.
- `text.dfy` (module `Text`): the JavaScript string built-ins the bot relies on: `split("\n")`, `startsWith`/`endsWith`, `trim` with the ECMAScript white-space set, `slice` clamping.
- `chunking.dfy` (module `Chunking`): `findLastNewline` and `splitStringAtNewLine`, as methods with loops proved equal to the functions `LastNewline` and `Chunks`.
- `diff.dfy` (module `Diff`): `difference` and the `Set`s around it. A JavaScript `Set` is a duplicate-free sequence in insertion order, so the added lines come out in their first-occurrence order in the new notes.
- `sections.dfy` (module `Sections`): the classifier: the prefix table `section_types`, the five buckets, and the trim, `*…*` and `202x` filters for unprefixed lines. `Classify` loops over the lines and is proved equal to the function `Bucket`.
- `format.dfy` (module `Format`): the two renderers, which build `content` and `patchnotes.txt` in one loop. `FormatNotes` is proved equal to `Render(Chat, …)` and `Render(File, …)`.
- `pipeline.dfy` (module `Pipeline`): `main`, as class `UpdateBot`. It holds the store (`saved`) and the install directories (`disk`). `Poll` returns the sequence of `Action`s a pass performs and is proved equal to the function `Tick`.

The outside world is data:

- SteamCMD's answer is a sequence of `Branch` records in key order. Each record carries the release notes that installing it would put on disk.
- The date string is a parameter.
- Each effect is an `Action`: a log of an up-to-date branch, a skip, a download with its arguments, a write of `patchnotes.txt`, an announcement embed, or one posted chunk.

## Model

| member | source | states |
|---|---|---|
| `Chunking.LastNewline` | index.js:45-51 | the index found is at most `maxLength`; it is 0 or a line feed; no line feed lies between it and `maxLength` |
| `Chunking.FindLastNewline` | index.js:45-51 | the downward scan returns the last line feed at or before `maxLength`, or 0 (`LastNewline`) |
| `Chunking.LastNewlineFinds` | index.js:45-51 | if the last line feed in `1..maxLength` is at `n`, the scan returns `n` |
| `Chunking.Chunks` | index.js:53-76 | every chunk is at most `maxLength` long |
| `Chunking.SplitAtNewLine` | index.js:53-76 | the loop over the remaining text yields exactly `Chunks(text, maxLength)` |
| `Chunking.CutIndex` | index.js:60-65 | the cut is at the last line feed in `1..maxLength` whenever there is one, and at `maxLength` otherwise; no line feed lies between the cut and `maxLength` |
| `Chunking.Remainder` | index.js:72 | each round strictly shortens the remaining text, so the loop ends even without line feeds |
| `Chunking.Step` | index.js:58-72 | one round: the chunk is the prefix up to the cut, and the rest starts one past the cut |
| `Chunking.Reconstruction` | index.js:53-76 | the chunks, with the one-character gaps between them put back, give the input text back exactly |
| `Chunking.GapKinds` | index.js:63-72 | each gap is a line feed, or the single character after a full-length hard cut, or empty at the very end |
| `Chunking.HardCutDropsCharacter` | index.js:63-72 | with no line feed in `1..maxLength`, the chunk is the first `maxLength` characters and the character at `maxLength` is dropped, not sent |
| `Chunking.HardCutExample` | index.js:63-72 | `"abc"` split at 1 gives `["a", "c"]`: the `"b"` is lost |
| `Chunking.ChunkCountWithoutLineFeeds` | index.js:53-76 | for text without line feeds, `L <= n*(m+1) < L+m+1`: the chunk count is ceil(L/(m+1)) |
| `Chunking.TrailingLineFeed` | index.js:53-76 | when the text ends with a line feed, the last gap is that line feed, or the last chunk is `"\n"` itself |
| `Chunking.ShortMessageIsOneChunk` | index.js:53-76 | a line-feed-terminated text of at most `maxLength+1` characters is one chunk, without its final line feed |
| `Text.Prefix` | index.js:68 | `slice(0, n)` is the first `n` characters, or the whole string when `n` is past its end |
| `Text.Suffix` | index.js:72 | `slice(n)` is everything from index `n` on, or the empty string when `n` is past the end |
| `Text.SplitLines` | index.js:162-163 | `split("\n")` yields at least one piece, and no piece contains a line feed |
| `Text.JoinSplit` | index.js:162-163 | joining the pieces of `split("\n")` with line feeds gives the string back |
| `Text.SplitJoin` | index.js:162-163 | splitting a join of line-feed-free lines gives those lines back |
| `Text.SplitTerminated` | index.js:222-236 | splitting line-feed-terminated lines gives the lines plus a final empty piece |
| `Text.Trim` | index.js:204 | `trim()` never lengthens a line and leaves a line that neither starts nor ends with white space unchanged |
| `Text.TrimShape` | index.js:204 | `trim()` returns a contiguous part of the line; everything cut off on either side is white space |
| `Text.TrimEnds` | index.js:204 | the trimmed line is empty, or starts and ends with a non-white-space character |
| `Diff.Without` | index.js:11-17 | an element is in the result iff it is in the first collection and not in the second |
| `Diff.Dedup` | index.js:165 | `new Set(lines)` has no duplicates and the same members as `lines` |
| `Diff.Difference` | index.js:11-17 | deleting each element of `setB` from a copy of `setA` yields `Without(setA, setB)` |
| `Diff.WithoutMore` | index.js:13-15 | one more deletion is the difference with one more element |
| `Diff.WithoutSameMembers` | index.js:11-17 | the result depends only on the members of the second collection, not on their order or repetition |
| `Diff.DedupWithout` | index.js:165 | removing old lines from the deduplicated new lines equals deduplicating the new lines that are not old |
| `Diff.AddedReleaseNotes` | index.js:162-174 | `differences` is `AddedLines(old, new)` |
| `Diff.AddedLinesMembers` | index.js:162-174 | a line is reported iff it is a line of the new notes and not of the old, and none is reported twice |
| `Diff.AddedLinesAreNewLinesInOrder` | index.js:162-174 | the added lines are the new file's lines, minus old lines, in first-occurrence order and without repeats |
| `Diff.DedupOrdered` | index.js:165 | a `Set` lists its members in the order of their first insertion |
| `Diff.WithoutOrdered` | index.js:13-15 | deleting members keeps the order of the rest |
| `Diff.AddedLinesOrder` | index.js:162-174 | the added lines appear in the order they first occur in the new notes |
| `Diff.ExampleReplacedLines` | index.js:162-174 | old `A,B,C` and new `A,B,D,E` give `D, E` |
| `Diff.RepeatedLine` | index.js:162-174 | for notes `a` and `a, a, b`, only `b` is reported: a line the old notes had is never reported, however often it repeats |
| `Diff.NoTrimming` | index.js:162-174 | lines compare as whole strings: a line with an added leading space is reported as new |
| `Sections.PlaceByPrefix` | index.js:193-201 | the inner loop over the prefix table sets `section_found` iff some prefix matches, and pushes the line once onto the section of each matching rule |
| `Sections.PlaceUnprefixed` | index.js:203-212 | for a line with no prefix, GENERAL gains the trimmed line unless it is star-wrapped or mentions 2020-2029, and no other section changes |
| `Sections.PlaceLine` | index.js:192-214 | one pass of the loop over the added lines appends the line's contribution to each section |
| `Sections.Classify` | index.js:176-214 | each section holds exactly `Bucket(differences, c)` |
| `Sections.UnprefixedStep` | index.js:203-212 | a line with no prefix goes only to GENERAL, trimmed, unless it is star-wrapped or contains 2020-2029 |
| `Sections.BucketStep` | index.js:192-214 | each line adds its own contribution to the end of each section, in encounter order |
| `Sections.RulesExclusive` | index.js:176-182 | no line starts with two of the five prefixes |
| `Sections.PlacedIsFirstRule` | index.js:195-201 | with mutually exclusive prefixes, pushing at every match is the same as placing at the first match |
| `Sections.FirstRuleSome` | index.js:195-201 | a first matching rule exists iff some prefix matches |
| `Sections.LineContribution` | index.js:192-214 | a prefixed line goes exactly to its rule's section; any other line goes to GENERAL (trimmed) or nowhere; GENERAL never gets a line by prefix |
| `Sections.PrefixedSectionMembers` | index.js:192-214 | a line is in SPELLS, PERKS, BUG FIXES or MODDING iff it is an added line whose prefix maps there |
| `Sections.GeneralSectionMembers` | index.js:203-212 | a line is in GENERAL iff it is the trim of some unprefixed added line that is not noise |
| `Sections.SortedSingleLines` | index.js:192-214 | lines without line feeds give sections without line feeds |
| `Sections.PlacedCopies` | index.js:198 | what a prefix rule pushes is the line itself, unchanged |
| `Sections.PerkLine` | index.js:178 | a line starting with `FEATURE: New perk` goes, unchanged, to PERKS and to no other section |
| `Sections.PlainLine` | index.js:203-212 | a line that starts with no prefix letter, has no surrounding white space and is not noise goes, unchanged, to GENERAL and to no other section |
| `Sections.BlankLine` | index.js:203-212 | an empty or white-space-only line is trimmed to the empty line, is not noise, and goes to GENERAL as `""` |
| `Sections.ExampleNoiseLines` | index.js:205-211 | `*2023 changelog*`, `*` and `Released 2024` are dropped |
| `Sections.ExampleIndentedPrefix` | index.js:196-204 | an indented `BUGFIX:` line matches no prefix, because prefixes are matched before trimming, so it goes to GENERAL |
| `Format.FormatNotes` | index.js:222-237 | the message is `Render(Chat, …)` and the file is `Render(File, …)` |
| `Format.AppendSection` | index.js:227-236 | one section appends its heading, its items and a blank line, or nothing when it is empty |
| `Format.SectionStep` | index.js:226-237 | the sections are visited in their declared order, and each adds its block at the end |
| `Format.ChatListsEveryNote` | index.js:222-237 | `- x` is a line of the message iff `x` is in some section |
| `Format.ChatHeadsNonEmptySections` | index.js:227-228 | the heading of a section appears iff the section is non-empty |
| `Format.BodyListsNotes` | index.js:226-237 | the items of the visited sections are exactly their lines, bulleted |
| `Format.BodyHeadings` | index.js:226-237 | a heading appears iff its section is visited and non-empty |
| `Format.HeadingsDistinct` | index.js:228 | different sections have different headings |
| `Format.ItemsAreBullets` | index.js:231 | every item of the message starts with `-` |
| `Format.NothingAddedTitleOnly` | index.js:222-225 | with all sections empty, each output is its title line and a blank line |
| `Format.RenderSplitsIntoLayout` | index.js:222-237 | for a one-line date and one-line notes, the message splits back into exactly its title, blank line, headings, items and separators |
| `Pipeline.Posts` | index.js:254-260 | one post per chunk, in order, with the chunk's text |
| `Pipeline.UpdateBot.constructor` | index.js:9 | the bot starts from the given store and directories |
| `Pipeline.UpdateBot.Poll` | index.js:78-285 | the new store, the new directories and the actions are those of `Tick` on the old state |
| `Pipeline.UpdateBot.VisitBranch` | index.js:85-117 | one loop iteration updates the state as `Visit` does |
| `Pipeline.UpdateBot.Update` | index.js:119-146 | `old` is replaced by the previous `new`, the build is installed into `new`, `public` sets the flag, and the download is followed by the notification as `InstallBranch` does |
| `Pipeline.NotifyAfterDownload` | index.js:148-271 | with notes in both installs, the actions are the publication of the rendered notes; otherwise a bare announcement |
| `Pipeline.PublishNotes` | index.js:216-260 | writes `patchnotes.txt`, announces, then posts each chunk of the message (`Publication`) |
| `Pipeline.VisitIsLocal` | index.js:83-284 | a visit only appends actions and changes no other branch's record or directories |
| `Pipeline.VisitRecordsBuild` | index.js:93-110 | afterwards the stored build is the reported one; a changed build also stores its `timeupdated` |
| `Pipeline.LockedBranchGetsTitleOnly` | index.js:273-280 | a changed, password-locked branch is only announced, without download |
| `Pipeline.BetaSkippedAfterPublic` | index.js:112-117 | a changed `noitabeta` after an updated `public` is skipped with no download, but its build is recorded |
| `Pipeline.PublicFlag` | index.js:140-145 | the flag becomes true iff `public` is downloaded in this visit, and is never reset |
| `Pipeline.DownloadRotates` | index.js:126-145 | a download leaves the previous `new` as `old` and the new build as `new` |
| `Pipeline.DownloadActions` | index.js:139-271 | a download is followed by the notification only if there was a previous install |
| `Pipeline.FirstDownloadIsSilent` | index.js:148-149 | the first download of a branch sends nothing |
| `Pipeline.MissingNotesGetTitleOnly` | index.js:156-271 | if either install lacks release notes, the download is followed only by the announcement |
| `Pipeline.NotesArePublished` | index.js:156-260 | with notes in both installs, the download is followed by the file write, the announcement, and posts that each fit the 2000-character limit |
| `Pipeline.PublicationShape` | index.js:225-260 | a publication starts with the file write and the announcement, and everything after them is a post within the limit |
| `Pipeline.RunPostsFit` | index.js:83-284 | no pass ever posts a message longer than 2000 characters |
| `Pipeline.VisitPostsFit` | index.js:85-283 | no visit posts a message longer than 2000 characters |
| `Pipeline.RunKeys` | index.js:93-110 | after a pass, the store has exactly the previous keys plus every reported branch |
| `Pipeline.RunRecordsEveryBranch` | index.js:93-110 | with distinct branch names, after a pass each branch's stored build is the reported one |
| `Pipeline.QuietRun` | index.js:281-283 | when every stored build is current, a pass changes nothing and only logs "up to date" |
| `Pipeline.SecondRunIsQuiet` | index.js:78-285 | polling again with the same answer changes nothing and only logs every branch as up to date |
| `Pipeline.BetaSuppressionFollowsOrder` | index.js:112-117 | on a fresh store, `public` before `noitabeta` downloads only `public`, while the reverse order downloads both |

## Left out

- Discord is left out: login, the `ready` handler and the channel lookup are not modelled. Announcements and posts are `Action`s. Their asynchronous delivery, which the bot does not await, and the cross-posting are not modelled, so the model fixes the order in which they are issued, not the order in which they arrive.
- SteamCMD is data. `getAppInfo` is the `Branch` sequence. `updateApp` is a `Download` action whose effect is to install the branch's release notes. A failed download is not modelled.
- The filesystem is data. The install directories are a map from branch to two optional slots, and only `_release_notes.txt` is modelled. `patchnotes.txt` is a `WritePatchNotes` action carrying its full text, the same text that `writeFileSync` followed by the `appendFileSync` calls produces.
- The `saved_branches` store is a map. Enmap's persistence across restarts is not modelled.
- `setInterval` is left out: one `Poll` is one run of `main`. Overlapping runs are not modelled.
- The date string (`toLocaleString` and `Date`) is a parameter.
- Logging is left out, except two lines: the "up to date" line, which is an `UpToDate` action, and the line that skips `noitabeta` after a `public` update, which is a `Skipped` action.
- The key order of `for … in` over the SteamCMD branches is the order of the `Branch` sequence. The key order over `section_types` and `sections` is their declaration order.
- `buildid` and `timeupdated` are compared as strings and stored integers. JavaScript's loose `!=` between values of different types is not modelled.
- The regular expression `/202[0-9]/` is written out as a predicate: the characters `202` followed by a digit at some position.
- Chunk count is stated as the source computes it. A hard cut drops the character at index `maxLength` (`slice(lastNewlineIndex + 1)`). A text of `L` characters with no line feed therefore gives ceil(L/(m+1)) chunks, not ceil(L/m), and the chunks do not concatenate back to the text. The model keeps this behaviour. `Chunking.Reconstruction` puts the dropped character back as a gap, and `Chunking.HardCutDropsCharacter` states the loss.
- Chunking.Chunks, Chunking.LastNewline and Pipeline.RunPostsFit count characters as Unicode code points, because a Dafny `string` is a sequence of code points. JavaScript's `length`, `charAt` and `slice` count UTF-16 code units. The cut indices and the 2000-character limit therefore differ for text with characters outside the Basic Multilingual Plane. The source can also cut between the two halves of a surrogate pair, and that split is not reproduced.
- A line that matches two prefixes would be pushed twice, which the code allows. No line can match two of the five prefixes (`Sections.RulesExclusive`), so the two readings agree and the model states both.
