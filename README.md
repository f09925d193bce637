# Yasha Learn Code: slugs, lesson scripts and playground generators, in Dafny

This project models the logic of the Yasha Learn Code course site:

- **The rehype-transliterate-slugs plugin**, in both its CommonJS (`.js`) and ES-module (`.mjs`) copies.
  - Pass 1 walks the HTML tree. It rewrites the `id` of every h1–h6 element whose id is non-empty and Cyrillic to its Latin transliteration, and records old id → new id.
  - Pass 2 runs unless that map is empty. It points `<a href="#old-id">` links at the new ids.
  - The two copies differ only in the Cyrillic test. The `.js` copy tests the block U+0400–U+04FF; the `.mjs` copy tests the class `[а-яёА-ЯЁ]`.
  - The tree is modelled twice:
    - as a value (`SlugTree.Tree`, `SlugPlugin.Transformed`);
    - as objects whose property maps are overwritten in place, walked by a recursive visit with a loop over the children (`SlugNodes.Node`, `SlugNodes.Visit`, `SlugNodes.Transform`).
  - The methods are proved against the value functions.
- **The lesson generator's `_meta.json` update**. A new lesson gets the number one above the largest leading number among the labels and is stored under its slug (`LessonMeta`).
- **The pure part of the lesson-to-database script**: the course id lookup, the lesson id `'cm' + base64url(12 random bytes)`, the doubling of single quotes, and the INSERT statement (`LessonDb`).
  - The statement is also read back the way SQLite reads quoted literals. This shows that the escaped title and content come back intact.
  - The unescaped slug can end its literal early.
- **The lesson-count suffix on the home page** ("урок" / "урока" / "уроков") (`LessonCount`).
- **The pure helpers of the two Sandpack playground generators** (`Playgrounds`):
  - the "already has a playground" markers;
  - the lesson title regex;
  - the prompt's excerpt and file choice;
  - `str.strip()`;
  - the two-pattern `re.search` that extracts the Sandpack block, with its lazy `[\s\S]*?/>`;
  - the acceptance of an answer: one attempt in the first generator, up to `retries` attempts in the second.
- **Their driver** (`PlaygroundRuns`):
  - the `[section] [--limit N]` argument loop;
  - the sections a run visits;
  - Python's slice for the limit;
  - the grouping of the added lessons into commits of ten, each full batch pushed;
  - the push after the last commit (second generator) or at the very end of the run (first generator).

Randomness, the model's answers and the file system are parameters: the twelve random bytes, the answer of each attempt, and per section folder whether each pending lesson gets a playground.

## Model

| member | source | states |
|---|---|---|
| Translit.TableValuesAreShortLowerAscii | plugins/rehype-transliterate-slugs.js:10-25 | every value of the table is a lower-case ASCII string of at most four letters |
| Translit.UpperCaseFolds | plugins/rehype-transliterate-slugs.js:18-24 | each upper-case key maps to the same value as its lower-case partner (case folds) |
| Translit.SignsAreDeleted | plugins/rehype-transliterate-slugs.js:16 | ъ, ь, Ъ and Ь map to the empty string |
| Translit.TableEntry | plugins/rehype-transliterate-slugs.mjs:12-28 | a character has an entry in the table exactly when it is in the class `[а-яёА-ЯЁ]` |
| Translit.TranslitChar | plugins/rehype-transliterate-slugs.js:30 | a character without an entry is kept; a Russian letter becomes at most four lower-case ASCII letters |
| Translit.Transliterate | plugins/rehype-transliterate-slugs.js:27-32 | the output is at most four times as long as the input |
| Translit.HasCyrillicBlock | plugins/rehype-transliterate-slugs.js:34-36 | every string holding a key of the table is Cyrillic to the CommonJS detector |
| Translit.HasRussianLetter | plugins/rehype-transliterate-slugs.mjs:43-45 | the ES-module detector fires exactly when some character has an entry in the table |
| Translit.TransliterateAppend | plugins/rehype-transliterate-slugs.js:27-32 | transliterate maps characters independently: the image of a concatenation is the concatenation of the images |
| Translit.OutputHasNoTableKey | plugins/rehype-transliterate-slugs.js:27-32 | no character of transliterate's output is a key of the table |
| Translit.IdentityWithoutTableKeys | plugins/rehype-transliterate-slugs.js:30 | characters without a table entry are kept, so a string with no key is returned unchanged |
| Translit.TransliterateIdempotent | plugins/rehype-transliterate-slugs.js:27-32 | transliterating twice gives the same as once |
| Translit.NoRussianLetterAfterTransliterate | plugins/rehype-transliterate-slugs.mjs:33-45 | the ES-module detector never finds Cyrillic in transliterate's output |
| Translit.BlockIsWiderThanTable | plugins/rehype-transliterate-slugs.js:34-36 | "і" (U+0456) is Cyrillic to the CommonJS detector, not to the ES-module one, and survives transliteration |
| Translit.LowerCaseExample | plugins/rehype-transliterate-slugs.js:11-17 | "мир" becomes "mir" |
| Translit.UpperCaseExample | plugins/rehype-transliterate-slugs.js:18-24 | "МИР" becomes "mir" |
| Translit.ExpansionExample | plugins/rehype-transliterate-slugs.js:16 | a letter can expand to four: "щит" becomes "shchit" |
| Translit.DeletionExample | plugins/rehype-transliterate-slugs.js:16 | a letter can vanish: "съел" becomes "sel" |
| SlugNodes.Visit | plugins/rehype-transliterate-slugs.js:38-45 | the recursive walk leaves the subtree equal to the per-node rewrite of its old value, pre-order, and returns the visitor's state threaded through it in pre-order |
| SlugNodes.VisitChildren | plugins/rehype-transliterate-slugs.js:40-44 | the loop over the children walks each child in turn; other children's subtrees are untouched (they are disjoint) |
| SlugNodes.Transform | plugins/rehype-transliterate-slugs.js:47-78 | the plugin, run in place on the tree, leaves exactly the tree value `SlugPlugin.Transformed` gives for the old tree |
| SlugPlugin.RenameId | plugins/rehype-transliterate-slugs.js:53-61 | on an h1–h6 element with a non-empty Cyrillic id the id becomes its transliteration, which holds no Russian letter; every other property, and every other node, is unchanged |
| SlugPlugin.RecordId | plugins/rehype-transliterate-slugs.js:59-60 | a renamed id is added to the map with its transliteration; other keys keep their values |
| SlugPlugin.RetargetHref | plugins/rehype-transliterate-slugs.js:67-76 | on an `a` element whose href is "#x" with x mapped to a non-empty value, the href becomes "#" + that value; otherwise nothing changes |
| SlugPlugin.CollectIds | plugins/rehype-transliterate-slugs.js:52-62 | pass 1's id map, from any start map, adds exactly the renamed heading ids, each mapped to its transliteration |
| SlugPlugin.FoldRecordsRenamedIds | plugins/rehype-transliterate-slugs.js:38-45 | the pre-order walk with the recording visitor records exactly the renamed heading ids |
| SlugPlugin.Transformed | plugins/rehype-transliterate-slugs.js:47-78 | node by node, with the same shape: a heading whose id is renamed gets the transliteration; an `a` element linking to a renamed id with a non-empty transliteration gets "#" + that transliteration; every other node keeps its properties |
| SlugPlugin.RunRuleMeetsPluginStep | plugins/rehype-transliterate-slugs.js:59-74 | the two visitors together, with the full id map, rewrite a node exactly as the node-by-node rule says |
| SlugPlugin.IdMapIsRenamedIds | plugins/rehype-transliterate-slugs.js:49-62 | from the empty map, an id is a key of the id map exactly when some h1–h6 element has it as a non-empty Cyrillic id |
| SlugPlugin.NoCyrillicHeadingIsNoOp | plugins/rehype-transliterate-slugs.js:64 | with no heading to rename, the id map is empty, pass 2 is skipped and the tree is unchanged |
| SlugPlugin.TransformKeepsShape | plugins/rehype-transliterate-slugs.js:47-78 | no node is added, removed or reordered, and no type or tag changes |
| SlugPlugin.TransformChangesOnlyIdsAndHrefs | plugins/rehype-transliterate-slugs.js:61 | apart from `id` on h1–h6 and `href` on `a` elements, every property of every node is unchanged |
| SlugPlugin.SelfMapRetargetsNothing | plugins/rehype-transliterate-slugs.js:66-76 | pass 2 with a map that sends each key to itself changes no href |
| SlugPlugin.RunRuleSettlesIds | plugins/rehype-transliterate-slugs.js:59-61 | after one run, every id pass 1 would rename again is already its own transliteration |
| SlugPlugin.TransformIdempotent | plugins/rehype-transliterate-slugs.js:47-78 | running the plugin on its own output changes nothing, with either detector |
| SlugPlugin.EsModuleSecondRunRenamesNothing | plugins/rehype-transliterate-slugs.mjs:55-69 | with the ES-module detector a second run renames no id and returns before pass 2 |
| SlugPlugin.ElementFilterIsRedundant | plugins/rehype-transliterate-slugs.js:52-54 | restricting the visitors to `element` nodes changes nothing, because both visitors test the tag |
| SlugExamples.DocTransformed | plugins/rehype-transliterate-slugs.js:47-78 | a heading with a Cyrillic id and a link to it: both move to the transliterated id |
| SlugExamples.RussianHeadingExample | plugins/rehype-transliterate-slugs.js:59-74 | heading "мир" and link "#мир" become "mir" and "#mir" under either copy |
| SlugExamples.LatinHeadingExample | plugins/rehype-transliterate-slugs.js:57 | a Latin id records nothing and the page is unchanged |
| SlugExamples.HardSignExample | plugins/rehype-transliterate-slugs.js:73 | an id "ъ" becomes "", the map records "ъ" → "", and because "" is falsy the link keeps "#ъ" |
| SlugExamples.UkrainianLetterCommonJsExample | plugins/rehype-transliterate-slugs.js:34-36 | the CommonJS copy records "і" → "і" and runs pass 2, which changes nothing |
| SlugExamples.UkrainianLetterEsModuleExample | plugins/rehype-transliterate-slugs.mjs:43-45 | the ES-module copy does not see "і" as Cyrillic |
| SlugExamples.CaseCollisionExample | plugins/rehype-transliterate-slugs.js:11-24 | "МИР" and "мир" both end as "mir": headings differing only in case collide |
| LessonMeta.DigitCount | scripts/generate-lesson.js:126 | the length of the longest run of digits at the start of a label |
| LessonMeta.Numbers | scripts/generate-lesson.js:124-129 | the list holds exactly the positive leading numbers of the labels |
| LessonMeta.MaxOf | scripts/generate-lesson.js:131 | Math.max: an element of the list, at least every element |
| LessonMeta.NextNumber | scripts/generate-lesson.js:124-131 | above every leading number; 1 exactly when no label has a positive one; otherwise one more than some label's number |
| LessonMeta.NextNumberIs | scripts/generate-lesson.js:131 | the next number is the unique n above every leading number with n − 1 present (or n = 1) |
| LessonMeta.DecimalValueOfShow | scripts/generate-lesson.js:127 | parseInt reads back the numeral a template literal prints |
| LessonMeta.LeadingNumber | scripts/generate-lesson.js:125-127 | a positive number only when the label starts with digits followed by "."; 0 for an empty label or one not starting with a digit |
| LessonMeta.Label | scripts/generate-lesson.js:134 | the label `${n}. ${title}` has leading number n and ends with the title |
| LessonMeta.NumberedReadsBack | scripts/generate-lesson.js:126-134 | the regex and parseInt read n back from `${n}. ${title}`, whatever the title |
| LessonMeta.ZeroLabelDoesNotCount | scripts/generate-lesson.js:129 | a label "0. …" is filtered out |
| LessonMeta.LeadingNumberExamples | scripts/generate-lesson.js:126 | "12.Intro" counts as 12, "12 Intro" and "Intro" as nothing |
| LessonMeta.Put | scripts/generate-lesson.js:134 | assigning keeps the key order and appends a new key at the end |
| LessonMeta.PutEntries | scripts/generate-lesson.js:134 | after the assignment the key holds the new value and every other entry is where and what it was |
| LessonMeta.PutLookup | scripts/generate-lesson.js:134 | reading back: the new value under the key, the old value under every other key |
| LessonMeta.PutDistinct | scripts/generate-lesson.js:134 | keys stay distinct |
| LessonMeta.AddLesson | scripts/generate-lesson.js:124-134 | the label numbered one above the largest leading number is stored under the slug; every other key reads as before; a new slug goes last |
| LessonMeta.AddLessonIncrements | scripts/generate-lesson.js:124-134 | after adding a lesson, the next lesson gets the number one higher |
| LessonMeta.ReAddRaisesNumber | scripts/generate-lesson.js:134 | adding an existing slug renumbers it above its old number |
| LessonMeta.FirstLessonExample | scripts/generate-lesson.js:118-134 | a missing or empty file gives the first lesson number 1 |
| LessonDb.CourseId | scripts/add-lesson-to-db.js:32-39 | exactly the six known slugs have an id, each 25 characters starting "cm"; any other slug fails with "Unknown course: <slug>" |
| LessonDb.CourseIdsDistinct | scripts/add-lesson-to-db.js:32-39 | different courses have different ids |
| LessonDb.Escape | scripts/add-lesson-to-db.js:196-197 | escaping adds exactly one character per single quote, and a string without quotes escapes to itself |
| LessonDb.UnescapeEscape | scripts/add-lesson-to-db.js:196-197 | replacing `''` by `'` again undoes the escaping |
| LessonDb.ReadEscaped | scripts/add-lesson-to-db.js:196-199 | an escaped string followed by a quote reads, as an SQL literal, as the original string |
| LessonDb.ReadFieldRun | scripts/add-lesson-to-db.js:199 | a run of escaped fields joined by `', '` reads back as exactly those fields |
| LessonDb.InsertSql | scripts/add-lesson-to-db.js:199 | the statement starts with the INSERT head; with a quote-free id and slug its four quoted fields read back, as SQLite reads literals, as id, title, slug and content, whatever quotes the title and content hold, followed by the order, course id and timestamp |
| LessonDb.UnescapedSlugBreaksOut | scripts/add-lesson-to-db.js:199 | a slug `a'b` is not escaped: its literal ends after `a` |
| LessonDb.Base64Url | scripts/add-lesson-to-db.js:139 | base64url without padding: length 4⌊n/3⌋ plus 0, 2 or 3; only alphabet characters |
| LessonDb.DecodeBase64Url | scripts/add-lesson-to-db.js:139 | for whole three-byte groups, decoding the encoding gives the bytes back |
| LessonDb.GenerateId | scripts/add-lesson-to-db.js:138-140 | the id has 18 characters: "cm" then 16 base64url characters, none a quote |
| LessonDb.GenerateIdInjective | scripts/add-lesson-to-db.js:138-140 | different random draws give different ids |
| LessonDb.AddLessonSql | scripts/add-lesson-to-db.js:187-199 | an unknown course fails first with its message; otherwise the statement for a fresh id and the course's id, whose fields read back as the id, title, slug and content when the slug holds no quote |
| LessonCount.SuffixAsWritten | src/app/page.tsx:41 | the page's rule: "" exactly for 1, "а" for 0 and 2–4, "ов" from 5 |
| LessonCount.Suffix | src/app/page.tsx:41 | Russian agreement: "" after …1 (not 11), "а" after …2–4 (not 12–14), "ов" otherwise |
| LessonCount.SuffixPeriodic | src/app/page.tsx:41 | the agreement depends only on the last two digits |
| LessonCount.AsWrittenAgreesUpToTwenty | src/app/page.tsx:41 | the page's rule is right for 1 to 20 |
| LessonCount.AsWrittenDiffers | src/app/page.tsx:41 | the page's rule is wrong for 0, 21 and 22 |
| Playgrounds.HeadingOnlyMarker | scripts/generate-playgrounds-v2.py:41-42 | the markers differ: a lesson holding only the heading counts as done for the second generator, not for the first |
| Playgrounds.PlaygroundOnlyMarker | scripts/generate-playgrounds.py:36-37 | a lesson holding only `<Playground` counts as done for the first generator, not for the second |
| Playgrounds.AppendPlayground | scripts/generate-playgrounds.py:155-158 | the lesson text is kept as a prefix and followed by exactly "\n", the block and "\n" |
| Playgrounds.AppendedBlockIsSeen | scripts/generate-playgrounds.py:36-37 | a lesson given an extracted block is skipped by both generators' markers on the next run |
| Playgrounds.JoinLinesOfLines | scripts/generate-playgrounds.py:41 | splitting at newlines loses nothing: joining the lines gives the text back |
| Playgrounds.FirstTitleIsFirstHeading | scripts/generate-playgrounds.py:39-42 | the title is that of the first line matching `^#+ (.+)$`, and there is none exactly when no line matches |
| Playgrounds.LineTitleShape | scripts/generate-playgrounds.py:41 | a title is the non-empty rest of its line after a space |
| Playgrounds.TitleExamples | scripts/generate-playgrounds.py:39-42 | "## Формы" gives "Формы"; "##Формы" and "# " give none; an empty lesson gets "урок" |
| Playgrounds.LessonTitle | scripts/generate-playgrounds.py:39-42 | "урок" when no line matches `^#+ (.+)$`; otherwise the title of the first line that matches |
| Playgrounds.Excerpt | scripts/generate-playgrounds.py:47 | the first n characters, or all when shorter (3000 in the first generator, 2000 in the second) |
| Playgrounds.PromptFile | scripts/generate-playgrounds-v2.py:54-59 | /App.tsx exactly for the react template, and /index.html for every other template |
| Playgrounds.FilesTemplate | scripts/generate-playgrounds.py:100-109 | the skeleton starts with the template's main file |
| Playgrounds.ReactFileAgrees | scripts/generate-playgrounds-v2.py:54-59 | both generators ask for /App.tsx for the same templates |
| Playgrounds.Strip | scripts/generate-playgrounds.py:116 | whitespace (str.isspace) removed from both ends: the result is a slice of the input with only whitespace around it |
| Playgrounds.StripKeeps | scripts/generate-playgrounds.py:126 | a string starting and ending with non-whitespace is its own strip |
| Playgrounds.TagEnd | scripts/generate-playgrounds.py:121 | `<Sandpack[\s\S]*?/>` matched at i ends just after the first "/>" past the tag |
| Playgrounds.HeaderEnd | scripts/generate-playgrounds.py:120 | the heading pattern matched at i: the heading, whitespace ending in a newline, then the tag as above |
| Playgrounds.Search | scripts/generate-playgrounds.py:124 | re.search: the leftmost match at or after i, with no match before it |
| Playgrounds.MatchShape | scripts/generate-playgrounds.py:119-126 | a match holds the tag, has its only "/>" at its end, has no outer whitespace, and starts with "##" exactly when the heading pattern matched |
| Playgrounds.FinishShape | scripts/generate-playgrounds.py:126-129 | the returned block starts with a blank line and the heading, holds the tag and ends at its only "/>" |
| Playgrounds.FinishEndsWithTag | scripts/generate-playgrounds.py:119-129 | the returned block ends with the tag's match exactly as it stands in the stripped answer |
| Playgrounds.ExtractV1 | scripts/generate-playgrounds.py:111-130 | a block is returned exactly when some `<Sandpack` is followed by "/>"; it has the shape above and ends with a tag's match cut from the stripped answer; when the heading pattern matches, the block is its leftmost match after a blank line, and otherwise it is the leftmost bare tag after the blank line, the heading and another blank line |
| Playgrounds.FinishFrames | scripts/generate-playgrounds.py:125-130 | the returned block is the match itself after "\n\n", with the heading and a blank line put in front of a bare tag |
| Playgrounds.ExtractV2 | scripts/generate-playgrounds-v2.py:97-118 | the second extractor's "/>" check never fails: both extractors return the same |
| Playgrounds.GenerateV1 | scripts/generate-playgrounds.py:132-153 | a failed call gives nothing; otherwise the first generator's extra check is redundant and it keeps exactly the extracted block |
| Playgrounds.Attempt | scripts/generate-playgrounds-v2.py:134-138 | a failed call gives nothing; otherwise the checks are redundant: an attempt keeps exactly the extracted block, which is what the first generator keeps and has the extractor's shape |
| Playgrounds.FirstSome | scripts/generate-playgrounds-v2.py:124-153 | the first of the first n outcomes that holds a block, every earlier one having failed; none exactly when all n fail |
| Playgrounds.FirstSomeSettles | scripts/generate-playgrounds-v2.py:137-138 | once an attempt succeeds, later answers do not matter |
| Playgrounds.GenerateV2 | scripts/generate-playgrounds-v2.py:120-153 | the retry loop returns the first complete block among `retries` attempts and stops there; after `retries` failures it returns None |
| PlaygroundRuns.ParseInt | scripts/generate-playgrounds.py:265 | a negative value needs a leading "-", and a text without a digit is rejected |
| PlaygroundRuns.ParseIntShow | scripts/generate-playgrounds.py:265 | int() reads back a numeral with or without sign and rejects "", "-" and words |
| PlaygroundRuns.Tokens | scripts/generate-playgrounds.py:263-269 | the loop groups the arguments into "--limit N" steps and lone arguments that spell out exactly the arguments, a lone "--limit" only at the end |
| PlaygroundRuns.TokensUnique | scripts/generate-playgrounds.py:263-269 | that grouping is the only one with those two properties |
| PlaygroundRuns.ParseFrom | scripts/generate-playgrounds.py:259-269 | fails exactly when some "--limit" step has a value int() rejects, naming the first such value; otherwise the limit is that of the last "--limit" step and the start section the last lone argument, each kept from before when there is none |
| PlaygroundRuns.ParseArgs | scripts/generate-playgrounds.py:259-269 | the argument loop computes `ParseFrom`: the start section is the last lone argument, the limit that of the last "--limit" step, and the loop stops at the first "--limit" whose value is not a number |
| PlaygroundRuns.ArgsWithoutLimit | scripts/generate-playgrounds.py:263-269 | without "--limit", the last argument is the start section |
| PlaygroundRuns.ArgsExamples | scripts/generate-playgrounds.py:263-269 | both argument orders; a trailing "--limit" names a section; "--limit x" fails |
| PlaygroundRuns.SectionIndex | scripts/generate-playgrounds.py:27-34 | the position of the named section; none exactly when no section has the name |
| PlaygroundRuns.SelectSections | scripts/generate-playgrounds.py:274-282 | the section loop with its `started` flag visits exactly `Selected(start)` |
| PlaygroundRuns.Selected | scripts/generate-playgrounds.py:275-282 | a run visits all sections without a name, else a tail of the sections starting at the named one; an unknown or empty name visits none |
| PlaygroundRuns.SelectedExamples | scripts/generate-playgrounds.py:274-282 | "react" visits only react; "jquery" and "" visit nothing; no name visits all six |
| PlaygroundRuns.Limited | scripts/generate-playgrounds.py:209-210 | the limit keeps a prefix: n lessons at most for n > 0, all but the last −n for n < 0, all for 0 or no limit |
| PlaygroundRuns.Added | scripts/generate-playgrounds.py:222-231 | at most one position per lesson, each one of a lesson that got a playground |
| PlaygroundRuns.AddedExactly | scripts/generate-playgrounds.py:222-231 | a lesson's position is listed exactly when it got a playground, and the positions are strictly increasing, so `added` counts the successes |
| PlaygroundRuns.ProcessSection | scripts/generate-playgrounds.py:218-251 | the batching loop returns the number added and exactly the commits and pushes of `Plan` (the second generator also pushes after the last commit, generate-playgrounds-v2.py:243-245) |
| PlaygroundRuns.PlanCommitsEveryLesson | scripts/generate-playgrounds.py:236-249 | every added lesson is committed exactly once, in order, by either generator |
| PlaygroundRuns.FullBatchesShape | scripts/generate-playgrounds.py:237-241 | full batches hold ten lessons each, numbered 1, 2, … in order, each commit followed by a push |
| PlaygroundRuns.PlanShape | scripts/generate-playgrounds.py:236-249 | every commit holds 1–10 lessons of the section, batches are numbered in order, and a commit is followed by a push exactly when it is full or made by the second generator |
| PlaygroundRuns.RunSections | scripts/generate-playgrounds.py:277-285 | the loop over the selected sections sums the added counts and concatenates the sections' commits and pushes |
| PlaygroundRuns.Run | scripts/generate-playgrounds.py:253-290 | main computes `RunSpec`: parse the arguments, visit the selected sections, and push once more at the end in the first generator only |
| PlaygroundRuns.RunTotalIsCommitted | scripts/generate-playgrounds.py:274-285 | the total equals the number of lessons the run's commits hold |
| PlaygroundRuns.RunSpec | scripts/generate-playgrounds.py:253-290 | a run fails exactly on a "--limit" whose value is not a number, with int()'s message for a value without quotes, backslashes or non-printable characters; otherwise the reported total is the number of committed lessons, and the first generator's run ends with a push |
| PlaygroundRuns.BadLimitStopsRun | scripts/generate-playgrounds.py:265 | "--limit x" stops the run before any section |

## Left out

- Files, the Gemini API, git, sqlite3, the `openclaw` notification and console output are outside the model. They appear only as parameters: random bytes, model answers, and per section whether each pending lesson gets a playground. Git commands appear as a list of commit and push events.
- `time.sleep` calls are left out, because they have no effect on results.
- The prompt texts are left out, because they are free text sent to the model. Only the excerpt length and the file choice they depend on are modelled.
- The two code-fence removal regexes of `extract_sandpack_block` are left out. An answer is taken after fence removal, because regex substitution over arbitrary text is not modelled.
- Listing and sorting a section's `.mdx` files, and the `has_playground` filter, are left out. A section's pending lessons come in as a given list, because directory listing is I/O.
- Playgrounds.HasPlaygroundV1 and Playgrounds.HasPlaygroundV2 are used by Playgrounds.AppendedBlockIsSeen, Playgrounds.HeadingOnlyMarker and Playgrounds.PlaygroundOnlyMarker but are not wired into the driver, because the pending lists come in already filtered.
- PlaygroundRuns.Plan states no property of its own. Every commit holding each added lesson once is stated by PlaygroundRuns.PlanCommitsEveryLesson, and the batch shape by PlaygroundRuns.PlanShape.
- Exceptions from the model call are modelled as failed attempts (`None` answers). Their messages are not modelled.
- A failed `git commit` or `git push` is not modelled. Every commit and push is recorded as made, because their outcome only changes printed output.
- Python's `int()` is modelled only on an optional sign followed by ASCII digits. Surrounding whitespace, underscores and non-ASCII digits are not modelled, because they are unusual on a command line.
- JSON.parse and JSON.stringify of `_meta.json` are left out, because they are I/O. The object is a list of string entries with distinct keys in insertion order. JavaScript's reordering of integer-like keys ahead of other keys is not modelled.
- LessonMeta.LeadingNumber assumes every value of `_meta.json` is a string. On a non-string value `val.match` throws a TypeError (scripts/generate-lesson.js:126), which the model does not reproduce, because the file holds labels.
- LessonMeta.LeadingNumber reads the digits as an unbounded natural number. parseInt's loss of precision above 2^53 is not modelled.
- LessonDb.CourseId does not model the prototype chain of `COURSE_IDS`: the slug "constructor" finds a truthy function there, so scripts/add-lesson-to-db.js:190-193 does not throw for it, while the model fails with "Unknown course".
- SlugPlugin.RetargetHref does not model the prototype chain of the plain object `idMap`. In the source, `idMap[oldId]` is truthy for inherited names such as `constructor`, `toString` or `__proto__`. So on a page where some heading was renamed, a link "#constructor" to a heading with id "constructor" becomes "#function Object() { [native code] }", and "#__proto__" becomes "#[object Object]" (plugins/rehype-transliterate-slugs.js:72-74, plugins/rehype-transliterate-slugs.mjs:79-80). The model leaves such links unchanged, because the id map is a plain map. The transliteration table is looked up one character at a time, and no inherited property has a one-character name, so the table is unaffected.
- PlaygroundRuns.BadLimitMessage always puts the raw value in single quotes. CPython formats the value with `%.200R`, so a value holding a single quote is shown in double quotes, backslashes and non-printable characters are escaped, and a value longer than 200 characters is cut. The model does not reproduce `repr`, because only a non-numeric value's rejection matters to the run.
- Strings are sequences of code points, not UTF-16 code units, because every character the table and the detectors test is in the Basic Multilingual Plane.
- The `.mjs` copy's `unist-util-visit` walk is not modelled, because it is library code. Both copies are modelled with the `.js` copy's own recursive `visit`. The two copies visit the same element nodes in the same pre-order, and neither visitor changes the tree's structure.
- Property values of hast nodes are strings. Non-string `id` or `href` values (arrays, numbers) are not modelled, because a heading's id and a link's href are strings.
- The tree as objects does not model aliasing between subtrees. Children own disjoint subtrees, as in a parsed document.
- LessonDb.GenerateId requires exactly twelve random bytes, because that is what the script draws. LessonDb.DecodeBase64Url is stated for whole three-byte groups only, which covers the twelve bytes.

## Findings

| source | as written | input that shows it | evidently intended | confidence | as-written member | corrected member |
|---|---|---|---|---|---|---|
| src/app/page.tsx:41 | suffix "" for exactly 1, "а" for any count below 5, "ов" otherwise | 0 lessons shows "0 урока", 21 shows "21 уроков", 22 shows "22 уроков" | Russian agreement with the last two digits: "0 уроков", "21 урок", "22 урока" | not executed | LessonCount.AsWrittenDiffers | LessonCount.Suffix |
