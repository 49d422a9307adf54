# Content-repository migration and validators, in Dafny

This project models the Node scripts that move a content repository from a
category-keyed layout (`articles/{category}/{slug}.md`, shared
`images/{category}/...`) to a per-article layout (`articles/{slug}/article.md`,
`articles/{slug}/images/...`), and the four validators that check the result.

- **Migration** (`scripts/migrate-structure.mjs`):
  - the header reader `parseFrontmatter`, the quoting helper `yamlEscape` and the 20-character `generateShortTitle`;
  - the flat `categories.yaml` reader and the catalog build (`categoryArticles`, `allArticles`, `slugToCats`);
  - image ownership: candidates per image key, the first referencing article as owner, and the shared count;
  - orphan images and the fallback to the first article of the matching category;
  - the body rewrite and the new two-field header;
  - the copy plan with its moved and skipped counts;
  - the mapping document and the `dates.yaml` transform.
- **Validators**:
  - `validate-structure.mjs`: `parseMapping` is a class driven line by line, and checks 1 to 9 run over a snapshot of the disk;
  - `validate-images.mjs`: the reference scan, `validSlugs`, the target selection and the unused-image warnings;
  - `validate-article.mjs`: `findMdFiles`, the required fields, URL safety and the duplicate ids;
  - `validate-widgets.mjs`: the per-file checks over a datatype of loaded YAML values, with `seenIds` and `localIds`.

The loops the scripts run are methods. Each method is proved equal to a
function, and the lemmas about that function state what the scripts promise.
Beyond the scripts' own promises, the model proves two round trips:

- the mapping document the migration writes is read back by `parseMapping` as the migrated categories (`MappingRoundTrip.MappingRoundTrip`);
- the transformed `dates.yaml` is a fixed point of the transform (`Dates.TransformIdempotent`).

The filesystem is a value. Directory listings, file texts and the set of
existing paths are fields of a snapshot or parameters of the operations.
Article bodies are sequences of segments: plain text, or an image reference
split into its prefix, its directory and its file name.

## Model

| member | source | states |
|---|---|---|
| `Strings.Trim` | scripts/migrate-structure.mjs:36-37 | `trim` leaves no white space at either end and never lengthens the text |
| `Strings.TrimPadded` | scripts/migrate-structure.mjs:36-37 | `trim` keeps one slice of its input and drops only white space before and after it |
| `Strings.Find` | scripts/migrate-structure.mjs:34 | `indexOf(c)` is absent exactly when `c` does not occur, and otherwise is the first index holding `c` |
| `Strings.FindSub` | scripts/validate-structure.mjs:105 | `indexOf(p)` is the first index where `p` occurs, and absent when it occurs nowhere |
| `Strings.Split` | scripts/migrate-structure.mjs:33 | `split(c)` yields at least one piece and no piece holds the separator |
| `Strings.SplitJoin` | scripts/migrate-structure.mjs:407 | splitting joined pieces that hold no separator gives the pieces back |
| `Strings.JoinSplit` | scripts/migrate-structure.mjs:407 | joining the pieces of a split gives the text back |
| `Strings.WrittenLines` | scripts/migrate-structure.mjs:407 | a file written as `lines.join('\n') + '\n'` reads back as its lines plus one empty last line |
| `Strings.LastSegment` | scripts/migrate-structure.mjs:431 | `split(c).pop()` holds no separator and ends the text |
| `Strings.FirstSegment` | scripts/migrate-structure.mjs:256 | `split(c)[0]` holds no separator and starts the text |
| `Strings.AfterFirst` | scripts/migrate-structure.mjs:321-322 | the text is its first segment, the separator, then the rest joined back |
| `Strings.SplitFirstOf` | scripts/migrate-structure.mjs:321-322 | splitting `dir/file` at the first `/` recovers `dir` and `file` when `dir` has no `/` |
| `Strings.JoinedInjective` | scripts/migrate-structure.mjs:208 | the key `dir/file` determines `dir` and `file` when `dir` has no `/` |
| `Strings.Basename` | scripts/migrate-structure.mjs:379 | `basename` never holds a `/` |
| `Strings.StripQuotes` | scripts/migrate-structure.mjs:38-40 | a value of two or more characters in matching quotes is its first quote, the result and its last quote, so it loses exactly those two characters; any other value is unchanged |
| `Strings.UnquoteDoubleQuoted` | scripts/migrate-structure.mjs:38-40 | the text between a pair of double quotes comes back out |
| `Strings.UnquoteSingleQuoted` | scripts/migrate-structure.mjs:38-40 | the text between a pair of single quotes comes back out |
| `Strings.ToLower` | scripts/migrate-structure.mjs:203 | lower-casing keeps the length, leaves no upper-case ASCII letter and changes no other character |
| `Strings.ToLowerIdempotent` | scripts/migrate-structure.mjs:203 | lower-casing an already lower-cased text changes nothing |
| `Strings.ToLowerFixed` | scripts/migrate-structure.mjs:203 | a text is its own lower-case form exactly when it has no upper-case ASCII letter |
| `Strings.ToLowerKeeps` | scripts/migrate-structure.mjs:203-208 | lower-casing neither adds nor removes a non-letter such as `/` |
| `Strings.SlugCharNotSpace` | scripts/validate-structure.mjs:27 | a character allowed by the slug pattern is never white space |
| `Dedup.DedupFirst` | scripts/migrate-structure.mjs:152-154 | `allArticles` keeps one article per slug, covering every slug seen |
| `Dedup.DedupKeepsFirst` | scripts/migrate-structure.mjs:152-154 | each kept article is the first one met with its slug |
| `Dedup.DedupLookup` | scripts/migrate-structure.mjs:152-154 | looking a slug up in `allArticles` finds the first article with that slug |
| `Dedup.DedupDistinct` | scripts/migrate-structure.mjs:152-154 | articles whose slugs are already distinct are all kept, in order |
| `Dedup.AddNew` | scripts/validate-structure.mjs:183 | after `Set.add(x)` the set holds exactly the old members and `x` |
| `Blocks.ParseBlock` | scripts/migrate-structure.mjs:91-116 | a marker line and the lines up to the next marker form exactly one record, appended after the earlier ones |
| `Blocks.ParseCount` | scripts/migrate-structure.mjs:91-116 | a reader of this shape returns one record per marker line |
| `Blocks.ParseNoMarker` | scripts/migrate-structure.mjs:91-116 | without a marker line it returns no record |
| `Blocks.RunAppend` | scripts/validate-structure.mjs:43-93 | reading `a` then `b` is reading `a + b` |
| `Body.Refs` | scripts/migrate-structure.mjs:187 | an article body has at most one image reference per segment |
| `Body.RefsMembers` | scripts/migrate-structure.mjs:201-202 | a reference is found exactly when some segment of the body is that reference |
| `Frontmatter.HeaderEnd` | scripts/migrate-structure.mjs:29 | a header match starts with `---\n` and ends at a `\n---` inside the text |
| `Frontmatter.AssignDomain` | scripts/migrate-structure.mjs:32-42 | a field exists exactly for the keys some header line names |
| `Frontmatter.AssignLastWins` | scripts/migrate-structure.mjs:41 | each field holds the value of the last line naming its key |
| `Frontmatter.Parse` | scripts/migrate-structure.mjs:28-45 | without a header there are no fields and the body is the whole text; with one, the text is the header followed by the body |
| `Frontmatter.ParseOrNull` | scripts/validate-structure.mjs:114-130 | the validators' reader returns `null` exactly when there is no header, always for a text not starting with `---`, and otherwise the same fields as the migration's reader |
| `Frontmatter.NewHeaderFound` | scripts/validate-structure.mjs:114-130 | the validators find a header in every file the migration writes, with exactly the fields written |
| `Frontmatter.ParseLineAt` | scripts/migrate-structure.mjs:34-41 | a header line splits at its first `:` into the trimmed key and the trimmed, unquoted value |
| `Frontmatter.ParseKeyValue` | scripts/migrate-structure.mjs:34-41 | a line `key: value` reads back as the key and the unquoted value |
| `Frontmatter.ParseHeader` | scripts/migrate-structure.mjs:28-45 | a header whose text holds no `\n---` ends at the first closing marker after it |
| `Frontmatter.EscapeMembers` | scripts/migrate-structure.mjs:49 | escaping adds only backslashes |
| `Frontmatter.UnescapeEscape` | scripts/migrate-structure.mjs:49 | escaping loses nothing: undoing it gives the text back |
| `Frontmatter.EscapePlain` | scripts/migrate-structure.mjs:49 | a text without `\` and `"` is left as it is |
| `Frontmatter.EscapeLength` | scripts/migrate-structure.mjs:49 | escaping never shortens, and lengthens every text holding `\` or `"` |
| `Frontmatter.YamlEscape` | scripts/migrate-structure.mjs:47-52 | the result is always double-quoted; inside is the text itself, or its escaped form when it needs quoting |
| `Frontmatter.YamlEscapeShape` | scripts/migrate-structure.mjs:47-52 | the quoted scalar has no outer white space and stripping its quotes gives what is between them |
| `Frontmatter.YamlEscapeOneLine` | scripts/migrate-structure.mjs:47-52 | quoting introduces no line break |
| `Frontmatter.DescriptionLine` | scripts/migrate-structure.mjs:300 | the description line parses back to the text between the quotes |
| `Frontmatter.HiddenLine` | scripts/migrate-structure.mjs:302 | `hideInProd: true` reads back as the string `"true"` |
| `Frontmatter.HeaderTextFields` | scripts/migrate-structure.mjs:299-304 | the new header's lines read back as the description field, plus `hideInProd` when hidden |
| `Frontmatter.NewHeaderRoundTrip` | scripts/migrate-structure.mjs:298-306 | the header the migration writes, followed by any body, reads back as exactly its fields and that body |
| `Frontmatter.DescriptionReadBack` | scripts/migrate-structure.mjs:300 | the written description reads back as itself exactly when quoting did not escape a `\` or `"` in it |
| `ShortTitle.GenerateShortTitle` | scripts/migrate-structure.mjs:54-64 | the method computes the short title specification |
| `ShortTitle.Words` | scripts/migrate-structure.mjs:56 | `split(/\s+/)` always yields at least one piece |
| `ShortTitle.WordsNoSpace` | scripts/migrate-structure.mjs:56 | no piece of `split(/\s+/)` holds white space |
| `ShortTitle.FitBounded` | scripts/migrate-structure.mjs:58-62 | the word loop never builds a result longer than 20 characters |
| `ShortTitle.FitIsLongestPrefix` | scripts/migrate-structure.mjs:58-62 | the loop keeps the longest run of leading words that fits in 20 characters |
| `ShortTitle.FitAvoids` | scripts/migrate-structure.mjs:59 | gluing words adds no character other than a space |
| `ShortTitle.ShortTitleBounded` | scripts/migrate-structure.mjs:54-64 | a short title never has more than 20 characters |
| `ShortTitle.ShortTitleKeepsShort` | scripts/migrate-structure.mjs:55 | a title of at most 20 characters is its own short title |
| `ShortTitle.ShortTitleCutsLongWord` | scripts/migrate-structure.mjs:63 | when not even the first word fits, the short title is the first 20 characters |
| `ShortTitle.ShortTitleLongestWords` | scripts/migrate-structure.mjs:54-64 | otherwise, whenever at least the first word fits, it is the longest run of leading words that fits |
| `ShortTitle.ShortTitleOneLine` | scripts/migrate-structure.mjs:54-64 | a one-line title has a one-line short title |
| `CategoriesYaml.Typed` | scripts/migrate-structure.mjs:110-111 | an indented value becomes a boolean exactly when it is `true` or `false`, and otherwise stays the string |
| `CategoriesYaml.ItemStart` | scripts/migrate-structure.mjs:94-102 | an item line opens a record holding at most its own field, as a string |
| `CategoriesYaml.ReadCategories` | scripts/migrate-structure.mjs:88-116 | the reader loop builds the `categories` array of the specification |
| `CategoriesYaml.CategoryCount` | scripts/migrate-structure.mjs:91-116 | there is one category per line starting with `- ` |
| `CategoriesYaml.CategoryOwnLines` | scripts/migrate-structure.mjs:91-116 | each category holds the fields of its own item line and of the lines up to the next one |
| `CategoriesYaml.ItemLineNotConverted` | scripts/migrate-structure.mjs:95-101 | `- hideInProd: true` on the item line stays the string `"true"` |
| `CategoriesYaml.IndentedHiddenLine` | scripts/migrate-structure.mjs:103-104 | an indented `hideInProd: true` line is a field line |
| `CategoriesYaml.FieldLineConverted` | scripts/migrate-structure.mjs:103-113 | on an indented line the same field becomes the boolean `true` |
| `Catalog.CategoryOf` | scripts/migrate-structure.mjs:129-130 | a usable category has string `id` and `title` fields, and is hidden exactly when `hideInProd` was converted to the boolean `true` |
| `Catalog.Categories` | scripts/migrate-structure.mjs:129-162 | the records convert, one category each and in order, exactly when none of them would stop the script |
| `Catalog.Stem` | scripts/migrate-structure.mjs:145 | `basename(name, '.md')` is the name without its `.md` suffix |
| `Catalog.FieldOr` | scripts/migrate-structure.mjs:145-147 | `fields[key] \|\| fallback` is the field when it is present and non-empty, and otherwise the fallback; it is never empty when the fallback is not |
| `Catalog.ToArticle` | scripts/migrate-structure.mjs:141-148 | the slug is a truthy `id`, else the file name without `.md`; a non-empty slug gives a non-empty title; a hidden article has a `hideInProd` field; the body is the text after the header |
| `Catalog.MdFiles` | scripts/migrate-structure.mjs:137 | exactly the directory entries ending in `.md` are read |
| `Catalog.ToArticles` | scripts/migrate-structure.mjs:140-150 | one article per file |
| `Catalog.ArticlesIn` | scripts/migrate-structure.mjs:131-160 | a category without a directory has no articles; otherwise one per `.md` file |
| `Catalog.AllArticles` | scripts/migrate-structure.mjs:152-154 | `allArticles` holds one article per slug met, the first one met, and no slug twice |
| `Catalog.SlugsOfArticles` | scripts/migrate-structure.mjs:152-157 | every article met contributes its slug |
| `Catalog.CatsOfAbsent` | scripts/migrate-structure.mjs:156-157 | a slug never met has no categories |
| `Catalog.CatsOfAppend` | scripts/migrate-structure.mjs:156-157 | walking `a` then `b` lists the categories met in `a` first, then those met in `b` |
| `Catalog.CatsOfTag` | scripts/migrate-structure.mjs:156-157 | within one category its id is listed once per article with that slug |
| `Catalog.CatsOfNextCategory` | scripts/migrate-structure.mjs:129-162 | after one more category, a slug's list is its earlier list followed by that category's id once per article with the slug |
| `Catalog.SlugCats` | scripts/migrate-structure.mjs:156-157 | `slugToCats` has an entry exactly for the slugs met, each listing their categories in order |
| `Catalog.AllArticlesStep` | scripts/migrate-structure.mjs:152-154 | an article with a new slug is appended to `allArticles`; any other is dropped |
| `Catalog.SlugCatsStep` | scripts/migrate-structure.mjs:156-157 | every article appends its category to its slug's list, creating the list if needed |
| `Catalog.ReadArticles` | scripts/migrate-structure.mjs:140-158 | the file loop returns the category's articles and keeps `allArticles` and `slugToCats` in step with the articles met |
| `Catalog.BuildCatalog` | scripts/migrate-structure.mjs:125-162 | the catalog loop builds `allArticles`, `slugToCats` and `categoryArticles` as specified, one entry per category id |
| `Mapping.ArticleListLines` | scripts/migrate-structure.mjs:396-401 | three lines per article |
| `Mapping.MappingLines` | scripts/migrate-structure.mjs:376-405 | the lines start with `categories:` |
| `Mapping.AppendArticles` | scripts/migrate-structure.mjs:396-401 | the article loop appends the entries of every article, in order |
| `Mapping.HeadLines` | scripts/migrate-structure.mjs:379-391 | the pushes from `- name:` to `articles:` produce the category head |
| `Mapping.AppendCategory` | scripts/migrate-structure.mjs:379-404 | one category appends its head, its article block and an empty line |
| `Mapping.BuildMapping` | scripts/migrate-structure.mjs:376-407 | the category loop and the final join give the mapping text |
| `MappingReader.MappingParser.constructor` | scripts/validate-structure.mjs:38-41 | the locals start with no category, no article entry and `inArticles` false |
| `MappingReader.MappingParser.Feed` | scripts/validate-structure.mjs:43-92 | one pass of the loop body takes the locals to the reader's next state |
| `MappingReader.MappingParser.Finish` | scripts/validate-structure.mjs:95-101 | "push last items" returns the categories of the final state |
| `MappingReader.ParseMapping` | scripts/validate-structure.mjs:37-102 | the line loop and the final pushes compute `parseMapping` |
| `MappingReader.ExtractValue` | scripts/validate-structure.mjs:104-112 | a non-empty value comes from behind an occurrence of `key:` and fits in the rest of the line |
| `MappingReader.ExtractAbsent` | scripts/validate-structure.mjs:104-106 | without `key:` anywhere in the line the value is empty |
| `MappingReader.ExtractAfter` | scripts/validate-structure.mjs:104-112 | with `key:` after its lead, the value is the rest of the line, trimmed and unquoted |
| `MappingReader.OpensIsNameLine` | scripts/validate-structure.mjs:45-51 | the lines that open categories are exactly the `  - name:` lines |
| `MappingReader.MarkersAreNameLines` | scripts/validate-structure.mjs:51-60 | the lines that open categories are counted by the name lines |
| `MappingReader.CategoryCount` | scripts/validate-structure.mjs:37-102 | `parseMapping` returns one category per `  - name:` line |
| `MappingReader.CategoryOwnLines` | scripts/validate-structure.mjs:51-101 | a name line and the lines up to the next one form exactly one category, after the earlier ones |
| `MappingReader.SlugsOf` | scripts/validate-structure.mjs:85 | the slugs of the article entries, one each and in order |
| `MappingReader.ArticleLineIsArticle` | scripts/validate-structure.mjs:80-85 | a `- slug:` line inside the list pushes the open entry and opens a new one with that slug |
| `MappingReader.UpdateKeepsEntries` | scripts/validate-structure.mjs:65-92 | any other line leaves the category's entries and the open entry's slug alone |
| `MappingReader.UpdateCollects` | scripts/validate-structure.mjs:80-91 | one line changes the entries' slugs only by appending the slug of an article line |
| `MappingReader.CollectsAll` | scripts/validate-structure.mjs:43-92 | over many lines, the entries' slugs grow by the slugs of the article lines, in order |
| `MappingReader.CategoryArticles` | scripts/validate-structure.mjs:52-99 | the entries of a category are exactly its `- slug:` lines read inside its list, in order, none lost |
| `MappingReader.ArticlesLine` | scripts/validate-structure.mjs:74-79 | `articles:` opens the list unless the line ends with `[]`, and changes nothing else |
| `MappingReader.OutsideListIgnored` | scripts/validate-structure.mjs:80-91 | outside an articles list the article lines change nothing |
| `MappingReader.SlugInsideListIgnored` | scripts/validate-structure.mjs:66 | inside an articles list a `slug:` line at the category's indentation is not the category's slug |
| `MappingReader.NotSkipped` | scripts/validate-structure.mjs:45 | an indented line whose text starts with neither white space nor `#` is read |
| `MappingRoundTrip.MappingRoundTrip` | scripts/migrate-structure.mjs:376-407 | the categories `parseMapping` reads back from the written mapping are the migrated categories in order, each with its title, slug, icon, description, hidden flag and articles in order |
| `MappingRoundTrip.LinesRead` | scripts/migrate-structure.mjs:376-405 | the mapping lines read back category by category and hold no line break |
| `MappingRoundTrip.CategoryStep` | scripts/migrate-structure.mjs:378-405 | the lines of one more category are read as exactly one more category |
| `MappingRoundTrip.CategoryRead` | scripts/migrate-structure.mjs:381-404 | the block written for a category reads back as that category with its article entries |
| `MappingRoundTrip.CategoryClean` | scripts/migrate-structure.mjs:381-404 | of the lines written for a category only the first is a `- name:` line, and none holds a line break |
| `MappingRoundTrip.HeadRead` | scripts/migrate-structure.mjs:381-391 | the name, slug, icon, description, optional hidden flag and `articles:` lines set the category's fields and open its list |
| `MappingRoundTrip.BlockRead` | scripts/migrate-structure.mjs:393-404 | the article block and the closing empty line add the category's entries in order |
| `MappingRoundTrip.ListRead` | scripts/migrate-structure.mjs:396-401 | the entries of an article list are collected in order |
| `MappingRoundTrip.ArticleRead` | scripts/migrate-structure.mjs:398-400 | the three lines of an article close the previous entry and open one with the article's slug, title and short title |
| `MappingRoundTrip.NoArticlesLineRead` | scripts/migrate-structure.mjs:394 | the `[]` line of an empty category changes nothing |
| `MappingRoundTrip.HeaderRead` | scripts/migrate-structure.mjs:376 | the `categories:` line opens no category |
| `MappingRoundTrip.TrailingBlank` | scripts/migrate-structure.mjs:407 | the empty piece after the final line break changes nothing |
| `MappingRoundTrip.ReadQuoted` | scripts/validate-structure.mjs:104-112 | a value written by `yamlEscape` behind `key: ` reads back as the text between its quotes |
| `MappingRoundTrip.ReadPlain` | scripts/validate-structure.mjs:104-112 | a slug-safe value behind `key: ` reads back unchanged |
| `MappingRoundTrip.QuotedValue` | scripts/validate-structure.mjs:109-111 | trimming and quote stripping undo `yamlEscape` |
| `Dates.QuotedPrefix` | scripts/migrate-structure.mjs:427 | a match is a leading quote, a non-empty run without quotes, a closing quote and the rest of the line |
| `Dates.QuotedPrefixOf` | scripts/migrate-structure.mjs:427 | every quoted run without quotes is found, with the rest of the line after it |
| `Dates.DatePart` | scripts/migrate-structure.mjs:427 | the captured date is non-empty and holds no quote |
| `Dates.MatchDateLine` | scripts/migrate-structure.mjs:427 | the captured key and date are non-empty and hold no quote, nor a line break when the line has none |
| `Dates.MatchWritten` | scripts/migrate-structure.mjs:427-438 | the pattern matches every line the transform writes and captures its slug and date |
| `Dates.DateSlug` | scripts/migrate-structure.mjs:431 | the slug holds no `/` and is the key itself when the key holds none |
| `Dates.DateLines` | scripts/migrate-structure.mjs:438 | one `"slug": "date"` line per kept entry, in order |
| `Dates.TransformDates` | scripts/migrate-structure.mjs:422-441 | the loop over the lines computes the new `dates.yaml` text: blank and non-matching lines skipped, the first entry per slug kept |
| `Dates.ScanStep` | scripts/migrate-structure.mjs:433-438 | an entry is kept and its slug recorded exactly when its slug was not seen before |
| `Dates.FirstDateWins` | scripts/migrate-structure.mjs:422-439 | the kept entries have distinct slugs, one for every slug of the file, each the first entry the file holds for it |
| `Dates.DateLineReadBack` | scripts/migrate-structure.mjs:427-438 | a written line reads back as its entry |
| `Dates.DateEntriesReadBack` | scripts/migrate-structure.mjs:425-438 | written lines read back as their entries, in order |
| `Dates.ReadWritten` | scripts/migrate-structure.mjs:425-441 | the written file, split on line breaks, reads back as the entries written into it |
| `Dates.KeptClean` | scripts/migrate-structure.mjs:425-439 | the kept entries can be written and read back unchanged once their slugs are non-empty |
| `Dates.TransformIdempotent` | scripts/migrate-structure.mjs:422-441 | transforming the transform's output again changes nothing, when no kept slug is empty |
| `Ownership.UsesOf` | scripts/migrate-structure.mjs:201-210 | one use per image reference of the body, in order |
| `Ownership.CandidatesDomain` | scripts/migrate-structure.mjs:193-211 | a key is in `imageOwnership` exactly when some article references it |
| `Ownership.CandidatesMembers` | scripts/migrate-structure.mjs:209-210 | the slugs listed for a key are exactly the articles that reference it |
| `Ownership.CandidatesDistinct` | scripts/migrate-structure.mjs:209-210 | no slug is listed twice for a key, as in the `Set` |
| `Ownership.CandidatesFirst` | scripts/migrate-structure.mjs:196-211 | the first slug listed for a key is the first article, in scan order, that references it |
| `Ownership.KeyOrderCovers` | scripts/migrate-structure.mjs:209 | the map's iteration order lists every referenced key once |
| `Ownership.ScanStep` | scripts/migrate-structure.mjs:208-210 | one match adds its slug to its key's list, and the key to the order when it is new |
| `Ownership.ScanBody` | scripts/migrate-structure.mjs:200-211 | the match loop over one body extends the scan state by that body's uses |
| `Ownership.ResolveOwnership` | scripts/migrate-structure.mjs:193-214 | the scan of all bodies builds the candidate map and its iteration order |
| `Ownership.SharedStep` | scripts/migrate-structure.mjs:219-222 | each key in the order adds one to the shared count exactly when it has more than one candidate |
| `Ownership.AssignOwners` | scripts/migrate-structure.mjs:216-225 | every key gets its first candidate as owner and nothing else gets one; `sharedCount` is the number of keys with more than one candidate |
| `Ownership.OwnerIsFirstCandidate` | scripts/migrate-structure.mjs:196-225 | each referenced key's owner references it and is the first article that did |
| `Ownership.ScanFeedsOwners` | scripts/migrate-structure.mjs:193-219 | the scan hands the owner loop a well-ordered map whose lists are all non-empty |
| `Orphans.ImageDirsOrdered` | scripts/migrate-structure.mjs:178-185 | the order of `imageDirs` lists each of its keys once |
| `Orphans.DirFilesLastWins` | scripts/migrate-structure.mjs:180-184 | a lower-cased name is an image directory exactly when a directory other than `categoryLogos` has it, and the last such directory wins |
| `Orphans.BuildImageDirs` | scripts/migrate-structure.mjs:178-185 | the loop builds the image directories and their order; a missing `images/` gives none |
| `Orphans.OrphansInMembers` | scripts/migrate-structure.mjs:233-239 | the orphans of a directory are exactly its files whose key no article references |
| `Orphans.OrphanListMembers` | scripts/migrate-structure.mjs:230-240 | an orphan is exactly a key `dir/file` of a file under an image directory that no article references |
| `Orphans.FindOrphans` | scripts/migrate-structure.mjs:230-240 | the orphan loop lists the orphans directory after directory, file after file |
| `Orphans.CatIdLowerLastWins` | scripts/migrate-structure.mjs:248-251 | each lower-cased id maps back to the id of the last category that has it |
| `Orphans.BuildCatIdLower` | scripts/migrate-structure.mjs:248-251 | the loop builds `catIdLower` |
| `Orphans.AssignedKeepsOwners` | scripts/migrate-structure.mjs:254-264 | the fallback keeps every existing owner, adds only orphans with their fallback owner, and gives every unowned orphan that has one its fallback owner |
| `Orphans.AssignedOrdered` | scripts/migrate-structure.mjs:254-264 | keys added by the fallback go to the end of the iteration order, each once |
| `Orphans.AssignOrphans` | scripts/migrate-structure.mjs:254-264 | the fallback loop computes the new owner map and its order |
| `Orphans.FallbackIsFirstArticle` | scripts/migrate-structure.mjs:256-261 | a fallback owner is the first article of a category whose lower-cased id is the orphan's directory |
| `Rewrite.OwnerOr` | scripts/migrate-structure.mjs:293 | the owner of the key when it has a non-empty one, else the article's own slug; always one of the owners or the slug, and never empty for a non-empty slug |
| `Rewrite.RewriteBody` | scripts/migrate-structure.mjs:289-296 | the replacement keeps one segment for every segment of the body |
| `Rewrite.RewriteSegments` | scripts/migrate-structure.mjs:289-296 | text stays; each reference keeps its prefix and file name, and its directory becomes the owner of `dir.toLowerCase()/file` |
| `Rewrite.MovedRefs` | scripts/migrate-structure.mjs:291-295 | the old references, in the same order, each moved to its owner |
| `Rewrite.RewriteRefs` | scripts/migrate-structure.mjs:287-296 | the references of the rewritten body are the old ones, each moved to its owner |
| `Rewrite.NewContentRoundTrip` | scripts/migrate-structure.mjs:298-306 | reading the new file back gives the description between its quotes, the hidden flag and the rewritten body |
| `Rewrite.PlanCounts` | scripts/migrate-structure.mjs:320-345 | every owned key is either moved or skipped |
| `Rewrite.PlanCopyMembers` | scripts/migrate-structure.mjs:320-345 | a copy happens exactly for an owned key whose directory and file exist, and it goes to the key's owner |
| `Rewrite.PlanCopies` | scripts/migrate-structure.mjs:317-345 | the copy loop performs the planned copies and counts the moved and the skipped keys |
| `Rewrite.RewrittenLinksResolve` | scripts/migrate-structure.mjs:289-345 | for a rewritten link `/images/<owner>/file`, the copy loop plans a copy of the referenced file to that destination |
| `ValidateStructure.CheckCategoryFields` | scripts/validate-structure.mjs:165-169 | the field loop pushes one message per `undefined` required field, in field order |
| `ValidateStructure.CheckArticle` | scripts/validate-structure.mjs:188-202 | the loop and the slug test of one entry push its messages |
| `ValidateStructure.CheckArticles` | scripts/validate-structure.mjs:187-203 | the entry loop pushes each entry's messages in order and adds every non-empty slug to `allArticleSlugs` once |
| `ValidateStructure.CheckCategorySlug` | scripts/validate-structure.mjs:176-184 | a truthy category slug is matched against the pattern and the earlier slugs, then recorded |
| `ValidateStructure.CheckCategories` | scripts/validate-structure.mjs:158-204 | the category loop computes the messages of checks 2-4, `allSlugs` and `allArticleSlugs` |
| `ValidateStructure.FieldIssuesIn` | scripts/validate-structure.mjs:165-169 | a category field is reported exactly when it is `undefined`; an empty value passes |
| `ValidateStructure.ArticleIssuesIn` | scripts/validate-structure.mjs:188-199 | an entry is reported for each missing or empty field, and for a non-empty slug that is not URL-safe |
| `ValidateStructure.SeenSlugsAre` | scripts/validate-structure.mjs:176-183 | `allSlugs` holds exactly the non-empty category slugs |
| `ValidateStructure.CategoryErrorsIn` | scripts/validate-structure.mjs:161-204 | a message of checks 2-4 comes from one category, judged against the slugs before it, and every such message is kept |
| `ValidateStructure.DuplicateAt` | scripts/validate-structure.mjs:180-182 | a category is flagged as a duplicate exactly when an earlier category has its non-empty slug |
| `ValidateStructure.UnsafeCategorySlugReported` | scripts/validate-structure.mjs:176-179 | a category slug is reported as not URL-safe exactly when some category has it, non-empty, failing the pattern |
| `ValidateStructure.DuplicateCategorySlugReported` | scripts/validate-structure.mjs:180-182 | a category slug is reported as a duplicate exactly when two categories share it, non-empty |
| `ValidateStructure.CategoryFieldReported` | scripts/validate-structure.mjs:162-168 | check 2 reports a field exactly when some category with that label lacks it; the name is never reported |
| `ValidateStructure.ArticleIssueReported` | scripts/validate-structure.mjs:187-203 | the messages naming an article entry are exactly those of some entry of some category |
| `ValidateStructure.UnsafeArticleSlugReported` | scripts/validate-structure.mjs:196-199 | an article slug is reported as not URL-safe exactly when some entry has it, non-empty, failing the pattern |
| `ValidateStructure.ArticleFieldReported` | scripts/validate-structure.mjs:188-194 | check 3 reports a field of an entry exactly when it is `undefined` or empty |
| `ValidateStructure.AddSlugsAre` | scripts/validate-structure.mjs:196-202 | the set of article slugs grows by exactly the non-empty entry slugs, without repeats |
| `ValidateStructure.ArticleSlugsAre` | scripts/validate-structure.mjs:159-203 | `allArticleSlugs` holds each non-empty entry slug of every category once |
| `ValidateStructure.CheckArticleFiles` | scripts/validate-structure.mjs:208-213 | the loop of check 5 reports the mapped slugs without an `article.md` |
| `ValidateStructure.MissingFilesReported` | scripts/validate-structure.mjs:208-213 | a slug is reported missing exactly when it is mapped and its file is absent, and at most once |
| `ValidateStructure.CheckOrphans` | scripts/validate-structure.mjs:217-223 | the loop of check 6 reports the unmapped directories |
| `ValidateStructure.OrphansReported` | scripts/validate-structure.mjs:217-223 | a name is reported exactly when `articles/` exists and holds a directory of that name that no entry maps; plain files never |
| `ValidateStructure.CheckIcons` | scripts/validate-structure.mjs:227-234 | the loop of check 7 reports the named icons that are absent |
| `ValidateStructure.IconsReported` | scripts/validate-structure.mjs:227-234 | an icon is reported exactly when some category names it, non-empty, and the file is absent |
| `ValidateStructure.CheckHeaderFields` | scripts/validate-structure.mjs:250-260 | a missing or empty description and each non-empty forbidden field of one header is reported |
| `ValidateStructure.CheckFrontmatter` | scripts/validate-structure.mjs:238-261 | the loop of checks 8 and 9 reports each mapped file's header messages, skipping absent files |
| `ValidateStructure.HeaderIssuesIn` | scripts/validate-structure.mjs:239-260 | a file without a header gets only the missing-header message; otherwise the description and forbidden-field messages, each exactly when it applies |
| `ValidateStructure.FrontmatterReported` | scripts/validate-structure.mjs:238-261 | header messages name a mapped slug, and each file is judged on its own |
| `Outcomes.ExitCode` | scripts/validate-structure.mjs:276-283 | exit code 0 exactly when the run finishes with no messages, 1 otherwise; the article validator ends the same way (scripts/validate-article.mjs:81-87) |
| `ValidateStructure.ValidateAsWritten` | scripts/validate-structure.mjs:134-152 | as written, a missing, unreadable or empty mapping ends in an exception; otherwise the run reports checks 2-9 |
| `ValidateStructure.Validate` | scripts/validate-structure.mjs:132-265 | with `finish()` able to run early, every run finishes with its messages |
| `ValidateStructure.ValidateStructure` | scripts/validate-structure.mjs:132-265 | the whole run over a snapshot of the disk computes the outcome |
| `ValidateStructure.EarlyFinishCrashes` | scripts/validate-structure.mjs:134-152 | as written, check 1 crashes where it should report its one message |
| `ValidateStructure.ExitCodesAgree` | scripts/validate-structure.mjs:134-283 | the crash does not change the exit code, and both versions agree when the mapping yields categories |
| `ValidateStructure.PassesIff` | scripts/validate-structure.mjs:132-283 | the run passes exactly when the mapping is present, yields categories, and none of checks 2-9 reports anything |
| `ValidateImages.CollectSlugs` | scripts/validate-images.mjs:53-61 | the loop builds `validSlugs` from the directories of `articles/`, none when it is missing |
| `ValidateImages.SlugsInAre` | scripts/validate-images.mjs:56-60 | `validSlugs` holds each directory of the listing once, and nothing else |
| `ValidateImages.ValidSlugsAre` | scripts/validate-images.mjs:53-61 | a name is a valid slug exactly when `articles/` exists and lists a directory of that name |
| `ValidateImages.FindArticleFiles` | scripts/validate-images.mjs:25-37 | the `article.md` of each directory that has one, in listing order |
| `ValidateImages.SelectTargets` | scripts/validate-images.mjs:63-66 | the given paths that exist, or every article when no path is given |
| `ValidateImages.ArticleTargetsAre` | scripts/validate-images.mjs:25-37 | by default the checked files are exactly the `article.md` files of the directories of `articles/` |
| `ValidateImages.RefsOfIn` | scripts/validate-images.mjs:79-80 | the matches of a file are exactly its image references |
| `ValidateImages.ScanTarget` | scripts/validate-images.mjs:74-106 | the match loop of one file pushes its errors and records its references under known slugs; an image counts as present when its path exists, sub-directory or file, as for `existsSync` |
| `ValidateImages.Scan` | scripts/validate-images.mjs:71-107 | the file loop computes all errors and `referencedImages` |
| `ValidateImages.RefIssueSource` | scripts/validate-images.mjs:83-101 | a match raises an error exactly for an absent icon, a directory that is not an article, or a path under a known article's `images/` that does not exist (a sub-directory exists, as for `existsSync`) |
| `ValidateImages.TargetIssuesIn` | scripts/validate-images.mjs:79-106 | the errors of one file are exactly those raised by its matches |
| `ValidateImages.ScanReported` | scripts/validate-images.mjs:73-107 | every error names a checked file holding a match that raises it, and every such match is reported |
| `ValidateImages.RecordAllFiles` | scripts/validate-images.mjs:104-105 | a match records its file under its directory exactly when the directory is a known slug other than `categoryIcons` |
| `ValidateImages.TargetRefsFiles` | scripts/validate-images.mjs:79-106 | the files one checked file adds under a slug are its references under that known slug |
| `ValidateImages.ReferencedFiles` | scripts/validate-images.mjs:71-107 | a file counts as referenced under a slug exactly when the slug is a known article directory and some checked file references it, whether or not the file exists |
| `ValidateImages.WarnUnusedIn` | scripts/validate-images.mjs:117-121 | one warning per file on disk that is not referenced, in order |
| `ValidateImages.WarnUnused` | scripts/validate-images.mjs:110-122 | the loop over the slugs computes the unused-image warnings |
| `ValidateImages.UnusedReported` | scripts/validate-images.mjs:110-122 | a file is warned about exactly when it lies under the `images/` of a known slug and is not referenced there |
| `ValidateImages.SlugUnusedDistinct` | scripts/validate-images.mjs:114-121 | one slug's warnings have no repeats when its listing has none |
| `ValidateImages.UnusedOnce` | scripts/validate-images.mjs:110-122 | each unused file is warned about once |
| `ValidateImages.ValidateImages` | scripts/validate-images.mjs:53-122 | the whole run computes the report |
| `ValidateImages.ExitCode` | scripts/validate-images.mjs:132-138 | exit code 1 exactly when there are errors; warnings alone leave it at 0 |
| `ValidateImages.UnusedImageIff` | scripts/validate-images.mjs:53-122 | an image is warned about exactly when its slug is a directory of `articles/` and no checked file references it under that slug |
| `ValidateArticle.FindMdFiles` | scripts/validate-article.mjs:33-44 | the recursive walk lists the `.md` files, depth first in listing order, skipping directories whose names start with `.` |
| `ValidateArticle.MdFilesShape` | scripts/validate-article.mjs:33-44 | every listed path ends with `.md` and lies under the listed directory |
| `ValidateArticle.MdFileListed` | scripts/validate-article.mjs:39-41 | a Markdown file in the listing is always checked |
| `ValidateArticle.ArgFilesAre` | scripts/validate-article.mjs:47-48 | the given paths are filtered by their suffix only |
| `ValidateArticle.CheckRequired` | scripts/validate-article.mjs:64-68 | one message per missing or empty required field, in field order |
| `ValidateArticle.HeaderFileIssues` | scripts/validate-article.mjs:64-78 | a file with a header gets the required-field messages, then the id messages when its id is non-empty, and then records that id |
| `ValidateArticle.CheckFields` | scripts/validate-article.mjs:64-78 | the checks of a file with a header push its messages and update `seenIds` |
| `ValidateArticle.CheckFile` | scripts/validate-article.mjs:55-78 | the checks of one file push its messages and update `seenIds` |
| `ValidateArticle.ValidateArticles` | scripts/validate-article.mjs:46-79 | the whole run computes the outcome; a target that cannot be read crashes it |
| `ValidateArticle.ReadFails` | scripts/validate-article.mjs:54-56 | once one target cannot be read, the run crashes |
| `ValidateArticle.NoHeaderOnly` | scripts/validate-article.mjs:59-62 | a file without a header gets only the missing-header message and records no id |
| `ValidateArticle.FieldIssuesAre` | scripts/validate-article.mjs:64-68 | each required field that is missing or empty is reported, once |
| `ValidateArticle.IdIssuesAre` | scripts/validate-article.mjs:70-77 | a non-empty id is reported when it is not URL-safe, and as a duplicate naming the file that last recorded it |
| `ValidateArticle.SeenKept` | scripts/validate-article.mjs:77 | every recorded id stays in `seenIds` |
| `ValidateArticle.SeenLast` | scripts/validate-article.mjs:74-77 | each id in `seenIds` names the most recent file that recorded it |
| `ValidateArticle.SeenDomain` | scripts/validate-article.mjs:70-78 | `seenIds` knows exactly the ids some file recorded |
| `ValidateArticle.IssueKept` | scripts/validate-article.mjs:54-79 | every message of a file, judged against the ids before it, reaches the error list |
| `ValidateArticle.IssueSource` | scripts/validate-article.mjs:54-79 | every error comes from one file, judged against the ids before it |
| `ValidateArticle.DuplicateIdReported` | scripts/validate-article.mjs:74-76 | a duplicate id is reported for a file exactly when an earlier file recorded it, naming the most recent such file |
| `ValidateWidgets.WidgetFilesAre` | scripts/validate-widgets.mjs:40 | the checked files are exactly the entries whose names end with `.yml` or `.yaml`, in listing order |
| `ValidateWidgets.ExpectedId` | scripts/validate-widgets.mjs:66 | the expected id is the file name without its `.yml` or `.yaml` suffix |
| `ValidateWidgets.CheckUnits` | scripts/validate-widgets.mjs:104-111 | the unit checks of one input push their messages |
| `ValidateWidgets.CheckInputs` | scripts/validate-widgets.mjs:96-112 | the input loop computes the messages and `localIds`, or throws |
| `ValidateWidgets.CheckOutputs` | scripts/validate-widgets.mjs:120-127 | the output loop computes the messages and `localIds`, or throws |
| `ValidateWidgets.ScanShape` | scripts/validate-widgets.mjs:98-127 | an entry loop throws exactly when some entry is `null` or `undefined`; otherwise `localIds` gains the truthy ids in order and messages are only added |
| `ValidateWidgets.EmitKept` | scripts/validate-widgets.mjs:98-127 | every message of an entry, given the ids before it, reaches the file's messages |
| `ValidateWidgets.EmitSource` | scripts/validate-widgets.mjs:98-127 | every message an entry loop adds comes from one entry, given the ids before it |
| `ValidateWidgets.DuplicateEntryReported` | scripts/validate-widgets.mjs:101-102 | a repeated entry id is reported exactly at the entries whose id is already in `localIds` |
| `ValidateWidgets.MissingEntryReported` | scripts/validate-widgets.mjs:99 | an entry without a truthy id is reported exactly when one occurs |
| `ValidateWidgets.InvalidEntryReported` | scripts/validate-widgets.mjs:100 | an entry id that does not match the pattern is reported exactly when an entry carries it |
| `ValidateWidgets.UnknownGroupReported` | scripts/validate-widgets.mjs:104-107 | a `number` input whose units are a string outside the known groups is reported exactly when one occurs |
| `ValidateWidgets.TypeOfUnits` | scripts/validate-widgets.mjs:108 | `typeof` is neither `string` nor `object` exactly for `undefined`, booleans and numbers |
| `ValidateWidgets.BadUnitsReported` | scripts/validate-widgets.mjs:104-110 | a `number` input whose units are neither a string nor an object is reported exactly when one occurs; `null` units pass |
| `ValidateWidgets.FormulaReported` | scripts/validate-widgets.mjs:126 | an output with a truthy id and no truthy `formula` is reported exactly when one occurs |
| `ValidateWidgets.ExitCode` | scripts/validate-widgets.mjs:134-135 | exit code 1 exactly when the run crashed or reported a message |
| `ValidateWidgets.CheckEntries` | scripts/validate-widgets.mjs:90-127 | the input and output checks of a complete file compute its entry messages, or throw |
| `ValidateWidgets.CheckFile` | scripts/validate-widgets.mjs:49-131 | one pass of the file loop computes the file's messages and `seenIds`, or throws |
| `ValidateWidgets.ValidateWidgets` | scripts/validate-widgets.mjs:32-136 | the whole run computes the outcome |
| `ValidateWidgets.NotAConfigReported` | scripts/validate-widgets.mjs:54-64 | a file that does not load, or is not an object, gets exactly one message and records nothing |
| `ValidateWidgets.MissingFieldReported` | scripts/validate-widgets.mjs:69-72 | a file gets exactly the one message naming a field when that is the first falsy field of `id`, `title`, `inputs`, `outputs` |
| `ValidateWidgets.ScanMessages` | scripts/validate-widgets.mjs:98-127 | every message of an entry loop names the file; the input loop says nothing about outputs |
| `ValidateWidgets.EntryIssuesAre` | scripts/validate-widgets.mjs:90-127 | the entry checks of a file report only entry messages naming it |
| `ValidateWidgets.WidgetIdChecked` | scripts/validate-widgets.mjs:75-82 | an id mismatch with the file name and an id outside the pattern are each reported exactly when they hold |
| `ValidateWidgets.WidgetIdRecorded` | scripts/validate-widgets.mjs:84-88 | a complete file records its id, valid or not, and is reported as a duplicate exactly when an earlier file recorded that id |
| `ValidateWidgets.WidgetThrows` | scripts/validate-widgets.mjs:98-121 | a file throws exactly when it is complete and a loop it reaches meets a `null` or `undefined` entry |
| `ValidateWidgets.InputsNotArrayReported` | scripts/validate-widgets.mjs:91-94 | a non-array `inputs` is reported exactly when it occurs, and no other entry message follows |
| `ValidateWidgets.OutputsNotArrayReported` | scripts/validate-widgets.mjs:115-118 | a non-array `outputs` after array inputs is reported exactly when it occurs, and no other output message is |
| `ValidateWidgets.InputScanMessages` | scripts/validate-widgets.mjs:98-112 | the input loop reports nothing about outputs and no non-array message |
| `ValidateWidgets.OutputScanMessages` | scripts/validate-widgets.mjs:120-127 | the output loop reports no non-array message |
| `ValidateWidgets.SharedIdsReported` | scripts/validate-widgets.mjs:96-124 | inputs and outputs share `localIds`: an output repeating any input's id is reported |
| `ValidateWidgets.RunSeen` | scripts/validate-widgets.mjs:47-88 | after the loop `seenIds` holds the ids of the complete files, in order |
| `ValidateWidgets.RunGrows` | scripts/validate-widgets.mjs:49-132 | the error count only grows from file to file |
| `ValidateWidgets.FileKept` | scripts/validate-widgets.mjs:49-132 | every message of a file, checked against the earlier ids, is reported |
| `ValidateWidgets.FileSource` | scripts/validate-widgets.mjs:49-132 | every message comes from one file, checked against the earlier ids |
| `ValidateWidgets.DuplicateWidgetReported` | scripts/validate-widgets.mjs:84-88 | a widget id is reported as a duplicate exactly at the files that repeat the id of an earlier complete file |

## Left out

- Filesystem calls are not modelled as effects. Listings, file texts and the existence of paths are inputs; `mkdirSync`, `copyFileSync` and `writeFileSync` become the values the model computes: the copy plan, the new article text, the mapping text and the dates text.
- The directory swap with `renameSync` (scripts/migrate-structure.mjs:451-465) is plain I/O with no decision in it.
- The copy of `images/categoryLogos` to `categoryIcons` (scripts/migrate-structure.mjs:348-370) is plain I/O with no decision in it.
- The root-image report and the final migration report (scripts/migrate-structure.mjs:469-489) are output only. So is the multi-category listing (lines 166-170) and every other `log`, `warn` and `console` call, including the `OK:` line of the widget validator.
- `--dry-run` and `process.argv` are not modelled for the migration. The validators' command-line paths are a field of the snapshot.
- `articleImageRefs` and `dirCaseMap` (scripts/migrate-structure.mjs:191-213) are filled but never read, so they are not modelled.
- `IMG_REGEX` and the header regex are not modelled as regex engines. A body is a sequence of segments, and the scanner yields its reference segments in order. The header match is `Frontmatter.HeaderEnd`: the first `\n---` at index 4 or later, after a leading `---\n`.
- `toLowerCase` is modelled on ASCII letters only.
- `join` and `relative` are not modelled as path operations. Paths are `/`-joined strings, and the files under a directory are given relative to it.
- `yaml.load` (js-yaml) is not modelled. A widget file's loaded value is an input: an `Option<JsValue>`, with `None` when the loader throws.
- `JsValue` covers undefined, null, booleans, integers, strings, arrays and plain objects. Floating-point numbers, dates and YAML aliases that share one object are not represented.
- `Has` treats every loaded array or object as a distinct reference, which is what `Set.has` does for values that `yaml.load` builds afresh.
- `ValidateWidgets.ValidateWidgets` does not model `readFileSync` throwing on an entry of `widgets/` that is a directory named `*.yml`; every listed entry is taken to be a readable file.
- `ValidateImages.SelectTargets` takes a command-line path that exists to be a readable file. A path that names a directory passes `existsSync` (scripts/validate-images.mjs:65), and `readFileSync` then throws (line 75); the model gives that path no target and carries on. The same holds for an `article.md` that is a directory in `ValidateImages.FindArticleFiles`.
- `ValidateStructure.CheckFrontmatter` takes every existing `article.md` to be a readable file. One that is a directory passes `existsSync` and makes `readFileSync` throw (scripts/validate-structure.mjs:240-242); the model has no such crash.
- `Catalog.ReadArticles` takes every `*.md` entry of a category directory to be a readable file. An entry that is a directory makes `readFileSync` throw (scripts/migrate-structure.mjs:137-142); the model has no such crash.
- `ValidateStructure.Checks` does not model `Array.isArray(cat.articles)` failing (scripts/validate-structure.mjs:170-173). `parseMapping` always builds an array, so the branch cannot be taken.
- `Dates.TransformIdempotent` requires every kept slug to be non-empty. A key ending in `/` gives the empty slug, and its written line `"": "<date>"` no longer matches the pattern.
- `MappingRoundTrip.MappingRoundTrip` requires URL-safe category and article slugs and texts without line breaks. Only those can be written on one line and read back unchanged.
- `Rewrite.NewContentRoundTrip` requires a description without a line break, for the same reason.
- `Rewrite.RewrittenLinksResolve` says that a copy of the referenced file to the link's destination is planned, not that it is the one left there. Two keys `a/x.png` and `b/x.png` with the same owner both copy to `<owner>/images/x.png` (scripts/migrate-structure.mjs:338-342), and the later copy overwrites the earlier one.
- `Rewrite.CopyOf` takes the files listed under an image directory as the paths that exist. For `existsSync`, a sub-directory named like the file exists as well, and `copyFileSync` then throws (scripts/migrate-structure.mjs:332-343); the model skips that key instead of stopping.
- `Catalog.CategoryOf` returns `None` for a record that stops the script, and the model then builds nothing. In the script, a `description` or `logo` read as `true` and a non-string `title` throw only in step 7 (scripts/migrate-structure.mjs:379-384), after the articles were written (line 309) and the images copied (line 342). That half-migrated state is not represented.
- `ShortTitle.ShortTitle` and `ShortTitle.GenerateShortTitle` count characters as Dafny `char`s. JavaScript's `length` and `slice` count UTF-16 code units (scripts/migrate-structure.mjs:55, 60, 63), so a title outside the Basic Multilingual Plane is cut at a different place, possibly inside a surrogate pair.
- `ValidateWidgets.JsString` and `ValidateWidgets.NatText` write every integer in plain decimal digits. `String(n)` switches to exponent form for magnitudes of 1e21 and above, so the id pattern sees a different text there.

## Findings

| source | as written | input that shows it | evidently intended | confidence | as-written member | corrected member |
|---|---|---|---|---|---|---|
| scripts/validate-structure.mjs:134-152 | All three calls of `finish()` by check 1 (lines 136, 144 and 151) come before `const allArticleSlugs` (line 159) is initialised. `finish()` reads `allArticleSlugs` first (line 268), so it throws a ReferenceError and the message pushed by `error(...)` is never printed. The exit code is still 1. | a repository without `category-article-mapping.yml`, or one whose mapping has no `  - name:` line | check 1 prints its one message and exits with 1 | not executed | `ValidateStructure.ValidateAsWritten` (`ValidateStructure.EarlyFinishCrashes`) | `ValidateStructure.Validate` (`ValidateStructure.ExitCodesAgree`, `ValidateStructure.PassesIff`) |
