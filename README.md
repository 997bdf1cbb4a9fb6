# IIIF crawler — a verified Dafny model

IIIFcrawler.php walks IIIF Presentation API (version 2) documents from a start URL.
- A **collection** is a document whose `members`, `collections` or `manifests` arrays are non-empty. For each entry the crawler makes a numbered directory and crawls the entry into it.
- A **manifest** is a document with `sequences`. For every canvas of every sequence, the crawler saves the first resource whose `format` is the requested MIME type. The file is named `<sequence>-<canvas>.<ext>`, with both ordinals padded to ten digits.

The crawler counts the URLs it decoded and the files it harvested. It logs one error for:
- a URL it cannot retrieve;
- a body that does not decode;
- a document that is neither a collection nor a manifest.

## How the model is built

The model has five modules:
- **`Iiif`** holds the document types and the web. A JSON field that is absent, null or not an array is `None`. The web is two maps: URL to body (what `file_get_contents` returns), and body to decoded document (what `json_decode` returns when the result is truthy).
- **`Naming`** holds the pure naming rules: `getExtensionFromMime`, `str_pad(n, 10, '0', STR_PAD_LEFT)`, `getFilename` and the label sanitiser `preg_replace('/[^a-zA-Z0-9-_]+/', '_', label)`. It proves their properties: padding reads back and sorts, file and directory names are injective, and runs of disallowed characters collapse.
- **`CrawlSpec`** gives the crawl as functions of a `State`: the error list, `urlCount`, `harvested`, the disk and a depth flag. `Visit` is `getUrl`, `Dispatch` is the collection/manifest/nothing decision, `Descend` is the loop of `harvestCollection`, `HarvestSequences`/`HarvestCanvases` are the two loops of `harvestFromManifest`, and `SaveMatching` is `saveMatchingFile`.
- **`Crawling`** holds the class `Crawler`. Its fields are the source's fields, plus the disk standing in for the filesystem. Each method is proved to leave exactly the state that the matching `CrawlSpec` function computes from the state it found. The inner canvas loop of `harvestFromManifest` is its own method, `HarvestCanvasList`.
- **`CrawlProps`** holds what the crawl guarantees.
  - Each branch of `getUrl`.
  - Counting: `harvested` rises by the number of canvases with a match.
  - Files: only files at `getFilename` paths under the target directory are written, and no existing entry is ever changed.
  - The log: errors are only appended, and every message names its error.
  - Re-runs: a second crawl over the result of the first changes nothing.

The source walks with no depth bound. The model threads a depth `fuel` through `getUrl`. When it runs out, the walk stops and sets the flag `truncated`, which has no counterpart in the source.

The regular expression `[^a-zA-Z0-9-_]+` replaces the whole run `. ` with a single `_`. So member 3 labelled `Vol. 1/2!` goes to `0000000003-Vol_1_2_` (`Naming.DirNameExample`).

## Model

| member | source | states |
|---|---|---|
| Iiif.Load | IIIFcrawler.php:130-138 | retrieval fails exactly when there is no body or the body is falsy ("" or "0"); otherwise the document decodes exactly when the body has a decoding, and the result is that decoding |
| Crawling.Crawler.constructor | IIIFcrawler.php:100-105 | stores the start URL and MIME type, derives the extension from the MIME type, starts with no errors and both counters at 0 |
| Crawling.Crawler.Crawl | IIIFcrawler.php:114-118 | runs `getUrl` on the start URL and returns the final `harvested` and `urlCount` |
| Crawling.Crawler.GetUrl | IIIFcrawler.php:128-156 | the new state is `Visit` of the old one: retrieval, decoding, counting, then collection before manifest before the nothing-found error |
| CrawlProps.VisitFails | IIIFcrawler.php:130-138 | an unretrievable or undecodable URL adds exactly one error naming that URL, and the counters and disk stay unchanged |
| CrawlProps.VisitDecoded | IIIFcrawler.php:140-144 | a decoded document raises `urlCount` by exactly one before anything else happens |
| CrawlProps.DispatchCollection | IIIFcrawler.php:144-147 | a document with collection members is descended into, whatever sequences it also has |
| CrawlProps.DispatchManifest | IIIFcrawler.php:148-152 | a document without members but with a non-empty `sequences` array is harvested as a manifest |
| CrawlProps.DispatchNothing | IIIFcrawler.php:154-155 | a document with neither adds the one nothing-found error and changes nothing else |
| CrawlProps.VisitManifest | IIIFcrawler.php:128-152 | a manifest is counted once, adds no error, raises `harvested` by the number of matching canvases and adds exactly their files to the disk |
| CrawlProps.VisitNothingFound | IIIFcrawler.php:128-155 | a decoded document with neither members nor sequences is counted and adds exactly one NothingFound error |
| CrawlSpec.CollectionMembers | IIIFcrawler.php:166-177 | `checkForCollectionMembers`; its contract is carried by CollectionMembersOrder |
| CrawlProps.CollectionMembersOrder | IIIFcrawler.php:166-177 | the members are the `members` entries, then `collections`, then `manifests`, each kept whole and in order |
| Crawling.Crawler.HarvestCollection | IIIFcrawler.php:187-200 | the new state is `Descend`: member i gets directory `<dir>/<pad10(i)>-<sanitised label>`, made if absent, then is crawled into it |
| CrawlProps.MkdirIdempotent | IIIFcrawler.php:193-195 | the member directory exists afterwards, an existing entry is left alone, and a second attempt changes nothing |
| CrawlProps.DescendMakesDirs | IIIFcrawler.php:189-198 | after `harvestCollection` every member's numbered directory exists |
| Crawling.Crawler.HarvestFromManifest | IIIFcrawler.php:210-232 | the new state is `Harvest`: sequences in order, and a sequence without canvases is skipped without an error |
| Crawling.Crawler.HarvestCanvasList | IIIFcrawler.php:221-230 | the canvases of one sequence, each saved under `getFilename(seqNum, canvNum)`, with `harvested` +1 exactly when a match was found |
| CrawlProps.HarvestCanvasesQuiet | IIIFcrawler.php:221-230 | the canvas loop never touches the errors, `urlCount` or the depth flag |
| CrawlProps.HarvestCanvasesCounts | IIIFcrawler.php:224-229 | the canvas loop raises `harvested` by exactly the number of canvases with a match |
| CrawlProps.HarvestCanvasesKeeps | IIIFcrawler.php:221-230 | the canvas loop keeps every existing disk entry and adds only files |
| CrawlProps.HarvestCanvasesWrites | IIIFcrawler.php:221-230 | the canvas loop adds exactly the paths of the canvases with a match |
| CrawlProps.HarvestSequencesCounts | IIIFcrawler.php:213-231 | the sequence loop adds no error and no URL, and raises `harvested` by the matches over all sequences |
| CrawlProps.HarvestSequencesKeeps | IIIFcrawler.php:213-231 | the sequence loop keeps every existing entry and adds only files |
| CrawlProps.HarvestSequencesWrites | IIIFcrawler.php:213-231 | the sequence loop adds exactly the paths of the matching canvases of all sequences |
| CrawlProps.HarvestEffect | IIIFcrawler.php:210-232 | `harvestFromManifest` in full: no error, no URL counted, `harvested` + matches, no entry changed, exactly the matched files added |
| CrawlProps.CanvasPathInjective | IIIFcrawler.php:223 | two canvas positions share a path only when they are the same position |
| CrawlProps.CanvasWritesNamed | IIIFcrawler.php:221-224 | every file the canvas loop writes is the `getFilename` path of one of its canvases |
| CrawlProps.SequenceWritesNamed | IIIFcrawler.php:213-224 | every file a manifest harvest writes is the path of a real (sequence, canvas) position: a sequence of the manifest and a canvas of that sequence |
| CrawlProps.SequenceWritesUnder | IIIFcrawler.php:223 | every file a manifest harvest writes lies inside its target directory |
| CrawlProps.VisitWritesUnder | IIIFcrawler.php:128-156 | everything a crawl from a URL creates, files and directories, lies inside its target directory |
| CrawlProps.DispatchWritesUnder | IIIFcrawler.php:144-152 | the same for a decoded document |
| CrawlProps.DescendWritesUnder | IIIFcrawler.php:190-197 | the same for the members of a collection, each crawled into a subdirectory |
| CrawlProps.VisitKeeps | IIIFcrawler.php:128-156 | a crawl never removes or changes an existing disk entry |
| CrawlProps.DispatchKeeps | IIIFcrawler.php:144-152 | the same for a decoded document |
| CrawlProps.DescendKeeps | IIIFcrawler.php:187-200 | the same for the members of a collection |
| CrawlProps.VisitAdds | IIIFcrawler.php:128-156 | the paths after a crawl are the old paths plus the crawl's own write set |
| CrawlProps.DispatchAdds | IIIFcrawler.php:144-152 | the same for a decoded document |
| CrawlProps.DescendAdds | IIIFcrawler.php:187-200 | the same for the members of a collection |
| CrawlProps.VisitGrows | IIIFcrawler.php:241-244 | errors are only appended, and `urlCount`, `harvested` and the depth flag never go back |
| CrawlProps.DispatchGrows | IIIFcrawler.php:141-155 | the same for a decoded document |
| CrawlProps.DescendGrows | IIIFcrawler.php:187-200 | the same for the members of a collection |
| CrawlProps.VisitIgnoresDisk | IIIFcrawler.php:193-195 | errors, counters and the depth flag do not depend on what already exists on disk (an existing file still counts) |
| CrawlProps.DispatchIgnoresDisk | IIIFcrawler.php:311-316 | the same for a decoded document |
| CrawlProps.DescendIgnoresDisk | IIIFcrawler.php:193-197 | the same for the members of a collection |
| CrawlProps.VisitSettled | IIIFcrawler.php:311-315 | when every path a crawl would create already exists, the crawl leaves the disk unchanged (nothing is overwritten) |
| CrawlProps.VisitRerun | IIIFcrawler.php:193-195 | crawling again over the disk the first crawl left gives exactly the first crawl's final state |
| Crawling.Crawler.AddError | IIIFcrawler.php:241-244 | appends the error at the end and changes nothing else |
| Crawling.Crawler.GetErrors | IIIFcrawler.php:251-254 | the logged messages, one per error, in logging order; two entries of the log are equal exactly when the errors behind them are, so the log is unambiguous |
| CrawlProps.MessageInjective | IIIFcrawler.php:132-155 | different errors are logged as different messages |
| Crawling.Crawler.SaveMatchingFile | IIIFcrawler.php:300-322 | reports whether a match exists; writes the first match's content to the file unless the file exists; changes nothing else |
| Crawling.Crawler.Store | IIIFcrawler.php:311-315 | writes the downloaded content (empty when the download fails) only when the file is absent |
| Crawling.FirstMatchIs | IIIFcrawler.php:304-317 | an entry that matches, with none matching before it, is the one taken |
| CrawlProps.FirstMatchFirst | IIIFcrawler.php:302-321 | no match is found exactly when no entry matches, and no entry before the one found matches |
| CrawlProps.CandidatesAt | IIIFcrawler.php:302-307 | the entries looked at are each `images` entry's `.resource`, then each `rendering` entry, in order |
| CrawlProps.ImagesFirst | IIIFcrawler.php:302-317 | a matching image wins over every rendering, and the URL taken is that of the first matching image |
| CrawlProps.SaveMatchingEffect | IIIFcrawler.php:308-316 | found iff a match exists; an existing file or no match leaves the disk as it is; otherwise exactly the one file is added |
| CrawlProps.SaveMatchingDisk | IIIFcrawler.php:311-316 | `saveMatchingFile` keeps every entry and adds at most the one file, only when a match was found |
| Naming.ExtensionFromMime | IIIFcrawler.php:263-275 | `getExtensionFromMime`; its contract is carried by ExtensionRoundTrip |
| Naming.ExtensionRoundTrip | IIIFcrawler.php:263-275 | exactly tiff, jpeg and plain text get tif, jpg and txt, each naming its type back, and everything else gets bin |
| Naming.DecimalDigits | IIIFcrawler.php:287-288 | an integer prints as digits with no leading zero, except 0 itself |
| Naming.DecimalValue | IIIFcrawler.php:287-288 | the printed digits read back as the integer |
| Naming.Pad10 | IIIFcrawler.php:287-288 | `str_pad($n, 10, '0', STR_PAD_LEFT)`; its contract is carried by Pad10Shape, Pad10Digits and Pad10Value |
| Naming.Pad10Shape | IIIFcrawler.php:287-288 | padding gives ten characters (or the whole number when longer), ends in the number's digits and adds only zeros in front |
| Naming.Pad10Digits | IIIFcrawler.php:287-288 | a padded ordinal is all digits |
| Naming.Pad10Value | IIIFcrawler.php:287-288 | a padded ordinal reads back as the ordinal |
| Naming.Pad10Injective | IIIFcrawler.php:287-288 | two ordinals pad to the same string exactly when they are equal |
| Naming.Pad10Width | IIIFcrawler.php:287-288 | every ordinal below 10^10 pads to exactly ten characters |
| Naming.Pad10Sorts | IIIFcrawler.php:287-288 | padded ordinals below 10^10 sort lexicographically in numeric order |
| Naming.Pad10Example | IIIFcrawler.php:192 | 3 is padded to "0000000003" |
| Crawling.Crawler.GetFilename | IIIFcrawler.php:285-289 | `getFilename`; its contract is carried by FileNameInjective and the Pad10 lemmas |
| Naming.FileNameInjective | IIIFcrawler.php:285-289 | distinct (sequence, canvas) pairs get distinct file names |
| Naming.Sanitize | IIIFcrawler.php:191 | the label `preg_replace`; never longer than the label, and its contract is carried by SanitizeAllowed, SanitizeRun and CollapseRun |
| Naming.SanitizeAllowed | IIIFcrawler.php:191 | a sanitised label holds only `[a-zA-Z0-9_-]` |
| Naming.SanitizeKeepsAllowed | IIIFcrawler.php:191 | a label already made of allowed characters is unchanged |
| Naming.SanitizeIdempotent | IIIFcrawler.php:191 | sanitising twice is sanitising once |
| Naming.SanitizeRun | IIIFcrawler.php:191 | a maximal run of disallowed characters becomes exactly one `_` |
| Naming.SanitizeConcat | IIIFcrawler.php:191 | sanitising splits across a boundary that follows an allowed character |
| Naming.CollapseRun | IIIFcrawler.php:191 | a maximal disallowed run between allowed stretches becomes one `_`, and nothing else changes |
| Naming.SanitizeKeepsOrder | IIIFcrawler.php:191 | the output holds only `[a-zA-Z0-9_-]`, and its letters, digits and `-` are exactly those of the label, in order (everything else in it is `_`) |
| Naming.SanitizeExample | IIIFcrawler.php:191 | "A  B" becomes "A_B" |
| Naming.SanitizeLabelExample | IIIFcrawler.php:191 | "Vol. 1/2!" becomes "Vol_1_2_" |
| Naming.DirNameInjective | IIIFcrawler.php:191-192 | sibling member directories with different ordinals never collide |
| Naming.DirNameExample | IIIFcrawler.php:191-192 | member 3 labelled "Vol. 1/2!" goes to "0000000003-Vol_1_2_" |

## Left out

- The command-line script (IIIFcrawler.php:26-45): argument handling, the default MIME type `image/jpeg`, `getcwd()` and the printed report. It is I/O around the class.
- Every `echo` progress message (lines 196, 217, 225, 227, 312). They are output only and change no state.
- HTTP and JSON parsing: `file_get_contents` and `json_decode` are the two maps of `Iiif.Web`. A body that decodes to a falsy value (null, false, 0, "", "0", an empty array) counts as a decode failure, like a body that does not parse.
- The filesystem is a map from path to directory or file content. Failures of `mkdir` or `file_put_contents`, permissions, and a parent directory that does not exist are not modelled.
- Crawling.Crawler.GetUrl: the source recurses with no bound and loops on a cyclic collection. The model bounds the depth with `fuel` and sets `truncated` when the bound cuts the walk short.
- Crawling.Crawler.Crawl: takes the depth bound as an extra parameter. The returned array `['harvested' => …, 'urlCount' => …]` is two out-parameters.
- Crawling.Crawler.constructor: takes the web and the initial disk as parameters. In the source these are the process's global environment.
- PHP's loose `==` in the format test (line 308) is modelled as string equality. For two strings this differs only for numeric-looking strings, e.g. "1e1" == "10".
- A `format` that is not a string is not modelled (`Resource.format` is an optional string). Under PHP 5's loose `==`, `"format": true` equals every non-empty MIME type and `"format": 0` equals every non-numeric one, so the source takes such an entry and the model does not.
- A member `label` that is not a string, and a resource `@id` that is not a string, are not modelled. A missing label is sanitised as "". A missing `@id` is fetched as the empty URL, which never retrieves.
- The sanitiser works on characters, not on the bytes PCRE sees. A multi-byte character outside ASCII therefore counts as one disallowed character, not several. Either way the run collapses to a single `_`, so the result is the same.
- A URL that appears twice in a collection is fetched and counted twice, as in the source. The model does not single out that case.
- Naming.Pad10Width: states the ten-character width only for ordinals below 10^10. Beyond that, `str_pad` keeps the whole number, as `Naming.Pad10Shape` states.
