# Paris "arrêtés" scraper: a verified model of the crawl-and-ingest core

The scraper walks the result pages of the Paris official bulletin (BOVP) for
traffic and parking notices ("arrêtés"). For each notice heading on a listing
page it:

- extracts the notice number from the title with `n°\s*(\d{4}\s+[A-Z]\s+\d+)`;
- skips numbers already recorded in the CSV file;
- classifies the title by keyword (circulation, parking, temporary) and applies the configured filter;
- finds the document id (`explnum_id`) in the heading's links;
- downloads the PDF, uploads it to S3 under a key derived from the year, the sanitised number and a content digest;
- appends one CSV row per notice after each page.

A page that yields no new record ends the walk, because the listing is sorted newest first.

This project models that core in Dafny 4.11 and proves what it promises.

| file | module | what it holds |
|---|---|---|
| `text.dfy` | `Text` | Python's whitespace, lower-casing, `in`, digit runs, `int(str(n))` |
| `config.dfy` | `Config` | constants, `classify_arrete`, `should_keep_arrete`, `validate_config` |
| `patterns.dfy` | `Patterns` | the three regular expressions as scans, the search URL, the page count |
| `s3_uploader.dfy` | `S3` | key derivation, `s3://` locator, the upload against a map-valued store; class `Uploader` |
| `records.dfy` | `Records` | the listed notice and its CSV record, the heading-to-record decision, the page's records, PDF acceptance |
| `csv_store.dfy` | `CsvStore` | the CSV file as header-plus-rows, appending a batch, loading the known numbers; class `CsvFile` |
| `scraper.dfy` | `Scraper` | the run as functions on a `World` state, the lemmas about it, and class `ArretesScraper` |

The outside world is a value of type `Scraper.Site`. It gives:

- each listing page by URL (its notice headings, or a failure);
- the first navigation's result (the navigation-bar text, or a failure);
- each PDF response by URL;
- the object store's answers per key;
- the time stamp.

The state a run changes is `Scraper.World`:

- the known numbers;
- the batch of the page in progress;
- the object store, a `map` from keys to bytes;
- the CSV file (whether it exists, and its lines).

The methods of `ArretesScraper`, `S3.Uploader` and `CsvStore.CsvFile` change their fields step by step, as the program does. Each is proved equal to a function of the old state (`ProcessOne`, `ProcessAll`, `RunPages`, `RunOutcome`, `UploadOutcome`, `SavedLines`). The lemmas prove the properties of those functions.

Behaviours of the code the model keeps:

- A listing page that fails to load gives no records: `_scrape_page` catches the exception and returns an empty list (src/scraper.py:315-317). An empty page ends the walk. Only a failure of the first navigation to the results page (src/scraper.py:397) aborts the run (`NavigationFailed`).
- When the navigation bar or its `a / b` counter is missing, the total stays 0, so the page count is 1 and exactly one page is walked (src/scraper.py:403-409).
- The error marks are `ERROR: PDF non téléchargé` and `ERROR: Upload S3 échoué` (src/scraper.py:251, 259).
- The key prefix is `arretes/` (src/s3_uploader.py:70).
- A PDF response with an empty body counts as a failed download (`if not pdf_content`, src/scraper.py:248).
- A number becomes known as soon as its PDF is stored (src/scraper.py:265), before the page's CSV save (src/scraper.py:445).
- The same notice listed twice on one page, while its number is unknown, gives two rows that are identical except for `date_scrape`, which the program stamps per notice (`Records.ListedTwiceGivesTwoRecords`; the model has one time stamp per run, see "Left out").
- A record whose PDF failed is still written, with its error mark (src/scraper.py:251-253, 259-261), so it is read back as known. A restarted run never retries it (`Scraper.RestartSkipsFirstPage`).
- A total that is an exact multiple of 50 asks for one page past the end (src/scraper.py:409). That extra page is the last one asked for, and it is processed if the site lists anything on it.
- A number whose blanks are tabs or other whitespace, but not a space, is filed under the year `unknown` (src/s3_uploader.py:69, `S3.YearOfNumero`).

## Model

| member | source | states |
|---|---|---|
| Text.ContainsIffOccurs | src/config.py:109-113 | Python's `k in t` holds exactly when `k` occurs in `t` at some index |
| Text.Lower | src/config.py:70 | `str.lower()`: same length, each character lowered by `LowerChar` (ASCII and Latin-1 capitals; see "Left out") |
| Text.Contains | src/config.py:109-113 | Python's `k in t` as a left-to-right scan; its meaning is stated by `ContainsIffOccurs` |
| Text.DecimalRoundTrip | src/scraper.py:86 | the decimal spelling of a page number reads back as the same number |
| Config.AnyKeyword | src/config.py:109-113 | `any(k in text for k in keywords)` is true exactly when some keyword occurs in the text |
| Config.Classify | src/config.py:60-119 | total on every title, the empty one included; each facet is set exactly when one of its keywords occurs in the lower-cased title |
| Config.ClassifyIgnoresCase | src/config.py:70 | a title and its lower-cased form get the same classification |
| Config.TemporaryReduces | src/config.py:95-113 | a title is temporary exactly when it mentions "provisoire" or "temporaire"; the permanent keywords play no part |
| Config.CirculationReduces | src/config.py:73-83 | "circulation générale" adds nothing to the other circulation keywords |
| Config.ShouldKeep | src/config.py:122-142 | "circulation" keeps exactly the circulation notices, "stationnement" exactly the parking ones, every other value keeps all |
| Config.DroppedOnlyOffTopic | src/config.py:122-142 | a dropped notice was dropped by one of the two topic filters, and none of that topic's keywords occurs in its title |
| Config.ConfigErrors | src/config.py:146-161 | the error list is empty exactly when credentials are complete or dry-run is on, and the filter is valid; a bad filter is the last error |
| Config.ValidateConfig | src/config.py:146-166 | the run is refused exactly when, outside dry-run mode, a credential or the bucket is missing, or the filter is not one of the three options |
| Config.AcceptedFilterIsKnown | src/config.py:160-161 | after validation the filter is one of the three options and the keep decision follows the facet it names |
| Patterns.Search | src/scraper.py:78-80 | `re.search` returns the match that starts leftmost, and none exactly when no index matches |
| Patterns.ExtractNumero | src/scraper.py:73-81 | `re.search` with the numero pattern: None exactly when no index of the title starts a match, otherwise the group of the leftmost match |
| Patterns.ExtractedNumeroShape | src/scraper.py:73-81 | every extracted number is exactly four digits, one or more blanks, one capital, one or more blanks, and a digit run to its end |
| Patterns.NumeroShapeChars | src/scraper.py:78 | such a number has at least eight characters, a four-digit year followed by a blank, a final digit, and only digits, blanks and capitals |
| Patterns.ExtractedNumeroOccurs | src/scraper.py:78-80 | the extracted number occurs in the title right after "n°" and blanks |
| Patterns.NumeroAt | src/scraper.py:78 | the numero pattern tried at one index, giving the group or None; pinned both ways by `NumeroAtChars` and `NumeroAtLayout` |
| Patterns.NumeroAtChars | src/scraper.py:78 | "n°", any run of blanks, four digits, one or more blanks (NBSP and every other `str.isspace` character included), a capital, one or more blanks and a maximal digit run form a match whose group runs from the year to the end of the digits |
| Patterns.NumeroAtLayout | src/scraper.py:78 | conversely, every match is such a layout, with that group |
| Patterns.FirstMatchFound | src/scraper.py:78-80 | when the first match starts at `p`, the extracted number is the group of that match |
| Patterns.ExplnumAt | src/scraper.py:142 | the viewer pattern tried at one index: a match exactly when "sendToVisionneuse," and a digit are there, and then the whole digit run |
| Patterns.ExplnumFromOnclick | src/scraper.py:142-144 | an id is found exactly when "sendToVisionneuse," followed by a digit occurs in the onclick; the id is then the whole digit run after the leftmost such occurrence |
| Patterns.HitNamesViewer | src/scraper.py:140-143 | a link whose onclick matches always passes the viewer-name guard |
| Patterns.FirstExplnumEmpty | src/scraper.py:137-146 | the link loop finds no id exactly when no link's onclick matches |
| Patterns.FirstExplnumIsFirstMatch | src/scraper.py:137-146 | otherwise the id is that of the first link whose onclick matches |
| Patterns.FindExplnumId | src/scraper.py:137-146 | the link loop with its early `break` yields the id of the first matching link |
| Patterns.SearchPageUrl | src/scraper.py:83-86 | the URL is the search URL, "&page=", the page number as `str` writes it (decimal digits, no leading zero, reading back as the number), "&nb_per_page=50" |
| Patterns.SearchPageUrlInjective | src/scraper.py:83-86 | distinct page numbers give distinct URLs |
| Patterns.TotalResults | src/scraper.py:402-407 | 0 when the navigation bar or its counter is missing |
| Patterns.CounterAt | src/scraper.py:405 | the counter pattern tried at one index, giving the second group or None; pinned both ways by `CounterAtChars` and `CounterAtLayout` |
| Patterns.CounterAtChars | src/scraper.py:405 | digits, blanks, "/", blanks and a maximal digit run, written out at an index, are matched there with that run as the second group |
| Patterns.CounterAtLayout | src/scraper.py:405 | conversely, every match of the counter pattern is such a layout, with that second group |
| Patterns.TotalFromFirstMatch | src/scraper.py:405-407 | the total is `int` of the second group of the leftmost counter match |
| Patterns.TotalResultsAt | src/scraper.py:402-407 | with "a / b" at the first match of the counter, the total announced is b |
| Patterns.TotalPages | src/scraper.py:409-414 | at least one page; without a cap, the count n satisfies (n-1)·50 ≤ total < n·50, so an exact multiple of 50 gets one page more than it needs; a positive cap c gives exactly c pages when (c-1)·50 ≤ total, and otherwise the uncapped count |
| S3.SafeFilename | src/s3_uploader.py:63 | every space becomes '_', every '/' becomes '-', nothing else changes |
| S3.SafeFilenameRoundTrip | src/s3_uploader.py:63 | a number without '_' or '-' is recovered from its file name |
| S3.NumeroHasNoSeparators | src/s3_uploader.py:63 | every number the title pattern captures has no '_' or '-' |
| S3.FirstToken | src/s3_uploader.py:69 | `split()[0]`: the first maximal non-blank run after leading blanks; absent exactly when the string is all blank |
| S3.Year | src/s3_uploader.py:69 | the first token when the number holds a space, "unknown" otherwise |
| S3.YearOfNumero | src/s3_uploader.py:69 | for a captured number with a space, the year is its four leading digits |
| S3.Hash8 | src/s3_uploader.py:66 | the first eight characters of the hex digest |
| S3.ObjectKey | src/s3_uploader.py:62-70 | the key is "arretes/" + year + "/" + safe name + "_" + hash8 + ".pdf"; absent exactly when the year cannot be computed |
| S3.KeyDeterminesNumero | src/s3_uploader.py:62-70 | two captured numbers with full-length digests that share a key are the same number |
| S3.S3Url | src/s3_uploader.py:115-117 | the locator is "s3://", the bucket, "/", then the key, each at its place and nothing else |
| S3.DefaultBucket | src/s3_uploader.py:27 | the configured bucket, or "dry-run-bucket" when it is unset or empty |
| S3.FileProbe | src/s3_uploader.py:104-113 | false in dry-run mode; a client error reads as absent; any other error escapes |
| S3.UploadOutcome | src/s3_uploader.py:50-102 | `upload_pdf` as a function of the store and the network's answers: no key, a failed probe or a failed put gives no URL and the old store; dry-run and an existing object give the URL without a write; a fresh key is written, then its URL returned (its properties are the lemmas below) |
| S3.DryRunTouchesNothing | src/s3_uploader.py:72-75 | in dry-run mode the store is untouched and the URL of the derived key is returned |
| S3.FailureLeavesStore | src/s3_uploader.py:97-102 | every failure returns no URL and leaves the store as it was |
| S3.UploadTouchesOnlyItsKey | src/s3_uploader.py:83-92 | an upload removes no object and changes none but its own key |
| S3.SuccessMeansStored | src/s3_uploader.py:77-95 | a returned URL names the derived key, whose object is then in the store: the new content on a fresh key |
| S3.UploadTwiceIsIdempotent | src/s3_uploader.py:77-80 | uploading the same PDF again returns the same URL and changes nothing |
| S3.Uploader.constructor | src/s3_uploader.py:24-27 | the uploader takes the dry-run flag and the bucket with its default |
| S3.Uploader.FileExists | src/s3_uploader.py:104-113 | the probe answers as `FileProbe` |
| S3.Uploader.UploadPdf | src/s3_uploader.py:50-102 | the returned URL and the new store are those of `UploadOutcome` |
| Records.NbspToSpaceClears | src/scraper.py:164-167 | no non-breaking space survives, other characters stay, and the replacement is idempotent |
| Records.Authority | src/scraper.py:160-164 | the first author span, non-breaking spaces replaced; "" when there is none |
| Records.Signer | src/scraper.py:165-167 | the second author span, non-breaking spaces replaced; "" when there are fewer than two |
| Records.LastContentIsLast | src/scraper.py:173-185 | a field holds the content of a selected row after which no row is selected |
| Records.ReadDetails | src/scraper.py:169-185 | the detail-table loop leaves each field with the content of its last selected row |
| Records.ParsedRecord | src/scraper.py:88-195 | `_parse_arrete_from_h3` on one heading: the record of its number, title, authors, details, classification and first viewer id, or None when a step fails (its properties are `ParsedRecordIff` and `ParsedRecordFields`) |
| Records.ParsedRecordIff | src/scraper.py:98-191 | a notice gives a record exactly when its title has a number not yet known, the filter keeps it and one of its links carries an id |
| Records.ParsedRecordFields | src/scraper.py:98-191 | a record carries its title's number and classification, the first matching link's id, no URL yet and the scrape time |
| Records.KnownNumeroSkipped | src/scraper.py:103-106 | a notice whose number is known gives no record |
| Records.ParsedRecordLedgerAntitone | src/scraper.py:103-106 | a record parsed against a larger set of known numbers is parsed alike against a smaller one |
| Records.RecordOfSome | src/scraper.py:301-302 | a heading gives a record only when it shows "Arrêté n°" |
| Records.PageRecords | src/scraper.py:301-310 | the records of a listing's headings in order: each heading showing "Arrêté n°" that parses gives its record (properties in the `PageRecords` and `Collect` lemmas) |
| Records.CollectAppend | src/scraper.py:306-310 | the records of two runs of headings are those of each, concatenated |
| Records.CollectSources | src/scraper.py:306-310 | every record comes from one of the headings |
| Records.CollectEmpty | src/scraper.py:306-310 | no record exactly when no heading gives one |
| Records.CollectComplete | src/scraper.py:306-310 | every heading that gives a record gives it to the result |
| Records.PageRecordsSources | src/scraper.py:301-310 | every record of a page comes from a heading showing "Arrêté n°" |
| Records.PageRecordsNew | src/scraper.py:98-106 | every record of a page has a well-formed number that was not known |
| Records.PageRecordsEmpty | src/scraper.py:301-310 | a page gives no record exactly when none of its notice headings parses |
| Records.PageRecordsComplete | src/scraper.py:301-310 | every notice heading that parses gives its record to the page |
| Records.PageExhausted | src/scraper.py:103-106 | once every record number a page gave is known, the page gives nothing more |
| Records.CollectTwice | src/scraper.py:307-310 | a heading that gives a record, repeated, gives it twice |
| Records.ListedTwiceGivesTwoRecords | src/scraper.py:306-310 | a notice listed twice on one page, before its number is known, gives two records, identical except for `date_scrape` in the program (one time stamp per run in the model) |
| Records.PdfUrl | src/scraper.py:210 | the PDF URL is the endpoint followed by the id |
| Records.PdfUrlInjective | src/scraper.py:210 | distinct ids are fetched from distinct URLs |
| Records.DownloadPdf | src/scraper.py:197-231 | bytes come back exactly when the response is ok with a PDF or octet-stream type, and they are the body |
| Records.ParametersAccepted | src/scraper.py:217-218 | a PDF content type followed by parameters is still accepted |
| CsvStore.Rows | src/scraper.py:468 | one row per record of the batch, in order |
| CsvStore.SavedLines | src/scraper.py:460-474 | the file's lines after `_save_to_csv`: unchanged for an empty batch, rows appended to an existing file, header and rows for a new one (properties in `SaveKeepsWellFormed`, `SaveAppendsOnly`, `SaveAddsRows`) |
| CsvStore.SaveKeepsWellFormed | src/scraper.py:460-474 | a save leaves the file as a header followed by rows only |
| CsvStore.SaveAppendsOnly | src/scraper.py:471-474 | a save keeps the old lines in place, adds one line per record (plus the header on creation), and the header is only ever the first line |
| CsvStore.SaveAddsRows | src/scraper.py:468-474 | a save adds one row per record of the batch |
| CsvStore.CsvFile.Save | src/scraper.py:460-474 | the file's new lines are `SavedLines` of the old ones |
| CsvStore.NumerosMembers | src/scraper.py:65 | a number is read back exactly when it is non-empty and some line holds it |
| CsvStore.NumerosAppend | src/scraper.py:65 | the numbers of appended lines are the union of the numbers of each part |
| CsvStore.LoadLedger | src/scraper.py:60-71 | no file, an unreadable file or an empty file gives no known number; for a file of the scraper's shape, a number is known exactly when it is non-empty and some record line holds it |
| CsvStore.RecordNumeros | src/scraper.py:65 | the numbers read back after the header are exactly the non-empty numbers of the record lines |
| CsvStore.RowsNumeros | src/scraper.py:65 | the numbers read back from a batch's rows are the batch's non-empty numbers |
| CsvStore.LedgerAfterSave | src/scraper.py:60-71 | after a save, the next start reads back the old numbers plus every number of the batch |
| CsvStore.LoadLedgerGrows | src/scraper.py:60-71 | appending to a file only adds to the numbers the next start reads back |
| Scraper.ScrapedPage | src/scraper.py:274-317 | `_scrape_page`: no records for a page that fails to load, otherwise the page's records against the known numbers |
| Scraper.ProcessOne | src/scraper.py:233-272 | `_process_arrete` on the state: download, then upload, then append the record with its URL or error mark (properties in `ProcessOneFacts`, `ProcessOneUrl`, `ProcessOneUpload`) |
| Scraper.SaveBatch | src/scraper.py:443-449 | a page turn with a non-empty batch: `_save_to_csv`, then the batch is emptied |
| Scraper.RunPages | src/scraper.py:420-449 | the page loop from a page to the last: process each page, save after it, stop at the first page without new records (properties in `RunPagesFacts`, `EarlyStop`, `OnlyPagesInRange`) |
| Scraper.RunOutcome | src/scraper.py:319-458 | `run`: refused by the validation, stopped by a failed first navigation, or the page loop over the page count from the navigation bar (properties in `RunOutcomeFacts`) |
| Scraper.UploadedUrlIsNoMark | src/scraper.py:256-263 | a URL returned by the upload is never one of the two error marks |
| Scraper.ProcessOneFacts | src/scraper.py:233-272 | processing appends the record once with only its URL set, leaves the CSV alone, adds the number exactly when no error mark was set, and leaves the store alone on error |
| Scraper.ProcessOneUrl | src/scraper.py:247-264 | the download mark exactly when the download failed or was empty; any other URL that is not the upload mark is the locator of the derived key |
| Scraper.ProcessOneUpload | src/scraper.py:256-267 | after a download with a body, the upload mark exactly when `upload_pdf` returned nothing, otherwise its URL; the store is the upload's, and the number becomes known exactly when a URL came back |
| Scraper.ProcessStepAppends | src/scraper.py:233-272 | every processing step appends its record |
| Scraper.FoldFrame | src/scraper.py:430-441 | processing a page adds one batch entry per record, leaves the CSV alone and loses no known number or stored object |
| Scraper.FoldRows | src/scraper.py:430-441 | the page's records are appended, each with only its URL set |
| Scraper.FoldKnowsStored | src/scraper.py:430-441 | every record of the page without an error mark has its number known afterwards |
| Scraper.FoldKnowsOnlyStored | src/scraper.py:430-441 | a number becomes known only through a record of the page without an error mark |
| Scraper.ProcessAllFacts | src/scraper.py:430-441 | the page's processing: all of the above together |
| Scraper.PageTurn | src/scraper.py:440-449 | a page with records is saved and its batch emptied; the file keeps its shape and gains one row per record |
| Scraper.LoopRelates | src/scraper.py:420-449 | a relation that every saved page turn respects relates the start of the page loop to its end |
| Scraper.LoopKeepsCsv | src/scraper.py:420-449 | over the page loop the batch ends empty and the CSV keeps its shape and only grows |
| Scraper.LoopCounts | src/scraper.py:443-449 | over the page loop the known numbers and stored keys only grow, and the processed count is the number of rows the CSV gained |
| Scraper.RunPagesFacts | src/scraper.py:420-449 | the page loop of a run: all of the above together |
| Scraper.EarlyStop | src/scraper.py:424-428 | a page without new records ends the loop with nothing changed, whatever the later pages hold |
| Scraper.LoopAgrees | src/scraper.py:420-449 | loops whose pages agree over the range and whose steps agree end alike |
| Scraper.FoldAgrees | src/scraper.py:430-441 | steps that agree process a page alike |
| Scraper.OnlyPagesInRange | src/scraper.py:420 | pages outside 1..total_pages never affect the run |
| Scraper.RunOutcomeFacts | src/scraper.py:319-455 | a refused configuration or a failed first navigation ends the run with nothing changed; otherwise the batch ends saved, the file keeps its shape and gains one row per processed record, and nothing known or stored is lost |
| Scraper.SavedBatchKnown | src/scraper.py:443-449 | after a page's save, every number of its records is read back at the next start |
| Scraper.LoopSavesFirstPage | src/scraper.py:420-449 | over the page loop, every number of the first page's records is read back at the next start |
| Scraper.ScrapedNumbersNonEmpty | src/scraper.py:98-101 | every record of a listing page has a number |
| Scraper.FirstPageNumbersSaved | src/scraper.py:420-449 | after a run's page loop, the next start knows every number met on the first page, whatever happened to its PDF |
| Scraper.RestartSkipsFirstPage | src/scraper.py:420-449 | a run restarted on the same site finds nothing new on the first page: failed records are not retried |
| Scraper.ArretesScraper.constructor | src/scraper.py:47-58 | the scraper starts with an empty batch, an uploader for its settings, and the numbers loaded from the CSV file |
| Scraper.ArretesScraper.LoadExistingArretes | src/scraper.py:60-71 | the numbers of an existing file, none when it cannot be read, nothing changed when there is no file |
| Scraper.ArretesScraper.ParseArrete | src/scraper.py:88-195 | the heading parser gives the record of `ParsedRecord` |
| Scraper.ArretesScraper.ScrapePage | src/scraper.py:274-317 | the page scrape gives the records of `ScrapedPage`: none for a failed page |
| Scraper.ArretesScraper.ProcessArrete | src/scraper.py:233-272 | the new state is `ProcessOne` of the old one, and the result is true exactly when the number became known and no error mark was set |
| Scraper.ArretesScraper.SaveToCsv | src/scraper.py:460-480 | nothing happens for an empty batch; otherwise the batch is appended as `SavedLines` says |
| Scraper.ArretesScraper.ProcessPage | src/scraper.py:430-441 | processing a page's records leads to `ProcessAll` of the old state |
| Scraper.ArretesScraper.Run | src/scraper.py:319-458 | the result and the new state are those of `RunOutcome` |

## Left out

- Browser and network: Playwright's launch, contexts, headers, session warm-up, `page.goto` and `page.request` are not modelled. Their results enter as the fields of `Site`: a listing per URL, a landing result, a PDF response per URL, and the store's answers per key.
- Concurrency: the semaphore, `asyncio.gather` and the `sleep` delays are not modelled. Each page's records are processed one after the other in listing order. Rows within a page are appended in completion order in the program, so the in-order statements of `FoldRows` and `ProcessAllFacts` hold for the sequential model only.
- HTML: BeautifulSoup's traversal (the `h3` search, the parent walk, the table rows) is not modelled. A listing page is given as its sequence of headings (`Candidate`), each with its title text, the onclick of each of its links, its author spans and its detail rows. The title is a single text used both for the "Arrêté n°" test and for parsing, where the program uses `get_text()` and `get_text(strip=True)` respectively.
- Exceptions inside `_parse_arrete_from_h3` and `_process_arrete` that the model's inputs cannot produce (a malformed DOM, a programming error) are not modelled.
- pandas: type inference, quoting and the reading of the file are not modelled. The CSV is a header line followed by one line per record, and loading reads back the non-empty number column. A write failure (which the program re-raises) is not modelled.
- MD5: the digest is a function parameter of the uploader (`digest`), not computed.
- `datetime.now()`: the scrape time is one value per run (`Site.now`), not one per notice. So two records of one run differ in `date_scrape` in the program but not in the model.
- Unicode: lower-casing covers ASCII and Latin-1 capitals; whitespace is the set of Python's `str.isspace`. Other Unicode case mappings are not modelled.
- Unicode digits: `\d` in the three patterns and `int()` on the counter match only the ASCII digits 0-9 in the model (`Text.IsDigit`). Python also accepts the other Unicode decimal digits, such as fullwidth "２０２５".
- Logging, environment and `.env` loading, browser selection and the debug HTML dump of page 1 are left out. The settings arrive as a `Settings` value.
- `S3Uploader.get_public_url` (presigned URLs) and the boto3 client construction are not modelled.
- The diagnostic scripts (quick_test.py, test_local.py, test_playwright.py, test_minio.py, run_local.py, src/debug_html.py) hold no pipeline logic and are not part of this model.
- The running total `total_arretes_traites` is modelled as the processed count of `Finished`. The program only logs it.
