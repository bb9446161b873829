/** The scraper's run: validate the settings, read the result count from the
    first results page, then walk the listing pages in order. Each page's
    new notices are parsed, their PDFs downloaded and uploaded, their rows
    saved to the CSV; the walk stops at the first page that yields nothing
    new. The functions below say what each step does to the state; the
    class `ArretesScraper` performs the steps and is proved to agree. */
module Scraper {
  import opened Text
  import opened Config
  import opened Patterns
  import opened Records
  import opened CsvStore
  import S3

  // ---------------------------------------------------------------------
  // The outside world

  /** A listing page as the browser gets it: its notice headings, or a
      failure (navigation, time-out or parsing), which the page scrape
      swallows. */
  datatype Listing = ListingFailed | Listing(candidates: seq<Candidate>)

  /** The first navigation to the results, which reads the navigation bar;
      its failure ends the run with an exception. */
  datatype Landing = LandingFailed | Landing(navbar: Option<string>)

  /** What the site, the network and the clock answer during a run: pages
      by URL, PDF downloads by URL, the store's answers by key, and the
      time stamp of the records. */
  datatype Site = Site(
    landing: Landing,
    listing: string -> Listing,
    fetch: string -> Response,
    net: S3.Network,
    now: string)

  /** The fixed parameters of a run: the settings and the digest the
      uploader names its objects with. */
  datatype Setup = Setup(settings: Settings, digest: seq<byte> -> string)

  /** Everything a run changes: the known numbers, the batch of the page in
      progress, the object store, and the CSV file. */
  datatype World = World(
    existing: set<string>,
    batch: seq<Metadata>,
    store: map<string, seq<byte>>,
    csvPresent: bool,
    csvLines: seq<Line>)

  const DownloadError := "ERROR: PDF non téléchargé"
  const UploadError := "ERROR: Upload S3 échoué"

  // ---------------------------------------------------------------------
  // The specification of each step

  /** `_scrape_page`: the new records of listing page `pageNum`, none when
      the page fails. */
  function ScrapedPage(site: Site, pageNum: nat, ledger: set<string>, filterType: string): seq<Metadata>
  {
    match site.listing(SearchPageUrl(pageNum))
    case ListingFailed => []
    case Listing(cands) => PageRecords(cands, ledger, filterType, site.now)
  }

  /** `_process_arrete`: the record joins the batch, marked with the reason
      its PDF is missing or with the PDF's URL; only in the last case does
      its number become known. */
  function ProcessOne(setup: Setup, site: Site, w: World, m: Metadata): World
  {
    var pdf := DownloadPdf(site.fetch(PdfUrl(m.explnumId)));
    if pdf.None? || pdf.value == [] then
      w.(batch := w.batch + [m.(pdfS3Url := DownloadError)])
    else
      var up := S3.UploadOutcome(setup.settings.dryRun, S3.DefaultBucket(setup.settings.bucketName),
                                 setup.digest, w.store, site.net, pdf.value, m.numeroArrete);
      match up.url
      case None => w.(batch := w.batch + [m.(pdfS3Url := UploadError)], store := up.store)
      case Some(url) =>
        w.(batch := w.batch + [m.(pdfS3Url := url)], store := up.store, existing := w.existing + {m.numeroArrete})
  }

  /** Records processed one after the other by `step`. */
  function Fold(step: (World, Metadata) -> World, w: World, ms: seq<Metadata>): World
    decreases |ms|
  {
    if ms == [] then w
    else step(Fold(step, w, ms[..|ms| - 1]), ms[|ms| - 1])
  }

  /** `_process_arrete` as a step of the page loop. */
  function ProcessStep(setup: Setup, site: Site): (World, Metadata) -> World
  {
    (x: World, m: Metadata) => ProcessOne(setup, site, x, m)
  }

  /** The records of a page, processed one after the other. */
  function ProcessAll(setup: Setup, site: Site, w: World, ms: seq<Metadata>): World
  {
    Fold(ProcessStep(setup, site), w, ms)
  }

  /** `_save_to_csv` followed by the reset of the batch. */
  function SaveBatch(w: World): World
  {
    w.(csvPresent := true, csvLines := SavedLines(w.csvPresent, w.csvLines, w.batch), batch := [])
  }

  /** Where the page loop has got to: the state and the count of processed
      records. */
  datatype Progress = Progress(world: World, processed: nat)

  /** A page loop from page `pageNum` to page `last`: `page` gives the
      records of a page against the known numbers, `step` processes one;
      the loop stops at the first page without records, and saves a
      page's batch when it is not empty. */
  function Loop(page: (nat, set<string>) -> seq<Metadata>, step: (World, Metadata) -> World,
                w: World, processed: nat, pageNum: nat, last: nat): Progress
    decreases last + 1 - pageNum
  {
    if pageNum > last then Progress(w, processed)
    else
      var ms := page(pageNum, w.existing);
      if ms == [] then Progress(w, processed)
      else
        var done := Fold(step, w, ms);
        if done.batch != [] then
          Loop(page, step, SaveBatch(done), processed + |ms|, pageNum + 1, last)
        else
          Loop(page, step, done, processed, pageNum + 1, last)
  }

  /** `_scrape_page` as the page source of the loop. */
  function PageSource(site: Site, filterType: string): (nat, set<string>) -> seq<Metadata>
  {
    (p: nat, ledger: set<string>) => ScrapedPage(site, p, ledger, filterType)
  }

  /** The page loop of `run` from page `pageNum` to page `last`. */
  function RunPages(setup: Setup, site: Site, w: World, processed: nat, pageNum: nat, last: nat): Progress
  {
    Loop(PageSource(site, setup.settings.filterType), ProcessStep(setup, site), w, processed, pageNum, last)
  }

  /** One turn of a page loop on a page with records. */
  lemma LoopStep(page: (nat, set<string>) -> seq<Metadata>, step: (World, Metadata) -> World,
                 w: World, ms: seq<Metadata>, done: World, next: World,
                 processed: nat, processedNext: nat, pageNum: nat, last: nat)
    requires pageNum <= last
    requires ms == page(pageNum, w.existing) && ms != []
    requires done == Fold(step, w, ms)
    requires done.batch != [] ==> next == SaveBatch(done) && processedNext == processed + |ms|
    requires done.batch == [] ==> next == done && processedNext == processed
    ensures Loop(page, step, w, processed, pageNum, last) == Loop(page, step, next, processedNext, pageNum + 1, last)
  {
  }

  /** One turn of the page loop of a run on a page with new records. */
  lemma RunPagesStep(setup: Setup, site: Site, w: World, ms: seq<Metadata>, done: World, next: World,
                     processed: nat, processedNext: nat, pageNum: nat, last: nat)
    requires pageNum <= last
    requires ms == ScrapedPage(site, pageNum, w.existing, setup.settings.filterType) && ms != []
    requires done == ProcessAll(setup, site, w, ms)
    requires done.batch != [] ==> next == SaveBatch(done) && processedNext == processed + |ms|
    requires done.batch == [] ==> next == done && processedNext == processed
    ensures RunPages(setup, site, w, processed, pageNum, last) == RunPages(setup, site, next, processedNext, pageNum + 1, last)
  {
    LoopStep(PageSource(site, setup.settings.filterType), ProcessStep(setup, site),
             w, ms, done, next, processed, processedNext, pageNum, last);
  }

  /** The two marks of a record whose PDF was not stored. */
  predicate IsErrorMark(url: string) {
    url == DownloadError || url == UploadError
  }

  /** A URL the upload returns is never one of the marks: it is a locator
      "s3://…". */
  lemma UploadedUrlIsNoMark(dryRun: bool, bucket: string, digest: seq<byte> -> string,
                            store: map<string, seq<byte>>, net: S3.Network, content: seq<byte>, numero: string)
    ensures var up := S3.UploadOutcome(dryRun, bucket, digest, store, net, content, numero);
      up.url.Some? ==> !IsErrorMark(up.url.value)
  {
    var up := S3.UploadOutcome(dryRun, bucket, digest, store, net, content, numero);
    S3.SuccessMeansStored(dryRun, bucket, digest, store, net, content, numero);
    if up.url.Some? {
      assert up.url.value[..5] == "s3://";
      assert up.url.value[0] == 's';
    }
  }

  /** What processing one record does to the state: the record is
      appended once to the batch, with only its URL field set; when the URL
      is an error mark the known numbers stay as they were, otherwise the
      number becomes known; the CSV is not touched and no stored object is
      removed. */
  predicate Appends(before: World, after: World, m: Metadata)
  {
    && |after.batch| == |before.batch| + 1
    && after.batch[..|before.batch|] == before.batch
    && after.batch[|before.batch|] == m.(pdfS3Url := after.batch[|before.batch|].pdfS3Url)
    && after.csvPresent == before.csvPresent && after.csvLines == before.csvLines
    && before.store.Keys <= after.store.Keys
    && (IsErrorMark(after.batch[|before.batch|].pdfS3Url) ==> after.existing == before.existing)
    && (!IsErrorMark(after.batch[|before.batch|].pdfS3Url) ==> after.existing == before.existing + {m.numeroArrete})
  }

  /** `_process_arrete` appends its record as `Appends` says, and a record
      whose PDF was not stored leaves the store as it was. */
  lemma ProcessOneFacts(setup: Setup, site: Site, w: World, m: Metadata)
    ensures var after := ProcessOne(setup, site, w, m);
      && Appends(w, after, m)
      && (IsErrorMark(after.batch[|w.batch|].pdfS3Url) ==> after.store == w.store)
  {
    var pdf := DownloadPdf(site.fetch(PdfUrl(m.explnumId)));
    if pdf.Some? && pdf.value != [] {
      var dryRun, bucket := setup.settings.dryRun, S3.DefaultBucket(setup.settings.bucketName);
      var up := S3.UploadOutcome(dryRun, bucket, setup.digest, w.store, site.net, pdf.value, m.numeroArrete);
      S3.FailureLeavesStore(dryRun, bucket, setup.digest, w.store, site.net, pdf.value, m.numeroArrete);
      S3.UploadTouchesOnlyItsKey(dryRun, bucket, setup.digest, w.store, site.net, pdf.value, m.numeroArrete);
      UploadedUrlIsNoMark(dryRun, bucket, setup.digest, w.store, site.net, pdf.value, m.numeroArrete);
    }
  }

  /** The URL a processed record carries: the download mark exactly when
      the download failed or gave an empty body; otherwise the upload mark,
      or the locator of the object the PDF was stored under. */
  lemma ProcessOneUrl(setup: Setup, site: Site, w: World, m: Metadata)
    ensures var url := ProcessOne(setup, site, w, m).batch[|w.batch|].pdfS3Url;
      var pdf := DownloadPdf(site.fetch(PdfUrl(m.explnumId)));
      && (url == DownloadError <==> pdf.None? || pdf.value == [])
      && (!IsErrorMark(url) ==>
            && S3.ObjectKey(m.numeroArrete, pdf.value, setup.digest).Some?
            && url == S3.S3Url(S3.DefaultBucket(setup.settings.bucketName),
                               S3.ObjectKey(m.numeroArrete, pdf.value, setup.digest).value))
  {
    var pdf := DownloadPdf(site.fetch(PdfUrl(m.explnumId)));
    if pdf.Some? && pdf.value != [] {
      var dryRun, bucket := setup.settings.dryRun, S3.DefaultBucket(setup.settings.bucketName);
      var up := S3.UploadOutcome(dryRun, bucket, setup.digest, w.store, site.net, pdf.value, m.numeroArrete);
      S3.SuccessMeansStored(dryRun, bucket, setup.digest, w.store, site.net, pdf.value, m.numeroArrete);
      UploadedUrlIsNoMark(dryRun, bucket, setup.digest, w.store, site.net, pdf.value, m.numeroArrete);
    }
  }

  /** After a download with a body the record carries the upload's answer:
      the upload mark exactly when the upload gave no locator, that locator
      otherwise. The store becomes the upload's, and the number becomes
      known exactly when the upload gave a locator. */
  lemma ProcessOneUpload(setup: Setup, site: Site, w: World, m: Metadata)
    ensures var after := ProcessOne(setup, site, w, m);
      var url := after.batch[|w.batch|].pdfS3Url;
      var pdf := DownloadPdf(site.fetch(PdfUrl(m.explnumId)));
      pdf.Some? && pdf.value != [] ==>
        var up := S3.UploadOutcome(setup.settings.dryRun, S3.DefaultBucket(setup.settings.bucketName),
                                   setup.digest, w.store, site.net, pdf.value, m.numeroArrete);
        && (url == UploadError <==> up.url.None?)
        && (up.url.Some? ==> url == up.url.value && after.existing == w.existing + {m.numeroArrete})
        && (up.url.None? ==> after.existing == w.existing)
        && after.store == up.store
  {
    var pdf := DownloadPdf(site.fetch(PdfUrl(m.explnumId)));
    if pdf.Some? && pdf.value != [] {
      var dryRun, bucket := setup.settings.dryRun, S3.DefaultBucket(setup.settings.bucketName);
      UploadedUrlIsNoMark(dryRun, bucket, setup.digest, w.store, site.net, pdf.value, m.numeroArrete);
    }
  }

  /** Every step of the page loop appends its record. */
  lemma ProcessStepAppends(setup: Setup, site: Site)
    ensures forall x: World, m: Metadata :: Appends(x, ProcessStep(setup, site)(x, m), m)
  {
    forall x: World, m: Metadata
      ensures Appends(x, ProcessStep(setup, site)(x, m), m)
    {
      ProcessOneFacts(setup, site, x, m);
    }
  }

  /** Folding appending steps appends one row per record, leaves the CSV
      alone, forgets no known number and removes no stored object. */
  lemma {:induction false} FoldFrame(step: (World, Metadata) -> World, w: World, ms: seq<Metadata>)
    requires forall x: World, m: Metadata :: Appends(x, step(x, m), m)
    ensures var after := Fold(step, w, ms);
      && |after.batch| == |w.batch| + |ms|
      && after.csvPresent == w.csvPresent && after.csvLines == w.csvLines
      && w.store.Keys <= after.store.Keys
      && w.existing <= after.existing
    decreases |ms|
  {
    if ms != [] {
      FoldFrame(step, w, ms[..|ms| - 1]);
      var mid := Fold(step, w, ms[..|ms| - 1]);
      assert Appends(mid, step(mid, ms[|ms| - 1]), ms[|ms| - 1]);
    }
  }

  /** Folding appending steps appends the records, in order, each with only
      its URL field set. */
  lemma {:induction false} FoldRows(step: (World, Metadata) -> World, w: World, ms: seq<Metadata>)
    requires forall x: World, m: Metadata :: Appends(x, step(x, m), m)
    ensures var after := Fold(step, w, ms);
      && |after.batch| == |w.batch| + |ms|
      && after.batch[..|w.batch|] == w.batch
      && forall i :: 0 <= i < |ms| ==>
           after.batch[|w.batch| + i] == ms[i].(pdfS3Url := after.batch[|w.batch| + i].pdfS3Url)
    decreases |ms|
  {
    if ms != [] {
      var front := ms[..|ms| - 1];
      var mid := Fold(step, w, front);
      var after := step(mid, ms[|ms| - 1]);
      FoldRows(step, w, front);
      assert Appends(mid, after, ms[|ms| - 1]);
      var n := |w.batch|;
      assert after.batch[..|mid.batch|] == mid.batch;
      forall i | 0 <= i < |front|
        ensures after.batch[n + i] == mid.batch[n + i] && ms[i] == front[i]
      {
      }
    }
  }

  /** Folding appending steps: every record whose row carries no error mark
      has its number known afterwards. */
  lemma {:induction false} FoldKnowsStored(step: (World, Metadata) -> World, w: World, ms: seq<Metadata>)
    requires forall x: World, m: Metadata :: Appends(x, step(x, m), m)
    ensures var after := Fold(step, w, ms);
      && |after.batch| == |w.batch| + |ms|
      && forall i :: 0 <= i < |ms| && !IsErrorMark(after.batch[|w.batch| + i].pdfS3Url) ==>
           ms[i].numeroArrete in after.existing
    decreases |ms|
  {
    if ms != [] {
      var front := ms[..|ms| - 1];
      var mid := Fold(step, w, front);
      var after := step(mid, ms[|ms| - 1]);
      FoldKnowsStored(step, w, front);
      assert Appends(mid, after, ms[|ms| - 1]);
      var n := |w.batch|;
      assert after.batch[..|mid.batch|] == mid.batch;
      forall i | 0 <= i < |front| && !IsErrorMark(after.batch[n + i].pdfS3Url)
        ensures ms[i].numeroArrete in after.existing
      {
        assert after.batch[n + i] == mid.batch[n + i] && ms[i] == front[i];
      }
    }
  }

  /** Folding appending steps: a number becomes known only through a record
      whose row carries no error mark. */
  lemma {:induction false} FoldKnowsOnlyStored(step: (World, Metadata) -> World, w: World, ms: seq<Metadata>)
    requires forall x: World, m: Metadata :: Appends(x, step(x, m), m)
    ensures var after := Fold(step, w, ms);
      && |after.batch| == |w.batch| + |ms|
      && forall x :: x in after.existing && x !in w.existing ==>
           exists i :: 0 <= i < |ms| && ms[i].numeroArrete == x && !IsErrorMark(after.batch[|w.batch| + i].pdfS3Url)
    decreases |ms|
  {
    if ms != [] {
      var front := ms[..|ms| - 1];
      var m := ms[|ms| - 1];
      var mid := Fold(step, w, front);
      var after := step(mid, m);
      FoldKnowsOnlyStored(step, w, front);
      assert Appends(mid, after, m);
      var n := |w.batch|;
      assert after.batch[..|mid.batch|] == mid.batch;
      forall x | x in after.existing && x !in w.existing
        ensures exists i :: 0 <= i < |ms| && ms[i].numeroArrete == x && !IsErrorMark(after.batch[n + i].pdfS3Url)
      {
        if x in mid.existing {
          var i :| 0 <= i < |front| && front[i].numeroArrete == x && !IsErrorMark(mid.batch[n + i].pdfS3Url);
          assert after.batch[n + i] == mid.batch[n + i];
          assert ms[i].numeroArrete == x;
        } else {
          assert ms[|ms| - 1].numeroArrete == x && !IsErrorMark(after.batch[n + |ms| - 1].pdfS3Url);
        }
      }
    }
  }

  /** Processing a page appends each of its records once, in order, with
      only the URL field set; it leaves the CSV alone and removes no stored
      object; the known numbers grow by exactly the numbers of the records
      whose PDF was stored. */
  lemma ProcessAllFacts(setup: Setup, site: Site, w: World, ms: seq<Metadata>)
    ensures var after := ProcessAll(setup, site, w, ms);
      && |after.batch| == |w.batch| + |ms|
      && after.batch[..|w.batch|] == w.batch
      && (forall i :: 0 <= i < |ms| ==>
            after.batch[|w.batch| + i] == ms[i].(pdfS3Url := after.batch[|w.batch| + i].pdfS3Url))
      && after.csvPresent == w.csvPresent && after.csvLines == w.csvLines
      && w.store.Keys <= after.store.Keys
      && w.existing <= after.existing
      && (forall i :: 0 <= i < |ms| && !IsErrorMark(after.batch[|w.batch| + i].pdfS3Url) ==>
            ms[i].numeroArrete in after.existing)
      && (forall x :: x in after.existing && x !in w.existing ==>
            exists i :: 0 <= i < |ms| && ms[i].numeroArrete == x && !IsErrorMark(after.batch[|w.batch| + i].pdfS3Url))
  {
    var step := ProcessStep(setup, site);
    ProcessStepAppends(setup, site);
    FoldFrame(step, w, ms);
    FoldRows(step, w, ms);
    FoldKnowsStored(step, w, ms);
    FoldKnowsOnlyStored(step, w, ms);
  }

  /** From `before` to `after` the batch was saved, the CSV kept its shape
      and only grew. */
  predicate CsvGrown(before: World, after: World)
  {
    && after.batch == []
    && WellFormed(after.csvPresent, after.csvLines)
    && before.csvLines <= after.csvLines
    && (before.csvPresent ==> after.csvPresent)
  }

  lemma CsvGrownTransitive(a: World, b: World, c: World)
    requires CsvGrown(a, b) && CsvGrown(b, c)
    ensures CsvGrown(a, c)
  {
    PrefixTransitive(a.csvLines, b.csvLines, c.csvLines);
  }

  /** One turn of a loop of appending steps on a page with records, from
      an empty batch: the batch is saved and emptied, the file keeps its
      shape and grows by one row per record, and nothing known or stored
      is lost. */
  lemma PageTurn(step: (World, Metadata) -> World, w: World, ms: seq<Metadata>)
    requires forall x: World, m: Metadata :: Appends(x, step(x, m), m)
    requires w.batch == [] && WellFormed(w.csvPresent, w.csvLines) && ms != []
    ensures var done := Fold(step, w, ms);
      var next := SaveBatch(done);
      && done.batch != []
      && CsvGrown(w, next)
      && w.existing <= next.existing && w.store.Keys <= next.store.Keys
      && RowCount(next.csvPresent, next.csvLines) == RowCount(w.csvPresent, w.csvLines) + |ms|
  {
    var done := Fold(step, w, ms);
    FoldFrame(step, w, ms);
    SaveKeepsWellFormed(done.csvPresent, done.csvLines, done.batch);
    SaveAddsRows(done.csvPresent, done.csvLines, done.batch);
    SaveAppendsOnly(done.csvPresent, done.csvLines, done.batch);
  }

  /** A reflexive and transitive relation that every saved page turn
      respects, from states satisfying `inv`, relates the start of a loop
      to its end. */
  lemma {:induction false} LoopRelates(page: (nat, set<string>) -> seq<Metadata>, step: (World, Metadata) -> World,
                                       inv: World -> bool, rel: (World, World) -> bool,
                                       w: World, processed: nat, pageNum: nat, last: nat)
    requires inv(w)
    requires forall x: World :: inv(x) ==> rel(x, x)
    requires forall x: World, ms: seq<Metadata> :: inv(x) && ms != [] ==>
      Fold(step, x, ms).batch != [] && inv(SaveBatch(Fold(step, x, ms))) && rel(x, SaveBatch(Fold(step, x, ms)))
    requires forall a: World, b: World, c: World :: rel(a, b) && rel(b, c) ==> rel(a, c)
    ensures rel(w, Loop(page, step, w, processed, pageNum, last).world)
    decreases last + 1 - pageNum
  {
    if pageNum <= last {
      var ms := page(pageNum, w.existing);
      if ms != [] {
        var done := Fold(step, w, ms);
        var next := SaveBatch(done);
        LoopStep(page, step, w, ms, done, next, processed, processed + |ms|, pageNum, last);
        LoopRelates(page, step, inv, rel, next, processed + |ms|, pageNum + 1, last);
        assert rel(w, next);
        return;
      }
    }
    assert rel(w, w);
  }

  /** Over a loop of appending steps, starting with an empty batch: the
      batch ends empty, and the CSV keeps its shape and only grows. */
  lemma LoopKeepsCsv(page: (nat, set<string>) -> seq<Metadata>, step: (World, Metadata) -> World,
                     w: World, processed: nat, pageNum: nat, last: nat)
    requires forall x: World, m: Metadata :: Appends(x, step(x, m), m)
    requires w.batch == [] && WellFormed(w.csvPresent, w.csvLines)
    ensures CsvGrown(w, Loop(page, step, w, processed, pageNum, last).world)
  {
    var inv := (x: World) => x.batch == [] && WellFormed(x.csvPresent, x.csvLines);
    var rel := (a: World, b: World) => CsvGrown(a, b);
    forall x: World, ms: seq<Metadata> | inv(x) && ms != []
      ensures Fold(step, x, ms).batch != [] && inv(SaveBatch(Fold(step, x, ms))) && rel(x, SaveBatch(Fold(step, x, ms)))
    {
      PageTurn(step, x, ms);
    }
    forall a: World, b: World, c: World | rel(a, b) && rel(b, c)
      ensures rel(a, c)
    {
      CsvGrownTransitive(a, b, c);
    }
    LoopRelates(page, step, inv, rel, w, processed, pageNum, last);
  }

  /** Over a loop of appending steps, starting with an empty batch: the
      known numbers and the stored keys only grow, and the count of
      processed records is the count of rows the CSV gained. */
  lemma {:induction false} LoopCounts(page: (nat, set<string>) -> seq<Metadata>, step: (World, Metadata) -> World,
                                      w: World, processed: nat, pageNum: nat, last: nat)
    requires forall x: World, m: Metadata :: Appends(x, step(x, m), m)
    requires w.batch == [] && WellFormed(w.csvPresent, w.csvLines)
    ensures var r := Loop(page, step, w, processed, pageNum, last);
      && w.existing <= r.world.existing
      && w.store.Keys <= r.world.store.Keys
      && r.processed - processed == RowCount(r.world.csvPresent, r.world.csvLines) - RowCount(w.csvPresent, w.csvLines)
    decreases last + 1 - pageNum
  {
    if pageNum <= last {
      var ms := page(pageNum, w.existing);
      if ms != [] {
        var done := Fold(step, w, ms);
        var next := SaveBatch(done);
        PageTurn(step, w, ms);
        LoopStep(page, step, w, ms, done, next, processed, processed + |ms|, pageNum, last);
        LoopCounts(page, step, next, processed + |ms|, pageNum + 1, last);
      }
    }
  }

  /** Over the page loop of a run, starting with an empty batch: the batch
      ends empty; the CSV keeps its shape and only grows, by one row per
      processed record; the known numbers and the stored keys only grow. */
  lemma RunPagesFacts(setup: Setup, site: Site, w: World, processed: nat, pageNum: nat, last: nat)
    requires w.batch == [] && WellFormed(w.csvPresent, w.csvLines)
    ensures var r := RunPages(setup, site, w, processed, pageNum, last);
      && r.world.batch == []
      && WellFormed(r.world.csvPresent, r.world.csvLines)
      && w.csvLines <= r.world.csvLines
      && (w.csvPresent ==> r.world.csvPresent)
      && w.existing <= r.world.existing
      && w.store.Keys <= r.world.store.Keys
      && r.processed - processed == RowCount(r.world.csvPresent, r.world.csvLines) - RowCount(w.csvPresent, w.csvLines)
  {
    var page, step := PageSource(site, setup.settings.filterType), ProcessStep(setup, site);
    ProcessStepAppends(setup, site);
    LoopKeepsCsv(page, step, w, processed, pageNum, last);
    LoopCounts(page, step, w, processed, pageNum, last);
  }

  /** A page without new records ends the loop: nothing changes, and what
      the later pages would hold makes no difference. */
  lemma EarlyStop(setup: Setup, site: Site, w: World, processed: nat, pageNum: nat, last: nat,
                  otherPages: string -> Listing)
    requires ScrapedPage(site, pageNum, w.existing, setup.settings.filterType) == []
    requires otherPages(SearchPageUrl(pageNum)) == site.listing(SearchPageUrl(pageNum))
    ensures RunPages(setup, site, w, processed, pageNum, last) == Progress(w, processed)
    ensures RunPages(setup, site.(listing := otherPages), w, processed, pageNum, last) == Progress(w, processed)
  {
    var other := site.(listing := otherPages);
    assert PageSource(site, setup.settings.filterType)(pageNum, w.existing) == [];
    assert PageSource(other, setup.settings.filterType)(pageNum, w.existing) == [];
  }

  /** Loops whose pages agree over the range and whose steps agree
      everywhere end in the same place. */
  lemma {:induction false} LoopAgrees(page: (nat, set<string>) -> seq<Metadata>, page2: (nat, set<string>) -> seq<Metadata>,
                                      step: (World, Metadata) -> World, step2: (World, Metadata) -> World,
                                      w: World, processed: nat, pageNum: nat, last: nat)
    requires forall q: nat, ledger: set<string> :: pageNum <= q <= last ==> page(q, ledger) == page2(q, ledger)
    requires forall x: World, m: Metadata :: step(x, m) == step2(x, m)
    ensures Loop(page, step, w, processed, pageNum, last) == Loop(page2, step2, w, processed, pageNum, last)
    decreases last + 1 - pageNum
  {
    if pageNum <= last {
      var ms := page(pageNum, w.existing);
      assert page2(pageNum, w.existing) == ms;
      if ms != [] {
        FoldAgrees(step, step2, w, ms);
        var done := Fold(step, w, ms);
        assert Fold(step2, w, ms) == done;
        if done.batch != [] {
          LoopAgrees(page, page2, step, step2, SaveBatch(done), processed + |ms|, pageNum + 1, last);
        } else {
          LoopAgrees(page, page2, step, step2, done, processed, pageNum + 1, last);
        }
      }
    }
  }

  /** The loop loads no page outside the range it is given: pages beyond
      the page count never matter. */
  lemma OnlyPagesInRange(setup: Setup, site: Site, w: World, processed: nat, pageNum: nat, last: nat,
                         otherPages: string -> Listing)
    requires forall q: nat :: pageNum <= q <= last ==> otherPages(SearchPageUrl(q)) == site.listing(SearchPageUrl(q))
    ensures RunPages(setup, site.(listing := otherPages), w, processed, pageNum, last)
         == RunPages(setup, site, w, processed, pageNum, last)
  {
    var other := site.(listing := otherPages);
    var filterType := setup.settings.filterType;
    forall q: nat, ledger: set<string> | pageNum <= q <= last
      ensures PageSource(other, filterType)(q, ledger) == PageSource(site, filterType)(q, ledger)
    {
      assert other.listing(SearchPageUrl(q)) == site.listing(SearchPageUrl(q));
    }
    LoopAgrees(PageSource(other, filterType), PageSource(site, filterType),
               ProcessStep(setup, other), ProcessStep(setup, site), w, processed, pageNum, last);
  }

  /** Steps that agree everywhere fold to the same state. */
  lemma {:induction false} FoldAgrees(step: (World, Metadata) -> World, step2: (World, Metadata) -> World,
                                      w: World, ms: seq<Metadata>)
    requires forall x: World, m: Metadata :: step(x, m) == step2(x, m)
    ensures Fold(step, w, ms) == Fold(step2, w, ms)
    decreases |ms|
  {
    if ms != [] {
      FoldAgrees(step, step2, w, ms[..|ms| - 1]);
    }
  }

  /** How a run ends: refused by the validation, ended by the failure of the
      first navigation, or finished with the count of processed records. */
  datatype RunResult = ConfigRefused(message: string) | NavigationFailed | Finished(processed: nat)

  datatype Outcome = Outcome(result: RunResult, world: World)

  /** `run`. */
  function RunOutcome(setup: Setup, site: Site, w: World): Outcome
  {
    match ValidateConfig(setup.settings)
    case Refused(message) => Outcome(ConfigRefused(message), w)
    case Accepted =>
      match site.landing
      case LandingFailed => Outcome(NavigationFailed, w)
      case Landing(navbar) =>
        var pages := TotalPages(TotalResults(navbar), setup.settings.maxPagesToScrape);
        var p := RunPages(setup, site, w, 0, 1, pages);
        Outcome(Finished(p.processed), p.world)
  }

  /** How a run ends: a refused configuration or a failed first navigation
      ends it before anything changes; otherwise, from an empty batch and a
      file the scraper wrote, the run ends with the batch saved, the file
      in shape and grown by one row per processed record, and no known
      number or stored object lost. */
  lemma RunOutcomeFacts(setup: Setup, site: Site, w: World)
    requires w.batch == [] && WellFormed(w.csvPresent, w.csvLines)
    ensures var o := RunOutcome(setup, site, w);
      && (o.result.ConfigRefused? <==> ValidateConfig(setup.settings).Refused?)
      && (o.result.ConfigRefused? ==> o.result.message == ValidateConfig(setup.settings).message)
      && (o.result.NavigationFailed? <==> ValidateConfig(setup.settings).Accepted? && site.landing.LandingFailed?)
      && (!o.result.Finished? ==> o.world == w)
      && (o.result.Finished? ==>
            && o.world.batch == []
            && WellFormed(o.world.csvPresent, o.world.csvLines)
            && w.csvLines <= o.world.csvLines
            && w.existing <= o.world.existing
            && w.store.Keys <= o.world.store.Keys
            && o.result.processed == RowCount(o.world.csvPresent, o.world.csvLines) - RowCount(w.csvPresent, w.csvLines))
  {
    if ValidateConfig(setup.settings).Accepted? && site.landing.Landing? {
      var pages := TotalPages(TotalResults(site.landing.navbar), setup.settings.maxPagesToScrape);
      RunPagesFacts(setup, site, w, 0, 1, pages);
    }
  }

  /** Saving a batch of appending steps makes every number of its records
      known to the next start. */
  lemma SavedBatchKnown(step: (World, Metadata) -> World, w: World, ms: seq<Metadata>)
    requires forall x: World, m: Metadata :: Appends(x, step(x, m), m)
    requires WellFormed(w.csvPresent, w.csvLines)
    requires forall i :: 0 <= i < |ms| ==> ms[i].numeroArrete != ""
    ensures var next := SaveBatch(Fold(step, w, ms));
      forall i :: 0 <= i < |ms| ==> ms[i].numeroArrete in LoadLedger(next.csvPresent, true, next.csvLines)
  {
    var done := Fold(step, w, ms);
    FoldFrame(step, w, ms);
    FoldRows(step, w, ms);
    LedgerAfterSave(done.csvPresent, done.csvLines, done.batch);
    forall i | 0 <= i < |ms|
      ensures ms[i].numeroArrete in BatchNumeros(done.batch)
    {
      assert done.batch[|w.batch| + i].numeroArrete == ms[i].numeroArrete;
      assert done.batch[|w.batch| + i] in done.batch;
    }
  }

  /** Over a loop of appending steps from an empty batch, the numbers of
      the first page's records, whatever happened to them, are all known
      to the next start. */
  lemma LoopSavesFirstPage(page: (nat, set<string>) -> seq<Metadata>, step: (World, Metadata) -> World,
                           w: World, pageNum: nat, last: nat)
    requires forall x: World, m: Metadata :: Appends(x, step(x, m), m)
    requires pageNum <= last
    requires w.batch == [] && WellFormed(w.csvPresent, w.csvLines)
    requires forall i :: 0 <= i < |page(pageNum, w.existing)| ==> page(pageNum, w.existing)[i].numeroArrete != ""
    ensures var r := Loop(page, step, w, 0, pageNum, last).world;
      var ms := page(pageNum, w.existing);
      forall i :: 0 <= i < |ms| ==> ms[i].numeroArrete in LoadLedger(r.csvPresent, true, r.csvLines)
  {
    var ms := page(pageNum, w.existing);
    if ms != [] {
      var done := Fold(step, w, ms);
      FoldFrame(step, w, ms);
      var next := SaveBatch(done);
      LoopStep(page, step, w, ms, done, next, 0, |ms|, pageNum, last);
      SavedBatchKnown(step, w, ms);
      SaveKeepsWellFormed(done.csvPresent, done.csvLines, done.batch);
      LoopKeepsCsv(page, step, next, |ms|, pageNum + 1, last);
      var r := Loop(page, step, next, |ms|, pageNum + 1, last).world;
      LoadLedgerGrows(next.csvPresent, next.csvLines, r.csvPresent, r.csvLines);
    }
  }

  /** Every record of a listing page has a number. */
  lemma ScrapedNumbersNonEmpty(site: Site, pageNum: nat, ledger: set<string>, filterType: string)
    ensures var ms := ScrapedPage(site, pageNum, ledger, filterType);
      forall i :: 0 <= i < |ms| ==> ms[i].numeroArrete != ""
  {
    if site.listing(SearchPageUrl(pageNum)).Listing? {
      var ms := ScrapedPage(site, pageNum, ledger, filterType);
      PageRecordsNew(site.listing(SearchPageUrl(pageNum)).candidates, ledger, filterType, site.now);
    }
  }

  /** The numbers the next run starts from include every record the page
      loop met on its first page, whatever happened to its PDF. */
  lemma FirstPageNumbersSaved(setup: Setup, site: Site, w: World, last: nat)
    requires 1 <= last
    requires w.batch == [] && WellFormed(w.csvPresent, w.csvLines)
    ensures var r := RunPages(setup, site, w, 0, 1, last).world;
      var ms := ScrapedPage(site, 1, w.existing, setup.settings.filterType);
      forall i :: 0 <= i < |ms| ==> ms[i].numeroArrete in LoadLedger(r.csvPresent, true, r.csvLines)
  {
    var page := PageSource(site, setup.settings.filterType);
    ScrapedNumbersNonEmpty(site, 1, w.existing, setup.settings.filterType);
    assert page(1, w.existing) == ScrapedPage(site, 1, w.existing, setup.settings.filterType);
    ProcessStepAppends(setup, site);
    LoopSavesFirstPage(page, ProcessStep(setup, site), w, 1, last);
  }

  /** A run restarted on the same site after the page loop finds nothing
      on the first page: every notice it met there, stored or marked with
      an error, is in the CSV and so is skipped. Failed records are not
      retried. */
  lemma RestartSkipsFirstPage(setup: Setup, site: Site, w: World, last: nat)
    requires 1 <= last
    requires w.batch == [] && WellFormed(w.csvPresent, w.csvLines)
    requires w.existing <= LoadLedger(w.csvPresent, true, w.csvLines)
    ensures var r := RunPages(setup, site, w, 0, 1, last).world;
      ScrapedPage(site, 1, LoadLedger(r.csvPresent, true, r.csvLines), setup.settings.filterType) == []
  {
    var filterType, now := setup.settings.filterType, site.now;
    var r := RunPages(setup, site, w, 0, 1, last).world;
    var known := LoadLedger(r.csvPresent, true, r.csvLines);
    RunPagesFacts(setup, site, w, 0, 1, last);
    LoadLedgerGrows(w.csvPresent, w.csvLines, r.csvPresent, r.csvLines);
    FirstPageNumbersSaved(setup, site, w, last);
    match site.listing(SearchPageUrl(1))
    case ListingFailed =>
    case Listing(cands) =>
      PageExhausted(cands, w.existing, known, filterType, now);
  }

  // ---------------------------------------------------------------------
  // The scraper

  /** `ArretesScraper`: the known numbers, the batch of the page in
      progress, the uploader and the CSV file. */
  class ArretesScraper {
    const settings: Settings
    const uploader: S3.Uploader
    const csv: CsvFile
    var existingArretes: set<string>
    var newArretes: seq<Metadata>

    /** The uploader was made from the same settings. */
    ghost predicate Valid() {
      && uploader.dryRun == settings.dryRun
      && uploader.bucketName == S3.DefaultBucket(settings.bucketName)
    }

    ghost function CurrentSetup(): Setup {
      Setup(settings, uploader.digest)
    }

    ghost function State(): World
      reads this, uploader, csv
    {
      World(existingArretes, newArretes, uploader.store, csv.present, csv.lines)
    }

    /** `__init__`: an uploader for the settings, an empty batch, and the
        numbers of the CSV file, loaded as `_load_existing_arretes` does. */
    constructor (settings: Settings, digest: seq<byte> -> string, store: map<string, seq<byte>>,
                 csv: CsvFile, readable: bool)
      ensures this.settings == settings && this.csv == csv && fresh(uploader)
      ensures Valid() && uploader.digest == digest
      ensures State() == World(LoadLedger(csv.present, readable, csv.lines), [], store, csv.present, csv.lines)
    {
      this.settings := settings;
      this.csv := csv;
      uploader := new S3.Uploader(settings, digest, store);
      existingArretes := {};
      newArretes := [];
      new;
      LoadExistingArretes(readable);
    }

    /** `_load_existing_arretes`: the numbers of an existing, readable file;
        nothing changes when there is no file; an unreadable file leaves no
        number known. */
    method LoadExistingArretes(readable: bool)
      modifies this
      ensures existingArretes == (if csv.present then LoadLedger(true, readable, csv.lines) else old(existingArretes))
      ensures newArretes == old(newArretes)
    {
      if csv.present {
        if readable && csv.lines != [] && csv.lines[0] == Header {
          existingArretes := Numeros(csv.lines[1..]);
        } else {
          existingArretes := {};
        }
      }
    }

    /** `_parse_arrete_from_h3`. */
    method ParseArrete(c: Candidate, now: string) returns (m: Option<Metadata>)
      ensures m == ParsedRecord(c, existingArretes, settings.filterType, now)
    {
      var numero := ExtractNumero(c.title);
      if numero.None? {
        return None;
      }
      if numero.value in existingArretes {
        return None;
      }
      var classification := Classify(c.title);
      if !ShouldKeep(settings.filterType, classification) {
        return None;
      }
      var explnumId := FindExplnumId(c.onclicks);
      var details := ReadDetails(c.details);
      var metadata := Metadata(
        numero.value, c.title, Authority(c.authors), Signer(c.authors),
        details.publication, details.signature, details.weight,
        classification.concerneCirculation, classification.concerneStationnement, classification.estTemporaire,
        explnumId, "", now);
      if explnumId == "" {
        return None;
      }
      return Some(metadata);
    }

    /** `_scrape_page`: load the page and parse its notice headings. */
    method ScrapePage(site: Site, pageNum: nat) returns (ms: seq<Metadata>)
      ensures ms == ScrapedPage(site, pageNum, existingArretes, settings.filterType)
    {
      var url := SearchPageUrl(pageNum);
      match site.listing(url)
      case ListingFailed =>
        ms := [];
      case Listing(cands) =>
        ms := [];
        var k := 0;
        while k < |cands|
          invariant 0 <= k <= |cands|
          invariant ms == PageRecords(cands[..k], existingArretes, settings.filterType, site.now)
        {
          var c := cands[k];
          assert cands[..k + 1][..k] == cands[..k];
          if Contains(c.title, NoticeMarker) {
            var m := ParseArrete(c, site.now);
            if m.Some? {
              ms := ms + [m.value];
            }
          }
          k := k + 1;
        }
        assert cands[..k] == cands;
    }

    /** `_process_arrete`: true when the PDF was stored. */
    method ProcessArrete(metadata: Metadata, site: Site) returns (ok: bool)
      requires Valid()
      modifies this, uploader
      ensures State() == ProcessOne(CurrentSetup(), site, old(State()), metadata)
      ensures ok <==> existingArretes == old(existingArretes) + {metadata.numeroArrete}
                      && newArretes[|newArretes| - 1].pdfS3Url != DownloadError
                      && newArretes[|newArretes| - 1].pdfS3Url != UploadError
    {
      var numero := metadata.numeroArrete;
      var pdfContent := DownloadPdf(site.fetch(PdfUrl(metadata.explnumId)));
      if pdfContent.None? || pdfContent.value == [] {
        newArretes := newArretes + [metadata.(pdfS3Url := DownloadError)];
        return false;
      }
      ghost var before := uploader.store;
      var s3Url := uploader.UploadPdf(pdfContent.value, numero, site.net);
      UploadedUrlIsNoMark(uploader.dryRun, uploader.bucketName, uploader.digest, before, site.net, pdfContent.value, numero);
      if s3Url.None? {
        newArretes := newArretes + [metadata.(pdfS3Url := UploadError)];
        return false;
      }
      newArretes := newArretes + [metadata.(pdfS3Url := s3Url.value)];
      existingArretes := existingArretes + {numero};
      return true;
    }

    /** `_save_to_csv`. */
    method SaveToCsv()
      modifies csv
      ensures csv.present == (old(csv.present) || newArretes != [])
      ensures csv.lines == SavedLines(old(csv.present), old(csv.lines), newArretes)
    {
      if newArretes == [] {
        return;
      }
      csv.Save(newArretes);
    }

    /** The records of one page, processed one after the other (the
        program runs them concurrently; see the README). */
    method ProcessPage(pageMetadata: seq<Metadata>, site: Site)
      requires Valid()
      modifies this, uploader
      ensures State() == ProcessAll(CurrentSetup(), site, old(State()), pageMetadata)
    {
      var i := 0;
      while i < |pageMetadata|
        invariant 0 <= i <= |pageMetadata|
        invariant State() == ProcessAll(CurrentSetup(), site, old(State()), pageMetadata[..i])
      {
        var _ := ProcessArrete(pageMetadata[i], site);
        assert pageMetadata[..i + 1][..i] == pageMetadata[..i];
        i := i + 1;
      }
      assert pageMetadata[..i] == pageMetadata;
    }

    /** `run`. */
    method Run(site: Site) returns (result: RunResult)
      requires Valid()
      modifies this, uploader, csv
      ensures Outcome(result, State()) == RunOutcome(CurrentSetup(), site, old(State()))
    {
      var validation := ValidateConfig(settings);
      if validation.Refused? {
        return ConfigRefused(validation.message);
      }
      if site.landing.LandingFailed? {
        return NavigationFailed;
      }
      var totalResults := TotalResults(site.landing.navbar);
      var totalPages := TotalPages(totalResults, settings.maxPagesToScrape);
      var processed: nat := 0;
      var pageNum := 1;
      while pageNum <= totalPages
        invariant 1 <= pageNum <= totalPages + 1
        invariant RunPages(CurrentSetup(), site, State(), processed, pageNum, totalPages)
               == RunPages(CurrentSetup(), site, old(State()), 0, 1, totalPages)
        decreases totalPages + 1 - pageNum
      {
        ghost var before := State();
        ghost var processedBefore := processed;
        var pageMetadata := ScrapePage(site, pageNum);
        if pageMetadata == [] {
          break;
        }
        ProcessPage(pageMetadata, site);
        ghost var done := State();
        if newArretes != [] {
          SaveToCsv();
          processed := processed + |pageMetadata|;
          newArretes := [];
        }
        RunPagesStep(CurrentSetup(), site, before, pageMetadata, done, State(), processedBefore, processed, pageNum, totalPages);
        pageNum := pageNum + 1;
      }
      result := Finished(processed);
    }
  }
}
