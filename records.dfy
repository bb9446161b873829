/** A notice as the listing page offers it, the metadata row the scraper
    makes of it, the decision whether a listed notice becomes a row, and
    the acceptance of a PDF download. */
module Records {
  import opened Text
  import opened Config
  import opened Patterns

  /** One line of a notice's detail table: its label cell and its content
      cell, as stripped text. */
  datatype DetailRow = DetailRow(labelText: string, contentText: string)

  /** A notice heading on a listing page, with what the page shows next to
      it: the heading text, the `onclick` attribute of each of its links (""
      for a link without one), the texts of the author spans of its
      container, and its detail table. A notice without a container has no
      author spans and no detail rows. */
  datatype Candidate = Candidate(
    title: string,
    onclicks: seq<string>,
    authors: seq<string>,
    details: seq<DetailRow>)

  /** One row of the CSV, its fields in the order of the columns. */
  datatype Metadata = Metadata(
    numeroArrete: string,
    titre: string,
    autoriteResponsable: string,
    signataire: string,
    datePublication: string,
    dateSignature: string,
    poidsPdfKo: string,
    concerneCirculation: bool,
    concerneStationnement: bool,
    estTemporaire: bool,
    explnumId: string,
    pdfS3Url: string,
    dateScrape: string)

  // ---------------------------------------------------------------------
  // The fields read around the heading

  /** Non-breaking spaces become plain spaces. */
  function NbspToSpace(s: string): (r: string)
    ensures |r| == |s|
    ensures forall i :: 0 <= i < |s| ==> r[i] == (if s[i] == '\U{A0}' then ' ' else s[i])
  {
    seq(|s|, i requires 0 <= i < |s| => if s[i] == '\U{A0}' then ' ' else s[i])
  }

  /** No non-breaking space survives, and every other character stays. */
  lemma NbspToSpaceClears(s: string)
    ensures forall i :: 0 <= i < |s| ==> NbspToSpace(s)[i] != '\U{A0}'
    ensures forall i :: 0 <= i < |s| && s[i] != '\U{A0}' ==> NbspToSpace(s)[i] == s[i]
    ensures NbspToSpace(NbspToSpace(s)) == NbspToSpace(s)
  {
  }

  /** The first author span names the responsible authority, the second the
      signer. */
  function Authority(authors: seq<string>): (a: string)
    ensures authors == [] ==> a == ""
    ensures authors != [] ==> a == NbspToSpace(authors[0])
  {
    if |authors| >= 1 then NbspToSpace(authors[0]) else ""
  }

  function Signer(authors: seq<string>): (s: string)
    ensures |authors| < 2 ==> s == ""
    ensures |authors| >= 2 ==> s == NbspToSpace(authors[1])
  {
    if |authors| >= 2 then NbspToSpace(authors[1]) else ""
  }

  /** The label tests of the detail table, each taken only when the ones
      before it fail. */
  predicate IsPublicationLabel(labelText: string) {
    Contains(labelText, "Date de publication")
  }

  predicate IsSignatureLabel(labelText: string) {
    && !IsPublicationLabel(labelText)
    && (Contains(labelText, "Date de la signature") || Contains(labelText, "Date de signature"))
  }

  predicate IsWeightLabel(labelText: string) {
    !IsPublicationLabel(labelText) && !IsSignatureLabel(labelText) && Contains(labelText, "Poids")
  }

  /** A row counts for at most one field. */
  lemma LabelsExclusive(labelText: string)
    ensures !(IsPublicationLabel(labelText) && IsSignatureLabel(labelText))
    ensures !(IsPublicationLabel(labelText) && IsWeightLabel(labelText))
    ensures !(IsSignatureLabel(labelText) && IsWeightLabel(labelText))
  {
  }

  /** The content of the last row whose label is selected, or "" when no
      label is. */
  function LastContent(rows: seq<DetailRow>, selected: string -> bool): (r: string)
    ensures (forall k :: 0 <= k < |rows| ==> !selected(rows[k].labelText)) ==> r == ""
    decreases |rows|
  {
    if rows == [] then ""
    else if selected(rows[|rows| - 1].labelText) then rows[|rows| - 1].contentText
    else LastContent(rows[..|rows| - 1], selected)
  }

  /** Later rows win: the result is the content of a selected row after
      which no row is selected. */
  lemma {:induction false} LastContentIsLast(rows: seq<DetailRow>, selected: string -> bool, k: nat)
    requires k < |rows| && selected(rows[k].labelText)
    ensures exists m :: (k <= m < |rows| && selected(rows[m].labelText)
      && LastContent(rows, selected) == rows[m].contentText
      && forall j :: m < j < |rows| ==> !selected(rows[j].labelText))
    decreases |rows|
  {
    var last := |rows| - 1;
    if selected(rows[last].labelText) {
      assert LastContent(rows, selected) == rows[last].contentText;
    } else {
      var front := rows[..last];
      assert k < last && front[k] == rows[k];
      assert LastContent(rows, selected) == LastContent(front, selected);
      LastContentIsLast(front, selected, k);
      var m :| k <= m < |front| && selected(front[m].labelText)
        && LastContent(front, selected) == front[m].contentText
        && forall j :: m < j < |front| ==> !selected(front[j].labelText);
      assert forall j :: m < j < last ==> front[j] == rows[j];
      assert rows[m] == front[m];
      assert k <= m < |rows| && selected(rows[m].labelText)
        && LastContent(rows, selected) == rows[m].contentText
        && forall j :: m < j < |rows| ==> !selected(rows[j].labelText);
    }
  }

  /** The three fields of the detail table. */
  datatype Details = Details(publication: string, signature: string, weight: string)

  /** The detail-table loop of the parser: each row sets the field its
      label selects, later rows overwriting earlier ones. */
  method ReadDetails(rows: seq<DetailRow>) returns (d: Details)
    ensures d == Details(LastContent(rows, IsPublicationLabel), LastContent(rows, IsSignatureLabel),
                         LastContent(rows, IsWeightLabel))
  {
    d := Details("", "", "");
    var k := 0;
    while k < |rows|
      invariant 0 <= k <= |rows|
      invariant d == Details(LastContent(rows[..k], IsPublicationLabel), LastContent(rows[..k], IsSignatureLabel),
                             LastContent(rows[..k], IsWeightLabel))
    {
      var row := rows[k];
      assert rows[..k + 1][..k] == rows[..k];
      if Contains(row.labelText, "Date de publication") {
        d := d.(publication := row.contentText);
      } else if Contains(row.labelText, "Date de la signature") || Contains(row.labelText, "Date de signature") {
        d := d.(signature := row.contentText);
      } else if Contains(row.labelText, "Poids") {
        d := d.(weight := row.contentText);
      }
      k := k + 1;
    }
    assert rows[..k] == rows;
  }

  // ---------------------------------------------------------------------
  // From a heading to a record

  /** `_parse_arrete_from_h3`: the record a listed notice becomes, given the
      numbers already known, the filter and the time of the scrape; `None`
      when the title has no number, the number is known, the filter drops
      the notice or no link yields a viewer id. */
  function ParsedRecord(c: Candidate, ledger: set<string>, filterType: string, now: string): Option<Metadata>
  {
    match ExtractNumero(c.title)
    case None => None
    case Some(numero) =>
      if numero in ledger then None
      else
        var cls := Classify(c.title);
        if !ShouldKeep(filterType, cls) then None
        else
          var id := FirstExplnum(c.onclicks);
          if id == "" then None
          else
            Some(Metadata(
              numero, c.title, Authority(c.authors), Signer(c.authors),
              LastContent(c.details, IsPublicationLabel), LastContent(c.details, IsSignatureLabel),
              LastContent(c.details, IsWeightLabel),
              cls.concerneCirculation, cls.concerneStationnement, cls.estTemporaire,
              id, "", now))
  }

  /** A notice becomes a record exactly when its title carries a number not
      yet known, the filter keeps it, and one of its links carries a viewer
      id. */
  lemma ParsedRecordIff(c: Candidate, ledger: set<string>, filterType: string, now: string)
    ensures ParsedRecord(c, ledger, filterType, now).Some? <==>
      && ExtractNumero(c.title).Some?
      && ExtractNumero(c.title).value !in ledger
      && ShouldKeep(filterType, Classify(c.title))
      && exists k :: 0 <= k < |c.onclicks| && ExplnumFromOnclick(c.onclicks[k]).Some?
  {
    FirstExplnumEmpty(c.onclicks);
  }

  /** What a record holds: the number of its title, new to the ledger; the
      title's classification; the id of the first matching link; no URL
      yet; and the scrape time. */
  lemma ParsedRecordFields(c: Candidate, ledger: set<string>, filterType: string, now: string)
    requires ParsedRecord(c, ledger, filterType, now).Some?
    ensures var m := ParsedRecord(c, ledger, filterType, now).value;
      && Some(m.numeroArrete) == ExtractNumero(c.title)
      && NumeroShape(m.numeroArrete)
      && m.numeroArrete !in ledger
      && m.titre == c.title
      && Classification(m.concerneCirculation, m.concerneStationnement, m.estTemporaire) == Classify(c.title)
      && ShouldKeep(filterType, Classify(c.title))
      && m.explnumId != "" && AllDigits(m.explnumId)
      && (exists k :: (0 <= k < |c.onclicks| && ExplnumFromOnclick(c.onclicks[k]) == Some(m.explnumId)
            && NoExplnumLinkBefore(c.onclicks, k)))
      && m.pdfS3Url == ""
      && m.dateScrape == now
  {
    ExtractedNumeroShape(c.title);
    FirstExplnumIsFirstMatch(c.onclicks);
  }

  /** A known number is never parsed again. */
  lemma KnownNumeroSkipped(c: Candidate, ledger: set<string>, filterType: string, now: string)
    requires ExtractNumero(c.title).Some? && ExtractNumero(c.title).value in ledger
    ensures ParsedRecord(c, ledger, filterType, now).None?
  {
  }

  /** The text a listing heading must show to be taken as a notice. */
  const NoticeMarker := "Arrêté n°"

  /** The record of one heading of a listing page: only the headings that
      show the marker are parsed. */
  function RecordOf(ledger: set<string>, filterType: string, now: string): Candidate -> Option<Metadata>
  {
    (c: Candidate) => if Contains(c.title, NoticeMarker) then ParsedRecord(c, ledger, filterType, now) else None
  }

  /** A heading gives a record only when it shows the marker, and then it
      is the parsed record. */
  lemma RecordOfSome(c: Candidate, ledger: set<string>, filterType: string, now: string)
    requires RecordOf(ledger, filterType, now)(c).Some?
    ensures Contains(c.title, NoticeMarker)
    ensures RecordOf(ledger, filterType, now)(c) == ParsedRecord(c, ledger, filterType, now)
  {
  }

  /** The records of a run of headings, in order, with the headings that
      give none skipped. */
  function Collect(cands: seq<Candidate>, parse: Candidate -> Option<Metadata>): (ms: seq<Metadata>)
    ensures |ms| <= |cands|
    decreases |cands|
  {
    if cands == [] then []
    else
      var front := Collect(cands[..|cands| - 1], parse);
      match parse(cands[|cands| - 1])
      case Some(m) => front + [m]
      case None => front
  }

  /** `_scrape_page` after the page has loaded: the records of its notice
      headings, in page order. */
  function PageRecords(cands: seq<Candidate>, ledger: set<string>, filterType: string, now: string): seq<Metadata>
  {
    Collect(cands, RecordOf(ledger, filterType, now))
  }

  /** The records of two runs of headings are those of each in turn. */
  lemma {:induction false} CollectAppend(cs1: seq<Candidate>, cs2: seq<Candidate>, parse: Candidate -> Option<Metadata>)
    ensures Collect(cs1 + cs2, parse) == Collect(cs1, parse) + Collect(cs2, parse)
    decreases |cs2|
  {
    if cs2 != [] {
      var last := |cs2| - 1;
      var whole := cs1 + cs2;
      assert whole[..|whole| - 1] == cs1 + cs2[..last];
      assert whole[|whole| - 1] == cs2[last];
      CollectAppend(cs1, cs2[..last], parse);
      match parse(cs2[last])
      case Some(m) =>
        assert Collect(whole, parse) == Collect(cs1 + cs2[..last], parse) + [m];
        assert Collect(cs2, parse) == Collect(cs2[..last], parse) + [m];
        var a, b := Collect(cs1, parse), Collect(cs2[..last], parse);
        assert (a + b) + [m] == a + (b + [m]);
      case None =>
        assert Collect(whole, parse) == Collect(cs1 + cs2[..last], parse);
        assert Collect(cs2, parse) == Collect(cs2[..last], parse);
    } else {
      assert cs1 + cs2 == cs1;
    }
  }

  /** Every record comes from one of the headings. */
  lemma {:induction false} CollectSources(cands: seq<Candidate>, parse: Candidate -> Option<Metadata>)
    ensures forall m :: m in Collect(cands, parse) ==> exists k :: 0 <= k < |cands| && parse(cands[k]) == Some(m)
    decreases |cands|
  {
    if cands != [] {
      var front := cands[..|cands| - 1];
      CollectSources(front, parse);
      assert forall k :: 0 <= k < |front| ==> front[k] == cands[k];
      var head := Collect(front, parse);
      forall m | m in Collect(cands, parse)
        ensures exists k :: 0 <= k < |cands| && parse(cands[k]) == Some(m)
      {
        if m in head {
          var k :| 0 <= k < |front| && parse(front[k]) == Some(m);
          assert parse(cands[k]) == Some(m);
        } else {
          assert parse(cands[|cands| - 1]) == Some(m);
        }
      }
    }
  }

  /** A run yields no record exactly when none of its headings does. */
  lemma {:induction false} CollectEmpty(cands: seq<Candidate>, parse: Candidate -> Option<Metadata>)
    ensures Collect(cands, parse) == [] <==> forall k :: 0 <= k < |cands| ==> parse(cands[k]).None?
    decreases |cands|
  {
    if cands != [] {
      var front := cands[..|cands| - 1];
      CollectEmpty(front, parse);
      assert forall k :: 0 <= k < |front| ==> front[k] == cands[k];
    }
  }

  /** Every heading that yields a record gives it to the run. */
  lemma {:induction false} CollectComplete(cands: seq<Candidate>, parse: Candidate -> Option<Metadata>)
    ensures forall k :: 0 <= k < |cands| && parse(cands[k]).Some? ==> parse(cands[k]).value in Collect(cands, parse)
    decreases |cands|
  {
    if cands != [] {
      var front := cands[..|cands| - 1];
      CollectComplete(front, parse);
      assert forall k :: 0 <= k < |front| ==> front[k] == cands[k];
    }
  }

  /** Every record of a page comes from one of its notice headings. */
  lemma PageRecordsSources(cands: seq<Candidate>, ledger: set<string>, filterType: string, now: string)
    ensures var ms := PageRecords(cands, ledger, filterType, now);
      forall i :: 0 <= i < |ms| ==>
        exists k :: (0 <= k < |cands| && Contains(cands[k].title, NoticeMarker)
          && ParsedRecord(cands[k], ledger, filterType, now) == Some(ms[i]))
  {
    var ms := PageRecords(cands, ledger, filterType, now);
    forall i | 0 <= i < |ms|
      ensures exists k :: (0 <= k < |cands| && Contains(cands[k].title, NoticeMarker)
        && ParsedRecord(cands[k], ledger, filterType, now) == Some(ms[i]))
    {
      RecordSource(cands, ledger, filterType, now, ms[i]);
    }
  }

  lemma RecordSource(cands: seq<Candidate>, ledger: set<string>, filterType: string, now: string, m: Metadata)
    requires m in PageRecords(cands, ledger, filterType, now)
    ensures exists k :: (0 <= k < |cands| && Contains(cands[k].title, NoticeMarker)
      && ParsedRecord(cands[k], ledger, filterType, now) == Some(m))
  {
    var parse := RecordOf(ledger, filterType, now);
    CollectSources(cands, parse);
    var k :| 0 <= k < |cands| && parse(cands[k]) == Some(m);
    RecordOfSome(cands[k], ledger, filterType, now);
  }

  /** Every record of a page has a well-formed number not yet known. */
  lemma PageRecordsNew(cands: seq<Candidate>, ledger: set<string>, filterType: string, now: string)
    ensures var ms := PageRecords(cands, ledger, filterType, now);
      forall i :: 0 <= i < |ms| ==> ms[i].numeroArrete !in ledger && NumeroShape(ms[i].numeroArrete)
  {
    var ms := PageRecords(cands, ledger, filterType, now);
    PageRecordsSources(cands, ledger, filterType, now);
    forall i | 0 <= i < |ms|
      ensures ms[i].numeroArrete !in ledger && NumeroShape(ms[i].numeroArrete)
    {
      var k :| 0 <= k < |cands| && Contains(cands[k].title, NoticeMarker)
        && ParsedRecord(cands[k], ledger, filterType, now) == Some(ms[i]);
      ParsedRecordFields(cands[k], ledger, filterType, now);
    }
  }

  /** A page yields no record exactly when none of its notice headings
      parses. */
  lemma PageRecordsEmpty(cands: seq<Candidate>, ledger: set<string>, filterType: string, now: string)
    ensures PageRecords(cands, ledger, filterType, now) == [] <==>
      forall k :: 0 <= k < |cands| && Contains(cands[k].title, NoticeMarker) ==>
        ParsedRecord(cands[k], ledger, filterType, now).None?
  {
    var parse := RecordOf(ledger, filterType, now);
    CollectEmpty(cands, parse);
  }

  /** Every notice heading that parses gives its record to the page. */
  lemma PageRecordsComplete(cands: seq<Candidate>, ledger: set<string>, filterType: string, now: string, k: nat)
    requires k < |cands| && Contains(cands[k].title, NoticeMarker)
    requires ParsedRecord(cands[k], ledger, filterType, now).Some?
    ensures ParsedRecord(cands[k], ledger, filterType, now).value in PageRecords(cands, ledger, filterType, now)
  {
    var parse := RecordOf(ledger, filterType, now);
    CollectComplete(cands, parse);
    assert parse(cands[k]) == ParsedRecord(cands[k], ledger, filterType, now);
  }

  /** A record carries the number of its title. */
  lemma ParsedRecordNumero(c: Candidate, ledger: set<string>, filterType: string, now: string)
    requires ParsedRecord(c, ledger, filterType, now).Some?
    ensures ExtractNumero(c.title) == Some(ParsedRecord(c, ledger, filterType, now).value.numeroArrete)
  {
  }

  /** Knowing more numbers only removes records: a notice parsed against a
      larger ledger gives the same record against a smaller one. */
  lemma ParsedRecordLedgerAntitone(c: Candidate, small: set<string>, large: set<string>, filterType: string, now: string)
    requires small <= large
    ensures ParsedRecord(c, large, filterType, now).Some? ==>
      ParsedRecord(c, small, filterType, now) == ParsedRecord(c, large, filterType, now)
  {
  }

  /** Once the numbers of every record a page gave are known, the page
      gives nothing more. */
  lemma PageExhausted(cands: seq<Candidate>, small: set<string>, large: set<string>, filterType: string, now: string)
    requires small <= large
    requires forall i :: 0 <= i < |PageRecords(cands, small, filterType, now)| ==>
      PageRecords(cands, small, filterType, now)[i].numeroArrete in large
    ensures PageRecords(cands, large, filterType, now) == []
  {
    var ms := PageRecords(cands, small, filterType, now);
    forall k | 0 <= k < |cands| && Contains(cands[k].title, NoticeMarker)
      ensures ParsedRecord(cands[k], large, filterType, now).None?
    {
      ParsedRecordLedgerAntitone(cands[k], small, large, filterType, now);
      var first := ParsedRecord(cands[k], small, filterType, now);
      if first.Some? {
        PageRecordsComplete(cands, small, filterType, now, k);
        ParsedRecordNumero(cands[k], small, filterType, now);
        KnownNumeroSkipped(cands[k], large, filterType, now);
      }
    }
    PageRecordsEmpty(cands, large, filterType, now);
  }

  /** A heading that gives a record, repeated, gives it twice. */
  lemma CollectTwice(c: Candidate, parse: Candidate -> Option<Metadata>)
    requires parse(c).Some?
    ensures Collect([c, c], parse) == [parse(c).value, parse(c).value]
  {
    assert Collect([c], parse) == Collect([], parse) + [parse(c).value];
    assert [c, c][..1] == [c];
  }

  /** A notice listed twice on one page, before its number is known, gives
      two identical records. */
  lemma ListedTwiceGivesTwoRecords(c: Candidate, ledger: set<string>, filterType: string, now: string)
    requires Contains(c.title, NoticeMarker) && ParsedRecord(c, ledger, filterType, now).Some?
    ensures var m := ParsedRecord(c, ledger, filterType, now).value;
      PageRecords([c, c], ledger, filterType, now) == [m, m]
  {
    CollectTwice(c, RecordOf(ledger, filterType, now));
  }

  // ---------------------------------------------------------------------
  // Downloading the PDF

  /** The answer to the PDF request: an HTTP response, or an exception. */
  datatype Response = Failed | Answer(ok: bool, contentType: string, body: seq<byte>)

  const PdfEndpoint := BaseUrl + "/doc_num_data.php?explnum_id="

  /** The URL of a notice's PDF. */
  function PdfUrl(explnumId: string): (url: string)
    ensures |url| == |PdfEndpoint| + |explnumId| && url[..|PdfEndpoint|] == PdfEndpoint && url[|PdfEndpoint|..] == explnumId
  {
    PdfEndpoint + explnumId
  }

  /** Distinct ids are fetched from distinct URLs. */
  lemma PdfUrlInjective(id1: string, id2: string)
    requires PdfUrl(id1) == PdfUrl(id2)
    ensures id1 == id2
  {
    assert id1 == PdfUrl(id1)[|PdfEndpoint|..];
  }

  /** `_download_pdf`: the body of a successful response whose content type
      announces a PDF or raw bytes; `None` for everything else. */
  function DownloadPdf(response: Response): (pdf: Option<seq<byte>>)
    ensures pdf.Some? <==> (
      && response.Answer? && response.ok
      && (Contains(response.contentType, "application/pdf") || Contains(response.contentType, "application/octet-stream")))
    ensures pdf.Some? ==> pdf.value == response.body
  {
    match response
    case Failed => None
    case Answer(ok, contentType, body) =>
      if !ok then None
      else if Contains(contentType, "application/pdf") || Contains(contentType, "application/octet-stream") then Some(body)
      else None
  }

  /** A content type carrying parameters after the media type is still
      accepted. */
  lemma ParametersAccepted(body: seq<byte>, parameters: string)
    ensures DownloadPdf(Answer(true, "application/pdf" + parameters, body)) == Some(body)
  {
    var ct := "application/pdf" + parameters;
    assert ct[..|"application/pdf"|] == "application/pdf";
  }
}
