/** The scraper's configuration: the site's URLs, the page size, the columns
    of the CSV, the keyword classification of a notice's title, the
    keep/drop filter and the start-up validation of the settings. */
module Config {
  import opened Text

  const BaseUrl := "https://bovp.apps.paris.fr"
  const SearchUrl := BaseUrl + "/index.php?lvl=search_segment&id=121"

  /** Results asked of the site per listing page. */
  const ResultsPerPage: nat := 50

  const CsvColumns: seq<string> := [
    "numero_arrete", "titre", "autorite_responsable", "signataire",
    "date_publication", "date_signature", "poids_pdf_ko",
    "concerne_circulation", "concerne_stationnement", "est_temporaire",
    "explnum_id", "pdf_s3_url", "date_scrape"]

  const FilterOptions: seq<string> := ["all", "circulation", "stationnement"]

  /** The settings read from the environment. A variable that is unset is
      `None`; Python treats unset and empty alike (`not value`). The filter
      value is already lower-cased, as the configuration loader does. */
  datatype Settings = Settings(
    dryRun: bool,
    accessKeyId: Option<string>,
    secretAccessKey: Option<string>,
    bucketName: Option<string>,
    filterType: string,
    maxPagesToScrape: int)

  /** Python's truthiness of an optional string. */
  predicate Present(v: Option<string>) { v.Some? && v.value != "" }

  // ---------------------------------------------------------------------
  // Classification of a title

  const CirculationKeywords: seq<string> := [
    "circulation", "sens unique", "sens interdit", "voie",
    "interdiction de circuler", "accès", "fermeture", "déviation",
    "circulation générale"]

  const ParkingKeywords: seq<string> := [
    "stationnement", "parking", "zone bleue", "livraison",
    "règles de stationnement"]

  const TemporaryKeywords: seq<string> := [
    "à titre provisoire", "provisoire", "temporaire", "provisoirement"]

  /** Listed in the configuration next to the temporary keywords but never
      consulted: a notice is permanent exactly when it is not temporary. */
  const PermanentKeywords: seq<string> := ["permanent", "définitif", "définitiv"]

  datatype Classification = Classification(
    concerneCirculation: bool,
    concerneStationnement: bool,
    estTemporaire: bool)

  /** Python's `any(k in text for k in keywords)`. */
  function AnyKeyword(text: string, keywords: seq<string>): (r: bool)
    ensures r <==> exists i :: 0 <= i < |keywords| && Contains(text, keywords[i])
    decreases |keywords|
  {
    if keywords == [] then false
    else Contains(text, keywords[0]) || AnyKeyword(text, keywords[1..])
  }

  /** Each facet of a title is set exactly when one of its keywords occurs in
      the lower-cased title. Defined on every string, the empty one included. */
  function Classify(title: string): (r: Classification)
    ensures r.concerneCirculation <==>
      exists i :: 0 <= i < |CirculationKeywords| && Contains(Lower(title), CirculationKeywords[i])
    ensures r.concerneStationnement <==>
      exists i :: 0 <= i < |ParkingKeywords| && Contains(Lower(title), ParkingKeywords[i])
    ensures r.estTemporaire <==>
      exists i :: 0 <= i < |TemporaryKeywords| && Contains(Lower(title), TemporaryKeywords[i])
  {
    var lowered := Lower(title);
    Classification(
      AnyKeyword(lowered, CirculationKeywords),
      AnyKeyword(lowered, ParkingKeywords),
      AnyKeyword(lowered, TemporaryKeywords))
  }

  /** Matching ignores case: a title and its lower-cased form classify alike. */
  lemma ClassifyIgnoresCase(title: string)
    ensures Classify(Lower(title)) == Classify(title)
  {
    LowerIdempotent(title);
  }

  /** Two of the four temporary keywords contain "provisoire", so a title is
      temporary exactly when it mentions "provisoire" or "temporaire". */
  lemma TemporaryReduces(title: string)
    ensures Classify(title).estTemporaire <==>
      Contains(Lower(title), "provisoire") || Contains(Lower(title), "temporaire")
  {
    var t := Lower(title);
    assert OccursAt("à titre provisoire", "provisoire", 8);
    OccursImpliesContains("à titre provisoire", "provisoire", 8);
    assert OccursAt("provisoirement", "provisoire", 0);
    OccursImpliesContains("provisoirement", "provisoire", 0);
    if Contains(t, "à titre provisoire") {
      ContainsTransitive(t, "à titre provisoire", "provisoire");
    }
    if Contains(t, "provisoirement") {
      ContainsTransitive(t, "provisoirement", "provisoire");
    }
    assert TemporaryKeywords[1] == "provisoire" && TemporaryKeywords[2] == "temporaire";
  }

  /** "circulation générale" adds nothing to "circulation". */
  lemma CirculationReduces(title: string)
    ensures Classify(title).concerneCirculation <==>
      exists i :: 0 <= i < |CirculationKeywords| - 1 && Contains(Lower(title), CirculationKeywords[i])
  {
    var t := Lower(title);
    assert OccursAt("circulation générale", "circulation", 0);
    OccursImpliesContains("circulation générale", "circulation", 0);
    if Contains(t, "circulation générale") {
      ContainsTransitive(t, "circulation générale", "circulation");
      assert Contains(t, CirculationKeywords[0]);
    }
  }

  /** The keep/drop policy: "circulation" and "stationnement" keep only the
      notices of that facet; "all" and every other value keep everything. */
  function ShouldKeep(filterType: string, c: Classification): (keep: bool)
    ensures filterType == "circulation" ==> (keep <==> c.concerneCirculation)
    ensures filterType == "stationnement" ==> (keep <==> c.concerneStationnement)
    ensures filterType != "circulation" && filterType != "stationnement" ==> keep
  {
    if filterType == "all" then true
    else if filterType == "circulation" then c.concerneCirculation
    else if filterType == "stationnement" then c.concerneStationnement
    else true
  }

  /** A notice is dropped only for being off the topic the filter selects. */
  lemma DroppedOnlyOffTopic(filterType: string, title: string)
    requires !ShouldKeep(filterType, Classify(title))
    ensures filterType in FilterOptions[1..]
    ensures filterType == "circulation" ==>
      forall i :: 0 <= i < |CirculationKeywords| ==> !Contains(Lower(title), CirculationKeywords[i])
    ensures filterType == "stationnement" ==>
      forall i :: 0 <= i < |ParkingKeywords| ==> !Contains(Lower(title), ParkingKeywords[i])
  {
  }

  // ---------------------------------------------------------------------
  // Validation

  const MissingAccessKey := "AWS_ACCESS_KEY_ID manquant"
  const MissingSecretKey := "AWS_SECRET_ACCESS_KEY manquant"
  const MissingBucket := "S3_BUCKET_NAME manquant"

  /** The problem reported for a filter outside the three options. */
  function InvalidFilter(filterType: string): string
  {
    "FILTER_TYPE invalide: '" + filterType + "' (options: all, circulation, stationnement)"
  }

  /** The list of problems `validate_config` collects, in its order: one per
      missing credential outside dry-run mode, then one for a bad filter. */
  function ConfigErrors(s: Settings): (errors: seq<string>)
    ensures errors == [] <==>
      (s.dryRun || (Present(s.accessKeyId) && Present(s.secretAccessKey) && Present(s.bucketName)))
      && s.filterType in FilterOptions
    ensures |errors| <= 4
    ensures s.filterType !in FilterOptions ==> errors[|errors| - 1] == InvalidFilter(s.filterType)
  {
    var credentials :=
      if s.dryRun then []
      else
        (if Present(s.accessKeyId) then [] else [MissingAccessKey])
        + (if Present(s.secretAccessKey) then [] else [MissingSecretKey])
        + (if Present(s.bucketName) then [] else [MissingBucket]);
    var filter := if s.filterType in FilterOptions then [] else [InvalidFilter(s.filterType)];
    credentials + filter
  }

  function Join(parts: seq<string>, sep: string): string
  {
    if parts == [] then "" else if |parts| == 1 then parts[0]
    else parts[0] + sep + Join(parts[1..], sep)
  }

  datatype Validation = Accepted | Refused(message: string)

  /** `validate_config`: the run is refused exactly when, outside dry-run
      mode, a credential or the bucket is missing, or when the filter is not
      one of the three options. Dry-run mode skips the credential checks. */
  function ValidateConfig(s: Settings): (v: Validation)
    ensures v.Refused? <==>
      (!s.dryRun && !(Present(s.accessKeyId) && Present(s.secretAccessKey) && Present(s.bucketName)))
      || s.filterType !in FilterOptions
    ensures v.Refused? ==> |v.message| >= |"Configuration invalide: "|
  {
    var errors := ConfigErrors(s);
    if errors == [] then Accepted
    else Refused("Configuration invalide: " + Join(errors, ", "))
  }

  /** With a validated configuration the filter is one of the three options,
      so the catch-all branch of the policy is never taken. */
  lemma AcceptedFilterIsKnown(s: Settings, c: Classification)
    requires ValidateConfig(s).Accepted?
    ensures s.filterType == "all" || s.filterType == "circulation" || s.filterType == "stationnement"
    ensures ShouldKeep(s.filterType, c) <==>
      s.filterType == "all"
      || (s.filterType == "circulation" && c.concerneCirculation)
      || (s.filterType == "stationnement" && c.concerneStationnement)
  {
  }
}
