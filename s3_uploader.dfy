/** The PDF store: how a notice's number and content become an object key
    and an `s3://` locator, and the upload that puts a PDF under that key
    unless it is already there. The object store is a map from keys to
    contents; the network's answers to the two requests the uploader makes
    (probe and put) are given per key. */
module S3 {
  import opened Text
  import Config
  import Patterns

  // ---------------------------------------------------------------------
  // Key derivation

  /** The file-name part of the key: every space becomes '_' and every '/'
      becomes '-'; nothing else changes. */
  function SafeFilename(numero: string): (safe: string)
    ensures |safe| == |numero|
    ensures forall i :: 0 <= i < |numero| ==>
      safe[i] == (if numero[i] == ' ' then '_' else if numero[i] == '/' then '-' else numero[i])
  {
    seq(|numero|, i requires 0 <= i < |numero| =>
      if numero[i] == ' ' then '_' else if numero[i] == '/' then '-' else numero[i])
  }

  /** The inverse of `SafeFilename` on names made by it. */
  function Unsanitize(safe: string): (numero: string)
    ensures |numero| == |safe|
    ensures forall i :: 0 <= i < |safe| ==>
      numero[i] == (if safe[i] == '_' then ' ' else if safe[i] == '-' then '/' else safe[i])
  {
    seq(|safe|, i requires 0 <= i < |safe| =>
      if safe[i] == '_' then ' ' else if safe[i] == '-' then '/' else safe[i])
  }

  predicate NoSeparatorChars(numero: string) {
    forall i :: 0 <= i < |numero| ==> numero[i] != '_' && numero[i] != '-'
  }

  /** A number without '_' or '-' is recovered from its file name, so the
      sanitising loses nothing. */
  lemma SafeFilenameRoundTrip(numero: string)
    requires NoSeparatorChars(numero)
    ensures Unsanitize(SafeFilename(numero)) == numero
  {
    var back := Unsanitize(SafeFilename(numero));
    forall i | 0 <= i < |numero|
      ensures back[i] == numero[i]
    {
      assert numero[i] != '_' && numero[i] != '-';
    }
  }

  /** Every number the title pattern captures is such a number. */
  lemma NumeroHasNoSeparators(numero: string)
    requires Patterns.NumeroShape(numero)
    ensures NoSeparatorChars(numero)
  {
    Patterns.NumeroShapeChars(numero);
    forall i | 0 <= i < |numero|
      ensures numero[i] != '_' && numero[i] != '-'
    {
      assert IsDigit(numero[i]) || IsSpace(numero[i]) || IsUpper(numero[i]);
    }
  }

  /** The end of the run of non-blanks from index `i`. */
  function SpanNonSpaces(s: string, i: nat): (j: nat)
    requires i <= |s|
    ensures i <= j <= |s|
    ensures forall k :: i <= k < j ==> !IsSpace(s[k])
    ensures j == |s| || IsSpace(s[j])
    decreases |s| - i
  {
    if i < |s| && !IsSpace(s[i]) then SpanNonSpaces(s, i + 1) else i
  }

  /** Python's `s.split()[0]`: the first whitespace-separated token, or
      `None` where Python raises `IndexError` (a blank string). */
  function FirstToken(s: string): (token: Option<string>)
    ensures token.None? <==> forall i :: 0 <= i < |s| ==> IsSpace(s[i])
    ensures token.Some? ==> (
      && token.value != []
      && (forall i :: 0 <= i < |token.value| ==> !IsSpace(token.value[i]))
      && (forall i :: 0 <= i < SpanSpaces(s, 0) ==> IsSpace(s[i]))
      && OccursAt(s, token.value, SpanSpaces(s, 0))
      && (SpanSpaces(s, 0) + |token.value| == |s| || IsSpace(s[SpanSpaces(s, 0) + |token.value|])))
  {
    var a := SpanSpaces(s, 0);
    if a == |s| then None else Some(s[a..SpanNonSpaces(s, a)])
  }

  /** The year folder of a key: the first token of the number when the
      number holds a space, "unknown" when it does not; `None` where the
      split raises. */
  function Year(numero: string): (year: Option<string>)
    ensures !Contains(numero, " ") ==> year == Some("unknown")
    ensures Contains(numero, " ") ==> year == FirstToken(numero)
  {
    if Contains(numero, " ") then FirstToken(numero) else Some("unknown")
  }

  lemma {:induction false} NonSpacesStopAt(s: string, i: nat, j: nat)
    requires i <= j <= |s|
    requires forall k :: i <= k < j ==> !IsSpace(s[k])
    requires j == |s| || IsSpace(s[j])
    ensures SpanNonSpaces(s, i) == j
    decreases j - i
  {
    if i < j {
      NonSpacesStopAt(s, i + 1, j);
    }
  }

  /** For a number of the usual form "2025 T 17858" the year is its four
      leading digits. A number whose blanks are all tabs or other
      whitespace, not a space, goes under "unknown". */
  lemma YearOfNumero(numero: string)
    requires Patterns.NumeroShape(numero)
    ensures Contains(numero, " ") ==> Year(numero) == Some(numero[..4])
    ensures !Contains(numero, " ") ==> Year(numero) == Some("unknown")
  {
    Patterns.NumeroShapeChars(numero);
    assert IsDigit(numero[0]) by {
      assert numero[..4][0] == numero[0];
    }
    assert SpanSpaces(numero, 0) == 0;
    forall k | 0 <= k < 4
      ensures !IsSpace(numero[k])
    {
      assert numero[..4][k] == numero[k];
    }
    NonSpacesStopAt(numero, 0, 4);
  }

  /** The first eight characters of the hex digest (all of it if shorter). */
  function Hash8(hex: string): (h: string)
    ensures |h| == if |hex| < 8 then |hex| else 8
    ensures h == hex[..|h|]
  {
    if |hex| < 8 then hex else hex[..8]
  }

  const KeyPrefix := "arretes/"
  const KeySuffix := ".pdf"

  /** The object key of a PDF: its year folder, its sanitised number and
      the start of its content's digest. `None` where computing the year
      raises. */
  function ObjectKey(numero: string, content: seq<byte>, digest: seq<byte> -> string): (key: Option<string>)
    ensures key.None? <==> Year(numero).None?
    ensures key.Some? ==>
      key.value == KeyPrefix + Year(numero).value + "/" + SafeFilename(numero) + "_" + Hash8(digest(content)) + KeySuffix
  {
    match Year(numero)
    case None => None
    case Some(year) => Some(KeyPrefix + year + "/" + SafeFilename(numero) + "_" + Hash8(digest(content)) + KeySuffix)
  }

  /** Keys whose year folders and digests have equal lengths are equal
      only when their file names are. */
  lemma SameFileName(y1: string, s1: string, h1: string, y2: string, s2: string, h2: string)
    requires KeyPrefix + y1 + "/" + s1 + "_" + h1 + KeySuffix == KeyPrefix + y2 + "/" + s2 + "_" + h2 + KeySuffix
    requires |y1| == |y2| && |h1| == |h2|
    ensures s1 == s2
  {
    var k := KeyPrefix + y1 + "/" + s1 + "_" + h1 + KeySuffix;
    var start := |KeyPrefix| + |y1| + 1;
    assert |s1| == |s2|;
    forall i | 0 <= i < |s1|
      ensures s1[i] == s2[i]
    {
      assert k[start + i] == s1[i];
      assert k[start + i] == s2[i];
    }
  }

  /** Two notices of the usual form whose digests are full length never
      share a key: the key determines the number. */
  lemma KeyDeterminesNumero(n1: string, c1: seq<byte>, n2: string, c2: seq<byte>, digest: seq<byte> -> string)
    requires Patterns.NumeroShape(n1) && Contains(n1, " ")
    requires Patterns.NumeroShape(n2) && Contains(n2, " ")
    requires |digest(c1)| >= 8 && |digest(c2)| >= 8
    requires ObjectKey(n1, c1, digest) == ObjectKey(n2, c2, digest)
    ensures n1 == n2
  {
    YearOfNumero(n1);
    YearOfNumero(n2);
    SameFileName(n1[..4], SafeFilename(n1), Hash8(digest(c1)), n2[..4], SafeFilename(n2), Hash8(digest(c2)));
    NumeroHasNoSeparators(n1);
    NumeroHasNoSeparators(n2);
    SafeFilenameRoundTrip(n1);
    SafeFilenameRoundTrip(n2);
  }

  /** `_get_s3_url`. */
  function S3Url(bucket: string, key: string): (url: string)
    ensures |url| == |"s3://"| + |bucket| + 1 + |key|
    ensures url[..5] == "s3://" && url[|url| - |key|..] == key
    ensures url[5..5 + |bucket|] == bucket && url[5 + |bucket|] == '/'
  {
    "s3://" + bucket + "/" + key
  }

  /** The configured bucket, or "dry-run-bucket" when none is set. */
  function DefaultBucket(configured: Option<string>): (bucket: string)
    ensures Config.Present(configured) ==> bucket == configured.value
    ensures !Config.Present(configured) ==> bucket == "dry-run-bucket"
    ensures bucket != ""
  {
    if Config.Present(configured) then configured.value else "dry-run-bucket"
  }

  // ---------------------------------------------------------------------
  // The store and the network

  /** How a request to the store ends: normally, with a client error (what
      the store answers for a missing object, a refused permission, ...),
      or with any other exception (a connection error, ...). */
  datatype Fault = NoFault | ClientFault | OtherFault

  /** The network's answer to each request, by key. */
  datatype Network = Network(head: string -> Fault, put: string -> Fault)

  /** The outcome of `_file_exists`: an answer, or an exception that
      escapes it. */
  datatype Probe = Answer(found: bool) | Raised

  /** `_file_exists`: false in dry-run mode; a client error reads as "not
      there"; any other exception escapes. */
  function FileProbe(dryRun: bool, store: map<string, seq<byte>>, net: Network, key: string): (p: Probe)
    ensures dryRun ==> p == Answer(false)
    ensures !dryRun ==> (p == Raised <==> net.head(key) == OtherFault)
    ensures p == Answer(true) <==> !dryRun && net.head(key) == NoFault && key in store
  {
    if dryRun then Answer(false)
    else
      match net.head(key)
      case OtherFault => Raised
      case ClientFault => Answer(false)
      case NoFault => Answer(key in store)
  }

  datatype UploadResult = UploadResult(url: Option<string>, store: map<string, seq<byte>>)

  /** `upload_pdf`: the URL it returns and the store it leaves. */
  function UploadOutcome(dryRun: bool, bucket: string, digest: seq<byte> -> string,
                         store: map<string, seq<byte>>, net: Network,
                         content: seq<byte>, numero: string): UploadResult
  {
    match ObjectKey(numero, content, digest)
    case None => UploadResult(None, store)
    case Some(key) =>
      var url := S3Url(bucket, key);
      if dryRun then UploadResult(Some(url), store)
      else
        match FileProbe(dryRun, store, net, key)
        case Raised => UploadResult(None, store)
        case Answer(true) => UploadResult(Some(url), store)
        case Answer(false) =>
          if net.put(key) == NoFault then UploadResult(Some(url), store[key := content])
          else UploadResult(None, store)
  }

  /** In dry-run mode the store is left alone and the URL of the derived key
      comes back whenever the key can be derived. */
  lemma DryRunTouchesNothing(bucket: string, digest: seq<byte> -> string, store: map<string, seq<byte>>,
                             net: Network, content: seq<byte>, numero: string)
    ensures var r := UploadOutcome(true, bucket, digest, store, net, content, numero);
      && r.store == store
      && (r.url.Some? <==> ObjectKey(numero, content, digest).Some?)
      && (r.url.Some? ==> r.url.value == S3Url(bucket, ObjectKey(numero, content, digest).value))
  {
  }

  /** Every failure comes back as `None` and leaves the store as it was. */
  lemma FailureLeavesStore(dryRun: bool, bucket: string, digest: seq<byte> -> string,
                           store: map<string, seq<byte>>, net: Network, content: seq<byte>, numero: string)
    ensures var r := UploadOutcome(dryRun, bucket, digest, store, net, content, numero);
      r.url.None? ==> r.store == store
  {
  }

  /** An upload writes at most the object under its own key: no key is
      removed and no other object changes. */
  lemma UploadTouchesOnlyItsKey(dryRun: bool, bucket: string, digest: seq<byte> -> string,
                                store: map<string, seq<byte>>, net: Network, content: seq<byte>, numero: string)
    ensures var r := UploadOutcome(dryRun, bucket, digest, store, net, content, numero);
      && store.Keys <= r.store.Keys
      && (forall k :: k in r.store && (ObjectKey(numero, content, digest) != Some(k)) ==>
            k in store && r.store[k] == store[k])
  {
  }

  /** A returned URL names the derived key, and outside dry-run mode the
      object is then in the store: either the content just written, or the
      object found already there. */
  lemma SuccessMeansStored(dryRun: bool, bucket: string, digest: seq<byte> -> string,
                           store: map<string, seq<byte>>, net: Network, content: seq<byte>, numero: string)
    ensures var r := UploadOutcome(dryRun, bucket, digest, store, net, content, numero);
      r.url.Some? ==>
        && ObjectKey(numero, content, digest).Some?
        && var key := ObjectKey(numero, content, digest).value;
        && r.url.value == S3Url(bucket, key)
        && (!dryRun ==>
              key in r.store && (r.store[key] == content || (key in store && r.store[key] == store[key])))
        && (!dryRun && key !in store ==> r.store[key] == content)
  {
  }

  /** Uploading the same PDF again, when the probe gets through, returns
      the same URL and writes nothing. */
  lemma UploadTwiceIsIdempotent(dryRun: bool, bucket: string, digest: seq<byte> -> string,
                                store: map<string, seq<byte>>, net1: Network, net2: Network,
                                content: seq<byte>, numero: string)
    requires UploadOutcome(dryRun, bucket, digest, store, net1, content, numero).url.Some?
    requires ObjectKey(numero, content, digest).Some?
    requires net2.head(ObjectKey(numero, content, digest).value) == NoFault
    ensures var first := UploadOutcome(dryRun, bucket, digest, store, net1, content, numero);
      UploadOutcome(dryRun, bucket, digest, first.store, net2, content, numero) == first
  {
    SuccessMeansStored(dryRun, bucket, digest, store, net1, content, numero);
  }

  // ---------------------------------------------------------------------
  // The uploader

  /** `S3Uploader`: its mode, its bucket and the store it writes to. */
  class Uploader {
    const dryRun: bool
    const bucketName: string
    /** The hex digest of a content (MD5 in the program). */
    const digest: seq<byte> -> string
    var store: map<string, seq<byte>>

    constructor (settings: Config.Settings, digest: seq<byte> -> string, store: map<string, seq<byte>>)
      ensures this.dryRun == settings.dryRun
      ensures this.bucketName == DefaultBucket(settings.bucketName)
      ensures this.digest == digest && this.store == store
    {
      this.dryRun := settings.dryRun;
      this.bucketName := DefaultBucket(settings.bucketName);
      this.digest := digest;
      this.store := store;
    }

    /** `_file_exists`. */
    method FileExists(key: string, net: Network) returns (p: Probe)
      ensures p == FileProbe(dryRun, store, net, key)
    {
      if dryRun {
        return Answer(false);
      }
      match net.head(key)
      case OtherFault =>
        p := Raised;
      case ClientFault =>
        p := Answer(false);
      case NoFault =>
        p := Answer(key in store);
    }

    /** `upload_pdf`. */
    method UploadPdf(content: seq<byte>, numero: string, net: Network) returns (url: Option<string>)
      modifies this
      ensures UploadResult(url, store) == UploadOutcome(dryRun, bucketName, digest, old(store), net, content, numero)
    {
      var safe := SafeFilename(numero);
      var contentHash := Hash8(digest(content));
      var year := Year(numero);
      if year.None? {
        return None;
      }
      var key := KeyPrefix + year.value + "/" + safe + "_" + contentHash + KeySuffix;
      if dryRun {
        return Some(S3Url(bucketName, key));
      }
      var probe := FileExists(key, net);
      if probe == Raised {
        return None;
      }
      if probe.found {
        return Some(S3Url(bucketName, key));
      }
      if net.put(key) != NoFault {
        return None;
      }
      store := store[key := content];
      url := Some(S3Url(bucketName, key));
    }
  }
}
