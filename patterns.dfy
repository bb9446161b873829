/** The three regular expressions of the scraper, each written out as the
    deterministic scan it amounts to (every quantifier in them is followed by
    a character class it cannot overlap, so greedy matching never needs to
    backtrack), together with the search-page URL and the page count. */
module Patterns {
  import opened Text
  import Config

  /** No match starts at an index in [from, to). */
  predicate NoMatchBetween(matchAt: nat -> Option<string>, from: nat, to: nat)
  {
    forall j: nat :: from <= j < to ==> matchAt(j).None?
  }

  /** `re.search`: the group of the match that starts leftmost among the
      indices `from` to `last`. */
  function Search(matchAt: nat -> Option<string>, from: nat, last: nat): (r: Option<string>)
    ensures r.Some? ==> exists i: nat :: from <= i <= last && matchAt(i) == r && NoMatchBetween(matchAt, from, i)
    ensures r.None? <==> NoMatchBetween(matchAt, from, last + 1)
    decreases last + 1 - from
  {
    if from > last then None
    else
      match matchAt(from)
      case Some(g) => Some(g)
      case None => Search(matchAt, from + 1, last)
  }

  // ---------------------------------------------------------------------
  // `n°\s*(\d{4}\s+[A-Z]\s+\d+)`

  /** The shape of every number the pattern captures, exactly: four digits,
      one or more blanks, a capital letter at `u`, one or more blanks, and
      digits from `v` to the end. */
  predicate NumeroParts(n: string, u: nat, v: nat) {
    && 4 < u && u + 1 < v < |n|
    && (forall k :: 0 <= k < 4 ==> IsDigit(n[k]))
    && (forall k :: 4 <= k < u ==> IsSpace(n[k]))
    && IsUpper(n[u])
    && (forall k :: u < k < v ==> IsSpace(n[k]))
    && (forall k :: v <= k < |n| ==> IsDigit(n[k]))
  }

  predicate NumeroShape(n: string) {
    exists u: nat, v: nat :: u < |n| && v < |n| && NumeroParts(n, u, v)
  }

  /** What a number's shape says character by character: at least eight
      characters, a year of four digits, a blank after it, a final digit,
      and nothing but digits, blanks and capitals. */
  lemma NumeroShapeChars(n: string)
    requires NumeroShape(n)
    ensures |n| >= 8 && AllDigits(n[..4]) && IsSpace(n[4]) && IsDigit(n[|n| - 1])
    ensures forall i :: 0 <= i < |n| ==> IsDigit(n[i]) || IsSpace(n[i]) || IsUpper(n[i])
  {
    var u: nat, v: nat :| u < |n| && v < |n| && NumeroParts(n, u, v);
    forall k | 0 <= k < |n|
      ensures IsDigit(n[k]) || IsSpace(n[k]) || IsUpper(n[k])
    {
      if k < 4 {
      } else if k < u {
      } else if k == u {
      } else if k < v {
      } else {
      }
    }
    assert AllDigits(n[..4]) by {
      assert forall k :: 0 <= k < 4 ==> n[..4][k] == n[k];
    }
  }

  /** The match of the numero pattern that starts at index `i`, if any,
      as its captured group: "n°", blanks, then the group. */
  function NumeroAt(t: string, i: nat): Option<string>
    requires i <= |t|
  {
    if i + 2 <= |t| && t[i] == 'n' && t[i + 1] == '°' then GroupAt(t, SpanSpaces(t, i + 2)) else None
  }

  /** The group from index `a`: four digits, blanks, then the letter. */
  function GroupAt(t: string, a: nat): Option<string>
    requires a <= |t|
  {
    if a + 4 <= |t| && IsDigit(t[a]) && IsDigit(t[a + 1]) && IsDigit(t[a + 2]) && IsDigit(t[a + 3]) then
      LetterAt(t, a, SpanSpaces(t, a + 4))
    else None
  }

  /** The rest of the group from the letter at `b`: blanks, then digits. */
  function LetterAt(t: string, a: nat, b: nat): Option<string>
    requires a <= b <= |t|
  {
    if b > a + 4 && b < |t| && IsUpper(t[b]) then SerialAt(t, a, b, SpanSpaces(t, b + 1)) else None
  }

  /** The serial digits from `c`, closing the group. */
  function SerialAt(t: string, a: nat, b: nat, c: nat): Option<string>
    requires a <= b < c <= |t|
  {
    if c > b + 1 then
      var d := SpanDigits(t, c);
      if d > c then Some(t[a..d]) else None
    else None
  }

  /** The matcher of the numero pattern at each index of `t`. */
  function NumeroMatcher(t: string): nat -> Option<string>
  {
    (i: nat) => if i <= |t| then NumeroAt(t, i) else None
  }

  /** `_extract_numero_arrete`: None exactly when the pattern matches
      nowhere in the title, and otherwise the group of the leftmost match. */
  function ExtractNumero(title: string): (r: Option<string>)
    ensures r.None? <==> forall i :: 0 <= i <= |title| ==> NumeroAt(title, i).None?
    ensures r.Some? ==> exists i :: (0 <= i <= |title| && NumeroAt(title, i) == r
      && forall j :: 0 <= j < i ==> NumeroAt(title, j).None?)
  {
    NumeroLeftmost(title);
    Search(NumeroMatcher(title), 0, |title|)
  }

  /** The leftmost-match reading of the search for the numero pattern. */
  lemma NumeroLeftmost(title: string)
    ensures var r := Search(NumeroMatcher(title), 0, |title|);
      && (r.None? <==> forall i :: 0 <= i <= |title| ==> NumeroAt(title, i).None?)
      && (r.Some? ==> exists i :: (0 <= i <= |title| && NumeroAt(title, i) == r
            && forall j :: 0 <= j < i ==> NumeroAt(title, j).None?))
  {
    var m := NumeroMatcher(title);
    var r := Search(m, 0, |title|);
    NumeroMatcherAt(title);
    if r.Some? {
      var i: nat :| i <= |title| && m(i) == r && NoMatchBetween(m, 0, i);
      assert NumeroAt(title, i) == r;
    }
  }

  /** The matcher is the scan at every index of the title. */
  lemma NumeroMatcherAt(title: string)
    ensures forall i :: 0 <= i <= |title| ==> NumeroMatcher(title)(i) == NumeroAt(title, i)
  {
  }

  /** Every match has the shape of a number. */
  lemma NumeroAtShape(t: string, i: nat)
    requires i <= |t| && NumeroAt(t, i).Some?
    ensures NumeroShape(NumeroAt(t, i).value)
  {
    GroupShape(t, SpanSpaces(t, i + 2));
  }

  lemma GroupShape(t: string, a: nat)
    requires a <= |t| && GroupAt(t, a).Some?
    ensures NumeroShape(GroupAt(t, a).value)
  {
    LetterShape(t, a, SpanSpaces(t, a + 4));
  }

  lemma LetterShape(t: string, a: nat, b: nat)
    requires a + 4 <= b <= |t|
    requires forall k :: a <= k < a + 4 ==> IsDigit(t[k])
    requires forall k :: a + 4 <= k < b ==> IsSpace(t[k])
    requires LetterAt(t, a, b).Some?
    ensures NumeroShape(LetterAt(t, a, b).value)
  {
    SerialShape(t, a, b, SpanSpaces(t, b + 1));
  }

  lemma SerialShape(t: string, a: nat, b: nat, c: nat)
    requires a + 4 < b < c <= |t|
    requires forall k :: a <= k < a + 4 ==> IsDigit(t[k])
    requires forall k :: a + 4 <= k < b ==> IsSpace(t[k])
    requires IsUpper(t[b])
    requires forall k :: b + 1 <= k < c ==> IsSpace(t[k])
    requires SerialAt(t, a, b, c).Some?
    ensures NumeroShape(SerialAt(t, a, b, c).value)
  {
    var d := SpanDigits(t, c);
    var n := t[a..d];
    assert forall k :: 0 <= k < |n| ==> n[k] == t[a + k];
    assert b - a < |n| && c - a < |n| && NumeroParts(n, b - a, c - a);
  }

  /** Whatever `_extract_numero_arrete` returns has the shape of a number. */
  lemma ExtractedNumeroShape(title: string)
    requires ExtractNumero(title).Some?
    ensures NumeroShape(ExtractNumero(title).value)
  {
    var i: nat :| i <= |title| && NumeroMatcher(title)(i) == ExtractNumero(title);
    NumeroAtShape(title, i);
  }

  /** A match starts with "n°" and captures what follows the blanks. */
  lemma NumeroAtOccurs(t: string, i: nat)
    requires i <= |t| && NumeroAt(t, i).Some?
    ensures OccursAt(t, "n°", i) && OccursAt(t, NumeroAt(t, i).value, SpanSpaces(t, i + 2))
  {
    assert t[i..i + 2] == "n°";
  }

  /** The numero appears in the title, right after "n°" and blanks. */
  lemma ExtractedNumeroOccurs(title: string)
    requires ExtractNumero(title).Some?
    ensures exists i :: (OccursAt(title, "n°", i)
      && OccursAt(title, ExtractNumero(title).value, SpanSpaces(title, i + 2)))
  {
    var n := ExtractNumero(title).value;
    var i: nat :| i <= |title| && NumeroMatcher(title)(i) == Some(n);
    NumeroAtOccurs(title, i);
  }

  /** The pattern laid out on characters from `p`: "n°", blanks up to
      `a`, four digits, one or more blanks up to the capital at `b`, one or
      more blanks up to `c`, and a maximal digit run from `c` to `e`. */
  predicate NumeroLayout(t: string, p: nat, a: nat, b: nat, c: nat, e: nat) {
    && p + 2 <= a && a + 4 < b && b + 1 < c < e <= |t|
    && t[p] == 'n' && t[p + 1] == '°'
    && (forall k :: p + 2 <= k < a ==> IsSpace(t[k]))
    && (forall k :: a <= k < a + 4 ==> IsDigit(t[k]))
    && (forall k :: a + 4 <= k < b ==> IsSpace(t[k]))
    && IsUpper(t[b])
    && (forall k :: b < k < c ==> IsSpace(t[k]))
    && (forall k :: c <= k < e ==> IsDigit(t[k]))
    && (e == |t| || !IsDigit(t[e]))
  }

  /** Every such layout is a match, whose group runs from the year to the
      end of the digit run. */
  lemma NumeroAtChars(t: string, p: nat, a: nat, b: nat, c: nat, e: nat)
    requires NumeroLayout(t, p, a, b, c, e)
    ensures NumeroAt(t, p) == Some(t[a..e])
  {
    DigitsStopAt(t, c, e);
    assert SerialAt(t, a, b, c) == Some(t[a..e]);
    SpacesStopAt(t, b + 1, c);
    assert LetterAt(t, a, b) == Some(t[a..e]);
    SpacesStopAt(t, a + 4, b);
    assert GroupAt(t, a) == Some(t[a..e]);
    SpacesStopAt(t, p + 2, a);
  }

  /** And every match is such a layout. */
  lemma NumeroAtLayout(t: string, p: nat)
    requires p <= |t| && NumeroAt(t, p).Some?
    ensures exists a: nat, b: nat, c: nat, e: nat :: NumeroLayout(t, p, a, b, c, e) && NumeroAt(t, p) == Some(t[a..e])
  {
    GroupLayout(t, p, SpanSpaces(t, p + 2));
  }

  lemma GroupLayout(t: string, p: nat, a: nat)
    requires p + 2 <= a <= |t| && t[p] == 'n' && t[p + 1] == '°'
    requires forall k :: p + 2 <= k < a ==> IsSpace(t[k])
    requires GroupAt(t, a).Some?
    ensures exists b: nat, c: nat, e: nat :: NumeroLayout(t, p, a, b, c, e) && GroupAt(t, a) == Some(t[a..e])
  {
    LetterLayout(t, p, a, SpanSpaces(t, a + 4));
  }

  lemma LetterLayout(t: string, p: nat, a: nat, b: nat)
    requires p + 2 <= a && a + 4 <= b <= |t| && t[p] == 'n' && t[p + 1] == '°'
    requires forall k :: p + 2 <= k < a ==> IsSpace(t[k])
    requires forall k :: a <= k < a + 4 ==> IsDigit(t[k])
    requires forall k :: a + 4 <= k < b ==> IsSpace(t[k])
    requires LetterAt(t, a, b).Some?
    ensures exists c: nat, e: nat :: NumeroLayout(t, p, a, b, c, e) && LetterAt(t, a, b) == Some(t[a..e])
  {
    var c := SpanSpaces(t, b + 1);
    var e := SpanDigits(t, c);
    assert NumeroLayout(t, p, a, b, c, e);
  }

  /** A run of blanks from `i` to `j` followed by a non-blank (or the end)
      is exactly what `SpanSpaces` consumes. */
  lemma {:induction false} SpacesStopAt(s: string, i: nat, j: nat)
    requires i <= j <= |s|
    requires forall k :: i <= k < j ==> IsSpace(s[k])
    requires j == |s| || !IsSpace(s[j])
    ensures SpanSpaces(s, i) == j
    decreases j - i
  {
    if i < j {
      SpacesStopAt(s, i + 1, j);
    }
  }

  /** The same for digits and `SpanDigits`. */
  lemma {:induction false} DigitsStopAt(s: string, i: nat, j: nat)
    requires i <= j <= |s|
    requires forall k :: i <= k < j ==> IsDigit(s[k])
    requires j == |s| || !IsDigit(s[j])
    ensures SpanDigits(s, i) == j
    decreases j - i
  {
    if i < j {
      DigitsStopAt(s, i + 1, j);
    }
  }

  /** When the first match starts at `p`, the search returns it. */
  lemma {:induction false} FirstMatchFound(t: string, p: nat)
    requires p <= |t| && NumeroAt(t, p).Some?
    requires forall j :: 0 <= j < p ==> NumeroAt(t, j).None?
    ensures ExtractNumero(t) == NumeroAt(t, p)
  {
    var r := ExtractNumero(t);
    assert NumeroMatcher(t)(p).Some?;
    assert r.Some?;
    var i: nat :| i <= |t| && NumeroMatcher(t)(i) == r && NoMatchBetween(NumeroMatcher(t), 0, i);
    assert NumeroMatcher(t)(p) == NumeroAt(t, p);
    assert i == p;
  }

  // ---------------------------------------------------------------------
  // `sendToVisionneuse,(\d+)`

  const ViewerCall := "sendToVisionneuse,"

  /** The pattern matches at `i`: "sendToVisionneuse," and then a digit. */
  predicate ViewerIdAt(s: string, i: nat) {
    OccursAt(s, ViewerCall, i) && i + |ViewerCall| < |s| && IsDigit(s[i + |ViewerCall|])
  }

  /** The digits captured at index `i` of an onclick attribute, if any:
      the whole digit run after "sendToVisionneuse,". */
  function ExplnumAt(s: string, i: nat): (r: Option<string>)
    requires i <= |s|
    ensures r.Some? <==> ViewerIdAt(s, i)
    ensures r.Some? ==> r.value == s[i + |ViewerCall|..SpanDigits(s, i + |ViewerCall|)]
    ensures r.Some? ==> r.value != [] && AllDigits(r.value)
  {
    if OccursAt(s, ViewerCall, i) then
      var d := SpanDigits(s, i + |ViewerCall|);
      if d > i + |ViewerCall| then Some(s[i + |ViewerCall|..d]) else None
    else None
  }

  function ExplnumMatcher(s: string): nat -> Option<string>
  {
    (i: nat) => if i <= |s| then ExplnumAt(s, i) else None
  }

  /** `re.search(r'sendToVisionneuse,(\d+)', onclick)`: there is a result
      exactly when the pattern matches somewhere, and it is the maximal digit
      run after the leftmost match. */
  function ExplnumFromOnclick(onclick: string): (r: Option<string>)
    ensures r.Some? <==> exists i :: 0 <= i <= |onclick| && ViewerIdAt(onclick, i)
    ensures r.Some? ==> exists i :: (0 <= i <= |onclick| && ViewerIdAt(onclick, i)
      && r.value == onclick[i + |ViewerCall|..SpanDigits(onclick, i + |ViewerCall|)]
      && forall j :: 0 <= j < i ==> !ViewerIdAt(onclick, j))
    ensures r.Some? ==> r.value != [] && AllDigits(r.value)
  {
    ExplnumLeftmost(onclick);
    Search(ExplnumMatcher(onclick), 0, |onclick|)
  }

  /** The leftmost-match reading of the search for the viewer call. */
  lemma ExplnumLeftmost(onclick: string)
    ensures var r := Search(ExplnumMatcher(onclick), 0, |onclick|);
      && (r.Some? <==> exists i :: 0 <= i <= |onclick| && ViewerIdAt(onclick, i))
      && (r.Some? ==> exists i :: (0 <= i <= |onclick| && ViewerIdAt(onclick, i)
            && r.value == onclick[i + |ViewerCall|..SpanDigits(onclick, i + |ViewerCall|)]
            && forall j :: 0 <= j < i ==> !ViewerIdAt(onclick, j)))
  {
    var m := ExplnumMatcher(onclick);
    var r := Search(m, 0, |onclick|);
    if r.Some? {
      var i: nat :| i <= |onclick| && m(i) == r && NoMatchBetween(m, 0, i);
      assert ExplnumAt(onclick, i) == r;
      forall j | 0 <= j < i
        ensures !ViewerIdAt(onclick, j)
      {
        assert m(j).None?;
        assert ExplnumAt(onclick, j).None?;
      }
    } else {
      forall i | 0 <= i <= |onclick|
        ensures !ViewerIdAt(onclick, i)
      {
        assert m(i).None?;
        assert ExplnumAt(onclick, i).None?;
      }
    }
  }

  /** The guard of the link loop is implied by a match: an onclick holding
      "sendToVisionneuse," holds "sendToVisionneuse". */
  lemma HitNamesViewer(onclick: string)
    ensures ExplnumFromOnclick(onclick).Some? ==> Contains(onclick, "sendToVisionneuse")
  {
    if ExplnumFromOnclick(onclick).Some? {
      var i :| 0 <= i <= |onclick| && ViewerIdAt(onclick, i);
      OccursImpliesContains(onclick, ViewerCall, i);
      assert OccursAt(ViewerCall, "sendToVisionneuse", 0);
      OccursImpliesContains(ViewerCall, "sendToVisionneuse", 0);
      ContainsTransitive(onclick, ViewerCall, "sendToVisionneuse");
    }
  }

  /** The id the link loop settles on: that of the first link whose onclick
      names the viewer and carries a match; "" when there is none. */
  function FirstExplnum(onclicks: seq<string>): string
    decreases |onclicks|
  {
    if onclicks == [] then ""
    else
      var onclick := onclicks[0];
      var hit := ExplnumFromOnclick(onclick);
      if (Contains(onclick, "open_visionneuse") || Contains(onclick, "sendToVisionneuse")) && hit.Some? then
        hit.value
      else
        FirstExplnum(onclicks[1..])
  }

  /** The first link decides when it carries a match; otherwise the rest
      do. */
  lemma FirstExplnumStep(onclicks: seq<string>)
    requires onclicks != []
    ensures ExplnumFromOnclick(onclicks[0]).Some? ==>
      FirstExplnum(onclicks) == ExplnumFromOnclick(onclicks[0]).value
    ensures ExplnumFromOnclick(onclicks[0]).None? ==>
      FirstExplnum(onclicks) == FirstExplnum(onclicks[1..])
  {
    HitNamesViewer(onclicks[0]);
  }

  /** The guard on the viewer's name never changes the outcome: the link
      loop yields "" exactly when no link's onclick matches at all. */
  lemma {:induction false} FirstExplnumEmpty(onclicks: seq<string>)
    ensures FirstExplnum(onclicks) == "" <==> NoExplnumLinkBefore(onclicks, |onclicks|)
    decreases |onclicks|
  {
    if onclicks != [] {
      var tail := onclicks[1..];
      FirstExplnumStep(onclicks);
      FirstExplnumEmpty(tail);
      if ExplnumFromOnclick(onclicks[0]).None? {
        assert forall k :: 1 <= k < |onclicks| ==> tail[k - 1] == onclicks[k];
      }
    }
  }

  /** Otherwise it yields the id of the first link whose onclick matches. */
  lemma {:induction false} FirstExplnumIsFirstMatch(onclicks: seq<string>)
    requires FirstExplnum(onclicks) != ""
    ensures exists k :: (0 <= k < |onclicks|
      && ExplnumFromOnclick(onclicks[k]) == Some(FirstExplnum(onclicks))
      && NoExplnumLinkBefore(onclicks, k))
    decreases |onclicks|
  {
    FirstExplnumStep(onclicks);
    if ExplnumFromOnclick(onclicks[0]).Some? {
      assert NoExplnumLinkBefore(onclicks, 0);
    } else {
      var tail := onclicks[1..];
      FirstExplnumIsFirstMatch(tail);
      var k :| 0 <= k < |tail| && ExplnumFromOnclick(tail[k]) == Some(FirstExplnum(tail))
        && NoExplnumLinkBefore(tail, k);
      NoLinkBeforeShift(onclicks, k);
      assert ExplnumFromOnclick(onclicks[k + 1]) == Some(FirstExplnum(onclicks));
    }
  }

  /** A first link without a match extends a run of links without one. */
  lemma NoLinkBeforeShift(onclicks: seq<string>, k: nat)
    requires k < |onclicks| - 1
    requires ExplnumFromOnclick(onclicks[0]).None? && NoExplnumLinkBefore(onclicks[1..], k)
    ensures NoExplnumLinkBefore(onclicks, k + 1)
  {
    forall j | 0 < j < k + 1
      ensures ExplnumFromOnclick(onclicks[j]).None?
    {
      assert onclicks[1..][j - 1] == onclicks[j];
    }
  }

  /** None of the first `k` links carries a viewer id. */
  predicate NoExplnumLinkBefore(onclicks: seq<string>, k: nat)
    requires k <= |onclicks|
  {
    forall j :: 0 <= j < k ==> ExplnumFromOnclick(onclicks[j]).None?
  }

  /** The link loop of the parser: it stops at the first link whose onclick
      names the viewer and yields an id. */
  method FindExplnumId(onclicks: seq<string>) returns (id: string)
    ensures id == FirstExplnum(onclicks)
  {
    id := "";
    var k := 0;
    while k < |onclicks|
      invariant 0 <= k <= |onclicks|
      invariant FirstExplnum(onclicks) == FirstExplnum(onclicks[k..])
    {
      var onclick := onclicks[k];
      if Contains(onclick, "open_visionneuse") || Contains(onclick, "sendToVisionneuse") {
        var hit := ExplnumFromOnclick(onclick);
        if hit.Some? {
          id := hit.value;
          return;
        }
      }
      assert onclicks[k..][1..] == onclicks[k + 1..];
      k := k + 1;
    }
  }

  // ---------------------------------------------------------------------
  // The search URL and the page count

  /** `_get_search_page_url`: the page number is written as Python's `str`
      writes it, in decimal without leading zeros (see `DecimalString`). */
  function SearchPageUrl(pageNum: nat): (url: string)
    ensures exists digits :: (url == Config.SearchUrl + "&page=" + digits + "&nb_per_page=50"
      && AllDigits(digits) && digits == DecimalString(pageNum)
      && DecimalValue(digits) == pageNum)
  {
    var digits := DecimalString(pageNum);
    DecimalRoundTrip(pageNum);
    DecimalRoundTrip(Config.ResultsPerPage);
    assert DecimalString(Config.ResultsPerPage) == "50";
    var url := Config.SearchUrl + "&page=" + digits + "&nb_per_page=" + DecimalString(Config.ResultsPerPage);
    assert url == Config.SearchUrl + "&page=" + digits + "&nb_per_page=50";
    url
  }

  /** Distinct pages are asked for by distinct URLs. */
  lemma SearchPageUrlInjective(m: nat, n: nat)
    requires SearchPageUrl(m) == SearchPageUrl(n)
    ensures m == n
  {
    var prefix := Config.SearchUrl + "&page=";
    var suffix := "&nb_per_page=50";
    var dm :| SearchPageUrl(m) == prefix + dm + suffix && AllDigits(dm) && DecimalValue(dm) == m;
    var dn :| SearchPageUrl(n) == prefix + dn + suffix && AllDigits(dn) && DecimalValue(dn) == n;
    var u := SearchPageUrl(m);
    assert |dm| == |dn|;
    assert dm == u[|prefix|..|u| - |suffix|];
    assert dn == u[|prefix|..|u| - |suffix|];
  }

  /** The match of the navigation-bar pattern `(\d+)\s*` slash `\s*(\d+)` that
      starts at index `i`, as its second group. */
  function CounterAt(s: string, i: nat): (r: Option<string>)
    requires i <= |s|
    ensures r.Some? ==> r.value != [] && AllDigits(r.value)
  {
    if i < |s| && IsDigit(s[i]) then
      var a := SpanDigits(s, i);
      var b := SpanSpaces(s, a);
      if b < |s| && s[b] == '/' then
        var c := SpanSpaces(s, b + 1);
        var d := SpanDigits(s, c);
        if d > c then Some(s[c..d]) else None
      else None
    else None
  }

  function CounterMatcher(s: string): nat -> Option<string>
  {
    (i: nat) => if i <= |s| then CounterAt(s, i) else None
  }

  /** The total number of results announced by the navigation bar: the
      second number of its first "a / b", or 0 when the bar or the pattern
      is missing. */
  function TotalResults(navbar: Option<string>): (total: nat)
    ensures navbar.None? ==> total == 0
    ensures navbar.Some? && NoMatchBetween(CounterMatcher(navbar.value), 0, |navbar.value| + 1) ==> total == 0
  {
    match navbar
    case None => 0
    case Some(text) =>
      match Search(CounterMatcher(text), 0, |text|)
      case None => 0
      case Some(digits) => DecimalValue(digits)
  }

  /** The navigation-bar pattern laid out on characters from `i`: a digit
      run up to `a`, blanks up to the slash at `b`, blanks up to `c`, and a
      maximal digit run from `c` to `d`, which is the second group. */
  predicate CounterLayout(s: string, i: nat, a: nat, b: nat, c: nat, d: nat) {
    && i < a <= b < c < d <= |s|
    && (forall k :: i <= k < a ==> IsDigit(s[k]))
    && (forall k :: a <= k < b ==> IsSpace(s[k]))
    && s[b] == '/'
    && (forall k :: b < k < c ==> IsSpace(s[k]))
    && (forall k :: c <= k < d ==> IsDigit(s[k]))
    && (d == |s| || !IsDigit(s[d]))
  }

  /** Every such layout is a match with that second group. */
  lemma CounterAtChars(s: string, i: nat, a: nat, b: nat, c: nat, d: nat)
    requires CounterLayout(s, i, a, b, c, d)
    ensures CounterAt(s, i) == Some(s[c..d])
  {
    DigitsStopAt(s, i, a);
    SpacesStopAt(s, a, b);
    SpacesStopAt(s, b + 1, c);
    DigitsStopAt(s, c, d);
  }

  /** And every match is such a layout. */
  lemma CounterAtLayout(s: string, i: nat)
    requires i <= |s| && CounterAt(s, i).Some?
    ensures exists a: nat, b: nat, c: nat, d: nat :: CounterLayout(s, i, a, b, c, d) && CounterAt(s, i) == Some(s[c..d])
  {
    var a := SpanDigits(s, i);
    var b := SpanSpaces(s, a);
    var c := SpanSpaces(s, b + 1);
    var d := SpanDigits(s, c);
    assert CounterLayout(s, i, a, b, c, d);
  }

  /** When the first match of the pattern starts at `p`, the total is the
      value of that match's second number, as `int(match.group(2))`. */
  lemma {:induction false} TotalFromFirstMatch(s: string, p: nat)
    requires p <= |s| && CounterAt(s, p).Some?
    requires forall j :: 0 <= j < p ==> CounterAt(s, j).None?
    ensures TotalResults(Some(s)) == DecimalValue(CounterAt(s, p).value)
  {
    var m := CounterMatcher(s);
    var r := Search(m, 0, |s|);
    assert m(p).Some?;
    assert r.Some?;
    var i: nat :| i <= |s| && m(i) == r && NoMatchBetween(m, 0, i);
    assert m(p) == CounterAt(s, p);
    assert i == p;
  }

  /** The two together: with "a / b" written out at `i` and no match before
      it, the navigation bar announces b results. */
  lemma TotalResultsAt(s: string, i: nat, a: nat, b: nat, c: nat, d: nat)
    requires CounterLayout(s, i, a, b, c, d)
    requires forall j :: 0 <= j < i ==> CounterAt(s, j).None?
    ensures TotalResults(Some(s)) == DecimalValue(s[c..d])
  {
    CounterAtChars(s, i, a, b, c, d);
    TotalFromFirstMatch(s, i);
  }

  /** The number of listing pages to walk: enough pages of 50 for the total,
      plus one (so an exact multiple of 50 asks for one page past the end),
      capped by the configured maximum when that is positive. */
  function TotalPages(totalResults: nat, maxPages: int): (pages: nat)
    ensures maxPages <= 0 ==> (pages - 1) * Config.ResultsPerPage <= totalResults < pages * Config.ResultsPerPage
    ensures maxPages > 0 ==> 1 <= pages <= maxPages
    ensures maxPages > 0 ==> (pages == maxPages || totalResults < pages * Config.ResultsPerPage)
    ensures maxPages > 0 && (maxPages - 1) * Config.ResultsPerPage <= totalResults ==> pages == maxPages
    ensures maxPages > 0 && totalResults < (maxPages - 1) * Config.ResultsPerPage ==>
      (pages - 1) * Config.ResultsPerPage <= totalResults < pages * Config.ResultsPerPage
    ensures pages >= 1
  {
    var all := totalResults / Config.ResultsPerPage + 1;
    if maxPages > 0 then (if all < maxPages then all else maxPages) else all
  }
}
