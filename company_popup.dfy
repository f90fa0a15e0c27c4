/**
 * CompanyPopup: the company detail dialog's document links. A document's
 * URL is derived from the company code and the file name; because the
 * document store spells the six-digit version marker of a file name with
 * either `v` or `V`, two URLs are derived and probed in turn. The dialog
 * also chooses localised names and descriptions and lists only PDF files.
 */
module CompanyPopup {
  import opened Wrappers
  import opened Lists
  import opened Strings

  const BaseUrl := "https://my-documents-library.s3.ap-southeast-1.amazonaws.com/company_PDFs"

  // ---------------------------------------------------------------------------
  // File name rewriting

  /** `companyCode.replace(':', '_')`: a string pattern, so only the first colon is rewritten. */
  function FilePrefix(companyCode: string): string
  {
    ReplaceFirst(companyCode, ':', '_')
  }

  /** The first colon of the company code becomes `_`; everything before and after it is kept. */
  lemma FilePrefixFirstColon(companyCode: string, i: nat)
    requires i < |companyCode| && companyCode[i] == ':' && ':' !in companyCode[..i]
    ensures |FilePrefix(companyCode)| == |companyCode|
    ensures FilePrefix(companyCode)[i] == '_'
    ensures FilePrefix(companyCode)[..i] == companyCode[..i]
    ensures FilePrefix(companyCode)[i + 1..] == companyCode[i + 1..]
  {
    var r := FilePrefix(companyCode);
    forall j | i < j < |companyCode| ensures r[j] == companyCode[j] {
      assert companyCode[..j][i] == ':';
    }
    assert forall j :: 0 <= j < i ==> companyCode[..j] == companyCode[..i][..j];
  }

  /** A company code without a colon is used as it is. */
  lemma FilePrefixNoColon(companyCode: string)
    requires ':' !in companyCode
    ensures FilePrefix(companyCode) == companyCode
  {
  }

  /** `fileName.replace(/%/g, ' ')`. */
  function NormalizeFileName(fileName: string): (r: string)
    ensures |r| == |fileName|
    ensures '%' !in r
    ensures forall i :: 0 <= i < |r| ==> (r[i] == ' ' <==> fileName[i] == '%' || fileName[i] == ' ')
    ensures forall i :: 0 <= i < |r| && fileName[i] != '%' ==> r[i] == fileName[i]
  {
    ReplaceAll(fileName, '%', ' ')
  }

  // ---------------------------------------------------------------------------
  // Six-digit version markers

  /** `\d` without the `u` flag: an ASCII digit. */
  predicate IsDigit(c: char)
  {
    '0' <= c <= '9'
  }

  /** `v` or `V`, as the `i` flag of `/V(\d{6})/gi` allows. */
  predicate IsVersionLetter(c: char)
  {
    c == 'v' || c == 'V'
  }

  /** A version marker starts at `i`: a `v` or `V` followed by six digits. */
  predicate MarkerAt(s: string, i: int)
  {
    0 <= i && i + 7 <= |s| && IsVersionLetter(s[i]) &&
    forall j :: i + 1 <= j <= i + 6 ==> IsDigit(s[j])
  }

  /** Markers are found at the same places after dropping a prefix of length `d`. */
  lemma MarkerShift(s: string, d: nat, i: int)
    requires d <= i && d <= |s|
    ensures MarkerAt(s, i) <==> MarkerAt(s[d..], i - d)
  {
    if i + 7 <= |s| {
      assert forall j :: i + 1 <= j <= i + 6 ==> s[d..][j - d] == s[j];
    }
  }

  /**
   * `s.replace(/V(\d{6})/gi, letter + '$1')`: the global search scans from the
   * left and resumes after each match; every marker letter becomes `letter`
   * and nothing else changes.
   */
  function SetMarkers(s: string, letter: char): (r: string)
    ensures |r| == |s|
    ensures forall i :: 0 <= i < |s| ==> r[i] == (if MarkerAt(s, i) then letter else s[i])
    decreases |s|
  {
    if |s| == 0 then []
    else if MarkerAt(s, 0) then
      var rest := SetMarkers(s[7..], letter);
      assert forall i :: 7 <= i < |s| ==> (MarkerAt(s, i) <==> MarkerAt(s[7..], i - 7)) by {
        forall i | 7 <= i < |s| { MarkerShift(s, 7, i); }
      }
      [letter] + s[1..7] + rest
    else
      var rest := SetMarkers(s[1..], letter);
      assert forall i :: 1 <= i < |s| ==> (MarkerAt(s, i) <==> MarkerAt(s[1..], i - 1)) by {
        forall i | 1 <= i < |s| { MarkerShift(s, 1, i); }
      }
      [s[0]] + rest
  }

  /** `/V\d{6}/`: a marker spelled with a capital `V` (this test is case-sensitive). */
  predicate UpperMarkerAt(s: string, i: int)
  {
    MarkerAt(s, i) && s[i] == 'V'
  }

  /** `/V\d{6}/.test(s)`. */
  function HasUpperMarker(s: string): (r: bool)
    ensures r <==> exists i :: UpperMarkerAt(s, i)
    decreases |s|
  {
    if UpperMarkerAt(s, 0) then true
    else if s == [] then false
    else
      var rest := HasUpperMarker(s[1..]);
      assert rest ==> exists i :: UpperMarkerAt(s, i) by {
        if rest {
          var i :| UpperMarkerAt(s[1..], i);
          MarkerShift(s, 1, i + 1);
          assert UpperMarkerAt(s, i + 1);
        }
      }
      assert (exists i :: UpperMarkerAt(s, i)) ==> rest by {
        if exists i :: UpperMarkerAt(s, i) {
          var i :| UpperMarkerAt(s, i);
          MarkerShift(s, 1, i);
          assert UpperMarkerAt(s[1..], i - 1);
        }
      }
      rest
  }

  /** `lowercaseUrl`: every marker written with `v`. */
  function LowercaseUrl(fileName: string, companyCode: string): string
  {
    BaseUrl + "/" + FilePrefix(companyCode) + "_" + SetMarkers(NormalizeFileName(fileName), 'v')
  }

  /** `uppercaseUrl`: every marker written with `V`. */
  function UppercaseUrl(fileName: string, companyCode: string): string
  {
    BaseUrl + "/" + FilePrefix(companyCode) + "_" + SetMarkers(NormalizeFileName(fileName), 'V')
  }

  /** Where the file-name part of both URLs starts. */
  function NameOffset(companyCode: string): nat
  {
    |BaseUrl| + 1 + |companyCode| + 1
  }

  /**
   * Both URLs are `baseUrl/prefix_variant`, have the same length, and differ
   * exactly at the letters of the version markers of the normalised name.
   */
  lemma UrlsDifferOnlyAtMarkers(fileName: string, companyCode: string)
    ensures |LowercaseUrl(fileName, companyCode)| == |UppercaseUrl(fileName, companyCode)|
    ensures LowercaseUrl(fileName, companyCode)[..NameOffset(companyCode)]
         == UppercaseUrl(fileName, companyCode)[..NameOffset(companyCode)]
         == BaseUrl + "/" + FilePrefix(companyCode) + "_"
    ensures forall i :: NameOffset(companyCode) <= i < |LowercaseUrl(fileName, companyCode)| ==>
      (LowercaseUrl(fileName, companyCode)[i] != UppercaseUrl(fileName, companyCode)[i] <==>
       MarkerAt(NormalizeFileName(fileName), i - NameOffset(companyCode)))
  {
    var head := BaseUrl + "/" + FilePrefix(companyCode) + "_";
    var n := NormalizeFileName(fileName);
    var lo, up := SetMarkers(n, 'v'), SetMarkers(n, 'V');
    assert LowercaseUrl(fileName, companyCode) == head + lo;
    assert UppercaseUrl(fileName, companyCode) == head + up;
    assert |head| == NameOffset(companyCode);
    SameHeadVariants(head, lo, up);
    forall j | 0 <= j < |n| ensures (lo[j] != up[j]) <==> MarkerAt(n, j) {
    }
  }

  /** Two strings with a common head: the head is kept, and the tails sit at the same offset. */
  lemma SameHeadVariants(head: string, lo: string, up: string)
    requires |lo| == |up|
    ensures |head + lo| == |head + up|
    ensures (head + lo)[..|head|] == (head + up)[..|head|] == head
    ensures forall i :: |head| <= i < |head + lo| ==>
      (head + lo)[i] == lo[i - |head|] && (head + up)[i] == up[i - |head|]
  {
  }

  // ---------------------------------------------------------------------------
  // Primary and fallback URL, and the probe sequence

  /** The URL tried first: upper-case when the normalised name has a `V` marker. */
  function PrimaryUrl(fileName: string, companyCode: string): string
  {
    if HasUpperMarker(NormalizeFileName(fileName)) then UppercaseUrl(fileName, companyCode)
    else LowercaseUrl(fileName, companyCode)
  }

  /** The URL tried second: always the other variant. */
  function FallbackUrl(fileName: string, companyCode: string): string
  {
    if HasUpperMarker(NormalizeFileName(fileName)) then LowercaseUrl(fileName, companyCode)
    else UppercaseUrl(fileName, companyCode)
  }

  /**
   * When every marker of the normalised name is spelled with the same letter
   * case, the primary URL spells the name exactly as given.
   */
  lemma PrimaryKeepsFileNameSpelling(fileName: string, companyCode: string)
    requires var n := NormalizeFileName(fileName);
      (forall i :: MarkerAt(n, i) ==> n[i] == 'V') || (forall i :: MarkerAt(n, i) ==> n[i] == 'v')
    ensures PrimaryUrl(fileName, companyCode)
         == BaseUrl + "/" + FilePrefix(companyCode) + "_" + NormalizeFileName(fileName)
  {
    var n := NormalizeFileName(fileName);
    if HasUpperMarker(n) {
      var k :| UpperMarkerAt(n, k);
      assert forall i :: MarkerAt(n, i) ==> n[i] == 'V';
      assert SetMarkers(n, 'V') == n;
    } else {
      assert forall i :: MarkerAt(n, i) ==> n[i] == 'v' by {
        forall i | MarkerAt(n, i) ensures n[i] == 'v' {
          assert !UpperMarkerAt(n, i);
        }
      }
      assert SetMarkers(n, 'v') == n;
    }
  }

  /** A name without a version marker gives one URL, tried twice. */
  lemma NoMarkerSingleUrl(fileName: string, companyCode: string)
    requires forall i :: !MarkerAt(NormalizeFileName(fileName), i)
    ensures PrimaryUrl(fileName, companyCode) == FallbackUrl(fileName, companyCode)
         == BaseUrl + "/" + FilePrefix(companyCode) + "_" + NormalizeFileName(fileName)
  {
    var n := NormalizeFileName(fileName);
    assert SetMarkers(n, 'v') == n;
    assert SetMarkers(n, 'V') == n;
  }

  /** The two candidates are the two variants, one each. */
  lemma CandidatesAreTheTwoVariants(fileName: string, companyCode: string)
    ensures {PrimaryUrl(fileName, companyCode), FallbackUrl(fileName, companyCode)}
         == {LowercaseUrl(fileName, companyCode), UppercaseUrl(fileName, companyCode)}
    ensures (PrimaryUrl(fileName, companyCode) == UppercaseUrl(fileName, companyCode)) <==>
      (HasUpperMarker(NormalizeFileName(fileName)) ||
       LowercaseUrl(fileName, companyCode) == UppercaseUrl(fileName, companyCode))
  {
  }

  /** What `fetch` does with a URL: a response with its `ok` flag, or a thrown error. */
  datatype FetchOutcome = Response(ok: bool) | NetworkError

  /** `checkUrlExists`: `response.ok`, and `false` when the request throws. */
  function CheckUrlExists(outcome: FetchOutcome): (r: bool)
    ensures r <==> outcome == Response(true)
  {
    match outcome
    case Response(ok) => ok
    case NetworkError => false
  }

  /**
   * `handlePdfClick`: derives both URLs, probes the primary, probes the
   * fallback only when the primary fails, and opens exactly one URL. `fetch`
   * stands for the document store; `probed` lists the probes in order.
   */
  method HandlePdfClick(fileName: string, companyCode: string, fetch: string -> FetchOutcome)
    returns (openedUrl: string, probed: seq<string>)
    ensures var primary, fallback := PrimaryUrl(fileName, companyCode), FallbackUrl(fileName, companyCode);
      && probed == (if CheckUrlExists(fetch(primary)) then [primary] else [primary, fallback])
      && openedUrl == (if CheckUrlExists(fetch(primary)) then primary
                    else if CheckUrlExists(fetch(fallback)) then fallback
                    else primary)
    ensures openedUrl in {LowercaseUrl(fileName, companyCode), UppercaseUrl(fileName, companyCode)}
    ensures (exists u :: u in probed && CheckUrlExists(fetch(u))) ==> CheckUrlExists(fetch(openedUrl))
  {
    var filePrefix := FilePrefix(companyCode);
    var normalizedFileName := NormalizeFileName(fileName);
    var lowercaseVFileName := SetMarkers(normalizedFileName, 'v');
    var uppercaseVFileName := SetMarkers(normalizedFileName, 'V');
    var lowercaseUrl := BaseUrl + "/" + filePrefix + "_" + lowercaseVFileName;
    var uppercaseUrl := BaseUrl + "/" + filePrefix + "_" + uppercaseVFileName;

    var primaryUrl := lowercaseUrl;
    var fallbackUrl := uppercaseUrl;
    if HasUpperMarker(normalizedFileName) {
      primaryUrl := uppercaseUrl;
      fallbackUrl := lowercaseUrl;
    }

    var primaryExists := CheckUrlExists(fetch(primaryUrl));
    probed := [primaryUrl];
    if primaryExists {
      openedUrl := primaryUrl;
    } else {
      var fallbackExists := CheckUrlExists(fetch(fallbackUrl));
      probed := probed + [fallbackUrl];
      if fallbackExists {
        openedUrl := fallbackUrl;
      } else {
        openedUrl := primaryUrl;
      }
    }
  }

  // ---------------------------------------------------------------------------
  // Localisation and the document list

  /** `languageMap[language] || 'enUS'`. */
  function LanguageKey(language: string): (r: string)
    ensures r in {"enUS", "zhHantHK", "zhHansCN"}
    ensures r == "zhHantHK" <==> language == "zh-HK"
    ensures r == "zhHansCN" <==> language == "zh-CN"
  {
    if language == "en" then "enUS"
    else if language == "zh-HK" then "zhHantHK"
    else if language == "zh-CN" then "zhHansCN"
    else "enUS"
  }

  /**
   * `getLocalizedName` and `getLocalizedDesc` (the same code): the entry of
   * the i18n record for the current language, or the default when the record
   * is absent or that entry is missing or empty.
   */
  function Localized(i18n: Option<map<string, string>>, default: string, language: string): (r: string)
    ensures i18n.None? ==> r == default
    ensures i18n.Some? && LanguageKey(language) in i18n.value && i18n.value[LanguageKey(language)] != ""
      ==> r == i18n.value[LanguageKey(language)]
    ensures i18n.Some? && (LanguageKey(language) !in i18n.value || i18n.value[LanguageKey(language)] == "")
      ==> r == default
    ensures r == "" ==> default == ""
  {
    if i18n.None? then default
    else
      var key := LanguageKey(language);
      if key in i18n.value && i18n.value[key] != "" then i18n.value[key] else default
  }

  /** An entry of the company's `files` list. */
  datatype CompanyFile = CompanyFile(fileName: Option<string>)

  /** `file.fileName && file.fileName.toLowerCase().endsWith('.pdf')`. */
  predicate IsPdf(file: CompanyFile)
  {
    file.fileName.Some? && file.fileName.value != "" && EndsWith(Lower(file.fileName.value), ".pdf")
  }

  /** The documents listed: exactly the PDF files, in their original order. */
  function PdfFiles(files: seq<CompanyFile>): (r: seq<CompanyFile>)
    ensures IsSubsequence(r, files)
    ensures forall f :: f in r <==> f in files && IsPdf(f)
    ensures forall f :: multiset(r)[f] == if IsPdf(f) then multiset(files)[f] else 0
  {
    FilterIsSubsequence(files, IsPdf);
    forall f ensures f in Filter(files, IsPdf) <==> f in files && IsPdf(f) {
      FilterMembership(files, IsPdf, f);
    }
    forall f ensures multiset(Filter(files, IsPdf))[f] == if IsPdf(f) then multiset(files)[f] else 0 {
      FilterCount(files, IsPdf, f);
    }
    Filter(files, IsPdf)
  }

  /** A file name is listed exactly when it ends in `.pdf` in any ASCII letter case. */
  lemma PdfSuffixIgnoresCase(name: string)
    ensures IsPdf(CompanyFile(Some(name))) <==>
      |name| >= 4 && name[|name| - 4] == '.' &&
      LowerChar(name[|name| - 3]) == 'p' && LowerChar(name[|name| - 2]) == 'd' && LowerChar(name[|name| - 1]) == 'f'
  {
    var l := Lower(name);
    if |name| >= 4 {
      assert l[|l| - 4..] == [l[|l| - 4], l[|l| - 3], l[|l| - 2], l[|l| - 1]];
      assert LowerChar(name[|name| - 4]) == '.' <==> name[|name| - 4] == '.';
    }
  }
}
