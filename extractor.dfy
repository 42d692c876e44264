/** `extractJournalInfo` and `runPup`: turning one cached info page into a
    journal record, with the OAI-PMH endpoint guessed from the homepage URL. */
module Extractor {
  import opened Base
  import opened Text

  /** The output record; serialised with the field names `name`, `homepage` and `oai`. */
  datatype JournalInfo = JournalInfo(name: string, homepage: string, endpoint: string)

  /** The external `pup` command: given its standard input and a selector it
      either exits successfully with some output or fails. */
  type Pup = (string, string) -> Option<string>

  const NameSelector: string := "h3 text{}"
  const HomepageSelector: string := "p.archiveLinks > a:nth-child(2) attr{href}"

  const IndexSuffix: string := "/index"
  const OaiSuffix: string := "/oai"

  /** `runPup`: blank input is answered with "" without running `pup`; a
      failing run also gives ""; otherwise the output with white space trimmed. */
  function RunPup(html: string, selector: string, pup: Pup): string
  {
    var input := TrimSpace(html);
    if |input| == 0 then ""
    else
      match pup(input, selector)
      case None => ""
      case Some(out) => TrimSpace(out)
  }

  /** What `runPup` gives: "" for blank input, whatever `pup` would answer;
      "" when `pup` fails on the trimmed input; otherwise `pup`'s output
      with white space trimmed; so something only when `pup` succeeded, and
      never a result that starts or ends with white space. */
  lemma RunPupSpec(html: string, selector: string, pup: Pup, other: Pup)
    ensures var r := RunPup(html, selector, pup);
      && (AllSpace(html) ==> r == "" && RunPup(html, selector, other) == "")
      && (!AllSpace(html) && pup(TrimSpace(html), selector).None? ==> r == "")
      && (!AllSpace(html) && pup(TrimSpace(html), selector).Some? ==>
            r == TrimSpace(pup(TrimSpace(html), selector).value))
      && (r != "" ==> pup(TrimSpace(html), selector).Some?)
      && (r == "" || (!IsSpace(r[0]) && !IsSpace(r[|r| - 1])))
  {
    var input := TrimSpace(html);
    if |input| > 0 && pup(input, selector).Some? {
      TrimSpaceCuts(pup(input, selector).value);
    }
  }

  /** Go's `regexp.ReplaceAllString(s, repl)` for the pattern `lit$` where
      `lit` has no metacharacters and no multi-line flag is set: `$` matches
      only at the end of the text, so the only possible match is a suffix. */
  function ReplaceAnchoredSuffix(s: string, lit: string, repl: string): string
  {
    if HasSuffix(s, lit) then s[..|s| - |lit|] + repl else s
  }

  /** The endpoint rule of `extractJournalInfo`, decided by the homepage's suffix. */
  function DeriveEndpoint(homepage: string): (endpoint: string)
  {
    if HasSuffix(homepage, IndexSuffix) then ReplaceAnchoredSuffix(homepage, IndexSuffix, OaiSuffix)
    else if HasSuffix(homepage, "/") then homepage + "oai"
    else homepage + OaiSuffix
  }

  /** Reference reading of the rule: the site root is the homepage without a
      trailing "/index" or a trailing "/". */
  function SiteRoot(homepage: string): string
  {
    if HasSuffix(homepage, IndexSuffix) then homepage[..|homepage| - 6]
    else if HasSuffix(homepage, "/") then homepage[..|homepage| - 1]
    else homepage
  }

  /** The endpoint is always the site root followed by "/oai", for every
      string (the rule is total), so it always ends with "/oai" and is never empty. */
  lemma EndpointIsRootPlusOai(homepage: string)
    ensures DeriveEndpoint(homepage) == SiteRoot(homepage) + OaiSuffix
    ensures HasSuffix(DeriveEndpoint(homepage), OaiSuffix)
    ensures |DeriveEndpoint(homepage)| >= 4
  {
    var e := DeriveEndpoint(homepage);
    if !HasSuffix(homepage, IndexSuffix) && HasSuffix(homepage, "/") {
      var n := |homepage|;
      assert homepage == homepage[..n - 1] + "/";
      assert e == homepage[..n - 1] + ("/" + "oai");
    }
    assert e[|e| - 4..] == OaiSuffix;
  }

  /** The three suffix cases spelled out, each in both directions of its guard. */
  lemma EndpointCases(homepage: string)
    ensures HasSuffix(homepage, "/index") ==>
      DeriveEndpoint(homepage) == homepage[..|homepage| - 6] + "/oai"
    ensures !HasSuffix(homepage, "/index") && HasSuffix(homepage, "/") ==>
      DeriveEndpoint(homepage) == homepage + "oai"
    ensures !HasSuffix(homepage, "/index") && !HasSuffix(homepage, "/") ==>
      DeriveEndpoint(homepage) == homepage + "/oai"
    ensures (DeriveEndpoint(homepage) == homepage + "/oai") <==>
      (!HasSuffix(homepage, "/index") && !HasSuffix(homepage, "/"))
  {
    var e := DeriveEndpoint(homepage);
    var n := |homepage|;
    if HasSuffix(homepage, "/index") {
      assert |e| == n - 2;
    } else if HasSuffix(homepage, "/") {
      assert e[n] == 'o';
      assert (homepage + "/oai")[n] == '/';
    }
  }

  /** A homepage ending in "/index" and the same homepage ending in "/" give the same endpoint. */
  lemma EndpointOfIndexOrSlash(root: string)
    ensures DeriveEndpoint(root + "/index") == root + "/oai"
    ensures DeriveEndpoint(root + "/") == root + "/oai"
  {
    var h := root + "/index";
    assert h[|h| - 6..] == "/index";
    assert h[..|h| - 6] == root;
    var g := root + "/";
    assert g[|g| - 1..] == "/";
    if |g| >= 6 {
      assert g[|g| - 6..][5] == '/' != IndexSuffix[5];
    }
    assert g + "oai" == root + "/oai";
  }

  /** Worked examples: a trailing slash and a trailing "/index". */
  lemma EndpointExamplesTrimmed()
    ensures DeriveEndpoint("http://x/") == "http://x/oai"
    ensures DeriveEndpoint("http://x/index") == "http://x/oai"
  {
    EndpointOfIndexOrSlash("http://x");
  }

  /** Worked examples: neither suffix, and the empty homepage of a page
      without a second link, which still gets the endpoint "/oai". */
  lemma EndpointExamplesAppended()
    ensures DeriveEndpoint("http://x") == "http://x/oai"
    ensures DeriveEndpoint("") == "/oai"
  {
    var root := "http://x";
    assert root[|root| - 1] == 'x';
    EndpointCases(root);
    EndpointCases("");
  }

  /** `extractJournalInfo`: name from the first `h3`, homepage from the second
      link of `p.archiveLinks`, endpoint by the suffix rule. Its error result
      is always nil, so none is modelled. */
  function ExtractJournalInfo(html: string, pup: Pup): JournalInfo
  {
    var name := RunPup(html, NameSelector, pup);
    var homepage := RunPup(html, HomepageSelector, pup);
    JournalInfo(name, homepage, DeriveEndpoint(homepage))
  }

  /** A record's name is `runPup` of the page with the `h3` selector, its
      homepage `runPup` with the `archiveLinks` selector, and its endpoint
      the homepage's site root followed by "/oai"; a name or homepage is
      non-empty only when `pup` answered for it; and a
      blank page gives the record with empty name and homepage and the
      endpoint "/oai". */
  lemma ExtractJournalInfoSpec(html: string, pup: Pup)
    ensures var info := ExtractJournalInfo(html, pup);
      && info.name == RunPup(html, NameSelector, pup)
      && info.homepage == RunPup(html, HomepageSelector, pup)
      && info.endpoint == SiteRoot(info.homepage) + OaiSuffix
      && HasSuffix(info.endpoint, OaiSuffix)
      && (info.name != "" ==> pup(TrimSpace(html), NameSelector).Some?)
      && (info.homepage != "" ==> pup(TrimSpace(html), HomepageSelector).Some?)
      && (AllSpace(html) ==> info == JournalInfo("", "", "/oai"))
  {
    var homepage := RunPup(html, HomepageSelector, pup);
    RunPupSpec(html, NameSelector, pup, pup);
    RunPupSpec(html, HomepageSelector, pup, pup);
    EndpointIsRootPlusOai(homepage);
    if AllSpace(html) {
      assert homepage == "";
      assert SiteRoot("") == "";
    }
  }
}
