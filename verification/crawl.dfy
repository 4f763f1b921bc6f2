/** The crawl of one domain: its homepage, the same-host links found there,
    the pages behind those links, and the publication of every address found.
    Concurrency is gone: `asyncio.gather` hands back its results in task
    order, and that order is what the model folds over. */
module Crawl {
  import opened Support
  import opened UrlHelpers
  import opened LanguageMapping
  import opened Page
  import opened Contact

  /** Everything the crawl consults that is not its own logic, as seen during
      one attempt: the answer to a GET of each URL, `urljoin`, the
      `urlparse(...).netloc` of a URL, `extract_emails`, the language
      detector (`None` when it raises), the order in which sets are walked,
      and the CRM's answer to each create-contact request. */
  datatype Web = Web(
    fetch: string -> Response,
    resolve: (string, string) -> string,
    netloc: string -> string,
    emailsIn: string -> set<string>,
    detect: string -> Option<string>,
    order: SetOrder,
    crm: ContactPayload -> CrmResponse)

  /** `scrape_page(url, session)`. */
  function Fetch(web: Web, url: string): PageResult
  {
    ScrapePage(web.fetch(url), web.emailsIn, web.detect)
  }

  /** Python truthiness of an optional language code (`if lang_code:`). */
  predicate Truthy(lang: Option<string>)
  {
    lang.Some? && lang.value != ""
  }

  /** Page languages are codes, so for them truthy just means present. */
  lemma FetchedLanguageTruthy(web: Web, url: string)
    ensures Truthy(Fetch(web, url).language) <==> Fetch(web, url).language.Some?
  {
  }

  // ---------------------------------------------------------------------
  // Homepage and its links

  /** The loop over the anchors of the homepage: each `href` is resolved
      against the page URL and kept when it stays on the same host. */
  function InternalLinks(web: Web, url: string, hrefs: seq<string>): (links: set<string>)
    ensures forall l :: l in links ==> IsInternalLink(web.netloc, url, l)
    ensures forall l :: l in links <==>
      (IsInternalLink(web.netloc, url, l) && exists i :: 0 <= i < |hrefs| && l == web.resolve(url, hrefs[i]))
  {
    if |hrefs| == 0 then {}
    else
      var before := InternalLinks(web, url, hrefs[..|hrefs| - 1]);
      var full := web.resolve(url, hrefs[|hrefs| - 1]);
      assert forall i :: 0 <= i < |hrefs| - 1 ==> hrefs[..|hrefs| - 1][i] == hrefs[i];
      if IsInternalLink(web.netloc, url, full) then before + {full} else before
  }

  /** What `scrape_homepage` returns. */
  datatype Homepage = Homepage(emails: set<string>, links: set<string>, language: Option<string>)

  /** `scrape_homepage`: fetch the normalised URL; when it gave parsed HTML,
      collect its same-host links. */
  function ScrapeHomepage(domain: string, web: Web): (h: Homepage)
    ensures h.emails == Fetch(web, NormalizeUrl(domain)).emails
    ensures h.language == Fetch(web, NormalizeUrl(domain)).language
    ensures Fetch(web, NormalizeUrl(domain)).soup.None? ==> h.links == {}
    ensures forall l :: l in h.links ==> IsInternalLink(web.netloc, NormalizeUrl(domain), l)
    ensures forall l :: l in h.links <==>
      && Fetch(web, NormalizeUrl(domain)).soup.Some?
      && IsInternalLink(web.netloc, NormalizeUrl(domain), l)
      && exists href :: href in Fetch(web, NormalizeUrl(domain)).soup.value.hrefs
                        && l == web.resolve(NormalizeUrl(domain), href)
  {
    var url := NormalizeUrl(domain);
    var page := Fetch(web, url);
    match page.soup
    case None => Homepage(page.emails, {}, page.language)
    case Some(soup) => Homepage(page.emails, InternalLinks(web, url, soup.hrefs), page.language)
  }

  // ---------------------------------------------------------------------
  // Internal pages

  /** The results of `gather` over one task per URL, in task order. */
  function FetchAll(web: Web, urls: seq<string>): seq<PageResult>
  {
    seq(|urls|, i requires 0 <= i < |urls| => Fetch(web, urls[i]))
  }

  /** The union the fold builds with `emails.update(new_emails)`. */
  function MergeEmails(pages: seq<PageResult>): (emails: set<string>)
    ensures forall e :: e in emails <==> exists i :: 0 <= i < |pages| && e in pages[i].emails
  {
    if |pages| == 0 then {}
    else
      var init := pages[..|pages| - 1];
      assert forall i :: 0 <= i < |init| ==> init[i] == pages[i];
      MergeEmails(init) + pages[|pages| - 1].emails
  }

  /** The language the fold is left with: each truthy code overwrites the
      one before, so the last truthy code in result order wins. */
  function MergeLanguage(pages: seq<PageResult>): (lang: Option<string>)
    ensures lang.Some? <==> exists i :: 0 <= i < |pages| && Truthy(pages[i].language)
    ensures lang.Some? ==> Truthy(lang)
    ensures lang.Some? ==>
      exists i :: 0 <= i < |pages| && pages[i].language == lang
                  && forall j :: i < j < |pages| ==> !Truthy(pages[j].language)
  {
    if |pages| == 0 then None
    else
      var last := pages[|pages| - 1];
      if Truthy(last.language) then last.language
      else
        var init := pages[..|pages| - 1];
        assert forall i :: 0 <= i < |init| ==> init[i] == pages[i];
        MergeLanguage(init)
  }

  /** Folding a longer run: a truthy code in the later part hides the
      earlier part entirely. */
  lemma {:induction false} MergeLanguageAppend(front: seq<PageResult>, back: seq<PageResult>)
    ensures MergeLanguage(front + back) ==
      if MergeLanguage(back).Some? then MergeLanguage(back) else MergeLanguage(front)
    decreases |back|
  {
    if |back| > 0 {
      var init := back[..|back| - 1];
      var last := back[|back| - 1];
      assert front + back == (front + init) + [last];
      assert back == init + [last];
      MergeLanguageAppend(front, init);
      MergeLanguageStep(front + init, last);
      MergeLanguageStep(init, last);
    } else {
      assert front + back == front;
    }
  }

  /** One more page: its code wins when truthy. */
  lemma MergeLanguageStep(pages: seq<PageResult>, page: PageResult)
    ensures MergeLanguage(pages + [page]) == if Truthy(page.language) then page.language else MergeLanguage(pages)
  {
    assert (pages + [page])[..|pages|] == pages;
  }

  /** What `scrape_internal_pages` returns. */
  datatype Internal = Internal(emails: set<string>, language: Option<string>)

  /** The pages of the internal links, in task order. */
  function InternalPages(links: set<string>, web: Web): (pages: seq<PageResult>)
    ensures |pages| == |web.order(links)|
    ensures forall i :: 0 <= i < |pages| ==> pages[i] == Fetch(web, web.order(links)[i])
  {
    FetchAll(web, web.order(links))
  }

  /** Walking the link set in task order meets every link exactly where its
      page result sits. */
  lemma InternalPagesCover(links: set<string>, web: Web)
    ensures links == {} ==> InternalPages(links, web) == []
    ensures forall u :: u in links ==> exists i :: 0 <= i < |InternalPages(links, web)| && InternalPages(links, web)[i] == Fetch(web, u)
    ensures forall i :: 0 <= i < |InternalPages(links, web)| ==> exists u :: u in links && InternalPages(links, web)[i] == Fetch(web, u)
  {
    var urls := web.order(links);
    assert Enumerates(urls, links);
    if links == {} {
      EnumerationOfEmpty(urls);
    }
    forall u | u in links
      ensures exists i :: 0 <= i < |InternalPages(links, web)| && InternalPages(links, web)[i] == Fetch(web, u)
    {
      assert u in Elems(urls);
      var i :| 0 <= i < |urls| && urls[i] == u;
      assert InternalPages(links, web)[i] == Fetch(web, u);
    }
    forall i | 0 <= i < |InternalPages(links, web)|
      ensures exists u :: u in links && InternalPages(links, web)[i] == Fetch(web, u)
    {
      assert urls[i] in Elems(urls);
    }
  }

  /** The merged addresses of the internal pages are those of the links. */
  lemma InternalEmails(links: set<string>, web: Web)
    ensures links == {} ==> InternalPages(links, web) == []
    ensures forall e :: e in MergeEmails(InternalPages(links, web)) <==> exists u :: u in links && e in Fetch(web, u).emails
  {
    InternalPagesCover(links, web);
  }

  /** The folded language of the internal pages is the code of some link. */
  lemma InternalLanguageFound(links: set<string>, web: Web)
    ensures MergeLanguage(InternalPages(links, web)).Some? ==>
      exists u :: u in links && Fetch(web, u).language == MergeLanguage(InternalPages(links, web))
  {
    var urls := web.order(links);
    var pages := InternalPages(links, web);
    var lang := MergeLanguage(pages);
    if lang.Some? {
      var i :| 0 <= i < |pages| && pages[i].language == lang;
      assert urls[i] in Elems(urls);
      assert urls[i] in links;
    }
  }

  /** A link whose page has a language leaves the fold with one. */
  lemma InternalLanguagePresent(links: set<string>, web: Web, u: string)
    requires u in links && Fetch(web, u).language.Some?
    ensures MergeLanguage(InternalPages(links, web)).Some?
  {
    var urls := web.order(links);
    assert u in Elems(urls);
    var i :| 0 <= i < |urls| && urls[i] == u;
    FetchedLanguageTruthy(web, u);
    assert Truthy(InternalPages(links, web)[i].language);
  }

  /** The folded language of the internal pages is some link's code, and
      there is one exactly when some link has a language. */
  lemma InternalLanguage(links: set<string>, web: Web)
    ensures MergeLanguage(InternalPages(links, web)).Some? <==> exists u :: u in links && Fetch(web, u).language.Some?
    ensures MergeLanguage(InternalPages(links, web)).Some? ==>
      && IsCode(MergeLanguage(InternalPages(links, web)).value)
      && exists u :: u in links && Fetch(web, u).language == MergeLanguage(InternalPages(links, web))
  {
    InternalLanguageFound(links, web);
    forall u | u in links && Fetch(web, u).language.Some?
      ensures MergeLanguage(InternalPages(links, web)).Some?
    {
      InternalLanguagePresent(links, web, u);
    }
  }

  /** `scrape_internal_pages`: fetch every link, in the order the set is
      walked, and fold the results. */
  function ScrapeInternalPages(links: set<string>, web: Web): (r: Internal)
    ensures links == {} ==> r == Internal({}, None)
    ensures forall e :: e in r.emails <==> exists u :: u in links && e in Fetch(web, u).emails
    ensures r.language.Some? <==> exists u :: u in links && Fetch(web, u).language.Some?
    ensures r.language.Some? ==> IsCode(r.language.value)
    ensures r.language.Some? ==> exists u :: u in links && Fetch(web, u).language == r.language
  {
    var pages := InternalPages(links, web);
    InternalEmails(links, web);
    InternalLanguage(links, web);
    Internal(MergeEmails(pages), MergeLanguage(pages))
  }

  // ---------------------------------------------------------------------
  // One domain

  /** Every address the crawl of a domain found: homepage and internal pages. */
  function DomainEmails(domain: string, web: Web): (emails: set<string>)
    ensures Fetch(web, NormalizeUrl(domain)).emails <= emails
    ensures forall e :: e in emails <==>
      || e in Fetch(web, NormalizeUrl(domain)).emails
      || exists u :: u in ScrapeHomepage(domain, web).links && e in Fetch(web, u).emails
  {
    var h := ScrapeHomepage(domain, web);
    h.emails + ScrapeInternalPages(h.links, web).emails
  }

  /** The language the contacts of a domain are filed under. */
  function DomainLanguage(domain: string, web: Web): (lang: Option<string>)
    ensures lang.Some? ==> IsCode(lang.value)
    ensures lang.None? <==>
      && Fetch(web, NormalizeUrl(domain)).language.None?
      && forall u :: u in ScrapeHomepage(domain, web).links ==> Fetch(web, u).language.None?
  {
    var h := ScrapeHomepage(domain, web);
    var inner := ScrapeInternalPages(h.links, web);
    if Truthy(inner.language) then inner.language else h.language
  }

  /** The domain's language is the last code found, reading the homepage
      first and then the internal pages in task order: an internal page's
      code overrides the homepage's, `UN` included. */
  lemma DomainLanguageIsLastFound(domain: string, web: Web)
    ensures DomainLanguage(domain, web) ==
      MergeLanguage([Fetch(web, NormalizeUrl(domain))] + InternalPages(ScrapeHomepage(domain, web).links, web))
  {
    var home := Fetch(web, NormalizeUrl(domain));
    var pages := InternalPages(ScrapeHomepage(domain, web).links, web);
    MergeLanguageAppend([home], pages);
    assert [home][..0] == [];
  }

  /** The CRM accepted `email`, filed under `domain` and `language`. */
  predicate Accepted(web: Web, domain: string, language: Option<string>, email: string)
  {
    Added(web.crm(BuildPayload(email, domain, language, web.netloc)))
  }

  /** The CRM's verdict on each address of `domain` filed under `language`. */
  function AcceptedBy(web: Web, domain: string, language: Option<string>): string -> bool
  {
    e => Accepted(web, domain, language, e)
  }

  /** The members of `s` that `accepted` lets through. */
  function AcceptedAmong(s: set<string>, accepted: string -> bool): set<string>
  {
    set e | e in s && accepted(e)
  }

  /** The addresses of a domain that the CRM accepted. */
  function AcceptedEmails(domain: string, web: Web): set<string>
  {
    AcceptedAmong(DomainEmails(domain, web), AcceptedBy(web, domain, DomainLanguage(domain, web)))
  }

  // ---------------------------------------------------------------------
  // Publishing

  /** The members of `xs` that satisfy `p`, in order. */
  function Filter(xs: seq<string>, p: string -> bool): (ys: seq<string>)
    ensures |ys| <= |xs|
    ensures Elems(ys) == set x | x in xs && p(x)
    ensures Distinct(xs) ==> Distinct(ys)
  {
    if |xs| == 0 then []
    else
      var init := xs[..|xs| - 1];
      var last := xs[|xs| - 1];
      var front := Filter(init, p);
      var ys := front + (if p(last) then [last] else []);
      assert xs == init + [last];
      forall x | x in front
        ensures x in init
      {
        assert x in Elems(front);
      }
      assert Distinct(xs) ==> Distinct(init) && last !in init && last !in front;
      assert Elems(ys) == Elems(front) + (if p(last) then {last} else {});
      assert (set x | x in xs && p(x)) == (set x | x in init && p(x)) + (if p(last) then {last} else {});
      ys
  }

  /** The running totals of the publishing loop. */
  datatype Tally = Tally(added: nat, sample: set<string>)

  /** The loop over a domain's addresses: each accepted address is counted,
      and kept for the sample while the sample holds fewer than ten. */
  function TallyContacts(emails: seq<string>, accepted: string -> bool): (t: Tally)
    ensures t.added == |Filter(emails, accepted)|
    ensures t.sample <= Elems(Filter(emails, accepted))
    ensures |t.sample| <= 10
  {
    if |emails| == 0 then Tally(0, {})
    else
      var init := emails[..|emails| - 1];
      var e := emails[|emails| - 1];
      var t := TallyContacts(init, accepted);
      assert emails == init + [e];
      if accepted(e) then
        Tally(t.added + 1, if |t.sample| < 10 then t.sample + {e} else t.sample)
      else
        t
  }

  /** One accepted address more: the capped sample follows the capped
      prefix of the accepted addresses. */
  lemma SampleStep(kept: seq<string>, e: string, sample: set<string>)
    requires Distinct(kept) && e !in kept
    requires sample == Elems(kept[..Min(10, |kept|)])
    ensures var all := kept + [e];
            (if |sample| < 10 then sample + {e} else sample) == Elems(all[..Min(10, |all|)])
  {
    var all := kept + [e];
    DistinctCard(kept[..Min(10, |kept|)]);
    if |kept| < 10 {
      assert all[..Min(10, |all|)] == kept[..Min(10, |kept|)] + [e];
    } else {
      assert all[..Min(10, |all|)] == kept[..Min(10, |kept|)];
    }
  }

  /** The loop run over one more address. */
  lemma TallyStep(init: seq<string>, e: string, accepted: string -> bool)
    ensures var t := TallyContacts(init, accepted);
            TallyContacts(init + [e], accepted) ==
              if accepted(e) then Tally(t.added + 1, if |t.sample| < 10 then t.sample + {e} else t.sample) else t
    ensures Filter(init + [e], accepted) == Filter(init, accepted) + (if accepted(e) then [e] else [])
  {
    assert (init + [e])[..|init|] == init;
  }

  /** Over distinct addresses the sample is exactly the first ten accepted
      ones, in loop order (all of them when fewer were accepted). */
  lemma {:induction false} TallySampleIsPrefix(emails: seq<string>, accepted: string -> bool)
    requires Distinct(emails)
    ensures var kept := Filter(emails, accepted);
            TallyContacts(emails, accepted).sample == Elems(kept[..Min(10, |kept|)])
  {
    if |emails| > 0 {
      var init := emails[..|emails| - 1];
      var e := emails[|emails| - 1];
      assert emails == init + [e];
      assert Distinct(init);
      TallySampleIsPrefix(init, accepted);
      TallyStep(init, e, accepted);
      var kept := Filter(init, accepted);
      assert e !in kept by {
        assert e !in init;
        assert e !in Elems(kept);
      }
      if accepted(e) {
        SampleStep(kept, e, TallyContacts(init, accepted).sample);
      }
    }
  }

  /** Over distinct addresses the sample holds ten addresses, or every
      accepted one when fewer were accepted. */
  lemma TallySampleSize(emails: seq<string>, accepted: string -> bool)
    requires Distinct(emails)
    ensures |TallyContacts(emails, accepted).sample| == Min(10, TallyContacts(emails, accepted).added)
  {
    var kept := Filter(emails, accepted);
    TallySampleIsPrefix(emails, accepted);
    DistinctCard(kept[..Min(10, |kept|)]);
  }

  /** What `scrape_domain` returns: the scraped count, the added count and
      the sample of added addresses. */
  datatype DomainResult = DomainResult(scraped: nat, added: nat, sample: set<string>)

  /** The publishing loop of a domain: its merged addresses, in set order,
      each offered to the CRM under the domain's language. */
  function Publish(domain: string, web: Web): Tally
  {
    TallyContacts(web.order(DomainEmails(domain, web)), AcceptedBy(web, domain, DomainLanguage(domain, web)))
  }

  /** Run over an enumeration of a set, the loop counts the set's accepted
      members and samples up to ten of them. */
  lemma TallyOfEnumeration(xs: seq<string>, s: set<string>, accepted: string -> bool)
    requires Enumerates(xs, s)
    ensures TallyContacts(xs, accepted).added == |AcceptedAmong(s, accepted)|
    ensures TallyContacts(xs, accepted).sample <= AcceptedAmong(s, accepted)
    ensures |TallyContacts(xs, accepted).sample| == Min(10, TallyContacts(xs, accepted).added)
  {
    var kept := Filter(xs, accepted);
    DistinctCard(kept);
    assert Elems(kept) == AcceptedAmong(s, accepted);
    TallySampleSize(xs, accepted);
  }

  /** The loop counts exactly the accepted addresses and samples up to ten
      of them. */
  lemma PublishCounts(domain: string, web: Web)
    ensures Publish(domain, web).added == |AcceptedEmails(domain, web)|
    ensures AcceptedEmails(domain, web) <= DomainEmails(domain, web)
    ensures Publish(domain, web).sample <= AcceptedEmails(domain, web)
    ensures |Publish(domain, web).sample| == Min(10, Publish(domain, web).added)
  {
    var emails := DomainEmails(domain, web);
    TallyOfEnumeration(web.order(emails), emails, AcceptedBy(web, domain, DomainLanguage(domain, web)));
  }

  /** `scrape_domain`. The scraped count is taken before the internal pages
      are merged in, so it counts homepage addresses only; every address of
      the merged set is then offered to the CRM, in set order. */
  function ScrapeDomain(domain: string, web: Web): (r: DomainResult)
    ensures r.scraped == |Fetch(web, NormalizeUrl(domain)).emails|
    ensures r.added == |AcceptedEmails(domain, web)|
    ensures r.added <= |DomainEmails(domain, web)|
    ensures r.sample <= AcceptedEmails(domain, web)
    ensures |r.sample| == Min(10, r.added)
  {
    var t := Publish(domain, web);
    PublishCounts(domain, web);
    SubsetCard(AcceptedEmails(domain, web), DomainEmails(domain, web));
    DomainResult(|ScrapeHomepage(domain, web).emails|, t.added, t.sample)
  }

  /** Addresses found only on internal pages are missing from the scraped
      count: it is below the number of addresses the crawl found. */
  lemma ScrapedCountMissesInternalPages(domain: string, web: Web, e: string)
    requires e in DomainEmails(domain, web)
    requires e !in Fetch(web, NormalizeUrl(domain)).emails
    ensures ScrapeDomain(domain, web).scraped < |DomainEmails(domain, web)|
    ensures ScrapeDomain(domain, web).scraped < ScrapeDomainMerged(domain, web).scraped
  {
    StrictSubsetCard(Fetch(web, NormalizeUrl(domain)).emails, DomainEmails(domain, web), e);
  }

  /** Since only homepage addresses are counted as scraped, a domain whose
      addresses all sit on internal pages reports more added than scraped. */
  lemma AddedCanExceedScraped(domain: string, web: Web)
    requires Fetch(web, NormalizeUrl(domain)).emails == {}
    requires AcceptedEmails(domain, web) != {}
    ensures ScrapeDomain(domain, web).added > ScrapeDomain(domain, web).scraped
  {
  }

  /** `scrape_domain` with the scraped count taken after the merge: the
      number of distinct addresses found on the
      homepage and the internal pages together. Publishing is unchanged. */
  function ScrapeDomainMerged(domain: string, web: Web): (r: DomainResult)
    ensures r.scraped == |DomainEmails(domain, web)|
    ensures ScrapeDomain(domain, web).scraped <= r.scraped
    ensures r.added <= r.scraped
    ensures r.added == ScrapeDomain(domain, web).added
    ensures r.sample == ScrapeDomain(domain, web).sample
    ensures r.sample <= AcceptedEmails(domain, web)
  {
    var t := Publish(domain, web);
    PublishCounts(domain, web);
    SubsetCard(AcceptedEmails(domain, web), DomainEmails(domain, web));
    SubsetCard(Fetch(web, NormalizeUrl(domain)).emails, DomainEmails(domain, web));
    DomainResult(|DomainEmails(domain, web)|, t.added, t.sample)
  }

  /** The sample is the first ten accepted addresses in the order the merged
      set is walked (all of them when fewer were accepted). */
  lemma SampleIsFirstAccepted(domain: string, web: Web)
    ensures var kept := Filter(web.order(DomainEmails(domain, web)), AcceptedBy(web, domain, DomainLanguage(domain, web)));
            ScrapeDomain(domain, web).sample == Elems(kept[..Min(10, |kept|)])
  {
    var order := web.order(DomainEmails(domain, web));
    assert Enumerates(order, DomainEmails(domain, web));
    TallySampleIsPrefix(order, AcceptedBy(web, domain, DomainLanguage(domain, web)));
  }

  /** A homepage that gave no parsed HTML (an error, a non-200 answer, a
      non-HTML type, or text the detector rejects) means no internal page is
      fetched: the domain's addresses and language are the homepage's. */
  lemma NoSoupNoInternalPages(domain: string, web: Web)
    requires Fetch(web, NormalizeUrl(domain)).soup.None?
    ensures ScrapeHomepage(domain, web).links == {}
    ensures InternalPages(ScrapeHomepage(domain, web).links, web) == []
    ensures DomainEmails(domain, web) == Fetch(web, NormalizeUrl(domain)).emails
    ensures DomainLanguage(domain, web) == Fetch(web, NormalizeUrl(domain)).language
  {
    InternalPagesCover(ScrapeHomepage(domain, web).links, web);
  }

  /** A homepage that raises or answers with anything but 200 yields an
      empty domain result, and no address is offered to the CRM. */
  lemma FailedHomepage(domain: string, web: Web)
    requires BranchOf(web.fetch(NormalizeUrl(domain))) == Failed
    ensures DomainEmails(domain, web) == {}
    ensures ScrapeDomain(domain, web) == DomainResult(0, 0, {})
  {
    NoSoupNoInternalPages(domain, web);
    assert AcceptedEmails(domain, web) == {};
  }
}
