# Web scraper core, modelled in Dafny

This project models the decision and aggregation logic of a small e-mail
harvester. The harvester reads a list of domains. For each domain it fetches
the homepage and then every same-host page the homepage links to. It collects
the e-mail addresses and the page language, and files every address as a
contact in a CRM. It repeats the whole batch a fixed number of times and
reports three things: how many addresses were scraped, how many were added,
and a sample of at most ten added addresses.

Modules:

- `Support`: optional values, distinct sequences, and the order in which
  Python walks a set. That order is the oracle `SetOrder`: any function that
  lists each set's members once each.
- `LanguageMapping`: `map_language_code` and its table of 33 tags.
- `UrlHelpers`: `normalize_url`, `is_internal_link`, and `get_main_domain`
  at network-location level. The network location of a URL is an input
  function.
- `Page`: the status and `Content-Type` dispatch of `scrape_page`, and the
  triple it returns.
- `Contact`: the create-contact request that `add_contact_to_brevo` builds,
  and how it reads the CRM's answer.
- `Crawl`: `scrape_homepage`, `scrape_internal_pages` and `scrape_domain`.
  Everything foreign is a field of the `Web` datatype:
  - the GET answer for each URL;
  - `urljoin` and `urlparse(...).netloc`;
  - `extract_emails`;
  - the language detector (`None` when it raises);
  - the set order;
  - the CRM's answer.
- `Batch`: `process_csv_file` after its `gather`, and the retry loop of
  `run_process`. Attempt `k`'s per-domain results are `attempts(k)`, in row
  order.

Points where the code behaves differently from what a reader might expect,
modelled as the code does it:

- The scraped count of a domain counts the homepage's addresses only:
  `webscraper/utils.py:190` adds `len(emails)` before the internal pages'
  addresses are merged in at line 192. The name `total_scraped` suggests the
  merged count was meant; see Findings.
- The domain's language is the last *truthy* code. The tests `if lang_code:`
  at lines 122 and 193 accept `UN`, so an internal page detected as an
  unknown language overrides a known homepage language.
- Internal-page results are folded in task order, which is the order the
  link set is walked: `gather` returns results in task order, not in
  completion order.
- A failed homepage gives no language (`None`), not the unknown code.
- There is no early return after a failed homepage. An empty link set is
  crawled instead. Lemma `Crawl.NoSoupNoInternalPages` shows the outcome is
  the same.

## Model

| member | source | states |
|---|---|---|
| UrlHelpers.NormalizeUrl | webscraper/utils.py:29-32 | The result always starts with `http://` or `https://`. It equals the input exactly when the input already does; otherwise it is `http://` plus the input. The input is always a suffix of the result. |
| UrlHelpers.NormalizeIdempotent | webscraper/utils.py:29-32 | Normalising a normalised URL changes nothing. |
| UrlHelpers.IsInternalLink | webscraper/utils.py:35-38 | `is_internal_link`: the link's netloc equals the base's, or the base has none. It carries no contract of its own; `UrlHelpers.InternalLinkReflexive` states its consequences. |
| UrlHelpers.InternalLinkReflexive | webscraper/utils.py:35-38 | Every URL is internal to itself. Everything is internal to a base with an empty netloc. With a non-empty base netloc, a link with a different netloc is not internal. |
| UrlHelpers.Split | webscraper/utils.py:43 | Splitting on `.` gives at least one label, and no label holds a dot. |
| UrlHelpers.Join | webscraper/utils.py:45 | `'.'.join(labels)`. It carries no contract of its own; `UrlHelpers.JoinSplit` and `UrlHelpers.SplitJoin` prove that it inverts `Split`. |
| UrlHelpers.JoinSplit | webscraper/utils.py:43-45 | Joining the labels of a string with `.` gives the string back. |
| UrlHelpers.SplitJoin | webscraper/utils.py:43-45 | Splitting the join of dot-free labels gives the labels back. |
| UrlHelpers.MainDomain | webscraper/utils.py:41-46 | The root is a suffix of the netloc and has at most two labels. It is the netloc itself when the netloc has at most two labels, and otherwise the netloc's last two labels. |
| UrlHelpers.MainDomainIdempotent | webscraper/utils.py:41-46 | The root of a root is itself. |
| UrlHelpers.MainDomainOfLabels | webscraper/utils.py:41-46 | For a host built from known dot-free labels, the root is the join of the last two labels when there are more than two. |
| UrlHelpers.MainDomainIgnoresPublicSuffixes | webscraper/utils.py:44-45 | `mail.example.co.uk` has root `co.uk`: multi-part public suffixes are not recognised. |
| LanguageMapping.TableShape | webscraper/language_mapping.py:2-37 | Every listed tag maps to a two-letter upper-case code other than `UN`. |
| LanguageMapping.MapLanguageCode | webscraper/language_mapping.py:1-38 | Total. A listed tag gives its table value and any other input gives `UN`. The result is always a two-letter upper-case code. The result is `UN` exactly when the input is not listed. |
| LanguageMapping.UpperCasedRows1 | webscraper/language_mapping.py:3-4 | `en` and `fr` each map to the tag upper-cased. |
| LanguageMapping.UpperCasedRows2 | webscraper/language_mapping.py:5-6 | `es` and `de` each map to the tag upper-cased. |
| LanguageMapping.UpperCasedRows3 | webscraper/language_mapping.py:7-8 | `it` and `pt` each map to the tag upper-cased. |
| LanguageMapping.UpperCasedRows4 | webscraper/language_mapping.py:9-10 | `nl` and `ru` each map to the tag upper-cased. |
| LanguageMapping.UpperCasedRows5 | webscraper/language_mapping.py:13-14 | `ja` and `ko` each map to the tag upper-cased. |
| LanguageMapping.UpperCasedRows6 | webscraper/language_mapping.py:15-16 | `ar` and `hi` each map to the tag upper-cased. |
| LanguageMapping.UpperCasedRows7 | webscraper/language_mapping.py:17-18 | `bn` and `pa` each map to the tag upper-cased. |
| LanguageMapping.UpperCasedRows8 | webscraper/language_mapping.py:19-20 | `jv` and `ms` each map to the tag upper-cased. |
| LanguageMapping.UpperCasedRows9 | webscraper/language_mapping.py:21-22 | `tr` and `vi` each map to the tag upper-cased. |
| LanguageMapping.UpperCasedRows10 | webscraper/language_mapping.py:23-24 | `pl` and `uk` each map to the tag upper-cased. |
| LanguageMapping.UpperCasedRows11 | webscraper/language_mapping.py:25-26 | `ro` and `cs` each map to the tag upper-cased. |
| LanguageMapping.UpperCasedRows12 | webscraper/language_mapping.py:27-28 | `el` and `hu` each map to the tag upper-cased. |
| LanguageMapping.UpperCasedRows13 | webscraper/language_mapping.py:29-30 | `sv` and `fi` each map to the tag upper-cased. |
| LanguageMapping.UpperCasedRows14 | webscraper/language_mapping.py:31-32 | `no` and `da` each map to the tag upper-cased. |
| LanguageMapping.UpperCasedRows15 | webscraper/language_mapping.py:33-34 | `he` and `th` each map to the tag upper-cased. |
| LanguageMapping.UpperCasedRows16 | webscraper/language_mapping.py:35 | `id` maps to the tag upper-cased. |
| LanguageMapping.ChineseVariantsCollide | webscraper/language_mapping.py:11-12 | Two different listed tags map to the same code, so the mapping is not injective. |
| LanguageMapping.CaseSensitiveLookup | webscraper/language_mapping.py:38 | Any input holding an upper-case letter maps to `UN`. |
| LanguageMapping.UpperCaseEnglishIsUnknown | webscraper/language_mapping.py:3 | `EN` maps to `UN` although `en` maps to `EN`. |
| Page.Contains | webscraper/utils.py:54 | Python's `sub in s` on strings. It carries no contract of its own; `Page.ContainsAt` proves that it holds exactly when `sub` occurs at some index. |
| Page.ContainsAt | webscraper/utils.py:54 | The substring test holds exactly when the pattern occurs at some position. |
| Page.Classify | webscraper/utils.py:52-66 | The branch is Failed exactly for a non-200 status. For a 200 answer, each type is chosen exactly when its substring is present and no earlier-tested one is: HTML, then PDF, then plain text, then either XML type. |
| Page.UnsupportedExactly | webscraper/utils.py:54-68 | A 200 answer is unsupported exactly when its header contains none of the five handled types. |
| Page.HtmlTestedFirst | webscraper/utils.py:54-58 | Any header containing `text/html` takes the HTML branch, never the PDF one, whatever else it names. |
| Page.HtmlWithParameters | webscraper/utils.py:53-54 | A header that starts with `text/html`, such as `text/html; charset=utf-8`, takes the HTML branch. |
| Page.XmlHeader | webscraper/utils.py:63-65 | `text/xml` takes the XML branch. |
| Page.NoLetterTUnsupported | webscraper/utils.py:54-68 | A header without the letter `t`, such as `image/png`, contains none of the handled types and is unsupported. |
| Page.ScrapePage | webscraper/utils.py:49-76 | An exception, a non-200 answer or an unsupported type gives the empty triple. Parsed HTML is returned exactly for the HTML branch when detection succeeds, and it is the page's own. A language is returned exactly when a handled branch's text is detected; it is always a code. A failed detection empties the whole triple. Addresses and language come from that branch's text. |
| Contact.BuildPayload | webscraper/utils.py:127-142 | The request carries the address, the language and the list `[23]`. Its root domain (`DOMINIO`) is `get_main_domain` of the raw domain: the main domain of that domain's netloc, hence a suffix of it with at most two labels. |
| Contact.BareDomainHasEmptyRoot | webscraper/utils.py:128 | A domain whose netloc is empty, such as a bare host name, is filed with an empty root domain. |
| Contact.IsDuplicate | webscraper/utils.py:150 | A 400 answer whose text contains `duplicate_parameter`. It carries no contract of its own; `Contact.DuplicateIsNotAdded` states its consequence. |
| Contact.Added | webscraper/utils.py:143-154 | `True` exactly for a 201 answer; a transport error or any other status gives `False`. It carries no contract of its own; `Contact.DuplicateIsNotAdded` states its consequences. |
| Contact.DuplicateIsNotAdded | webscraper/utils.py:143-154 | A duplicate-contact answer and a transport error both count as not added. |
| Crawl.Fetch | webscraper/utils.py:103 | One `scrape_page` call: the page result of the URL's GET answer. It carries no contract of its own; its result is described by `Page.ScrapePage`. |
| Crawl.Truthy | webscraper/utils.py:122 | Python truthiness of an optional language code. It carries no contract of its own; `Crawl.FetchedLanguageTruthy` proves that for page languages it means present. |
| Crawl.FetchedLanguageTruthy | webscraper/utils.py:70 | A page's language is truthy exactly when present, because mapped codes are never empty. |
| Crawl.InternalLinks | webscraper/utils.py:106-111 | The kept links are exactly the resolved hrefs that pass the same-host test. |
| Crawl.ScrapeHomepage | webscraper/utils.py:101-112 | Addresses and language are the normalised URL's page result. Without parsed HTML the link set is empty. Every link is internal to the normalised URL. The link set is exactly the internal resolved hrefs of the parsed page. |
| Crawl.MergeEmails | webscraper/utils.py:118-121 | The merged set is exactly the union of the page sets. |
| Crawl.MergeLanguage | webscraper/utils.py:119-123 | A language is kept exactly when some page's code is truthy. The kept code is one with no truthy code after it. |
| Crawl.MergeLanguageAppend | webscraper/utils.py:119-123 | Over a split run of pages, a code in the later part hides the earlier part. |
| Crawl.InternalPagesCover | webscraper/utils.py:116-117 | No links gives no results. Every link's result appears, and every result belongs to some link. |
| Crawl.InternalEmails | webscraper/utils.py:118-121 | The merged addresses of the internal pages are exactly those of some linked page. |
| Crawl.InternalLanguage | webscraper/utils.py:119-123 | The fold finds a language exactly when some linked page has one. The language found is a code and is some linked page's language. |
| Crawl.ScrapeInternalPages | webscraper/utils.py:115-124 | No links gives no addresses and no language. The addresses are exactly those of some linked page. A language is found exactly when some linked page has one; it is a code and is some linked page's language. |
| Crawl.DomainEmails | webscraper/utils.py:191-192 | The homepage's addresses are kept. An address is in the domain's set exactly when the homepage has it or some linked page has it. |
| Crawl.DomainLanguage | webscraper/utils.py:193-194 | The domain's language, when present, is a code. It is absent exactly when neither the homepage nor any linked page has a language. |
| Crawl.DomainLanguageIsLastFound | webscraper/utils.py:189-194 | The domain's language is the last code found, reading the homepage and then the internal pages in task order. |
| Crawl.Filter | webscraper/utils.py:195-196 | The kept addresses are exactly the members that pass, with no more entries than the input, and distinct when the input is. |
| Crawl.TallyContacts | webscraper/utils.py:195-199 | The added count is the number of accepted addresses. The sample holds only accepted addresses, at most ten. |
| Crawl.TallySampleIsPrefix | webscraper/utils.py:195-199 | Over distinct addresses, the sample is exactly the set of the first ten accepted addresses in loop order. |
| Crawl.TallySampleSize | webscraper/utils.py:195-199 | Over distinct addresses, the sample size is the smaller of ten and the added count. |
| Crawl.TallyOfEnumeration | webscraper/utils.py:195-199 | Run over a listing of a set, the loop counts the set's accepted members and samples min(10, added) of them. |
| Crawl.Publish | webscraper/utils.py:195-199 | The loop over the merged addresses in set order, each offered to the CRM under the domain's language. It carries no contract of its own; `Crawl.PublishCounts` and `Crawl.SampleIsFirstAccepted` state its counts and its sample. |
| Crawl.PublishCounts | webscraper/utils.py:192-199 | Publishing counts exactly the accepted addresses among the merged ones. The sample is a subset of them of size min(10, added). |
| Crawl.ScrapeDomain | webscraper/utils.py:184-201 | The scraped count is the size of the homepage's address set. The added count is the number of merged addresses the CRM accepted, and no larger than the merged set. The sample is min(10, added) accepted addresses. |
| Crawl.SampleIsFirstAccepted | webscraper/utils.py:195-199 | The domain's sample is the first ten accepted addresses, in the order the merged set is walked. |
| Crawl.NoSoupNoInternalPages | webscraper/utils.py:104-105 | Without parsed homepage HTML, no internal page is fetched. The domain's addresses and language are the homepage's. |
| Crawl.FailedHomepage | webscraper/utils.py:184-201 | A homepage that raises or answers non-200 gives scraped 0, added 0 and an empty sample, and nothing is offered to the CRM. |
| Crawl.ScrapedCountMissesInternalPages | webscraper/utils.py:189-192 | An address found only on an internal page makes the scraped count smaller than the number of addresses found. |
| Crawl.AddedCanExceedScraped | webscraper/utils.py:189-197 | A domain whose addresses all sit on internal pages, with any of them accepted, reports more added than scraped. |
| Crawl.ScrapeDomainMerged | webscraper/utils.py:184-201 | With the count taken after the merge, scraped is the merged set's size. It is at least the as-written count and at least the added count. The added count and sample are unchanged. |
| Batch.UnionSamples | webscraper/utils.py:176 | An address is in the union exactly when some domain sampled it. |
| Batch.SumsAppend | webscraper/utils.py:172-175 | The totals over two runs of domains add up, so grouping does not matter. |
| Batch.SumsBoundEach | webscraper/utils.py:172-175 | No domain's count exceeds the total. |
| Batch.ProcessCsvFile | webscraper/utils.py:157-182 | The totals are the sums of the per-domain counts. The sample is distinct, drawn from the union of the domains' samples, and at most ten long. |
| Batch.ProcessCsvFileSample | webscraper/utils.py:181 | The sample has min(10, size of the union) addresses. When the union has at most ten, it is all of them. |
| Support.FirstOf | webscraper/utils.py:218 | `list(s)[:n]` is distinct, drawn from `s`, and at most `n` long. |
| Support.FirstOfSize | webscraper/utils.py:218 | `list(s)[:n]` has min(n, size of s) members, and all of `s` when s has at most n members. |
| Batch.Accumulate | webscraper/utils.py:211-216 | The running totals of `run_process`'s loop after some attempts. It carries no contract of its own; `Batch.AccumulateMonotone`, `Batch.RepeatedAttemptsMultiply` and `Batch.AccumulatedSample` describe it, and `Batch.RunAttempts` computes it. |
| Batch.AccumulateMonotone | webscraper/utils.py:211-216 | More attempts never lower either total and never lose a sampled address. |
| Batch.RepeatedAttemptsMultiply | webscraper/utils.py:211-216 | When every attempt sees the same results, the totals are the attempt count times the single-attempt totals: retries double-count. |
| Batch.AccumulatedSample | webscraper/utils.py:214-216 | One address is in the merged samples exactly when some earlier attempt sampled it. |
| Batch.AccumulatedSamples | webscraper/utils.py:214-216 | An address is in the merged samples exactly when some attempt sampled it. |
| Batch.AccumulatedSamplesFromDomains | webscraper/utils.py:214-216 | Every merged sample address was sampled by some domain in some attempt. |
| Batch.RunAttempts | webscraper/utils.py:204-216 | The loop computes the recursive accumulation over exactly `max_attempts` attempts; none when it is not positive. |
| Batch.RunProcess | webscraper/utils.py:204-220 | The totals are the accumulated totals. The sample is distinct, drawn from the merged samples, with min(10, their number) members. `max_attempts <= 0` gives zero totals and an empty sample. |

## Left out

- The HTTP fetches, the 15-second timeout and `asyncio.gather` concurrency are left out. `gather` returns results in task order, which is the order the model folds in.
- BeautifulSoup parsing, `urljoin` and `urlparse` are foreign libraries. The model takes the anchors' hrefs, the resolved URL and the netloc as inputs.
- Crawl.Web: `urljoin` and `urlparse` are total functions in the model. In the code, `urlparse` raises `ValueError` on a malformed URL such as `http://[oops/`. That can happen in `urljoin` and `is_internal_link` at `webscraper/utils.py:109-110`, and in `get_main_domain` at line 128, which runs before the `try` at line 143. No handler above those calls catches it: not `scrape_domain`, not `gather`, not `process_csv_file`, and not the loop of `run_process`. So one malformed anchor or domain aborts the whole run with no totals. The model does not represent that abort: Batch.RunProcess always returns a result.
- Batch.RunProcess: the default `max_attempts=5` at `webscraper/utils.py:204` is not modelled; the number of attempts is always an explicit parameter.
- The text extractors for HTML, PDF and XML are foreign parsers. Each branch's text is an arbitrary input of the response body. The model does not say what a failed parse yields: an XML document that does not parse gives empty text, and a PDF that fails part-way gives the text of the pages read before the failure.
- The e-mail regular expression and the `validate_email` probe are foreign code. `extract_emails` is an input function.
- The language detector is a foreign statistical model. It is an input that returns `None` when it raises.
- The `requests.post` call and the API key from the environment are left out. The CRM's answer to each request is an input, and exceptions other than a transport error are not modelled.
- CSV reading, the `total_lines` count (computed but never used) and `generate_results_csv` are file I/O.
- The Django views and URL routing are request handling.
- The `print` logging is left out.
- Crawl.ScrapeDomain: the CRM oracle answers the same way each time the same request is sent within one attempt. Side effects of earlier requests within an attempt, such as a duplicate answer after a create, are not modelled. Across attempts each attempt has its own results.
- Crawl.Web: a page fetch is a function of the URL, so a URL fetched twice in one attempt gets the same answer. This happens, for example, when an `href=""` resolves back to the homepage URL. A real second request can time out or answer differently. No property of the model depends on this.
- Support.SetOrder: the order in which a set is walked is modelled as a function of the set's members. CPython's order also depends on the set's insertion and deletion history, so two equal sets can be walked in different orders. Each set here is walked once, so no property depends on this.

## Findings

| source | as written | input that shows it | evidently intended | confidence | as-written member | corrected member |
|---|---|---|---|---|---|---|
| webscraper/utils.py:190-192 | `total_scraped` is taken from the homepage's address set before the internal pages' addresses are merged in. | The homepage has `contact@example.com` and links to `/about`, whose page has `sales@example.com`. The scraped count is 1 while two addresses were found and both are offered to the CRM. | The scraped count is the size of the merged set (2 here), so that added never exceeds scraped. | medium; not executed | Crawl.ScrapedCountMissesInternalPages | Crawl.ScrapeDomainMerged |
