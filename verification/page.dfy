/** One page fetch: the content-type dispatch of `scrape_page` and the result
    it hands back. The HTTP exchange, the text extractors, the e-mail scanner
    and the language detector are foreign code and appear as inputs. */
module Page {
  import opened Support
  import opened LanguageMapping

  /** Python's `sub in s` on strings. */
  predicate Contains(s: string, sub: string)
    decreases |s|
  {
    sub <= s || (|s| > 0 && Contains(s[1..], sub))
  }

  /** A substring occurs at some position. */
  lemma {:induction false} ContainsAt(s: string, sub: string)
    ensures Contains(s, sub) <==> exists i :: 0 <= i <= |s| - |sub| && sub <= s[i..]
    decreases |s|
  {
    if sub <= s {
      assert s[0..] == s;
    }
    if |s| > 0 {
      var tail := s[1..];
      ContainsAt(tail, sub);
      if Contains(tail, sub) {
        var i :| 0 <= i <= |tail| - |sub| && sub <= tail[i..];
        assert tail[i..] == s[i + 1..];
        assert 0 <= i + 1 <= |s| - |sub| && sub <= s[i + 1..];
      }
      if exists i :: 0 <= i <= |s| - |sub| && sub <= s[i..] {
        var i :| 0 <= i <= |s| - |sub| && sub <= s[i..];
        if i > 0 {
          assert tail[i - 1..] == s[i..];
          assert 0 <= i - 1 <= |tail| - |sub| && sub <= tail[i - 1..];
        }
      }
    }
  }

  /** A string lacking one of the characters of `sub` cannot contain `sub`. */
  lemma {:induction false} LacksCharacter(s: string, sub: string, c: char)
    requires c in sub && c !in s
    ensures !Contains(s, sub)
    decreases |s|
  {
    assert !(sub <= s);
    if |s| > 0 {
      LacksCharacter(s[1..], sub, c);
    }
  }

  const HtmlType: string := "text/html"
  const PdfType: string := "application/pdf"
  const PlainType: string := "text/plain"
  const AppXmlType: string := "application/xml"
  const TextXmlType: string := "text/xml"

  /** Which way `scrape_page` goes with a response. */
  datatype Branch = Html | Pdf | Plain | Xml | Unsupported | Failed

  /** The dispatch on status and `Content-Type` header (an absent header reads
      as the empty string). Tests are substring tests, HTML first. */
  function Classify(status: int, contentType: string): (b: Branch)
    ensures b == Failed <==> status != 200
    ensures b == Html <==> status == 200 && Contains(contentType, HtmlType)
    ensures b == Pdf <==> status == 200 && !Contains(contentType, HtmlType) && Contains(contentType, PdfType)
    ensures b == Plain <==> status == 200 && !Contains(contentType, HtmlType) && !Contains(contentType, PdfType)
                            && Contains(contentType, PlainType)
    ensures b == Xml <==> status == 200 && !Contains(contentType, HtmlType) && !Contains(contentType, PdfType)
                          && !Contains(contentType, PlainType)
                          && (Contains(contentType, AppXmlType) || Contains(contentType, TextXmlType))
  {
    if status != 200 then Failed
    else if Contains(contentType, HtmlType) then Html
    else if Contains(contentType, PdfType) then Pdf
    else if Contains(contentType, PlainType) then Plain
    else if Contains(contentType, AppXmlType) || Contains(contentType, TextXmlType) then Xml
    else Unsupported
  }

  /** A page that answers 200 and carries any of the five handled media types
      (four branches: HTML, PDF, plain text, XML) in its header is handled;
      every other 200 answer is unsupported. */
  lemma UnsupportedExactly(contentType: string)
    ensures Classify(200, contentType) == Unsupported <==>
      && !Contains(contentType, HtmlType) && !Contains(contentType, PdfType)
      && !Contains(contentType, PlainType)
      && !Contains(contentType, AppXmlType) && !Contains(contentType, TextXmlType)
  {
  }

  /** HTML is tested first: a header naming HTML takes the HTML branch
      whatever else it names, PDF included. */
  lemma HtmlTestedFirst(contentType: string)
    requires Contains(contentType, HtmlType)
    ensures Classify(200, contentType) == Html
    ensures Classify(200, contentType) != Pdf
  {
  }

  /** A header that starts with the HTML media type is HTML whatever
      parameters follow, as in `text/html; charset=utf-8`. */
  lemma HtmlWithParameters(contentType: string)
    requires HtmlType <= contentType
    ensures Classify(200, contentType) == Html
  {
  }

  /** A plain `text/xml` header is XML. */
  lemma XmlHeader()
    ensures Classify(200, "text/xml") == Xml
  {
    var xml := "text/xml";
    LacksCharacter(xml, HtmlType, 'h');
    LacksCharacter(xml, PdfType, 'p');
    LacksCharacter(xml, PlainType, 'p');
    assert TextXmlType <= xml;
  }

  /** Every handled type has the letter `t` in it, so a header without one,
      such as `image/png`, is unsupported. */
  lemma NoLetterTUnsupported(contentType: string)
    requires 't' !in contentType
    ensures Classify(200, contentType) == Unsupported
  {
    LacksCharacter(contentType, HtmlType, 't');
    LacksCharacter(contentType, PdfType, 't');
    LacksCharacter(contentType, PlainType, 't');
    LacksCharacter(contentType, AppXmlType, 't');
    LacksCharacter(contentType, TextXmlType, 't');
  }

  /** Parsed HTML, reduced to what the crawl reads from it: the `href` of
      every anchor that has one, in document order. */
  datatype Soup = Soup(hrefs: seq<string>)

  /** What each foreign extractor makes of the response body: the stripped
      strings of the parsed HTML joined by spaces, the concatenated PDF page
      texts (empty when the PDF does not open), the body as text, and the
      joined XML text nodes (empty when the XML does not parse). */
  datatype Body = Body(htmlText: string, pdfText: string, plainText: string, xmlText: string, soup: Soup)

  /** The outcome of `session.get(url)`: an exception anywhere in the request
      or in reading the body, or an answer. */
  datatype Response = Raised | Answer(status: int, contentType: string, body: Body)

  /** The text a handled branch goes on with. */
  function TextOf(body: Body, b: Branch): string
  {
    match b
    case Html => body.htmlText
    case Pdf => body.pdfText
    case Plain => body.plainText
    case Xml => body.xmlText
    case _ => ""
  }

  /** The triple `scrape_page` returns: e-mails, the parsed HTML when the page
      was HTML, and the mapped language code. */
  datatype PageResult = PageResult(emails: set<string>, soup: Option<Soup>, language: Option<string>)

  /** `(set(), None, None)`. */
  const Empty: PageResult := PageResult({}, None, None)

  /** The branch a response takes; an exception counts as a failed request. */
  function BranchOf(resp: Response): Branch
  {
    match resp
    case Raised => Failed
    case Answer(status, contentType, _) => Classify(status, contentType)
  }

  /** `scrape_page`. `emailsIn` is `extract_emails`; `detect` is the language
      detector, `None` when it raises (as it does on text with no features),
      which the outer handler turns into the empty result. */
  function ScrapePage(resp: Response, emailsIn: string -> set<string>, detect: string -> Option<string>): (r: PageResult)
    ensures BranchOf(resp) in {Failed, Unsupported} ==> r == Empty
    ensures r.soup.Some? <==> BranchOf(resp) == Html && detect(TextOf(resp.body, Html)).Some?
    ensures r.soup.Some? ==> r.soup.value == resp.body.soup
    ensures r.language.Some? <==> BranchOf(resp) !in {Failed, Unsupported} && detect(TextOf(resp.body, BranchOf(resp))).Some?
    ensures r.language.Some? ==> IsCode(r.language.value)
    ensures r.language.None? ==> r == Empty
    ensures r.language.Some? ==>
      && r.emails == emailsIn(TextOf(resp.body, BranchOf(resp)))
      && r.language.value == MapLanguageCode(detect(TextOf(resp.body, BranchOf(resp))).value)
  {
    var b := BranchOf(resp);
    if b == Failed || b == Unsupported then Empty
    else
      var text := TextOf(resp.body, b);
      var emails := emailsIn(text);
      match detect(text)
      case None => Empty
      case Some(tag) =>
        PageResult(emails, if b == Html then Some(resp.body.soup) else None, Some(MapLanguageCode(tag)))
  }
}
