/** `add_contact_to_brevo` without the HTTP call: the request it builds and the
    way it reads the CRM's answer. Sending the request is foreign code; its
    answer is an input. The API key comes from the environment and is not
    part of the request body, so it is left out. */
module Contact {
  import opened Support
  import opened UrlHelpers
  import opened Page

  /** The contact list every new contact is put on. */
  const ContactList: int := 23

  /** The JSON body of the create-contact request. `rootDomain` is the
      `DOMINIO` attribute and `language` the `TEST_LANG` attribute (`null`
      when no language was found). */
  datatype ContactPayload = ContactPayload(email: string, rootDomain: string, language: Option<string>, listIds: seq<int>)

  /** The request for one address found on `domain`. The root domain is taken
      from the domain exactly as it was read from the input, so `netloc` is
      applied to the raw domain, not to its normalised URL. */
  function BuildPayload(email: string, domain: string, language: Option<string>, netloc: string -> string): (p: ContactPayload)
    ensures p.email == email && p.language == language && p.listIds == [ContactList]
    ensures p.rootDomain == MainDomain(netloc(domain))
    ensures IsSuffix(p.rootDomain, netloc(domain))
    ensures |Split(p.rootDomain)| <= 2
  {
    ContactPayload(email, MainDomain(netloc(domain)), language, [ContactList])
  }

  /** A bare host name such as `example.com` has no network location of its
      own, so its contacts carry an empty root domain. */
  lemma BareDomainHasEmptyRoot(email: string, domain: string, language: Option<string>, netloc: string -> string)
    requires netloc(domain) == ""
    ensures BuildPayload(email, domain, language, netloc).rootDomain == ""
  {
  }

  /** What the POST came back with: a transport exception, or a status and
      body text. */
  datatype CrmResponse = TransportError | Reply(status: int, text: string)

  /** The CRM says the address is already a contact. */
  predicate IsDuplicate(resp: CrmResponse)
  {
    resp.Reply? && resp.status == 400 && Contains(resp.text, "duplicate_parameter")
  }

  /** `True` only for a 201 Created answer. */
  predicate Added(resp: CrmResponse)
  {
    resp.Reply? && resp.status == 201
  }

  /** A duplicate or a transport failure is reported as not added, and not
      raised. */
  lemma DuplicateIsNotAdded(resp: CrmResponse)
    ensures IsDuplicate(resp) ==> !Added(resp)
    ensures resp.TransportError? ==> !Added(resp)
  {
  }
}
