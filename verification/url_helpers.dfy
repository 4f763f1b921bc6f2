/** URL and host-name helpers: scheme normalisation, the same-origin test and
    the two-label root domain. Parsing a URL into its parts is foreign code, so
    the network location of a URL is supplied by the caller as `netloc`. */
module UrlHelpers {

  const Http: string := "http://"
  const Https: string := "https://"

  /** The string already starts with one of the two accepted schemes. */
  predicate HasScheme(s: string)
  {
    Http <= s || Https <= s
  }

  /** `normalize_url`: a bare domain becomes an `http://` URL; a URL that
      already names its scheme is kept as it is. */
  function NormalizeUrl(domain: string): (url: string)
    ensures HasScheme(url)
    ensures url == domain <==> HasScheme(domain)
    ensures !HasScheme(domain) ==> url == Http + domain
    ensures |domain| <= |url| && url[|url| - |domain|..] == domain
  {
    if HasScheme(domain) then domain else Http + domain
  }

  /** Normalising twice is normalising once. */
  lemma NormalizeIdempotent(domain: string)
    ensures NormalizeUrl(NormalizeUrl(domain)) == NormalizeUrl(domain)
  {
  }

  /** `is_internal_link`: the link stays on the base URL's host, or the base
      URL has no host at all. */
  predicate IsInternalLink(netloc: string -> string, baseUrl: string, link: string)
  {
    netloc(baseUrl) == "" || netloc(baseUrl) == netloc(link)
  }

  /** Every URL is internal to itself, and everything is internal to a base
      without a host. */
  lemma InternalLinkReflexive(netloc: string -> string, url: string, other: string)
    ensures IsInternalLink(netloc, url, url)
    ensures netloc(url) == "" ==> IsInternalLink(netloc, url, other)
    ensures netloc(url) != "" && netloc(other) != netloc(url) ==> !IsInternalLink(netloc, url, other)
  {
  }

  /** Position of the first `c` in `s`. */
  function IndexOf(s: string, c: char): (i: nat)
    requires c in s
    ensures i < |s| && s[i] == c && c !in s[..i]
  {
    if s[0] == c then 0 else 1 + IndexOf(s[1..], c)
  }

  /** `s.split('.')`: the dot-separated labels, empty ones included. */
  function Split(s: string): (labels: seq<string>)
    ensures |labels| >= 1
    ensures forall i :: 0 <= i < |labels| ==> '.' !in labels[i]
    decreases |s|
  {
    if '.' !in s then [s]
    else
      var i := IndexOf(s, '.');
      [s[..i]] + Split(s[i + 1..])
  }

  /** `'.'.join(labels)`. */
  function Join(labels: seq<string>): string
  {
    if |labels| == 0 then ""
    else if |labels| == 1 then labels[0]
    else labels[0] + "." + Join(labels[1..])
  }

  /** Joining the labels of a string gives back the string. */
  lemma {:induction false} JoinSplit(s: string)
    ensures Join(Split(s)) == s
    decreases |s|
  {
    if '.' in s {
      var i := IndexOf(s, '.');
      var rest := s[i + 1..];
      JoinSplit(rest);
      assert Split(s) == [s[..i]] + Split(rest);
      assert s == s[..i] + "." + rest;
    }
  }

  /** Splitting joined dot-free labels gives back the labels. */
  lemma {:induction false} SplitJoin(labels: seq<string>)
    requires |labels| >= 1
    requires forall i :: 0 <= i < |labels| ==> '.' !in labels[i]
    ensures Split(Join(labels)) == labels
  {
    if |labels| > 1 {
      var rest := labels[1..];
      assert forall i :: 0 <= i < |rest| ==> rest[i] == labels[i + 1];
      SplitJoin(rest);
      assert Join(labels) == labels[0] + "." + Join(rest);
      SplitAfterLabel(labels[0], Join(rest));
      assert [labels[0]] + rest == labels;
    } else {
      assert Join(labels) == labels[0];
    }
  }

  /** Splitting a dot-free label, a dot and a tail gives the label followed by
      the tail's labels. */
  lemma SplitAfterLabel(a: string, b: string)
    requires '.' !in a
    ensures Split(a + "." + b) == [a] + Split(b)
  {
    var s := a + "." + b;
    IndexOfAfter(a, b);
    assert s[..|a|] == a;
    assert s[|a| + 1..] == b;
  }

  /** The first dot of `a + "." + b` is the one after `a` when `a` has none. */
  lemma {:induction false} IndexOfAfter(a: string, b: string)
    requires '.' !in a
    ensures '.' in a + "." + b
    ensures IndexOf(a + "." + b, '.') == |a|
  {
    var s := a + "." + b;
    assert s[|a|] == '.';
    if |a| > 0 {
      assert s[1..] == a[1..] + "." + b;
      IndexOfAfter(a[1..], b);
    }
  }

  /** Joining two non-empty runs of labels puts one dot between them. */
  lemma {:induction false} JoinAppend(front: seq<string>, back: seq<string>)
    requires |front| >= 1 && |back| >= 1
    ensures Join(front + back) == Join(front) + "." + Join(back)
  {
    if |front| > 1 {
      JoinAppend(front[1..], back);
      assert (front + back)[1..] == front[1..] + back;
    } else {
      assert (front + back)[1..] == back;
    }
  }

  predicate IsSuffix(suffix: string, s: string)
  {
    |suffix| <= |s| && s[|s| - |suffix|..] == suffix
  }

  /** The last two labels of a label sequence. */
  function LastTwo(labels: seq<string>): seq<string>
    requires |labels| >= 2
  {
    labels[|labels| - 2..]
  }

  /** `get_main_domain`, applied to a host name: with more than two labels,
      the last two rejoined; otherwise the host name itself. */
  function MainDomain(host: string): (root: string)
    ensures IsSuffix(root, host)
    ensures |Split(host)| <= 2 ==> root == host
    ensures |Split(host)| > 2 ==> Split(root) == LastTwo(Split(host))
    ensures |Split(root)| <= 2
  {
    var labels := Split(host);
    if |labels| > 2 then
      var n := |labels|;
      JoinSplit(host);
      JoinAppend(labels[..n - 2], labels[n - 2..]);
      assert labels == labels[..n - 2] + labels[n - 2..];
      SplitJoin(labels[n - 2..]);
      Join(labels[n - 2..])
    else
      host
  }

  /** The root of a root is itself. */
  lemma MainDomainIdempotent(host: string)
    ensures MainDomain(MainDomain(host)) == MainDomain(host)
  {
  }

  /** The root of a host whose labels are known. */
  lemma MainDomainOfLabels(labels: seq<string>)
    requires |labels| >= 1
    requires forall i :: 0 <= i < |labels| ==> '.' !in labels[i]
    ensures MainDomain(Join(labels)) == if |labels| > 2 then Join(LastTwo(labels)) else Join(labels)
  {
    SplitJoin(labels);
  }

  /** The two-label rule ignores multi-part public suffixes. */
  lemma MainDomainIgnoresPublicSuffixes()
    ensures MainDomain("mail.example.co.uk") == "co.uk"
  {
    var labels := ["mail", "example", "co", "uk"];
    var root := Join(labels[2..]);
    assert Join(labels[3..]) == "uk";
    assert root == "co.uk";
    assert Join(labels[1..]) == "example.co.uk";
    assert Join(labels) == "mail.example.co.uk";
    assert LastTwo(labels) == labels[2..];
    MainDomainOfLabels(labels);
  }
}
