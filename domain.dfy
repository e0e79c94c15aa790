/**
 * Site names and host names under the base domain (utils/domain.go): a site
 * `blog` is served at `blog.dreamfriday.com`, and a request host is mapped
 * back to its site, the base domain standing for "no site".
 */
module Domain {
  import opened Common

  const BaseDomain: string := "dreamfriday.com"

  /** The host name of the development server, treated as the base domain. */
  const LocalHost: string := "localhost:8081"

  /**
   * GetSubdomain (utils/domain.go:8-27). The base domain comes back for the
   * development host, for the base domain itself, for any host not ending in
   * `.dreamfriday.com`, and when what is left is empty or contains `..`;
   * otherwise exactly one trailing `.dreamfriday.com` is removed. The result is
   * never empty, and a result other than the base domain never contains `..`.
   */
  function GetSubdomain(domain: string): (r: string)
    ensures r != ""
    ensures r != BaseDomain ==> !Contains(r, "..")
    ensures domain == LocalHost || domain == BaseDomain ==> r == BaseDomain
    ensures !HasSuffix(domain, "." + BaseDomain) ==> r == BaseDomain
    ensures r != BaseDomain ==> domain == r + "." + BaseDomain
  {
    if domain == LocalHost || domain == BaseDomain then BaseDomain
    else if !HasSuffix(domain, "." + BaseDomain) then BaseDomain
    else
      var subdomain := TrimSuffix(domain, "." + BaseDomain);
      TrimmedRestores(domain, "." + BaseDomain);
      if Contains(subdomain, "..") || subdomain == "" then BaseDomain else subdomain
  }

  /**
   * SiteDomain (utils/domain.go:29-37): the empty site and the base domain
   * itself are the base domain; any other site `s` lives at `s.dreamfriday.com`.
   */
  function SiteDomain(site: string): (r: string)
    ensures HasSuffix(r, BaseDomain)
    ensures site == "" || site == BaseDomain ==> r == BaseDomain
    ensures site != "" && site != BaseDomain ==>
      HasSuffix(r, "." + BaseDomain) && TrimSuffix(r, "." + BaseDomain) == site
  {
    SuffixOfAppend(site + ".", BaseDomain);
    SuffixOfAppend(site, "." + BaseDomain);
    Assoc(site, ".", BaseDomain);
    assert (site + ("." + BaseDomain))[..|site|] == site;
    if site == "" then BaseDomain
    else if site == BaseDomain then BaseDomain
    else site + "." + BaseDomain
  }

  lemma TrimmedRestores(s: string, suffix: string)
    requires HasSuffix(s, suffix)
    ensures TrimSuffix(s, suffix) + suffix == s
  {
    assert s == s[..|s| - |suffix|] + s[|s| - |suffix|..];
  }

  /**
   * Round trip from a site: every site name that is not empty, not the base
   * domain and free of `..` is recovered from its host name.
   */
  lemma SiteRoundTrip(site: string)
    requires site != "" && site != BaseDomain && !Contains(site, "..")
    ensures GetSubdomain(SiteDomain(site)) == site
  {
    var host := SiteDomain(site);
    assert |host| == |site| + 16 by {
      assert host == site + ("." + BaseDomain);
    }
    assert |LocalHost| == 14 && |BaseDomain| == 15;
  }

  /**
   * Round trip from a host: a host that GetSubdomain maps to a site other
   * than the base domain is that site's host name.
   */
  lemma HostRoundTrip(host: string)
    requires GetSubdomain(host) != BaseDomain
    ensures SiteDomain(GetSubdomain(host)) == host
  {
    Assoc(GetSubdomain(host), ".", BaseDomain);
  }
}
