/**
 * Subject/SAN extraction: the SAN list a request asks for, and the subject
 * the token is scoped to.
 */
module Subject {
  import opened Wrappers
  import opened X509

  /** The subject used when a request has neither a common name nor any SAN. */
  const DefaultSubject: string := "step-issuer-certificate"

  /** The two SANs that certificate requests of cert-manager always carry. */
  predicate IsLoopback(s: string)
  {
    s == "127.0.0.1" || s == "localhost"
  }

  /** The index at which the in-order scan of generateSubject stops, if it stops early. */
  function FirstNonLoopback(sans: seq<string>): (r: Option<nat>)
    ensures r.Some? ==> r.value < |sans| && !IsLoopback(sans[r.value])
    ensures r.Some? ==> forall j :: 0 <= j < r.value ==> IsLoopback(sans[j])
    ensures r.None? <==> forall j :: 0 <= j < |sans| ==> IsLoopback(sans[j])
  {
    if |sans| == 0 then None
    else if !IsLoopback(sans[0]) then Some(0)
    else match FirstNonLoopback(sans[1..])
      case None => None
      case Some(i) => Some(i + 1)
  }

  /**
   * generateSubject: the first SAN that is not a loopback name; the first SAN
   * when every SAN is one; the default subject when there is no SAN.
   */
  function GenerateSubject(sans: seq<string>): (r: string)
    ensures |sans| == 0 ==> r == DefaultSubject
    ensures |sans| > 0 ==> r in sans
    ensures (exists i :: 0 <= i < |sans| && !IsLoopback(sans[i])) ==>
      exists k :: 0 <= k < |sans| && r == sans[k] && !IsLoopback(sans[k]) &&
        forall j :: 0 <= j < k ==> IsLoopback(sans[j])
    ensures |sans| > 0 && (forall i :: 0 <= i < |sans| ==> IsLoopback(sans[i])) ==> r == sans[0]
  {
    if |sans| == 0 then DefaultSubject
    else match FirstNonLoopback(sans)
      case Some(i) => sans[i]
      case None => sans[0]
  }

  /** The SANs that are not loopback names, in order: a reference for the scan. */
  function NonLoopback(sans: seq<string>): seq<string>
  {
    if |sans| == 0 then []
    else if IsLoopback(sans[0]) then NonLoopback(sans[1..])
    else [sans[0]] + NonLoopback(sans[1..])
  }

  /**
   * The scan agrees with "first of the filtered list, else the first SAN",
   * so generateSubject agrees with that reference.
   */
  lemma {:induction false} GenerateSubjectByFilter(sans: seq<string>)
    ensures FirstNonLoopback(sans).None? <==> NonLoopback(sans) == []
    ensures FirstNonLoopback(sans).Some? ==>
      NonLoopback(sans)[0] == sans[FirstNonLoopback(sans).value]
    ensures GenerateSubject(sans) ==
      if |sans| == 0 then DefaultSubject
      else if NonLoopback(sans) != [] then NonLoopback(sans)[0]
      else sans[0]
  {
    if |sans| > 0 && IsLoopback(sans[0]) {
      GenerateSubjectByFilter(sans[1..]);
    }
  }

  /** The three fallback cases, on the requests cert-manager produces. */
  lemma GenerateSubjectExamples()
    ensures GenerateSubject([]) == "step-issuer-certificate"
    ensures GenerateSubject(["127.0.0.1", "localhost"]) == "127.0.0.1"
    ensures GenerateSubject(["127.0.0.1", "app.example.com"]) == "app.example.com"
  {
    assert !IsLoopback("app.example.com");
    assert IsLoopback(["127.0.0.1", "localhost"][1]);
  }

  /** The subject of Step.Sign: the common name if there is one, else the generated subject. */
  function ResolveSubject(commonName: string, sans: seq<string>): (r: string)
    ensures commonName != "" ==> r == commonName
    ensures commonName == "" ==> r == GenerateSubject(sans)
    ensures r == commonName || r in sans || (sans == [] && r == DefaultSubject)
  {
    if commonName != "" then commonName else GenerateSubject(sans)
  }

  /** A non-empty common name decides the subject whatever the SANs are. */
  lemma CommonNameOverridesSans(commonName: string, sans1: seq<string>, sans2: seq<string>)
    requires commonName != ""
    ensures ResolveSubject(commonName, sans1) == ResolveSubject(commonName, sans2) == commonName
  {
  }

  /** Each element of xs rendered as text, in order. */
  function Rendered<T>(render: T -> string, xs: seq<T>): seq<string>
  {
    seq(|xs|, i requires 0 <= i < |xs| => render(xs[i]))
  }

  /** The SANs of a request: DNS names, e-mail addresses, IP addresses, URIs. */
  function SanList(lib: Library, csr: Csr): (r: seq<string>)
    ensures |r| == |csr.dnsNames| + |csr.emailAddresses| + |csr.ipAddresses| + |csr.uris|
    ensures r[..|csr.dnsNames|] == csr.dnsNames
    ensures r[|csr.dnsNames|..|csr.dnsNames| + |csr.emailAddresses|] == csr.emailAddresses
    ensures forall i :: 0 <= i < |csr.ipAddresses| ==>
      r[|csr.dnsNames| + |csr.emailAddresses| + i] == lib.ipString(csr.ipAddresses[i])
    ensures forall i :: 0 <= i < |csr.uris| ==>
      r[|csr.dnsNames| + |csr.emailAddresses| + |csr.ipAddresses| + i] == lib.urlString(csr.uris[i])
  {
    csr.dnsNames + csr.emailAddresses + Rendered(lib.ipString, csr.ipAddresses) + Rendered(lib.urlString, csr.uris)
  }

  /** Nothing but the request's own names enters the SAN list, and all of them do. */
  lemma SanMembership(lib: Library, csr: Csr, s: string)
    ensures s in SanList(lib, csr) <==>
      s in csr.dnsNames || s in csr.emailAddresses ||
      (exists ip :: ip in csr.ipAddresses && lib.ipString(ip) == s) ||
      (exists u :: u in csr.uris && lib.urlString(u) == s)
  {
    var ips := Rendered(lib.ipString, csr.ipAddresses);
    var urls := Rendered(lib.urlString, csr.uris);
    assert SanList(lib, csr) == csr.dnsNames + csr.emailAddresses + ips + urls;
    assert s in ips <==> exists ip :: ip in csr.ipAddresses && lib.ipString(ip) == s by {
      if s in ips {
        var i :| 0 <= i < |ips| && ips[i] == s;
        assert csr.ipAddresses[i] in csr.ipAddresses;
      }
      if exists ip :: ip in csr.ipAddresses && lib.ipString(ip) == s {
        var ip :| ip in csr.ipAddresses && lib.ipString(ip) == s;
        var i :| 0 <= i < |csr.ipAddresses| && csr.ipAddresses[i] == ip;
        assert ips[i] == s;
      }
    }
    assert s in urls <==> exists u :: u in csr.uris && lib.urlString(u) == s by {
      if s in urls {
        var i :| 0 <= i < |urls| && urls[i] == s;
        assert csr.uris[i] in csr.uris;
      }
      if exists u :: u in csr.uris && lib.urlString(u) == s {
        var u :| u in csr.uris && lib.urlString(u) == s;
        var i :| 0 <= i < |csr.uris| && csr.uris[i] == u;
        assert urls[i] == s;
      }
    }
  }

  /** The SAN assembly of Step.Sign: two appends, then one loop per rendered kind. */
  method CollectSans(lib: Library, csr: Csr) returns (sans: seq<string>)
    ensures sans == SanList(lib, csr)
  {
    sans := [] + csr.dnsNames;
    sans := sans + csr.emailAddresses;
    for i := 0 to |csr.ipAddresses|
      invariant sans == csr.dnsNames + csr.emailAddresses + Rendered(lib.ipString, csr.ipAddresses[..i])
    {
      sans := sans + [lib.ipString(csr.ipAddresses[i])];
    }
    assert csr.ipAddresses[..|csr.ipAddresses|] == csr.ipAddresses;
    for i := 0 to |csr.uris|
      invariant sans == csr.dnsNames + csr.emailAddresses + Rendered(lib.ipString, csr.ipAddresses)
                        + Rendered(lib.urlString, csr.uris[..i])
    {
      sans := sans + [lib.urlString(csr.uris[i])];
    }
    assert csr.uris[..|csr.uris|] == csr.uris;
  }
}
