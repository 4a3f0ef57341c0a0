/**
 * Step.Sign: fetch the CA's roots, check the request, ask for a token scoped
 * to the request's names, have the CA sign, and encode what comes back.
 * The CA is an oracle: each call's reply is fixed by its arguments, and the
 * model records which calls are made, in order.
 */
module Signer {
  import opened Wrappers
  import opened X509
  import opened Subject
  import opened CsrDecoder

  /** capi.TimeDuration as the sign request uses it: its zero value, or a duration in nanoseconds. */
  datatype TimeDuration = Unset | Relative(nanoseconds: int)

  /** capi.SignRequest: the request, the one-time token and the validity bound. */
  datatype SignRequest = SignRequest(csr: Csr, ott: string, notAfter: TimeDuration)

  /** The raw DER bytes of the issued certificate and of the issuing CA's certificate. */
  datatype SignResponse = SignResponse(serverRaw: Bytes, caRaw: Bytes)

  /** The replies of ca.Provisioner's three calls; a failure carries the error's text. */
  datatype Provisioner = Provisioner(
    roots: Result<seq<Bytes>, string>,                        // Roots(): raw DER of each root, in the CA's order
    token: (string, seq<string>) -> Result<string, string>,   // Token(subject, sans...)
    sign: SignRequest -> Result<SignResponse, string>)        // Sign(request)

  /** One call made to the CA. */
  datatype Call = RootsCall | TokenCall(subject: string, sans: seq<string>) | SignCall(request: SignRequest)

  /** The parts of cert-manager's CertificateRequest spec that signing reads. */
  datatype CertificateRequest = CertificateRequest(request: Bytes, duration: Option<int>)

  /** A rejected request, or an error forwarded unchanged from the CA or the encoder. */
  datatype SignError = Rejected(reason: DecodeError) | Upstream(cause: string)

  /** The encoded chain (leaf, then intermediate) and the encoded root bundle. */
  datatype SignOutput = SignOutput(chain: Bytes, bundle: Bytes)

  /** What a call of Sign returns, and the CA calls it made. */
  datatype Run = Run(outcome: Result<SignOutput, SignError>, calls: seq<Call>)

  /** The root bundle: each root encoded in turn, stopping at the first failure. */
  function EncodeAll(lib: Library, raws: seq<Bytes>): Result<Bytes, string>
    decreases |raws|
  {
    if |raws| == 0 then Success([])
    else match EncodeAll(lib, raws[..|raws| - 1])
      case Failure(e) => Failure(e)
      case Success(prefix) =>
        match EncodeX509(lib, raws[|raws| - 1])
        case Failure(e) => Failure(e)
        case Success(b) => Success(prefix + b)
  }

  predicate AllEncode(lib: Library, raws: seq<Bytes>)
  {
    forall i :: 0 <= i < |raws| ==> EncodeX509(lib, raws[i]).Success?
  }

  /** Reference for the bundle: the encodings of the roots, concatenated in order. */
  function Concat(lib: Library, raws: seq<Bytes>): Bytes
    requires AllEncode(lib, raws)
  {
    if |raws| == 0 then [] else EncodeX509(lib, raws[0]).value + Concat(lib, raws[1..])
  }

  lemma {:induction false} ConcatAppend(lib: Library, raws: seq<Bytes>, raw: Bytes)
    requires AllEncode(lib, raws + [raw])
    ensures AllEncode(lib, raws) && EncodeX509(lib, raw).Success?
    ensures Concat(lib, raws + [raw]) == Concat(lib, raws) + EncodeX509(lib, raw).value
  {
    assert forall i :: 0 <= i < |raws| ==> raws[i] == (raws + [raw])[i];
    assert raw == (raws + [raw])[|raws|];
    if |raws| > 0 {
      assert (raws + [raw])[1..] == raws[1..] + [raw];
      ConcatAppend(lib, raws[1..], raw);
    }
  }

  /**
   * The bundle is built exactly when every root encodes, and is then the
   * concatenation of their encodings in order; otherwise the error is that of
   * the first root that fails.
   */
  lemma {:induction false} EncodeAllSpec(lib: Library, raws: seq<Bytes>)
    ensures EncodeAll(lib, raws).Success? <==> AllEncode(lib, raws)
    ensures EncodeAll(lib, raws).Success? ==> EncodeAll(lib, raws).value == Concat(lib, raws)
    ensures EncodeAll(lib, raws).Failure? ==>
      exists k :: 0 <= k < |raws| && AllEncode(lib, raws[..k]) &&
        EncodeX509(lib, raws[k]) == Failure(EncodeAll(lib, raws).error)
    decreases |raws|
  {
    if |raws| > 0 {
      var n := |raws| - 1;
      var prefix := raws[..n];
      EncodeAllSpec(lib, prefix);
      assert raws == prefix + [raws[n]];
      if EncodeAll(lib, prefix).Success? && EncodeX509(lib, raws[n]).Success? {
        ConcatAppend(lib, prefix, raws[n]);
      } else if EncodeAll(lib, prefix).Failure? {
        var k :| 0 <= k < n && AllEncode(lib, prefix[..k]) &&
          EncodeX509(lib, prefix[k]) == Failure(EncodeAll(lib, prefix).error);
        assert prefix[..k] == raws[..k];
        assert !AllEncode(lib, prefix);
      } else {
        assert raws[..n] == prefix;
      }
    }
  }

  /** Once a prefix fails to encode, the whole list fails with the same error. */
  lemma {:induction false} EncodeAllFailureSticks(lib: Library, raws: seq<Bytes>, i: nat)
    requires i <= |raws|
    requires EncodeAll(lib, raws[..i]).Failure?
    ensures EncodeAll(lib, raws) == EncodeAll(lib, raws[..i])
    decreases |raws| - i
  {
    if i < |raws| {
      assert raws[..i + 1][..i] == raws[..i];
      EncodeAllFailureSticks(lib, raws, i + 1);
    } else {
      assert raws[..i] == raws;
    }
  }

  /**
   * The root loop of Step.Sign. After i rounds the accumulator holds exactly
   * the encodings of the first i roots; an encoding error ends it with no bundle.
   */
  method EncodeRoots(lib: Library, roots: seq<Bytes>) returns (caPem: Bytes, err: Option<string>)
    ensures err.None? <==> EncodeAll(lib, roots).Success?
    ensures err.None? ==> caPem == EncodeAll(lib, roots).value
    ensures err.None? ==> AllEncode(lib, roots) && caPem == Concat(lib, roots)
    ensures err.Some? ==> caPem == [] && err.value == EncodeAll(lib, roots).error
  {
    caPem := [];
    var i := 0;
    while i < |roots|
      invariant 0 <= i <= |roots|
      invariant EncodeAll(lib, roots[..i]) == Success(caPem)
      invariant AllEncode(lib, roots[..i]) && caPem == Concat(lib, roots[..i])
    {
      assert roots[..i + 1][..i] == roots[..i];
      var b := EncodeX509(lib, roots[i]);
      if b.Failure? {
        EncodeAllFailureSticks(lib, roots, i + 1);
        return [], Some(b.error);
      }
      caPem := caPem + b.value;
      i := i + 1;
      EncodeAllSpec(lib, roots[..i]);
    }
    assert roots[..i] == roots;
    err := None;
  }

  /** The sign request's validity bound: set only when a duration is given. */
  function NotAfter(duration: Option<int>): TimeDuration
  {
    match duration
    case None => Unset
    case Some(d) => Relative(d)
  }

  /** Step.Sign as a function of the CA's replies and the request. */
  function Pipeline(ca: Provisioner, lib: Library, cr: CertificateRequest): Run
  {
    match ca.roots
    case Failure(e) => Run(Failure(Upstream(e)), [RootsCall])
    case Success(roots) =>
      match EncodeAll(lib, roots)
      case Failure(e) => Run(Failure(Upstream(e)), [RootsCall])
      case Success(bundle) =>
        match DecodeCsr(lib, cr.request)
        case Failure(reason) => Run(Failure(Rejected(reason)), [RootsCall])
        case Success(csr) =>
          var sans := SanList(lib, csr);
          var subject := ResolveSubject(csr.commonName, sans);
          var tokenCalls := [RootsCall, TokenCall(subject, sans)];
          match ca.token(subject, sans)
          case Failure(e) => Run(Failure(Upstream(e)), tokenCalls)
          case Success(ott) =>
            var req := SignRequest(csr, ott, NotAfter(cr.duration));
            var calls := tokenCalls + [SignCall(req)];
            match ca.sign(req)
            case Failure(e) => Run(Failure(Upstream(e)), calls)
            case Success(resp) =>
              match EncodeX509(lib, resp.serverRaw)
              case Failure(e) => Run(Failure(Upstream(e)), calls)
              case Success(certPem) =>
                match EncodeX509(lib, resp.caRaw)
                case Failure(e) => Run(Failure(Upstream(e)), calls)
                case Success(chainPem) => Run(Success(SignOutput(certPem + chainPem, bundle)), calls)
  }

  /**
   * Step.Sign. Returns Go's (certPem, caPem, err) and the CA calls made; on
   * any error both byte outputs are empty.
   */
  method Sign(ca: Provisioner, lib: Library, cr: CertificateRequest)
    returns (certPem: Bytes, caPem: Bytes, err: Option<SignError>, calls: seq<Call>)
    ensures calls == Pipeline(ca, lib, cr).calls
    ensures err.None? <==> Pipeline(ca, lib, cr).outcome.Success?
    ensures err.None? ==> SignOutput(certPem, caPem) == Pipeline(ca, lib, cr).outcome.value
    ensures err.Some? ==> certPem == [] && caPem == [] && err.value == Pipeline(ca, lib, cr).outcome.error
  {
    certPem, caPem := [], [];
    calls := [RootsCall];
    var roots := ca.roots;
    if roots.Failure? {
      return [], [], Some(Upstream(roots.error)), calls;
    }

    var bundle, encodeErr := EncodeRoots(lib, roots.value);
    if encodeErr.Some? {
      return [], [], Some(Upstream(encodeErr.value)), calls;
    }

    var decoded := DecodeCsr(lib, cr.request);
    if decoded.Failure? {
      return [], [], Some(Rejected(decoded.error)), calls;
    }
    var csr := decoded.value;

    var sans := CollectSans(lib, csr);
    var subject := csr.commonName;
    if subject == "" {
      subject := GenerateSubject(sans);
    }

    calls := calls + [TokenCall(subject, sans)];
    var token := ca.token(subject, sans);
    if token.Failure? {
      return [], [], Some(Upstream(token.error)), calls;
    }

    var notAfter := Unset;
    if cr.duration.Some? {
      notAfter := Relative(cr.duration.value);
    }

    var req := SignRequest(csr, token.value, notAfter);
    calls := calls + [SignCall(req)];
    var resp := ca.sign(req);
    if resp.Failure? {
      return [], [], Some(Upstream(resp.error)), calls;
    }

    var leaf := EncodeX509(lib, resp.value.serverRaw);
    if leaf.Failure? {
      return [], [], Some(Upstream(leaf.error)), calls;
    }
    var intermediate := EncodeX509(lib, resp.value.caRaw);
    if intermediate.Failure? {
      return [], [], Some(Upstream(intermediate.error)), calls;
    }
    certPem := leaf.value;
    certPem := certPem + intermediate.value;
    caPem := bundle;
    err := None;
  }

  /** A failed root fetch is reported before the request is looked at, and nothing else is asked of the CA. */
  lemma RootsFailureComesFirst(ca: Provisioner, lib: Library, cr: CertificateRequest)
    requires ca.roots.Failure?
    ensures Pipeline(ca, lib, cr) == Run(Failure(Upstream(ca.roots.error)), [RootsCall])
  {
  }

  /** A rejected request is reported as such and no token is requested for it. */
  lemma RejectedRequestGetsNoToken(ca: Provisioner, lib: Library, cr: CertificateRequest)
    requires ca.roots.Success? && AllEncode(lib, ca.roots.value)
    requires DecodeCsr(lib, cr.request).Failure?
    ensures Pipeline(ca, lib, cr).outcome == Failure(Rejected(DecodeCsr(lib, cr.request).error))
    ensures forall c :: c in Pipeline(ca, lib, cr).calls ==> c == RootsCall
  {
    EncodeAllSpec(lib, ca.roots.value);
  }

  /** The calls made are always a prefix of Roots, Token, Sign: one of each at most, in that order. */
  lemma CallOrder(ca: Provisioner, lib: Library, cr: CertificateRequest)
    ensures var calls := Pipeline(ca, lib, cr).calls;
      1 <= |calls| <= 3 && calls[0] == RootsCall &&
      (|calls| >= 2 ==> calls[1].TokenCall?) &&
      (|calls| == 3 ==> calls[2].SignCall?)
  {
  }

  /**
   * The token is requested for exactly the resolved subject and the SAN list of
   * the decoded request, and the CA is asked to sign that request with that
   * token and a bound set only from the requested duration.
   */
  lemma CallsAreScopedToRequest(ca: Provisioner, lib: Library, cr: CertificateRequest)
    requires |Pipeline(ca, lib, cr).calls| >= 2
    ensures DecodeCsr(lib, cr.request).Success?
    ensures var csr := DecodeCsr(lib, cr.request).value;
      var calls := Pipeline(ca, lib, cr).calls;
      calls[1] == TokenCall(ResolveSubject(csr.commonName, SanList(lib, csr)), SanList(lib, csr))
    ensures var csr := DecodeCsr(lib, cr.request).value;
      var calls := Pipeline(ca, lib, cr).calls;
      |calls| == 3 ==>
        ca.token(calls[1].subject, calls[1].sans).Success? &&
        calls[2].request.csr == csr &&
        calls[2].request.ott == ca.token(calls[1].subject, calls[1].sans).value &&
        (calls[2].request.notAfter == Unset <==> cr.duration.None?) &&
        (cr.duration.Some? ==> calls[2].request.notAfter == Relative(cr.duration.value))
  {
  }

  /**
   * Sign succeeds exactly when every stage does: the roots are fetched and
   * encode, the request decodes, the token for its subject and SANs is issued,
   * the CA signs, and both returned certificates encode. It then returns the
   * leaf's encoding followed by the intermediate's, and the roots' encodings
   * in the CA's order.
   */
  lemma SuccessfulSign(ca: Provisioner, lib: Library, cr: CertificateRequest)
    ensures Pipeline(ca, lib, cr).outcome.Success? <==>
      ca.roots.Success? && AllEncode(lib, ca.roots.value) &&
      DecodeCsr(lib, cr.request).Success? &&
      (var csr := DecodeCsr(lib, cr.request).value;
       var sans := SanList(lib, csr);
       var token := ca.token(ResolveSubject(csr.commonName, sans), sans);
       token.Success? &&
       (var resp := ca.sign(SignRequest(csr, token.value, NotAfter(cr.duration)));
        resp.Success? &&
        EncodeX509(lib, resp.value.serverRaw).Success? &&
        EncodeX509(lib, resp.value.caRaw).Success?))
    ensures Pipeline(ca, lib, cr).outcome.Success? ==>
      var csr := DecodeCsr(lib, cr.request).value;
      var sans := SanList(lib, csr);
      var token := ca.token(ResolveSubject(csr.commonName, sans), sans);
      var resp := ca.sign(SignRequest(csr, token.value, NotAfter(cr.duration))).value;
      Pipeline(ca, lib, cr).outcome.value ==
        SignOutput(EncodeX509(lib, resp.serverRaw).value + EncodeX509(lib, resp.caRaw).value,
                   Concat(lib, ca.roots.value))
  {
    if ca.roots.Success? {
      EncodeAllSpec(lib, ca.roots.value);
    }
  }

  /**
   * Every certificate returned is encoded as a "CERTIFICATE" block of its raw
   * DER bytes: the chain is the leaf's block then the intermediate's.
   */
  lemma OutputsAreCertificateBlocks(ca: Provisioner, lib: Library, cr: CertificateRequest)
    requires Pipeline(ca, lib, cr).outcome.Success?
    ensures ca.roots.Success?
    ensures forall i :: 0 <= i < |ca.roots.value| ==>
      lib.pemEncode(Block("CERTIFICATE", ca.roots.value[i])).Success?
    ensures |Pipeline(ca, lib, cr).calls| == 3
    ensures var resp := ca.sign(Pipeline(ca, lib, cr).calls[2].request);
      resp.Success? &&
      lib.pemEncode(Block("CERTIFICATE", resp.value.serverRaw)).Success? &&
      lib.pemEncode(Block("CERTIFICATE", resp.value.caRaw)).Success? &&
      Pipeline(ca, lib, cr).outcome.value.chain ==
        lib.pemEncode(Block("CERTIFICATE", resp.value.serverRaw)).value +
        lib.pemEncode(Block("CERTIFICATE", resp.value.caRaw)).value
  {
    EncodeAllSpec(lib, ca.roots.value);
  }
}
