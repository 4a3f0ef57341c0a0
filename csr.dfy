/** decodeCSR: the checks an incoming request passes before anything is signed. */
module CsrDecoder {
  import opened Wrappers
  import opened X509

  /** Why a request is rejected, one case per error return of decodeCSR. */
  datatype DecodeError =
    | UnexpectedPem                 // no block, or bytes after the block
    | NotCertificateRequest         // a block of another type
    | ParseFailed(cause: string)    // the block is not a PKCS #10 structure
    | BadSignature(cause: string)   // the request's self-signature does not verify

  /** The text of the Go error for each rejection. */
  function Message(e: DecodeError): string
  {
    match e
    case UnexpectedPem => "unexpected CSR PEM on sign request"
    case NotCertificateRequest => "PEM is not a certificate request"
    case ParseFailed(cause) => "error parsing certificate request: " + cause
    case BadSignature(cause) => "error checking certificate request signature: " + cause
  }

  /**
   * Each error text names the check that failed and carries the cause: no two
   * rejections share a text.
   */
  lemma MessageIdentifiesRejection(e1: DecodeError, e2: DecodeError)
    requires Message(e1) == Message(e2)
    ensures e1 == e2
  {
    var m := Message(e1);
    if e1.ParseFailed? && e2.ParseFailed? {
      var n := |"error parsing certificate request: "|;
      assert e1.cause == m[n..] == e2.cause;
    } else if e1.BadSignature? && e2.BadSignature? {
      var n := |"error checking certificate request signature: "|;
      assert e1.cause == m[n..] == e2.cause;
    } else {
      assert m[0] == Message(e2)[0] && m[6] == Message(e2)[6];
    }
  }

  /** The input is exactly one block with nothing after it. */
  predicate SingleBlock(d: PemDecoded)
  {
    d.block.Some? && |d.rest| == 0
  }

  /**
   * decodeCSR. The checks run in order and the first that fails decides the
   * error; only a request that passes all four is returned, and it is the
   * parsed request itself.
   */
  function DecodeCsr(lib: Library, data: Bytes): (r: Result<Csr, DecodeError>)
    ensures var d := lib.pemDecode(data);
      r == Failure(UnexpectedPem) <==> !SingleBlock(d)
    ensures var d := lib.pemDecode(data);
      r == Failure(NotCertificateRequest) <==>
        SingleBlock(d) && d.block.value.blockType != CsrLabel
    ensures var d := lib.pemDecode(data);
      (r.Failure? && r.error.ParseFailed?) <==>
        SingleBlock(d) && d.block.value.blockType == CsrLabel &&
        lib.parseCsr(d.block.value.bytes).Failure?
    ensures var d := lib.pemDecode(data);
      (r.Failure? && r.error.ParseFailed?) ==>
        r.error.cause == lib.parseCsr(d.block.value.bytes).error
    ensures var d := lib.pemDecode(data);
      (r.Failure? && r.error.BadSignature?) <==>
        SingleBlock(d) && d.block.value.blockType == CsrLabel &&
        lib.parseCsr(d.block.value.bytes).Success? &&
        lib.checkSignature(lib.parseCsr(d.block.value.bytes).value).Some?
    ensures var d := lib.pemDecode(data);
      (r.Failure? && r.error.BadSignature?) ==>
        r.error.cause == lib.checkSignature(lib.parseCsr(d.block.value.bytes).value).value
    ensures var d := lib.pemDecode(data);
      r.Success? <==>
        SingleBlock(d) && d.block.value.blockType == CsrLabel &&
        lib.parseCsr(d.block.value.bytes).Success? &&
        lib.checkSignature(lib.parseCsr(d.block.value.bytes).value).None?
    ensures r.Success? ==> r.value == lib.parseCsr(lib.pemDecode(data).block.value.bytes).value
  {
    var d := lib.pemDecode(data);
    if d.block == None || |d.rest| > 0 then Failure(UnexpectedPem)
    else if d.block.value.blockType != CsrLabel then Failure(NotCertificateRequest)
    else match lib.parseCsr(d.block.value.bytes)
      case Failure(cause) => Failure(ParseFailed(cause))
      case Success(csr) =>
        match lib.checkSignature(csr)
        case Some(cause) => Failure(BadSignature(cause))
        case None => Success(csr)
  }

  /** Framing is judged before the type: trailing bytes reject even a well-formed request. */
  lemma TrailingBytesRejectFirst(lib: Library, data: Bytes)
    requires lib.pemDecode(data).block.Some? && |lib.pemDecode(data).rest| > 0
    ensures DecodeCsr(lib, data) == Failure(UnexpectedPem)
  {
  }

  /** Decoding depends on the input only through what pem.Decode makes of it. */
  lemma DecodeDependsOnlyOnPem(lib: Library, data1: Bytes, data2: Bytes)
    requires lib.pemDecode(data1) == lib.pemDecode(data2)
    ensures DecodeCsr(lib, data1) == DecodeCsr(lib, data2)
  {
  }
}
