/**
 * The data the signing adapter exchanges with Go's crypto/x509 and
 * encoding/pem packages, and those packages' routines as opaque functions.
 */
module X509 {
  import opened Wrappers

  newtype byte = x: int | 0 <= x < 256

  type Bytes = seq<byte>

  /** An IP address as its raw octets (Go's net.IP). */
  type IP = seq<byte>

  /** A URI SAN (Go's url.URL): every part that url.URL.String renders. */
  datatype URL = URL(
    scheme: string,
    opaquePart: string,
    user: Option<string>,
    host: string,
    path: string,
    rawQuery: string,
    fragment: string)

  /** The fields of a parsed PKCS #10 request (Go's x509.CertificateRequest) that signing reads. */
  datatype Csr = Csr(
    raw: Bytes,
    commonName: string,
    dnsNames: seq<string>,
    emailAddresses: seq<string>,
    ipAddresses: seq<IP>,
    uris: seq<URL>)

  /** One block of the textual encoding of RFC 7468: its type label and its decoded contents. */
  datatype Block = Block(blockType: string, bytes: Bytes)

  /** What pem.Decode returns: the first block found, if any, and the input that follows it. */
  datatype PemDecoded = PemDecoded(block: Option<Block>, rest: Bytes)

  /** The label RFC 7468 section 7 gives to a PKCS #10 certification request. */
  const CsrLabel: string := "CERTIFICATE REQUEST"

  /** The label RFC 7468 section 5 gives to a public-key certificate. */
  const CertificateLabel: string := "CERTIFICATE"

  /**
   * The library routines the adapter calls but does not implement. Each is a
   * total function, so the model holds for every behaviour they may have.
   * A failing routine yields the text of its Go error.
   */
  datatype Library = Library(
    pemDecode: Bytes -> PemDecoded,           // pem.Decode
    pemEncode: Block -> Result<Bytes, string>, // pem.Encode into a fresh buffer
    parseCsr: Bytes -> Result<Csr, string>,    // x509.ParseCertificateRequest
    checkSignature: Csr -> Option<string>,     // (*x509.CertificateRequest).CheckSignature
    ipString: IP -> string,                    // net.IP.String
    urlString: URL -> string)                  // url.URL.String

  /** encodeX509: the certificate's raw DER bytes as one "CERTIFICATE" block. */
  function EncodeX509(lib: Library, raw: Bytes): Result<Bytes, string>
  {
    lib.pemEncode(Block(CertificateLabel, raw))
  }
}
