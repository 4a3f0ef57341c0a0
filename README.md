# step-issuer signing adapter, modelled in Dafny

This project models the request side of the step-issuer provisioner (`provisioners/step.go`).
The provisioner signs cert-manager certificate requests with a smallstep CA. The model has five modules:

- `Wrappers`: `Option` and `Result`. They stand for Go's nil results and `(value, error)` pairs.
- `X509`: the data that the adapter exchanges with Go's `crypto/x509` and `encoding/pem`.
  - This covers the parsed request, the decoded PEM block and the block labels of RFC 7468 (sections 5 and 7).
  - The library routines the adapter calls are the opaque fields of a `Library` value: `pem.Decode`, `pem.Encode`, `x509.ParseCertificateRequest`, `CheckSignature`, `net.IP.String` and `url.URL.String`.
  - `EncodeX509` is `encodeX509`: the raw DER bytes passed to `pem.Encode` as a `"CERTIFICATE"` block.
- `Subject`: the subject fallback policy (`generateSubject`), subject resolution, and the SAN list assembled by `Step.Sign`.
  - The scan is a recursive function, with a filter-based reference definition beside it.
  - The SAN assembly is a method with the source's two loops.
- `CsrDecoder`: `decodeCSR`, its ordered chain of four rejections, and the Go error texts (`Message`). `Sign` reports a rejection as the structured `DecodeError`; `Message` gives the text Go returns for it.
- `Signer`: `Step.Sign`.
  - The CA (`Roots`, `Token`, `Sign`) is a `Provisioner` value whose fields give each call's reply.
  - The method returns Go's `(certPem, caPem, err)` and also the list of CA calls it made, in order.
  - The method is proved equal to the function `Pipeline`. The lemmas about stage order, token scoping, `NotAfter` and the outputs are stated about `Pipeline`.
  - The root bundle is built by a loop. Its invariant says that after `i` rounds the accumulator holds exactly the encodings of the first `i` roots.

## Model

| member | source | states |
|---|---|---|
| `Subject.FirstNonLoopback` | provisioners/step.go:206-210 | The scan stops at an index only if that entry is neither `127.0.0.1` nor `localhost` and every earlier entry is one of them. It runs off the end exactly when every entry is a loopback name. |
| `Subject.GenerateSubject` | provisioners/step.go:198-212 | No SANs gives `"step-issuer-certificate"`. Otherwise the result is a SAN. If some entry is not a loopback name, the result is the first such entry and every entry before it is a loopback name. If every entry is a loopback name, the result is `sans[0]`. |
| `Subject.GenerateSubjectByFilter` | provisioners/step.go:202-212 | The early-return scan finds nothing exactly when the list filtered of loopback names is empty, and otherwise finds the head of that list. So `generateSubject` equals an independent definition: the default literal for no SANs, else the first non-loopback SAN, else `sans[0]`. |
| `Subject.GenerateSubjectExamples` | provisioners/step.go:198-212 | `[]` gives `step-issuer-certificate`. `["127.0.0.1","localhost"]` gives `127.0.0.1`. `["127.0.0.1","app.example.com"]` gives `app.example.com`. |
| `Subject.ResolveSubject` | provisioners/step.go:129-132 | A non-empty CommonName is the subject. An empty one defers to `generateSubject`. The subject is always the CommonName, a SAN, or the default literal when there are no SANs. |
| `Subject.CommonNameOverridesSans` | provisioners/step.go:129-132 | When the CommonName is non-empty, the SANs do not affect the subject. |
| `Subject.SanList` | provisioners/step.go:120-127 | The length is the sum of the four counts. DNS names come first, then e-mail addresses, then the rendered IPs, then the rendered URIs, each in their own order and with duplicates kept. |
| `Subject.SanMembership` | provisioners/step.go:120-127 | A string is a SAN exactly when it is a DNS name, an e-mail address, the text of an IP address, or the text of a URI of the request. |
| `Subject.CollectSans` | provisioners/step.go:120-127 | The appends and the two loops of `Step.Sign` build exactly `SanList`. |
| `CsrDecoder.DecodeCsr` | provisioners/step.go:169-186 | Each error holds exactly when its check is the first to fail: no block or trailing bytes, then a type other than `CERTIFICATE REQUEST`, then a parse failure, then a signature failure. Parse and signature errors carry the underlying cause. Success holds exactly when all four checks pass, and returns the parsed request. |
| `CsrDecoder.MessageIdentifiesRejection` | provisioners/step.go:172-184 | The Go error texts of the four rejections are all distinct. Each names the check that failed, and the parse and signature texts carry their cause, so equal texts mean equal rejections. |
| `CsrDecoder.TrailingBytesRejectFirst` | provisioners/step.go:172-177 | Trailing bytes reject the input as unexpected PEM whatever the block's type or contents. |
| `CsrDecoder.DecodeDependsOnlyOnPem` | provisioners/step.go:171-172 | Two inputs that `pem.Decode` splits alike decode alike. |
| `Signer.EncodeAllSpec` | provisioners/step.go:104-112 | The bundle is built exactly when every root encodes. It is then the in-order concatenation of their encodings. Otherwise the error is that of the first root that fails to encode. |
| `Signer.EncodeAllFailureSticks` | provisioners/step.go:106-110 | Once a root fails to encode, later roots do not change the outcome. |
| `Signer.EncodeRoots` | provisioners/step.go:104-112 | On success the bundle is the concatenation of the roots' encodings in the CA's order. On an encoding error the bundle is empty and the error is that of the first failing root. |
| `Signer.Sign` | provisioners/step.go:95-167 | The outputs and the CA calls made are those of `Pipeline`. On any error both byte outputs are empty. |
| `Signer.RootsFailureComesFirst` | provisioners/step.go:98-102 | A failed root fetch is returned as is, before the request is decoded. No other CA call is made. |
| `Signer.RejectedRequestGetsNoToken` | provisioners/step.go:114-118 | A request that `decodeCSR` rejects is reported with that rejection. Only the root fetch has been made, so no token is requested. |
| `Signer.CallOrder` | provisioners/step.go:98-153 | The CA calls made are always a prefix of Roots, Token, Sign. Each is made at most once. |
| `Signer.CallsAreScopedToRequest` | provisioners/step.go:129-150 | A token is requested only for a decoded request. It is requested for exactly the resolved subject and the SAN list. The sign request carries that request and that token. Its `NotAfter` is unset exactly when no duration is given, and otherwise is that duration. |
| `Signer.SuccessfulSign` | provisioners/step.go:155-166 | Sign succeeds exactly when every stage does: the roots are fetched and encode, the request decodes, a token is issued for its resolved subject and SAN list, the CA signs that request, and both returned certificates encode. The chain is then the leaf's encoding followed by the intermediate's, and the bundle is the concatenation of the roots' encodings. |
| `Signer.OutputsAreCertificateBlocks` | provisioners/step.go:188-196 | On success every root and both returned certificates are encoded as a `CERTIFICATE` block of their raw DER bytes. The chain is the leaf's block followed by the intermediate's. |

## Left out

- `collection`, `Load` and `Store` (provisioners/step.go:18, 56-69) are left out. They are a process-wide concurrent registry and hold no logic of their own.
- `New` and `createIdentityCertificate` (provisioners/step.go:29-54, 71-93) are left out. They build the provisioner, probe the CA's version and bootstrap an mTLS identity, all through the smallstep `ca` client library, which is not part of this model. Abstractly, `New` bootstraps only when `Version` succeeds and reports that client authentication is required, and a bootstrap error aborts construction.
- The `Step` receiver is represented only by its provisioner's replies. `Sign` never reads the `name` field, which only the bootstrap uses.
- The internals of `pem.Decode` and `pem.Encode` are opaque functions: base64, line wrapping and PEM headers. So the round trip "decoding an encoded certificate gives back its bytes" is not modelled. `decodeCSR` never reads a block's headers, so `Block` has none.
- `x509.ParseCertificateRequest` and `CheckSignature` (ASN.1 parsing and cryptographic verification) are opaque functions. So are `net.IP.String` and `url.URL.String`.
- The CA is modelled by fixed replies to each call. Network failures, retries and `context` cancellation appear only as a failed reply. The caller's `ctx` is not modelled.
- `capi.TimeDuration` is reduced to "unset" or a relative duration in nanoseconds. `SetDuration`'s internals and the wire schema of `capi.SignRequest` are left out. The model gives a supplied duration of zero as `Relative(0)`. If `SetDuration(0)` leaves the zero value, as smallstep's library may, Go cannot tell a zero duration from no duration. That library is not part of this model, so this is not settled here.
- Signer.Sign: an error result is modelled as empty byte outputs. Go returns nil slices, and on success with no roots Go's `caPem` is also nil. The model does not tell nil from empty.
