# Verified model of the sigstore signing library

This project models, in Dafny, the parts of the sigstore Go library whose correctness spans several functions or whole
runs, and proves what they keep.

- **Wire encodings that undo each other.** The OtherName subject alternative name (`Sans`), the Azure key vault's raw
  signatures (`Azure`), the two ECDSA signature encodings (`Ecdsa`), lists of PEM certificates (`Certificates`) and
  armored SSH signatures (`SshSig`), over unbounded byte strings. They share small layers: big-endian naturals
  (`Bytes`), DER elements (`Der`, `DerInteger`, `Oid`), UTF-8 and BMPString text (`Utf8`, `Bmp`), base64 and PEM (`Base64`, `Pem`) and SSH strings
  (`SshWire`).
- **The TUF client.** The target cache in memory and on disk (`TufCache`), the copy of metadata between stores
  (`TufStores`), the client's operations as a class over the cache, the trusted metadata and the process-wide singleton
  (`TufClient`), runs over processes that live one after another on the same disk (`TufRuns`), concurrent first calls as
  an interleaving state machine (`TufSingleton`) that is linearizable to the sequential one (`TufLinear`), and the query
  that gives up its lock between items (`TufQuery`).
- **Options, loaders and the plugin protocol.** Option lists as a fold (`Options`), their encoding for a command-line
  plugin (`PluginEncoding`), client and dispatcher of that plugin (`PluginProtocol`), the default loaders and their option
  filter (`Loading`), digest selection (`Digest`), and GCP's verification with a retry (`GcpVerify`).

The Go code that loops or updates fields is modelled by methods and classes, each proved equal to a function of its
inputs or of its old state; the lemmas are about those functions. Code made of expressions is modelled by functions.

Not part of the repository, and so modelled from their own specifications or taken as contracts: `encoding/asn1` and
`cryptobyte` (X.690), `encoding/pem` (RFC 7468), `encoding/base64` (RFC 4648), `ssh.Marshal` and `ssh.Unmarshal` (section
5 of RFC 4251), go-tuf's client, and ttlcache. go-tuf is a contract, stated in `TufClient.Contract`: a successful update
reports at least every target whose file metadata changed, and a download yields only bytes valid for the new trusted
metadata. Every answer of go-tuf, the file system and the clock is chosen by the environment. Hash functions and
signature schemes are abstract functions; where a lemma needs a law of theirs, it is a `requires`.

Where the code and its documentation differ, the model follows the code:

- `pkg/signature/algorithm_registry.go:245` says that Ed25519 keys default to Ed25519ph; the code (lines 291-295) returns
  pure Ed25519 unless the option asks for the other.
- `pkg/signature/ssh/README.md:87` says that the reserved field must be empty; `Decode` never looks at it
  (`SshSig.DecodeBlock`).

Properties one would expect that the code does not have. For each, the exact condition under which it holds, and an
input on which it does not:

- Azure's conversions lose leading zero bytes: `Azure.RawRoundTrip`, `Azure.FixedWidthRoundTrip`. DER of other origin
  also loses signs and the border between its integers: `Azure.RawHalvesIff`, `Azure.LostPairExample`.
- Fixed-width ECDSA bytes that read as DER are checked as another pair: `Ecdsa.CollisionChecksAnotherPair`,
  `Ecdsa.CollisionExample`.
- An SSH `Signer` does not accept what it signs: `SshSig.SignMessageVerifiesOnlyPreimages`.
- The plugin protocol changes a call's verdict in two ways. An error with an empty text is read as success:
  `PluginProtocol.RemoteRefinesDirectIff`, `PluginProtocol.SilentRejectionIsAccepted`. And options that the caller does
  not give, or gives as zero, replace or fail to replace what the implementation starts from, such as the key version of
  a pinned Vault client (pkg/signature/kms/hashivault/client.go:279): `PluginProtocol.VerdictsKeptIff`,
  `PluginProtocol.SuccessKeptIff`, `PluginProtocol.AllVerdictsKeptIff`, `PluginProtocol.RejectionTurnsAcceptance`, `PluginProtocol.PinnedKeyVersionIsLost`.
- A nil `WithRSAPSS` withdraws PSS from the registry's choice but not from the loader's: `Loading.DefaultLoaderIff`,
  `Loading.WithdrawnPssExample`.
- GCP's retry is lost on signatures that can be read only once: `GcpVerify.OneShotLosesRotation`,
  `GcpVerify.LostRotationExample`.
- Target names that share a cache path overwrite each other: `TufCache.CacheRefinesMapIff`,
  `TufCache.SharedPathExample`.
- A successful initialization need not make every target retrievable, and a target whose download failed stays missing
  until an update reports it again: `TufRuns.GetSucceedsIff`, `TufRuns.FailedDownloadIsNeverRepaired`,
  `TufRuns.FailedDownloadExample`.
- A get that straddles an update can fail: `TufRuns.StraddlingGetIff`, `TufRuns.StraddlingGetExample`.

## Model

| member | source | states |
|---|---|---|
| Sans.RoundTrip | pkg/cryptoutils/sans.go:54-128 | A marshalled name, anywhere among non-SAN extensions, comes back exactly when it is valid UTF-8 and shorter than 2^31 - 30 octets; otherwise reading fails |
| Sans.UnmarshalSucceedsIff | pkg/cryptoutils/sans.go:77-128 | Reading yields a name if and only if every SAN extension is one whole universal SEQUENCE of well-formed elements, every tag-0 element is an OtherName of the expected type, and that name is the only one in all extensions |
| Sans.ParseOtherNameIff | pkg/cryptoutils/sans.go:109-116 | Exactly which bytes a tag-0 element must hold to parse, and what it parses to: the identifier, the explicit tag whose length need not fit, the string, then anything |
| Sans.StringTypes | pkg/cryptoutils/sans.go:109-116 | Which universal string types are read, and as what |
| Sans.StringSets | pkg/cryptoutils/sans.go:109-116 | The characters of the restricted types |
| Utf8.ValidIff | pkg/cryptoutils/sans.go:54-73 | A byte string is well-formed UTF-8 if and only if it is the encoding of some code points |
| Bmp.DecodeIsUtf8 | pkg/cryptoutils/sans.go:109-116 | A BMPString of whole units always reads, as well-formed UTF-8 |
| Bmp.DecodeUtf16 | pkg/cryptoutils/sans.go:109-116 | Any text written as big-endian UTF-16, with a terminator, is read as the same text in UTF-8 |
| Sans.UnmarshalOtherNameSAN | pkg/cryptoutils/sans.go:77-128 | The nested loops over extensions and elements terminate and compute the specification's scan, error cases included |
| Sans.OtherExtensionsAreIgnored | pkg/cryptoutils/sans.go:80-83 | A non-SAN extension inserted anywhere, with any value, never changes the result |
| Sans.OtherGeneralNamesAreIgnored | pkg/cryptoutils/sans.go:96-118 | A well-formed element of another tag, inserted at any element boundary of a SAN, never changes the result, also when what follows is malformed |
| Sans.ShortLayout | pkg/cryptoutils/sans_test.go:43-57 | The identifier, the critical flag and the exact bytes of every short name's extension, of which the documented encoding is the instance with fifteen octets |
| Sans.OidOctets | pkg/cryptoutils/sans_test.go:49-50 | The OtherName type identifier has the content octets documented there, through base-128 arc 57264 |
| Sans.MarshalledSize | pkg/cryptoutils/sans.go:54-73 | The headers around a long name take thirty octets, which is where the length limit of the round trip comes from |
| Sans.ParseMarshalledElement | pkg/cryptoutils/sans.go:104-117 | The marshalled element scans to its name exactly when the name is valid UTF-8 |
| Oid.ParseOidIff | pkg/cryptoutils/sans.go:110-115 | Contents octets parse to an object identifier if and only if they are its DER encoding |
| Oid.ParseEncodedOid | pkg/cryptoutils/sans.go:109-115 | Every object identifier with arcs below 2^31 parses back from its DER contents |
| Oid.ReadHighTag | pkg/cryptoutils/sans.go:97-103 | An element's tag of 31 and more is read from base 128, and none below |
| Der.LengthLayout | pkg/cryptoutils/sans.go:54-73 | The octets of every length below 65536, short and long |
| Der.ReadTlv | pkg/cryptoutils/sans.go:54-73 | A printed element, with short or long length, reads back with whatever follows it, exactly when its contents are below the reader's limit |
| Der.ReadElementInverse | pkg/cryptoutils/sans.go:85-103 | What a low-tag element was read from is its one DER encoding, followed by the rest |
| Der.ElementLocal | pkg/cryptoutils/sans.go:97-103 | Reading an element depends on its own octets only, so it reads the same in front of anything |
| Der.ElementsIff | pkg/cryptoutils/sans.go:96-118 | A byte string splits into elements in at most one way: the split is the list whose concatenation it is |
| DerInteger.IntegerRoundTrip | pkg/signature/kms/azure/signer.go:112-125 | Minimal two's-complement contents of a natural are minimal and have its value |
| DerInteger.IntegerUnique | pkg/signature/kms/azure/signer.go:161-170 | A non-negative integer has no other minimal contents |
| DerInteger.TwosComplement | pkg/signature/kms/azure/signer.go:161-170 | Contents octets of either sign stand for their two's-complement value |
| DerInteger.MinimalIff | pkg/signature/ecdsa.go:195-199 | Contents are accepted as minimal if and only if dropping the first octet changes the value |
| DerInteger.ReadSignatureOf | pkg/signature/kms/azure/signer.go:112-125 | The DER signature of r and s reads back to r and s, for every size below the strict reader's limit and none above |
| DerInteger.ReadSignatureInverse | pkg/signature/kms/azure/signer.go:161-170 | Bytes the strict reader takes for non-negative r and s are exactly the DER signature of r and s |
| Azure.DerKeepsIntegers | pkg/signature/kms/azure/signer.go:112-125 | Raw to DER keeps both integers whenever the result is readable at all |
| Azure.RawRoundTrip | pkg/signature/kms/azure/signer.go:112-125 | Raw to DER to raw drops the leading zero bytes of each half and nothing else; the original bytes come back if and only if neither non-empty half starts with zero |
| Azure.FixedWidthRoundTrip | pkg/signature/kms/azure/signer.go:161-179 | The fixed-width form of section 3.4 of RFC 7518 survives if and only if both integers need their full width |
| Azure.ShortRawFits | pkg/signature/kms/azure/signer.go:112-125 | Every raw signature up to 0xFFFFFF00 bytes is within the limits of builder and reader |
| Azure.RawHalvesIff | pkg/signature/kms/azure/signer.go:161-179 | For any DER signature: the halves of the raw bytes are r and s if and only if neither is negative and s has as many bytes as r or one more |
| Azure.LostPairExample | pkg/signature/kms/azure/signer.go:161-179 | The DER signatures of two pairs that become the same raw bytes |
| Ecdsa.EncodingsAgree | pkg/signature/ecdsa.go:195-212 | For all r, s below 256^w and w up to 66, the DER and the 2w-byte form reach the curve check with the same pair and the same verdict, unless the latter reads as DER |
| Ecdsa.ParsesIff | pkg/signature/ecdsa.go:195-199 | Bytes are taken for DER if and only if they are a SEQUENCE of two minimal INTEGERs with anything after them and anything after it |
| Ecdsa.Asn1Verdict | pkg/signature/ecdsa.go:198-201 | What is taken for DER passes exactly when it is strictly two non-negative integers that pass the check |
| Ecdsa.RawVerdict | pkg/signature/ecdsa.go:207-211 | What is taken for fixed width passes exactly when its two halves are positive and pass the check |
| Ecdsa.LengthGuard | pkg/signature/ecdsa.go:204-206 | Everything else that is empty, odd or longer than 132 bytes is refused before any check |
| Ecdsa.CollisionChecksAnotherPair | pkg/signature/ecdsa.go:195-212 | Exactness: the fixed-width form brings its own pair to the check if and only if it does not read as DER |
| Ecdsa.NotItsOwnDer | pkg/signature/ecdsa.go:195-212 | The fixed-width form of two integers is never also their DER form |
| Ecdsa.CollisionExample | pkg/signature/ecdsa.go:195-212 | Eight bytes meant as two four-byte halves are checked as the pair (1, 1) |
| Base64.DecodeEncode | pkg/cryptoutils/certificate.go:45-55 | Standard padded base64 decodes to what was encoded |
| Base64.Alphabet | pkg/cryptoutils/certificate.go:45-55 | The letters of the alphabet in order |
| Base64.OnlyAlphabet | pkg/cryptoutils/certificate.go:59-79 | No other character is read as a letter |
| Base64.DecodesIff | pkg/cryptoutils/certificate.go:59-79 | Text is read if and only if it is whole groups of letters with at most two characters of padding at the end |
| Base64.QuantumValue | pkg/cryptoutils/certificate.go:45-55 | Three octets and their four letters are the same 24-bit number |
| Base64.PaddedValue | pkg/cryptoutils/certificate.go:45-55 | One or two last octets: their bits, zeros and padding |
| Pem.Layout | pkg/cryptoutils/certificate.go:45-55 | The printed block in ASCII, around the lines of base64 |
| Pem.LinesAre64 | pkg/cryptoutils/certificate.go:45-55 | Every 65th byte of the lines is a line break and the others are the text |
| Pem.LinesLength | pkg/cryptoutils/certificate.go:45-55 | How long the lines are, and that the last one ends in a line break |
| Pem.DecodeEncodedThen | pkg/cryptoutils/certificate.go:59-79 | Reading a printed block gives its type and contents back, for every length, and leaves exactly what follows |
| Pem.DecodeAfterText | pkg/cryptoutils/certificate.go:59-79 | Lines before the block are skipped |
| Pem.LineVariants | pkg/cryptoutils/certificate.go:59-79 | Blanks and tabs at the end of a line, and a carriage return before its break, do not belong to it |
| Pem.HeaderLine | pkg/cryptoutils/certificate.go:59-79 | A line with a colon after the opening line is skipped as a header |
| Pem.DecodeEncoded | pkg/signature/ssh/armor.go:59-68 | The same when the text ends without the last line break |
| Certificates.MarshalCertificatesToPEM | pkg/cryptoutils/certificate.go:45-55 | The loop prints every certificate in order, and fails exactly when one is nil |
| Certificates.UnmarshalCertificatesFromPEM | pkg/cryptoutils/certificate.go:59-79 | The loop terminates and computes the specification's parse, error cases included |
| Certificates.UnmarshalCertificatesFromPEMLimited | pkg/cryptoutils/certificate.go:84-109 | The same for the loop with a limit |
| Certificates.RoundTrip | pkg/cryptoutils/certificate.go:45-79 | Reading the PEM of any list of certificates gives that list, in order |
| Certificates.RoundTripPadded | pkg/cryptoutils/certificate.go:59-79 | The same with any Unicode white space before and after |
| Certificates.FirstBlockErrors | pkg/cryptoutils/certificate.go:59-79 | Text that is no block and a block that is no certificate, each with its error |
| Certificates.Layout | pkg/cryptoutils/certificate.go:37-55 | The PEM of a certificate in ASCII |
| Certificates.LimitedIffAtMost | pkg/cryptoutils/certificate.go:84-109 | The limited parser succeeds if and only if the unlimited one does with at most that many certificates (a negative limit limits nothing), with equal results |
| SshWire.Uint32Octets | pkg/signature/ssh/sign.go:40-48 | The four octets of a number |
| SshWire.ReadStringOf | pkg/signature/ssh/armor.go:40-56 | An SSH string reads back if and only if its length is below 2^32 |
| SshWire.SignatureRoundTrip | pkg/signature/ssh/armor.go:40-56 | A signature's format, blob and rest survive its wire form |
| SshWire.WrappedRoundTrip | pkg/signature/ssh/armor.go:40-104 | The wrapped structure, two fixed fields and five strings, survives its wire form |
| SshSig.ArmorRoundTrip | pkg/signature/ssh/armor.go:40-104 | Decoding the armor gives the same signature, the same key and hash name sha512, through nested strings, base64 and PEM |
| SshSig.DecodeBlock | pkg/signature/ssh/armor.go:59-104 | Text after the armor and the content of the reserved field are ignored; only a malformed key fails |
| SshSig.DecodeRefuses | pkg/signature/ssh/armor.go:59-104 | What is refused and how, and what every accepted armor holds |
| SshSig.ArmorOctets | pkg/signature/ssh/armor.go:40-56 | The armored blob octet by octet: magic, version, key, "file", nothing, "sha512", signature |
| SshSig.PreimageInjective | pkg/signature/ssh/sign.go:60-88 | The signed preimage determines hash name and hash |
| SshSig.PreimageShape | pkg/signature/ssh/sign.go:67-74 | The preimage has 26 octets besides hash name and hash, so 96 for sha512 |
| SshSig.SignsSshsigData | pkg/signature/ssh/sign.go:60-88 | The octets handed to the key: SSHSIG, "file", an empty string, "sha512" and the hash, each string behind its length; and the algorithm for RSA keys |
| SshSig.VerifiesSshsigData | pkg/signature/ssh/verify.go:26-47 | The octets a signature is checked on, for either hash |
| SshSig.SignVerifies | pkg/signature/ssh/sign.go:116-134 | Every message signed by Sign is accepted by Verify under the same key |
| SshSig.SignBindsHash | pkg/signature/ssh/verify.go:26-47 | Verify accepts what Sign made for exactly the messages of the same SHA-512 hash |
| SshSig.SignMessageVerifiesOnlyPreimages | pkg/signature/ssh/sign.go:101-111 | Signer.VerifySignature accepts what Signer.SignMessage made if and only if the message is its own preimage, so for no message of a length other than 96 |
| TufCache.MemoryCache.Set | pkg/tuf/client.go:647-653 | The map gains exactly this entry |
| TufCache.DiskCache.Set | pkg/tuf/client.go:683-694 | Memory and file are written, in whatever way the write ends; success is the write's |
| TufCache.DiskCache.Get | pkg/tuf/client.go:674-681 | Memory answers first, then the file |
| TufCache.GetIsLastSet | pkg/tuf/client.go:674-694 | Within a process, Get returns the value last passed to Set for that name, even if its write failed and whatever paths other names share |
| TufCache.CacheRefinesMap | pkg/tuf/client.go:674-694 | Over every run of writes and restarts the cache answers like a plain map with a durable copy, for names with distinct paths and writes that are whole or nothing |
| TufCache.CacheRefinesMapIff | pkg/tuf/client.go:674-694 | From an empty cache, every get after every run answers like the map's if and only if no two names share a path |
| TufCache.SharedPathExample | pkg/tuf/client.go:674-694 | Two names of one path: after a restart both return what was written last |
| TufClient.Tuf.MaybeDownloadRemoteTarget | pkg/tuf/client.go:513-558 | Cached bytes of the right length and digest are kept; else such embedded bytes are stored, if not empty; else the download, if there is one |
| TufClient.Tuf.UpdateClient | pkg/tuf/client.go:454-479 | New trusted metadata in memory, and on disk when caching, with the failures of both |
| TufClient.Tuf.UpdateMetadataAndDownloadTargets | pkg/tuf/client.go:481-498 | The loop over updated targets, in any order, up to the first failure |
| TufClient.Tuf.Get | pkg/tuf/client.go:388-406 | Refused metadata, a missing target and cached bytes of another length or digest, each with its error; otherwise the cached bytes |
| TufStores.SyncLocalMeta | pkg/tuf/client.go:580-592 | The copy loop over metadata roles, in any order, up to the first write that fails, and what it leaves behind |
| TufStores.SyncIsMerge | pkg/tuf/client.go:580-592 | A copy that ends well is the merge of both stores whatever the order; it deletes no role |
| TufStores.CopyEndsWellIff | pkg/tuf/client.go:580-592 | A copy ends well if and only if every write does |
| TufStores.LaterSyncRepairs | pkg/tuf/client.go:580-592 | Whatever a failed copy left half way, torn writes included, a later one that ends well gives the same merge |
| TufStores.CopyRealizesUpdate | pkg/tuf/client.go:454-479 | When the copied roles say what the update trusts, the copy leaves on disk what `TufClient.UpdateMeta` leaves there, and fails when it does |
| TufClient.Globals.InitializeTUF | pkg/tuf/client.go:265-335 | A whole call: construction at most once, its sticky error, and the update when metadata is missing, expired or forced |
| TufRuns.SuccessfulInitServesEverything | pkg/tuf/client.go:265-335 | From an empty disk, in every run of initializations, gets and restarts without failed update steps, with or without the disk cache, a successful initialization leaves every trusted target retrievable with bytes valid for its current metadata |
| TufRuns.InitializationSucceeds | pkg/tuf/client.go:265-335 | A call whose metadata arrives and is stored, and whose downloads and writes work, succeeds, and so does one that needs no update |
| TufRuns.InitializedIsCurrent | pkg/tuf/client.go:317-334 | A successful call has updated if it was forced or the stored metadata is absent or out of date, and otherwise kept what was stored |
| TufRuns.NextKeepsInvariant | pkg/tuf/client.go:265-335 | Each step keeps the invariant: memory agrees with disk, and every target of trusted and stored metadata is durably cached and valid |
| TufRuns.RestartForgets | pkg/tuf/client.go:58-67 | A new process keeps the disk and nothing else |
| TufRuns.UpdateGood | pkg/tuf/client.go:481-498 | A successful update keeps that invariant although it downloads only what go-tuf reports as changed |
| TufRuns.DownloadAllGood | pkg/tuf/client.go:492-556 | The download loop makes each of its targets durable and disturbs none of the others |
| TufRuns.GetSucceedsIff | pkg/tuf/client.go:388-406 | From any state: after a successful initialization a trusted target can be retrieved if and only if this call's update reported it as changed, or what was cached before is valid for its new metadata |
| TufRuns.StraddlingGetIff | pkg/tuf/client.go:388-406 | In a run without failed update steps, a get that reads metadata before an update and the cache after any number of its downloads succeeds if and only if its target is not one of those or has the same content |
| TufRuns.StraddlingGetExample | pkg/tuf/client.go:388-406 | One such get that fails although the same get succeeds before the update |
| TufRuns.StaysMissing | pkg/tuf/client.go:481-498 | A target that neither cache layer holds stays missing over every run, restarts and forced updates included, whose steps do not report it as changed |
| TufRuns.TargetsNeverSteerMetadata | pkg/tuf/client.go:454-498 | Two runs that differ in anything about target files (disk contents, downloads, their order, failed writes) trust and store the same metadata throughout |
| TufRuns.TamperedCacheCannotMislead | pkg/tuf/client.go:388-406 | So gets that succeed in both runs return the same bytes, valid for the trusted metadata, or else two byte strings that are a collision of the hash |
| TufRuns.FailedDownloadIsNeverRepaired | pkg/tuf/client.go:481-498 | After any run without failed update steps, a caching client whose update obtains nothing for a target serves it at no later point of any run until an update reports it as changed |
| TufRuns.FailedDownloadExample | pkg/tuf/client.go:481-498 | One such run: later initializations succeed, also a forced one, and the target stays missing |
| TufSingleton.OneClientForAll | pkg/tuf/client.go:265-335 | In every interleaving no caller panics or sees a partly built client; all successful callers get one client, built from the mirror and root of the caller that got the lock first |
| TufSingleton.ConstructionErrorIsSticky | pkg/tuf/client.go:269-315 | Once a call has returned a construction error, every call that ever returns gets that same error |
| TufSingleton.PublishedStaysUsable | pkg/tuf/client.go:311-334 | Once a client is published, in every interleaving, the outcome of each call is exactly that client, or the failure of the caller's own metadata read or update |
| TufSingleton.FailedUpdateIsNotSticky | pkg/tuf/client.go:317-334 | In every interleaving with a published client, a caller whose own metadata read and update work gets that client, whatever failed for others |
| TufSingleton.StepKeepsInvariant | pkg/tuf/client.go:265-335 | Mutual exclusion, a fully built singleton, and results that agree with the globals, kept by every step of every caller |
| TufSingleton.BuilderIsFirstToLock | pkg/tuf/client.go:266-271 | The construction is run by the caller whose lock came first in the trace, and by nobody else |
| TufSingleton.StepsAreBounded | pkg/tuf/client.go:265-335 | A call takes at most eleven steps of its own, whatever the others do |
| TufSingleton.SomeoneCanMove | pkg/tuf/client.go:266-267 | No deadlock: while a call has not returned, some started call can move |
| TufLinear.Linearizable | pkg/tuf/client.go:265-335 | In every interleaving to which the environment answers as to given sequential calls, each caller gets the result of its call in one sequential run of `TufClient.Initialize`, in the order in which the calls return |
| TufLinear.EveryRunIsLinearizable | pkg/tuf/client.go:265-335 | Every interleaving at all has such calls: it determines them itself, over a repository without targets |
| TufLinear.StepSimulates | pkg/tuf/client.go:265-335 | Each step of each caller is no step of the sequential process, or the whole call of the caller that returns |
| TufQuery.CollectMatching | pkg/tuf/client.go:417-436 | The loop over the snapshot, with another update possible before and inside every retrieval |
| TufQuery.CollectFallbacks | pkg/tuf/client.go:437-446 | The loop over the fallbacks, in order, skipping those that fail |
| TufQuery.GetTargetsByMeta | pkg/tuf/client.go:410-451 | The whole query, with its three errors |
| TufQuery.InterleavedQuery | pkg/tuf/client.go:410-451 | Interleaved with any updates, a success holds exactly the names whose metadata in the snapshot is sigstore's and has this usage, with status from there, or only fallbacks when there are none; and every file has the length and digest of metadata trusted at some moment of the call |
| TufQuery.QuietQuery | pkg/tuf/client.go:410-451 | Without updates, for every iteration order, a success is exactly the matching targets, it happens if and only if all are retrievable, and only when none match the result is the retrievable fallbacks in order, as Active |
| TufQuery.InitializedQuerySucceeds | pkg/tuf/client.go:265-451 | End to end: after any run without failed update steps and a successful initialization, an undisturbed query succeeds for every usage some target has, with all of those targets |
| Options.FoldIsLast | pkg/signature/options/noop.go:25-59 | Folding any option list sets each variable to the last value given for it, or leaves it |
| PluginEncoding.PackRPCOptions | pkg/signature/kms/cliplugin/encoding/options.go:34-52 | The last deadline, key version and remote verification, or zero values, as set pointers |
| PluginEncoding.PackMessageOptions | pkg/signature/kms/cliplugin/encoding/options.go:73-89 | The last digest, and the hash of the last signer options if any |
| PluginEncoding.PackSignOptions | pkg/signature/kms/cliplugin/encoding/options.go:128-141 | Both halves of the same list |
| PluginEncoding.FoldUnpacked | pkg/signature/kms/cliplugin/encoding/options.go:144-161 | Folding unpacked options overwrites exactly the variables whose fields are present |
| PluginEncoding.NormalForm | pkg/signature/kms/cliplugin/encoding/options.go:116-161 | For all lists and start states: key version and remote verification end as last given or zero; deadline, digest and hash as given, or as the start state had them when given as zero |
| PluginEncoding.WithoutWire | pkg/signature/kms/cliplugin/encoding/options.go:73-89 | Without the JSON text in between, a nil digest overwrites the start state's; nothing else differs |
| PluginEncoding.SameAcrossIff | pkg/signature/kms/cliplugin/encoding/options.go:34-161 | Crossing the wire means the same for all lists if and only if the start state has no deadline, key version, remote verification or digest |
| PluginEncoding.SurvivesIff | pkg/signature/kms/cliplugin/encoding/options.go:34-161 | The same for one list and one start state: exactly which variables the list must give |
| PluginEncoding.PackIsStable | pkg/signature/kms/cliplugin/encoding/options.go:128-161 | Pack after Unpack after Pack equals Pack, with or without the wire |
| PluginProtocol.Dispatch | pkg/signature/kms/cliplugin/handler/dispatch.go:71-95 | One response is written for a call, with the fields of its method and the error text; none when the arguments are missing |
| PluginProtocol.RunPlugin | pkg/signature/kms/cliplugin/handler/dispatch.go:39-95 | A plugin program writes one response for its arguments, also when they do not parse |
| PluginProtocol.ReadProcess | pkg/signature/kms/cliplugin/signer.go:80-93 | An execution error if and only if the program was not run, was killed, or has a failing exit code below one; a response only from one document without an error text |
| PluginProtocol.ExitCodes | pkg/signature/kms/cliplugin/signer.go:75-86 | An exit code of one or more changes nothing; any other failure of the program is the whole outcome |
| PluginProtocol.RemoteIsDirectOverWire | pkg/signature/kms/cliplugin/signer.go:64-202 | For every method, implementation, start state and heard exit, the remote outcome is that of the direct call with the options that arrive, seen through the protocol: same message, values and error texts |
| PluginProtocol.RemoteIsDirect | pkg/signature/kms/cliplugin/signer.go:64-202 | It is that of the direct call itself when the call's options survive the implementation's start state |
| PluginProtocol.RemoteRefinesDirectIff | pkg/signature/kms/cliplugin/signer.go:64-94 | The verdict of such a call is kept if and only if the implementation does not fail with an empty text |
| PluginProtocol.VerdictsKeptIff | pkg/signature/kms/cliplugin/signer.go:122-202 | For one call and one start state: all implementations that do not fail silently keep their verdict if and only if the call's options survive that state |
| PluginProtocol.SuccessKeptIff | pkg/signature/kms/cliplugin/signer.go:122-202 | The same for success alone, whatever the value and the error text |
| PluginProtocol.AllVerdictsKeptIff | pkg/signature/kms/cliplugin/signer.go:122-202 | For one start state: they do so on all calls if and only if it has no deadline, key version, remote verification or digest |
| PluginProtocol.RejectionTurnsAcceptance | pkg/signature/kms/cliplugin/signer.go:183-202 | Some verifier rejects a signature and is read as accepting it, for exactly the option lists that do not survive its start state |
| PluginProtocol.PinnedKeyVersionIsLost | pkg/signature/kms/hashivault/client.go:276-283 | A start state with a key version, as the Vault signer's, arrives at the empty one unless the caller gives one |
| PluginProtocol.SilentRejectionIsAccepted | pkg/signature/kms/cliplugin/signer.go:183-202 | A verifier that rejects with an empty error text is read as accepting, from any start state |
| PluginProtocol.SignViewArrives | pkg/signature/kms/cliplugin/handler/methods.go:90-111 | Signing and verifying see the option values the caller gave if and only if the list survives the start state |
| PluginProtocol.RpcViewArrives | pkg/signature/kms/cliplugin/handler/methods.go:73-87 | The same for fetching the public key |
| Loading.GetDefaultPublicKeyDetails | pkg/signature/algorithm_registry.go:253-298 | The registry's choice for a key from the folded options |
| Loading.GetAlgorithmDetails | pkg/signature/algorithm_registry.go:180-187 | Every algorithm is found, with its registered hash |
| Loading.RegistryIsComplete | pkg/signature/algorithm_registry.go:154-168 | Every algorithm the defaults can name has one entry, with one hash and one curve or modulus |
| Loading.DefaultFitsKey | pkg/signature/algorithm_registry.go:253-298 | For every option list the registry's choice has the key's own curve or modulus; keys of another curve or size are refused |
| Loading.DefaultVerifierIs | pkg/signature/verifier.go:143-149 | For every option list, the scheme and hash of the default verifier of each kind of key |
| Loading.LoaderHashes | pkg/signature/signer.go:68-93 | The hashes the loaders accept for RSA and ECDSA keys |
| Loading.GetDefaultAlgorithmDetails | pkg/signature/algorithm_registry.go:308-314 | Both steps together |
| Loading.GetOptsFromAlgorithmDetails | pkg/signature/util.go:62-74 | The registered hash, then the options that ask for Ed25519ph or non-nil PSS, in order |
| Loading.LoadSignerWithOpts | pkg/signature/signer.go:68-93 | Scheme and hash from the folded options, with the errors for nil keys, wrong sizes, hashes and types |
| Loading.LoadVerifierWithOpts | pkg/signature/verifier.go:49-74 | The same for a public key |
| Loading.LoadSignerVerifierWithOpts | pkg/signature/signerverifier.go:48-73 | A signer and a verifier that agree, the signer's error, or the panic of taking the public half of a truncated key |
| Loading.LoadDefaultVerifier | pkg/signature/verifier.go:143-149 | Registry, filter and loader in one |
| Loading.LoadDefaultSigner | pkg/signature/signer.go:130-140 | Agrees with the default verifier of the public half for well-formed keys; the exact error for all others |
| Loading.LoadDefaultSignerVerifier | pkg/signature/signerverifier.go:110-120 | Both halves agree with the default verifier for well-formed keys; the exact error for all others |
| Loading.FoldFiltered | pkg/signature/util.go:62-74 | Folding the filtered list gives the registered hash, the caller's Ed25519ph choice, and the last PSS options that are not nil |
| Loading.PssWithdrawnIff | pkg/signature/util.go:62-74 | The filter changes whether PSS is used if and only if the last WithRSAPSS is nil and an earlier one is not |
| Loading.DefaultLoaderIff | pkg/signature/verifier.go:143-149 | A default loader fails exactly when the registry does or the key is a nil Ed25519 key, and otherwise loads exactly the registry's algorithm, unless the key is RSA and PSS was withdrawn; then it does not |
| Loading.WithdrawnPssExample | pkg/signature/verifier.go:143-149 | Such a list: PKCS #1 v1.5 in the registry, PSS in the loader |
| Digest.ComputeDigestForSigning | pkg/signature/message.go:44-62 | With the hash of the last signer options: a given digest comes back as it was, else the message's hash, or the message itself without a hash; each error with its results |
| Digest.ComputeDigestForVerifying | pkg/signature/message.go:70-88 | The same, and for every smaller list of hashes: signing with it succeeds if and only if verifying does with one of its hashes, and then with the same digest and hash |
| Digest.OnlyLastMatters | pkg/signature/message.go:44-88 | Lists with the same last digest and last signer options give the same digest, hash and error |
| Digest.PreApplied | pkg/signature/kms/gcp/signer.go:83-89 | Folding the options first and passing the resulting hash as the default changes nothing |
| Digest.EcdsaLists | pkg/signature/ecdsa.go:33-47 | For ECDSA the two differ exactly when the chosen hash is SHA-1 |
| GcpVerify.GcpClient.GetCKV | pkg/signature/kms/gcp/client.go:295-323 | The cached key version or a fetched one, and the cache and request count after either |
| GcpVerify.GcpClient.Verify | pkg/signature/kms/gcp/client.go:383-401 | Outcome, cache and requests of both attempts over stateful readers. Unpinned over re-readable inputs it accepts if and only if the cached or the fetched version does; over a one-shot signature the cached version's verdict stands unless it stopped before reading |
| GcpVerify.VerifySignature | pkg/signature/ecdsa.go:171-215 | One attempt is the key's check of the given digest or of the message's, under a supported hash; and which of the two readers it drains |
| GcpVerify.AcceptsIsCheck | pkg/signature/ecdsa.go:171-215 | The same as a statement on values |
| GcpVerify.OneShotLosesRotation | pkg/signature/kms/gcp/client.go:383-401 | The two kinds of signature reader differ exactly on signatures of the rotated-in key that the old version started on |
| GcpVerify.RequestsAccounted | pkg/signature/kms/gcp/client.go:295-323 | Over any sequence of calls every request is accounted for by a version in the cache, one that expired or rejected, or a call that got no answer |
| GcpVerify.PinnedIsAnsweredOnce | pkg/signature/kms/gcp/client.go:295-323 | A pinned client is answered at most once, whatever the calls |

## Left out

- pkg/oauth and pkg/oauthflow: HTTP, browser and template plumbing.
- Cloud key services: references, credentials, key creation and remote calls; only the conversions and the retry named above are modelled.
- Cryptography: curve and RSA arithmetic, hash internals, randomness, key generation and key policy are abstract functions.
- go-tuf's metadata verification, root rotation and expiry rules are the contract described above; the isolation of its trusted metadata is one value that an update replaces.
- pkg/signature/dsse: the counting is done by a library.
- Text codecs of the status and usage enumerations, algorithm flags, password prompts, CheckExpiration, ParseCSR, GetSubjectAlternateNames: settled by one branch or one table.
- JSON text: the plugin wire is a structured codec with the rule the code depends on, that a nil digest comes back absent.
- Sans.UnmarshalOtherNameSAN: string types are read as in Go 1.24 (go.mod:3); later versions of the library refuse some T61 and BMP strings.
- Sans.UnmarshalSucceedsIff: string types are read as in Go 1.24 (go.mod:3); later versions of the library refuse some T61 and BMP strings.
- Certificates.RoundTrip: certificates are an abstract type with its DER form.
- SshSig.SignMessageVerifiesOnlyPreimages: takes signatures to verify on nothing but what was signed, which a real scheme meets only up to forgery.
- SshSig.SignBindsHash: takes signatures to verify on nothing but what was signed, which a real scheme meets only up to forgery.
- SshWire.ReadStringOf: lengths are taken modulo 2^32 as the marshaller writes them; the failure beyond that is the only one modelled.
- PluginProtocol.RemoteIsDirectOverWire: cancellation of contexts, authentication, random sources and the key-version-used pointer do not cross the wire by design and are not compared.
- PluginProtocol.RunPlugin: the plugin's initialization options are passed through and not modelled; neither is a write error of standard output.
- TufClient.Globals.InitializeTUF: whether the disk cache is used is fixed for a process; environment lookups, remote.json, NewFromEnv and Windows line endings are left out.
- TufSingleton.OneClientForAll: the update a call makes is one step, since it runs under the lock. A function that panics inside sync.Once is left out.
- TufLinear.EveryRunIsLinearizable: the calls it finds are on a repository without targets; for others, agreeing calls are a hypothesis of `TufLinear.Linearizable`.
- GcpVerify.VerifySignature: nil keys, nil readers and readers that fail are left out; messages and signatures are in memory.
- TufStores.SyncLocalMeta: what go-tuf makes of a half-copied store is the environment's choice of `SyncFailed` in `TufClient`.
- TufRuns.SuccessfulInitServesEverything: initializations are whole steps, as initMu makes them; gets that run meanwhile are the subject of `TufRuns.StraddlingGetIff` and `TufQuery`.
- TufQuery.InterleavedQuery: other goroutines are a history of the client's content; a retrieval reads metadata and cache at two moments of it, which allows more than the client's lock does.
- Options.FoldIsLast: each option sets one variable; an option type of a caller's own that sets several is left out.
- Digest.ComputeDigestForSigning: selectRandFromOpts is left out.
- GcpVerify.GcpClient.GetCKV: ttlcache is one entry with an expiry that the environment decides; concurrent use of one client is left out.
