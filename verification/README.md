# Verified model of aitp-verifier-py

The repository is a stateless verifier for AITP artifacts: JSON canonicalised under RFC 8785,
compact JWS, Trust Context Tokens, delegation chains, revocation snapshots, issuer keys, SPIFFE
identities, and a line server that drives it all for conformance runs. This project models its
logic in Dafny and proves what the design promises about it.

- **Canonicalisation.** `Decimal`, `Number`, `NumberReader`, `NumberForm`, `JsonText`, `KeyOrder`, `Jcs`,
  `JsonReader`, `JsonGrammar`, `JsonStrict` hold the exact decimal value of a number, its four printing
  bands, string escaping, UTF-16 member order, a strict reader and the grammar it accepts. `JcsWalk` is
  the printer as the program runs it, over objects in a heap (`PyHeap`) that may be shared or cyclic,
  with its output list, depth cap and visit counter.
- **Encodings and keys.** `Bytes`, `Base64Url`, `Utf8`, `KeyMath`, `Aids`, `Thumbprints`, `Jws`,
  `SigningInput`, `Envelopes`.
- **Tokens.** `Fields`, `Revocation`, `Tct`, `Pop`; `ChainHash`, `Snapshots`, `Delegation` (the loops), and
  the theorems about it in `DelegationSafety`, `DelegationPolicy`, `DelegationVerdict`, `DelegationTime`;
  `DelegationEntry` has the whole operation.
- **Where promises fail.** `Escapes` has the exact conditions under which other exceptions leave the entry
  points, `Witnesses` concrete inputs for every property that fails (`JcsSize` shows they canonicalize).
- **Issuer keys.** `Jwk` parses one candidate, `IssuerKeys` is the bounded walk over the heap.
- **SPIFFE.** `SpiffeId` is the two grammars, `Spiffe` the bundle store and the certification path.
- **Adapter.** `Adapter` is the server with its session state, `AdapterCalls` what it reads and hands on,
  `AdapterRuns` its safety over whole runs.

Conventions. An exception is a value: `Err(code)` is an `AitpError` with its wire code, `Crash(kind)`
any other exception that leaves a function. A JSON value's numbers are exact decimals in normal form
and its objects are maps, so `==` on values is equality up to member order and numeric spelling.
SHA-256, the signature schemes, curve and RSA library calls, `int(str)`, Manifest resolution and
certificate issuance are parameters, any functions whatever. SHA-256 is never assumed injective:
binding is stated as "equal, or here is a collision". A loop or an object with fields in the
source is a method or a class here, proved against a specification function or an exact condition;
the rows below state what that specification means. Which error code a defect gets, and which earlier
defect hides it, is stated beside them for a signed TCT (`Tct.GrantErrors`), for the hops of a chain
(`DelegationSafety.RootErrors`, `DelegationSafety.LinkErrors`) and in the `...Codes` rows.

Where code and documentation disagree the model follows the code:

- The repository's README (lines 213-218) says malformed remote input never escapes and every rejection is
  an `AitpError`. `verify_jws` lets the `ValueError` of `parse_aid` escape when a token names an issuer
  that is not an AID, and so do the entry points that call it. `Escapes.VerifyTctEscapes` and
  `Escapes.VerifyDelegationEscapes` give the exact conditions, `Witnesses.TctEscapes` and
  `Witnesses.DelegationEscapes` inputs that show it.
- The same lines say that a missing revocation `policy` raises `KeyError`. The code resolves it to
  `fail_closed` (`aitp_verifier/revocation.py:121-137`), and so does the model.

Results that are narrower than one might expect:

- A delegation accepted now need not have been accepted earlier, in any mode: it may carry several
  snapshots of one issuer (`Witnesses.DelegationNotMonotone`). `DelegationTime.AcceptedEarlier` has the exact
  condition. A TCT accepted under `fail_closed` was; under a permissive mode it need not have been
  (`Witnesses.TctNotMonotone`, with the exact condition in `Tct.AcceptedEarlier`).
- Two encodings of the RSA exponent zero pass the bound checks (`KeyMath.ZeroExponentTwice`); uniqueness
  therefore asks that the library refuse that exponent, as it does.
- A name constraint with a leading dot also admits a host with no label in front of it
  (`Spiffe.HostMatchMeaning`).

## Model

| member | source | states |
|---|---|---|
| `JsonReader.ReadCanon` | aitp_verifier/jcs.py:229-282 | Reading any canonical text, with anything after it that does not continue a number, gives back the value and leaves the rest. |
| `JsonReader.LoadsCanon` | aitp_verifier/jcs.py:57-74 | Strictly loading the canonical text of any JSON value returns that value. |
| `JsonReader.CanonInjective` | aitp_verifier/jcs.py:229-282 | Two values have one canonical text exactly when they are equal up to member order and numeric spelling. |
| `JsonReader.LoadsCanonicalized` | aitp_verifier/jcs.py:285-287 | The same round trip on UTF-8 bytes, for every value within the caps. |
| `JsonReader.CanonicalizeInjective` | aitp_verifier/jcs.py:285-287 | Values with the same canonical bytes are the same value. |
| `JsonGrammar.LoadsMeaning` | aitp_verifier/jcs.py:57-74 | The strict reader accepts exactly the texts of the JSON grammar that name no member of an object twice, in any spelling of numbers and strings and with any white space, each as its value. |
| `JsonGrammar.LoadsBytesMeaning` | aitp_verifier/jcs.py:57-74 | On bytes it accepts exactly the UTF-8 encodings of such texts. |
| `JsonStrict.DuplicateRefused` | aitp_verifier/jcs.py:57-74 | An object text that names a member twice is refused, whatever the two values and the rest of the text. |
| `JsonStrict.TrailingRefused` | aitp_verifier/jcs.py:57-74 | Anything but white space after a value is refused. |
| `JsonText.FormatStringLoop` | aitp_verifier/jcs.py:142-154 | The loop over the characters writes the escaped, quoted text of the specification function. |
| `JsonText.ReadFormatted` | aitp_verifier/jcs.py:142-154 | Reading an escaped text up to its closing quote, in the plain and in the ASCII-only escaping, gives back the string. |
| `JsonText.ShortestText` | aitp_verifier/jcs.py:142-154 | A character is escaped exactly when JSON forbids it raw, by its two-character escape where there is one: no text with this reading is shorter. |
| `JsonText.LowerHex` | aitp_verifier/jcs.py:142-154 | A six-character escape is written with lower-case hexadecimal digits. |
| `JsonText.AsciiOnly` | aitp_verifier/jws.py:124-135 | The ASCII-only escaping of a minted header writes printable ASCII alone, and leaves such text as it is but for quote and backslash. |
| `JsonText.HexValueMeaning` | aitp_verifier/jcs.py:57-74 | The digits of a four-digit escape stand for their places in the rows 0-9a-f and 0-9A-F. |
| `KeyOrder.KeyOrderTotal` | aitp_verifier/jcs.py:264 | The comparison of names is a strict total order, so no two names tie. |
| `KeyOrder.KeyLessMeaning` | aitp_verifier/jcs.py:264 | A name comes before another exactly when its UTF-16 units are a proper prefix of the other's or have the smaller unit where the two first differ: ascending order. |
| `KeyOrder.CharUnitsMeaning` | aitp_verifier/jcs.py:263-264 | A character below 0x10000 is one unit, its code; any other is a high and a low surrogate whose bits give back its code. |
| `KeyOrder.Utf16Concat` | aitp_verifier/jcs.py:263-264 | The units of a text are those of its parts in order. |
| `KeyOrder.ByteOrderIsUnitOrder` | aitp_verifier/jcs.py:263-264 | Comparing UTF-16BE bytes is comparing UTF-16 code units, as section 3.2.3 of RFC 8785 asks. |
| `KeyOrder.SortedUnique` | aitp_verifier/jcs.py:264 | One set of names has only one strictly sorted sequence. |
| `KeyOrder.SortedKeysSorted` | aitp_verifier/jcs.py:264 | The sorted names are strictly ascending in that order and are exactly the names of the object. |
| `KeyOrder.SortKeys` | aitp_verifier/jcs.py:264 | The sorting method returns that one sequence. |
| `Number.DigitsExact` | aitp_verifier/jcs.py:111-126 | For every repr-shaped text, digits and point position denote exactly the same real number, without leading or trailing zeros. |
| `Number.BandsExact` | aitp_verifier/jcs.py:93-108 | The four bands print, for every digit string and point, a valid JSON number text whose value is exactly that number. |
| `NumberForm.FormByValue` | aitp_verifier/jcs.py:93-108 | A nonzero number prints in plain digits exactly from 10^-6 up to but not at 10^21, with a fraction exactly when its value is not an integer, and in scientific form everywhere else. |
| `NumberReader.FormatNumberExact` | aitp_verifier/jcs.py:80-108 | Printing a double fails exactly on non-finite input; otherwise reading the text gives the exact value of its repr digits, and zero, also a negative one, prints as 0. |
| `Number.NumberOfExact` | aitp_verifier/jcs.py:111-126 | The normal form of a double has exactly the value its text denotes. |
| `Number.ValueInjective` | aitp_verifier/jcs.py:111-126 | Equal values have equal sign, digits and point: the normal form is unique. |
| `Number.SafeIntegerPlain` | aitp_verifier/jcs.py:98-99 | Every nonzero integer of magnitude at most 2^53 prints as its plain decimal. |
| `Number.IntegerPlain` | aitp_verifier/jcs.py:98-99 | Any text that denotes an integer below 10^21 prints as the plain decimal. |
| `NumberReader.ReadFormat` | aitp_verifier/jcs.py:80-108 | Reading a printed number gives back the same number, whatever legal text follows. |
| `NumberReader.FormatInjective` | aitp_verifier/jcs.py:80-108 | Two numbers print the same text exactly when their values are equal. |
| `JcsWalk.Canonicalizer.Serialize` | aitp_verifier/jcs.py:229-275 | On any heap the walk succeeds exactly when the value unrolls within depth 256 and the counter admits its nodes; then it appended the canonical text and counted each node once; it always ends with the counter at most one over the cap. |
| `JcsWalk.Canonicalizer.SerializeList` | aitp_verifier/jcs.py:253-259 | The list loop writes the items between brackets with commas, under the same exact condition. |
| `JcsWalk.Canonicalizer.SerializeDict` | aitp_verifier/jcs.py:260-273 | The member loop writes the sorted members between braces, under the same exact condition. |
| `JcsWalk.Canonicalizer.Visit` | aitp_verifier/jcs.py:219-226 | The counter goes up by one and the call fails exactly past 200000. |
| `JcsWalk.Dumps` | aitp_verifier/jcs.py:278-282 | A fresh walk succeeds exactly for values that unroll within depth 256 to at most 200000 nodes; the text is the uncapped one, the visits equal the nodes, and no run makes more than 200001 visits. |
| `JcsWalk.DumpsRefinesCanon` | aitp_verifier/jcs.py:229-282 | On a value of any depth the walk admits exactly the values within both caps. |
| `JcsWalk.CycleRefused` | aitp_verifier/jcs.py:229-242 | A list that contains itself is refused at every depth. |
| `PyHeap.UnrollDepth` | aitp_verifier/jcs.py:241-242 | Looking less deep finds the same value, or none exactly when some part lies deeper. |
| `Base64Url.DecodeEncode` | aitp_verifier/b64.py:19-29 | Decoding an encoding is the identity on all byte strings. |
| `Base64Url.DecodeDomain` | aitp_verifier/b64.py:24-29 | Decoding succeeds exactly on alphabet texts whose length is not 1 mod 4, gives floor(3 len / 4) bytes, and re-encodes to the same text exactly when the unused trailing bits are zero. |
| `Base64Url.EncodeShape` | aitp_verifier/b64.py:19-21 | An encoding has only alphabet characters and the unpadded length. |
| `Base64Url.EncodeInjective` | aitp_verifier/b64.py:19-21 | Different byte strings have different encodings. |
| `Utf8.DecodeEncode` | aitp_verifier/jcs.py:287 | UTF-8 decoding undoes encoding on every string of scalar values. |
| `Utf8.EncodeDecode` | aitp_verifier/jcs.py:59-63 | A byte string that decodes is the encoding of what it decodes to: strictness admits no second spelling. |
| `Aids.AidGate` | aitp_verifier/aid.py:50-63 | Past the 43/44-character gate an AID fails only on its alphabet or its curve point; the key always has 32 or 33 bytes. |
| `Aids.AidMeaning` | aitp_verifier/aid.py:42-63 | Which texts are AIDs and what they stand for: the named algorithm, Ed25519 without a name, and a base64url key of 32 bytes or of 33 bytes on the curve. |
| `Thumbprints.CanonicalJwkIsCanonical` | aitp_verifier/jwk.py:80-90 | The text that a thumbprint hashes is the canonical form of the key's JWK. |
| `Thumbprints.ThumbprintMeaning` | aitp_verifier/jwk.py:93-95 | A thumbprint decodes to the SHA-256 of that canonical form. |
| `Aids.PatternUnique` | aitp_verifier/envelope.py:60 | The signature pattern has one reading of a text, and the reader finds it. |
| `Aids.PatternDecodes` | aitp_verifier/sigfield.py:27-46 | A signature inside the envelope pattern decodes to 64 bytes exactly when its tag names the signer's algorithm, and otherwise fails with the caller's code. |
| `Aids.TaggedMeaning` | aitp_verifier/sigfield.py:27-46 | A signature field stands for 64 bytes, tagged with the signer's own algorithm or, for Ed25519, untagged, and for nothing else. |
| `Aids.JoseMeaning` | aitp_verifier/crypto.py:209-230 | A JOSE signature verifies exactly when the library accepts it; for P-256 it is two numbers in range in 32 bytes each, with the low s unless it is an identity provider's. |
| `Aids.DigestMeaning` | aitp_verifier/crypto.py:186-203 | The digest profile likewise, where the low s is always required. |
| `KeyMath.LowSExactlyOne` | aitp_verifier/crypto.py:97-105 | For every r and s in range exactly one of (r, s) and (r, n - s) passes the strict check, and the lax mode accepts both. |
| `KeyMath.RangeEnforced` | aitp_verifier/crypto.py:97-105 | Whatever is accepted, in either mode, has r and s in 1..n-1 and re-encodes to the same 64 bytes. |
| `KeyMath.RawMeaning` | aitp_verifier/crypto.py:81-105 | What the conversion returns: exactly the two numbers in range that the 64 bytes hold, low-S unless lax. |
| `KeyMath.NormalisedIsStrict` | aitp_verifier/crypto.py:108-113 | The normaliser's output passes the strict check as (r, min(s, n - s)), and normalising is idempotent. |
| `KeyMath.RsaBounds` | aitp_verifier/crypto.py:159-182 | An accepted RSA key has 2^2047 <= n < 2^8192 in 256 to 1024 bytes and e < 2^33 in at most 5, and no other byte strings with its numbers are accepted. |
| `KeyMath.RsaMeaning` | aitp_verifier/crypto.py:159-182 | Exactly which byte strings pass, for a positive exponent: minimal encodings of a modulus of 2048 to 8192 bits and of an exponent of at most 33 bits, and as which numbers. |
| `KeyMath.ZeroExponentTwice` | aitp_verifier/crypto.py:174-182 | The exponent zero is the exception: these checks accept it in two encodings and leave it to the library to refuse. |
| `Jws.VerifyJwsMeaning` | aitp_verifier/jws.py:71-121 | Acceptance, whatever the codes: exactly a parsed token with header {alg, typ}, the expected typ, the issuer key's own alg, a passing hook and a verifying signature. |
| `Jws.ParseCompactMeaning` | aitp_verifier/jws.py:47-68 | A token parses exactly when it is two JSON objects and a non-empty signature in base64url between two points, and to just those; the signing input is the first two segments as they stand. |
| `Jws.TwinTokens` | aitp_verifier/jws.py:112-121 | Of two P-256 tokens that differ only in (r, s) against (r, n - s) at most one is accepted. |
| `Jws.VerifyJwsCodes` | aitp_verifier/jws.py:71-121 | Each kind of failure has its code and an earlier failure hides a later one. |
| `Jws.ParseMinted` | aitp_verifier/jws.py:124-135 | A minted token has exactly three segments and parses to the same header, claims, signing input and signature. |
| `Jws.VerifyMinted` | aitp_verifier/jws.py:124-135 | A minted token verifies under the key of its issuer when typ and alg match, and returns those claims. |
| `Jws.VerifyJwsEscapes` | aitp_verifier/jws.py:109-121 | Exactly when an exception other than AitpError leaves the function: everything before passes and the issuer is not an AID. |
| `Jws.MalformedIssuerEscapes` | aitp_verifier/jws.py:109-121 | Every minted token of the expected type, verified under a malformed issuer, shows it. |
| `Escapes.VerifyTctEscapes` | aitp_verifier/tct.py:130-175 | Exactly when something other than an AitpError leaves verify_tct: a missing token argument, a well-formed token whose own issuer is no AID, or, after every other check, a Manifest without a usable expiry. |
| `Escapes.VerifyDelegationEscapes` | aitp_verifier/delegation.py:142-212 | Exactly when something other than an AitpError leaves verify_delegation_token: past its guards, the first hop or voucher that fails does so by an issuer that is no AID or whose resolution raises, or the chain claim cannot be hashed. |
| `Escapes.CommittedChainEscapes` | aitp_verifier/delegation.py:375-383 | Exactly which chain claims raise while they are counted and hashed: no iterable, a short one with an entry that is not an ASCII string, or a matching hash of something that is no list. |
| `Witnesses.TctEscapes` | aitp_verifier/tct.py:130-141 | A concrete TCT, well-formed and of the right type, whose issuer is no AID: verify_tct lets the exception out. |
| `Witnesses.DelegationEscapes` | aitp_verifier/delegation.py:161-169 | The same for a concrete delegation token. |
| `SigningInput.ProofInputInjective` | aitp_verifier/proofinput.py:15-29 | Equal proof inputs have equal domain, parties, message id, timestamp and decoded nonce, when the text fields have no NUL. |
| `SigningInput.ProofInputLayout` | aitp_verifier/proofinput.py:15-29 | A proof input read back field by field: tag, sender, receiver, message id and decimal timestamp, each ended by a zero, then the decoded nonce to the end. |
| `SigningInput.EnvelopeInputInjective` | aitp_verifier/envelope.py:70-75 | Envelope signing inputs are equal exactly when the envelopes agree on every member except signature. |
| `SigningInput.EnvelopeInputLayout` | aitp_verifier/envelope.py:70-75 | An envelope signing input read back: the version 2 tag, a zero and canonical JSON of exactly the members other than signature. |
| `SigningInput.InputsDisjoint` | aitp_verifier/proofinput.py:11-12 | A pinned-key proof, a SPIFFE proof, an envelope and the canonical form of an object never give the same input, whatever goes into each. |
| `Envelopes.ValidateEnvelopeShape` | aitp_verifier/envelope.py:78-117 | Exactly the envelopes of this version with typed, closed member sets, a timestamp of at least 0 and a signature inside the pattern pass; an unknown version has its own code, ahead of all others. |
| `Envelopes.EnvelopeMeaning` | aitp_verifier/envelope.py:78-117 | The same of the envelope's own JSON: every member named with its type, and no other. |
| `Envelopes.VerifySenderMeaning` | aitp_verifier/envelope.py:150-152 | The signature step passes exactly when the tag matches, the envelope canonicalizes and 64 bytes verify over its digest; what does not verify fails with the caller's code. |
| `Fields.IntegerMeaning` | aitp_verifier/fields.py:191-200 | A number passes as an integer exactly when its value is one, and int() truncates its magnitude and keeps its sign. |
| `Fields.IntMeaning` | aitp_verifier/fields.py:191-200 | A member reads as an integer exactly when it is a number with that value. |
| `Fields.PyIntMeaning` | aitp_verifier/revocation.py:163-171 | What a policy bound of any JSON type stands for: a number loses its fraction toward zero, true is one, a string is what int() makes of it. |
| `Fields.TextsMeaning` | aitp_verifier/delegation.py:109-110 | A member reads as a list of strings exactly when it is the list of those JSON strings in that order. |
| `Fields.JsonIntValue` | aitp_verifier/adapter.py:229 | The clock that an operation is given reads back as the same integer. |
| `Revocation.TrustMeaning` | aitp_verifier/revocation.py:215-271 | A snapshot is trusted exactly when it is a wrapper of two members around a revocation list and its own issuer's signature over the canonical list; the result is the list's issuer, its two times and the jti of every entry in order. |
| `Revocation.ListMeaning` | aitp_verifier/revocation.py:174-212 | The shape check and what is read of a list, as one statement about its JSON members. |
| `Revocation.ListedMeaning` | aitp_verifier/revocation.py:215-271 | A jti is on a trusted snapshot's list exactly when some entry of its JSON has it. |
| `Revocation.TrustCodes` | aitp_verifier/revocation.py:215-271 | Which of the three codes a snapshot gets that is not trusted, for shape, unknown members, issuer, signature field, canonical form and signature. |
| `Revocation.PermissiveOnlyByName` | aitp_verifier/revocation.py:109-137 | The mode is permissive only where the caller's policy spells one of the two permissive names. |
| `Revocation.FreshBefore` | aitp_verifier/revocation.py:140-171 | A snapshot is fresh at exactly the times before one instant, the smaller of its expiry and of its publication plus the bound plus one; an unusable bound leaves no such time. |
| `Revocation.FreshEarlier` | aitp_verifier/revocation.py:140-171 | Fresh at a time means fresh at every earlier time. |
| `Revocation.OnlyTheMode` | aitp_verifier/revocation.py:121-137 | Setting fail_mode changes no other input and no snapshot's freshness. |
| `Revocation.ModeOnlyForAbsence` | aitp_verifier/revocation.py:274-305 | An untrusted snapshot reports its own defect under every mode; one that applies gives every mode the same answer, TCT_REVOKED exactly when an entry of its JSON has the queried jti; the mode answers only for a stale or foreign one. |
| `Tct.RevocationMeaning` | aitp_verifier/tct.py:378-430 | Only a trusted, fresh snapshot of the token's own issuer speaks, through every entry of its JSON; without one only the mode does; the one error is TCT_REVOKED. |
| `Tct.VerifyTctMeaning` | aitp_verifier/tct.py:130-175 | verify_tct returns the grants member of exactly the signed, live, audience-bound, key-bound claims that are not revoked, and a valid revoked one gives TCT_REVOKED. |
| `Tct.ReadTctMeaning` | aitp_verifier/tct.py:89-115 | What is read of a token's claims, member by member, and that no other member is there. |
| `Tct.UuidMeaning` | aitp_verifier/tct.py:72 | A jti is five lower-case hexadecimal groups with the version and variant digits of a version 4 UUID. |
| `Tct.SignatureFirst` | aitp_verifier/tct.py:130-141 | A token that its issuer did not sign over well-formed claims fails with a code of that step, so it never reaches a deny list. |
| `Tct.FailModes` | aitp_verifier/tct.py:358-376 | soft_fail and fail_open always agree, accept all that fail_closed accepts with the same grants, and add exactly the grants without a usable snapshot. |
| `Tct.UnusableIgnored` | aitp_verifier/tct.py:405-427 | An untrusted, wrong-issuer or stale snapshot has no effect on the verdict, whatever it lists. |
| `Tct.AcceptedEarlier` | aitp_verifier/tct.py:150-174 | A grant accepted now was accepted earlier exactly when no snapshot usable then lists it; under fail_closed that always holds. |
| `Witnesses.TctNotMonotone` | aitp_verifier/tct.py:358-430 | Under a permissive mode it can fail: a concrete TCT whose only snapshot lists it, accepted once that snapshot is stale. |
| `Pop.PresenterMeaning` | aitp_verifier/tct.py:240-284 | A presenter is exactly the token's own sub, when the signed response names its jti and the first outstanding challenge it matches is live and its nonce is signed by the sub key. |
| `Pop.ReadResponseMeaning` | aitp_verifier/tct.py:240-251 | What is read of a response envelope, member by member. |
| `Pop.ChallengesMeaning` | aitp_verifier/tct.py:262-269 | Every object of the list of outstanding challenges is read, in order, and nothing else. |
| `Pop.OutstandingMeaning` | aitp_verifier/tct.py:262-265 | A list of outstanding challenges is read, anything else counts as none, and what is true but cannot be iterated raises. |
| `Pop.ChallengeMeaning` | aitp_verifier/tct.py:262-284 | What one challenge says: its jti, its nonce and, if it is an integer, its expiry. |
| `Pop.FirstMatch` | aitp_verifier/tct.py:262-269 | The challenge used is the first outstanding one with this jti and nonce, and there is none only if none matches. |
| `Pop.IssuerSideMeaning` | aitp_verifier/tct.py:178-237 | The issuer accepts exactly its own live, key-bound, unrevoked grants of this version with aud = sub, presented by sub in a valid response or by the channel, an envelope deciding over a channel. |
| `ChainHash.ChainHashBinds` | aitp_verifier/delegation.py:115-121 | Two chains with one chain_hash are the same list, or two different byte strings hashed for them have one SHA-256. |
| `ChainHash.ChainHashReads` | aitp_verifier/delegation.py:115-121 | What is committed to, read back: the hash decodes to the digest of a canonical list whose i-th string decodes to the digest of the i-th entry. |
| `Snapshots.VerifiedSnapshotBodies` | aitp_verifier/delegation.py:215-269 | The loop returns the verified bodies in input order, or the defect of the first failing record that may be the verifier's own. |
| `Snapshots.BodiesMeaning` | aitp_verifier/delegation.py:261-269 | The bodies are exactly those of the records that verify, and exist exactly when every record that may be the verifier's own verifies, in whatever mode. |
| `Snapshots.OwnMeaning` | aitp_verifier/delegation.py:261-268 | A record may be the verifier's own exactly when its label is its AID or no string at all. |
| `Snapshots.ListedInRecords` | aitp_verifier/delegation.py:272-289 | A jti is listed by an issuer exactly when some supplied record holds a trusted, fresh snapshot of that issuer with an entry for it. |
| `Snapshots.BuildRevocationIndex` | aitp_verifier/delegation.py:272-289 | The loop with setdefault and update builds the index of the specification. |
| `Snapshots.IndexAgrees` | aitp_verifier/delegation.py:272-289 | An issuer is a key exactly when a body of it exists, and a jti is under it exactly when such a body lists it. |
| `Snapshots.SourceMeaning` | aitp_verifier/delegation.py:314-366 | The source check passes exactly when no fresh body of the verifier lists the source jti and, unless the mode is permissive, one such body exists. |
| `Snapshots.SweepMeaning` | aitp_verifier/delegation.py:464-481 | The sweep's index lookups ask the same question as a direct scan of the bodies. |
| `Delegation.HopStep` | aitp_verifier/delegation.py:391-454 | One pass of the loop body agrees with the declarative verdict on hop i, for the carried set of jtis and predecessor. |
| `Delegation.VerifyHops` | aitp_verifier/delegation.py:386-455 | The loop with its four carried variables returns the error of the first failing hop, or the last hop and the root voucher. |
| `Delegation.SweepRevocation` | aitp_verifier/delegation.py:457-481 | The revocation part with its two loops computes the specification. |
| `Delegation.VerifyMultihop` | aitp_verifier/delegation.py:369-484 | The whole method computes the specification whose acceptance the following rows describe. |
| `DelegationEntry.DelegationMeaning` | aitp_verifier/delegation.py:142-212 | The whole of verify_delegation_token: it returns the grants exactly when the input names a verifier and a compact token that is granted on its own path, a chain only with the opt-in. |
| `DelegationEntry.GrantsAreScope` | aitp_verifier/delegation.py:142-212 | On both paths what is granted is the scope member of the token's own signed claims. |
| `DelegationEntry.GuardCodes` | aitp_verifier/delegation.py:131-160 | The guards have their own codes ahead of every signature, the retired object token included; a chain is refused without the opt-in. |
| `DelegationSafety.ReadHopMeaning` | aitp_verifier/delegation.py:101-113 | What is read of a delegation's claims, member by member: texts, the scope list, the expiry's value, cnf.jkt; and that no other member is there. |
| `DelegationSafety.ReadVoucherMeaning` | aitp_verifier/voucher.py:39-50 | The same of a grant voucher. |
| `DelegationSafety.SignedHopMeaning` | aitp_verifier/delegation.py:391-399 | A hop passes exactly when the issuer it names has a resolved key and signed, as these very members, the claims that are read. |
| `DelegationSafety.SignedVoucherMeaning` | aitp_verifier/delegation.py:179-194 | A voucher passes exactly when the verifier itself is its issuer and signed these members. |
| `DelegationSafety.HopAloneMeaning` | aitp_verifier/delegation.py:391-417 | The checks of one hop alone: signed, this version, addressed to the verifier, not self-issued, bound to sub. |
| `DelegationSafety.SingleHopMeaning` | aitp_verifier/delegation.py:161-201 | The single-hop path passes exactly a live hop to this verifier that its own voucher authorises in delegator, scope and lifetime. |
| `Delegation.ChainStops` | aitp_verifier/delegation.py:391-455 | The first failing hop decides the error of the whole chain. |
| `DelegationSafety.ChainMeaning` | aitp_verifier/delegation.py:386-455 | The loop accepts exactly the chains of genuine live hops with distinct jtis, each continuing its predecessor, from a voucher. |
| `DelegationSafety.Attenuates` | aitp_verifier/delegation.py:443-454 | Over any distance in a valid chain scope and expiry only shrink, and stay inside the voucher's. |
| `DelegationPolicy.CommittedChainMeaning` | aitp_verifier/delegation.py:375-383 | The chain is accepted exactly when it is at most two ASCII entries and chain_hash is their commitment. |
| `DelegationPolicy.RevocationMeaning` | aitp_verifier/delegation.py:457-481 | Revocation passes exactly when the bodies exist, the verifier's own list clears the source and every hop's issuer clears the hop. |
| `DelegationPolicy.MultihopMeaning` | aitp_verifier/delegation.py:369-484 | A multi-hop token is accepted exactly when it commits to its chain, the chain is valid and all is clear; the grants are the last scope. |
| `DelegationPolicy.AcceptedMultihop` | aitp_verifier/delegation.py:369-484 | Every accepted multi-hop token has at most three hops, each signed by its own issuer over the members that are read, issued to the next, alive and with its own jti, from the verifier's voucher to the first delegator; for all i <= j scope and expiry only shrink, inside the voucher's; what is granted is the scope member of the token's own claims. |
| `DelegationVerdict.AcceptedCoverage` | aitp_verifier/delegation.py:353-366 | On both paths no fresh verified body lists the source TCT or a hop of an accepted delegation, and under fail_closed the verifier and every hop issuer have one. |
| `DelegationPolicy.EmptyChainIsSingleHop` | aitp_verifier/delegation.py:161-212 | A multi-hop token accepted with an empty chain passes every single-hop check with the same grants. |
| `DelegationVerdict.SnapshotOrder` | aitp_verifier/delegation.py:253-289 | Acceptance and grants do not depend on the order or repetition of the supplied snapshots. |
| `DelegationVerdict.FailModes` | aitp_verifier/delegation.py:292-366 | The permissive modes give one verdict, fail_closed accepts nothing they do not, and refuses in addition exactly what lacks a fresh body. |
| `DelegationTime.AcceptedEarlier` | aitp_verifier/delegation.py:142-212 | In every mode an accepted delegation was accepted earlier, with the same grants, exactly when its hops' issuers resolved then and no body fresh then lists its source or a hop. |
| `Witnesses.DelegationNotMonotone` | aitp_verifier/delegation.py:353-366 | That condition can fail: a concrete delegation with two snapshots of one issuer, accepted at 150 and refused at 50 in every mode. |
| `Jwk.RsaJwk` | aitp_verifier/jwk.py:197-200 | An RSA candidate has the bounds above and is the unique minimal encoding of its numbers, when the library refuses exponent zero. |
| `Jwk.AlgIgnored` | aitp_verifier/jwk.py:155-202 | A JWK's own alg never changes the key it parses to. |
| `Jwk.ReadJwk` | aitp_verifier/jwk.py:145-202 | Parsing one JWK, successful or not, hands at most two texts to the base64url decoder, each a member of the JWK of at most 8192 characters. |
| `Jwk.JwkMeaning` | aitp_verifier/jwk.py:155-202 | A JWK parses exactly to the key and kid that its members describe: kty and crv, and the very bytes of x, of x and y on the curve, or the numbers of n and e. |
| `Jwk.ConfigMeaning` | aitp_verifier/jwk.py:205-222 | A config string parses exactly to the Ed25519 key of 43 characters or the P-256 key of 44 that it decodes to, without a kid. |
| `Jwk.AlgMeaning` | aitp_verifier/jwk.py:104-114 | The JOSE algorithm of a key is that of its structure. |
| `Jwk.CandidateCost` | aitp_verifier/jwk.py:145-152 | One candidate therefore costs at most 2 * 8192 decoded characters. |
| `IssuerKeys.KeyWalk.From` | aitp_verifier/jwk.py:326-365 | On any heap the walk succeeds exactly when the value unrolls within depth 16 and the rest of the budget admits its nodes and candidates and all parse; then it appended the keys left to right and counted each node. |
| `IssuerKeys.KeyWalk.FromList` | aitp_verifier/jwk.py:361-364 | The list loop, under the same exact condition. |
| `IssuerKeys.KeyWalk.Take` | aitp_verifier/jwk.py:368-378 | A candidate is parsed only while fewer than 64 keys are there, and appended only if it parses. |
| `IssuerKeys.KeyWalk.TakeAll` | aitp_verifier/jwk.py:349-360 | The keys loop of a JWKS takes all its candidates in order or fails. |
| `IssuerKeys.ParseAllMeaning` | aitp_verifier/jwk.py:326-365 | The result is, for each candidate at its own position, the key and kid that its members or its text describe, and exists exactly when all stand for one. |
| `IssuerKeys.IssuerKeysFrom` | aitp_verifier/jwk.py:290-323 | The result is the left-to-right flattening exactly within the three caps; at most 4097 visits, 64 parses and 64 * 2 * 8192 decoded characters in any run. |
| `IssuerKeys.CycleRefused` | aitp_verifier/jwk.py:361-364 | A list that contains itself is refused. |
| `SpiffeId.OneLanguage` | aitp_verifier/manifest.py:107 | The splitting parser and the manifest's pattern with its length test accept exactly the same strings. |
| `SpiffeId.Classes` | aitp_verifier/manifest.py:107 | The bracket ranges of the pattern are the character classes of the parser. |
| `SpiffeId.Rejoin` | aitp_verifier/spiffe.py:96-113 | The parsed trust domain and path, joined again, are the input. |
| `SpiffeId.SegmentMeaning` | aitp_verifier/manifest.py:107 | The two alternatives of the pattern match exactly the parser's segments. |
| `SpiffeId.PathMeaning` | aitp_verifier/spiffe.py:110-112 | The repeated group of the pattern matches exactly a slash and a split into valid segments. |
| `SpiffeId.DotsOnly` | aitp_verifier/spiffe.py:110-112 | A segment of dots alone is accepted from three dots on, by both grammars. |
| `Spiffe.BundleFor` | aitp_verifier/spiffe.py:169-185 | The loop finds the one bundle of the domain exactly when every entry names a distinct domain and the domain's bundle is there. |
| `Spiffe.VerifyPath` | aitp_verifier/spiffe.py:410-427 | The path is accepted exactly when every step of the chain passes and the first anchor that issued its top passes; that anchor is returned. |
| `Spiffe.CountdownMeaning` | aitp_verifier/spiffe.py:324-334 | The countdown of section 6.1.4 of RFC 5280 survives exactly when no certificate has more CAs below it than it allows. |
| `Spiffe.PathLengthsAreCountdown` | aitp_verifier/spiffe.py:417-426 | The local below checks over intermediates and anchor hold exactly when that countdown, started from the anchor's constraint, never runs out. |
| `Spiffe.NamesAreStateMachine` | aitp_verifier/spiffe.py:345-356 | Checking each CA alone is membership in all permitted sets and in no excluded set. |
| `Spiffe.HostMatchMeaning` | aitp_verifier/spiffe.py:337-342 | A constraint with a leading dot admits every host it ends, itself included; any other only itself. |
| `Spiffe.CoversMeaning` | aitp_verifier/spiffe.py:345-356 | A list of constraints spans a host exactly when one URI constraint in it is the host, or begins with a dot and ends it. |
| `Spiffe.PathMeaning` | aitp_verifier/spiffe.py:410-427 | The accepted paths are those of RFC 5280: a sound chain, a countdown that survives, a trust domain the accumulated constraints admit. |
| `Adapter.Session.constructor` | aitp_verifier/adapter.py:134-152 | A new adapter starts at the reference clock with nothing enabled, seen or issued. |
| `Adapter.Session.BeginFixture` | aitp_verifier/adapter.py:148-152 | A new fixture drops ids, challenges, presenter and flag, and keeps clock and features. |
| `Adapter.Session.IssuePopChallenge` | aitp_verifier/adapter.py:246-255 | The whole new state and the result of issuing a challenge. |
| `Adapter.Session.ProducePopResponse` | aitp_verifier/adapter.py:257-269 | Success sets the presenter, a protocol error clears it, any other exception leaves it. |
| `Adapter.Session.AuthorizeCapabilityInvocation` | aitp_verifier/adapter.py:276-282 | A required proof raises the flag instead of authorizing. |
| `Adapter.Session.SessionOperation` | aitp_verifier/adapter.py:139-146 | Each named session operation changes the state as its specification says. |
| `Adapter.Session.Dispatch` | aitp_verifier/adapter.py:177-239 | Every operation changes the state and answers as the step function says. |
| `Adapter.Session.Respond` | aitp_verifier/adapter.py:164-175 | A request answers once, also when the operation raises. |
| `Adapter.Session.Serve` | aitp_verifier/adapter.py:306-320 | The responses are those of the lines up to the first shutdown, and the final state is the one after them. |
| `Adapter.Consumed` | aitp_verifier/adapter.py:309-320 | Reading stops right after the first shutdown line and nowhere else before the end. |
| `AdapterCalls.ParseRequestMeaning` | aitp_verifier/adapter.py:105-119 | A line is read as an object exactly when it is the strict text of that object followed by CR and LF alone. |
| `AdapterCalls.RequestRead` | aitp_verifier/adapter.py:105-119 | A request sent in canonical form, with any line ending, is read back as itself. |
| `AdapterCalls.BlankMeaning` | aitp_verifier/adapter.py:310-311 | Which lines are skipped: those of spaces and the control characters from tab to carriage return alone. |
| `AdapterCalls.ResponseMeaning` | aitp_verifier/adapter.py:164-175 | How a line is answered: under its own id with the result, the code or the one internal error, and malformed requests change nothing. |
| `AdapterCalls.ControlMeaning` | aitp_verifier/adapter.py:177-208 | The control operations: exactly when each fails, with its code, and all that it changes. |
| `AdapterCalls.RunOperationMeaning` | aitp_verifier/adapter.py:222-237 | An operation runs on the params with the session clock where they bring none and, for the two gated operations, a feature that is named exactly when it is enabled, whatever the params say. |
| `AdapterCalls.ReceivesOne` | aitp_verifier/adapter.py:229-232 | There is only one such input. |
| `AdapterCalls.ClockOrigin` | aitp_verifier/adapter.py:194-199 | After any run the clock is the one set last, or the first one; no fixture resets it. |
| `AdapterCalls.FeaturesOrigin` | aitp_verifier/adapter.py:200-205 | The enabled features are those set last, likewise. |
| `AdapterCalls.ChallengeNonceMeaning` | aitp_verifier/adapter.py:246-251 | The nonce is the fixture's own where it is a string, else the random one; a non-object on the way raises. |
| `AdapterCalls.UnverifiedMeaning` | aitp_verifier/harness.py:64-70 | The unverified claims are those of the token's second segment, none where it is no token. |
| `AdapterRuns.OneResponsePerLine` | aitp_verifier/adapter.py:309-317 | In every run the responses are one for each non-blank line, in order. |
| `AdapterRuns.ReplayOnce` | aitp_verifier/adapter.py:206-217 | Two successes of the replay check with one message id have a begin_fixture between them. |
| `AdapterRuns.ChallengeOrigin` | aitp_verifier/adapter.py:246-255 | Every outstanding challenge was issued by an earlier step of the same fixture, with its clock plus 300 as expiry. |
| `AdapterRuns.PresenterOrigin` | aitp_verifier/adapter.py:257-269 | A held presenter was established by an earlier successful produce step of the same fixture. |
| `AdapterRuns.PopSafety` | aitp_verifier/adapter.py:257-274 | A successful verify_pop_response has an earlier successful produce step in its fixture, whose signed envelope answered by jti and nonce a challenge issued earlier still, less than 300 seconds before, under the presenter's key. |
| `AdapterRuns.IssuedFlag` | aitp_verifier/adapter.py:253-291 | The flag is set exactly when a step of the current fixture issued or demanded a challenge. |
| `AdapterRuns.WithheldNeverAuthorizes` | aitp_verifier/adapter.py:287-291 | Withholding a response authorizes exactly when nothing in the fixture challenged the presenter. |

## Left out

- NumberReader.ReadNumber: reads a number text as its exact decimal; rounding the text to a double, as `json.loads` does for floats, is not modelled.
- NumberReader.FormatNumberExact: takes the `repr` text of the double as input; the shortest-digits search of `repr` and the rounding of an integer beyond 2^53 to a double are library code.
- Fields.IntegerMeaning: JSON numbers carry no int/float type, so `5.0` counts as an integer also where the code asks for an `int` object (the expiry of a supplied PoP challenge, `set_clock`).
- JsonReader.LoadsCanon: strings are sequences of Unicode scalar values, so lone surrogates are outside the model, and the interpreter's recursion and integer-digit limits while parsing JSON are not modelled.
- JcsWalk.Dumps: dict keys are strings; a key of another type, which the code refuses or fails to encode, is not modelled.
- Delegation.VerifyMultihop: a `chain` that is an object yields its names in sorted order instead of insertion order, so with two members the model may report a crash where the code reports a hash mismatch, or the reverse; it is never accepted by either.
- Revocation.FreshBefore: a non-finite `max_staleness_secs` (stale in the code) cannot be written in the model's JSON.
- ChainHash.ChainHashBinds: chains that raise while hashing (a non-ASCII entry, more entries than the node cap) have no commitment to compare.
- Spiffe.VerifyPath: starts from parsed certificates; base64 and DER decoding, the leaf's SAN, key usage and key checks and the proof under the leaf key are straight-line and not part of this model.
- Adapter.Session.Dispatch: the verify operations with their argument tables, the fixture conventions and the rule for when proof of possession is required are parameters that do not touch the session state; the random nonce of a challenge comes with the line.
- Error message text, logging, stdin and stdout, environment and argument parsing.
- `int(str)` on a policy bound, Manifest resolution, `inp["now"]` and the reference clock are parameters.
- `handshake.py`, `identity.py`, `sessionbundle.py`, `voucher.py` as an entry point, `verify_attestation`, `verify_manifest` and the JWT-SVID path: ordered checks over parts that are modelled here.
- The URI, capability and display-name grammars of `manifest.py`: long lists of one-branch facts.
- `minter.py`, `keys.py`, `harness.py`, `run_conformance.py`, `scripts/parity-diff.py`: fixture tooling and file I/O.
- Curve, RSA, Ed25519 and SHA-256 internals, DER signature encoding and X.509 parsing: library code.
