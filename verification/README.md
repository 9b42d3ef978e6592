# Verified models of stealthscraper-rs

A Dafny model of the parts of the crate that carry state, arithmetic or untrusted
input, with proofs about them. Each source component has a module of pure functions
that says what its code does, a class or a method in the source's own imperative form
that is proved equal to those functions, and lemmas about the functions.

| files | component | results |
|---|---|---|
| `Transport`, `Multiplexer` | CDP transport: shared state, reader loop, and all interleavings of callers and reader | own replies only and read as they are meant, at most one finish, nobody stranded or admitted after close, no reply or event missed |
| `LoadWatch` | load watcher over the bounded event channel; enabling, subscribing and navigating by many callers | success exactly when a load of this page is read; every navigation is observed |
| `Wire`, `ClientHelloParser`, `HelloPrinter`, `HelloBounds`, `HelloConverse` | ClientHello parser against the builder's printer | parsing undoes printing and accepts only inputs with the fields of some hello, what is not read, which error, prefixes, size bound |
| `TlsCapture` | first-record accumulator | chunk independence |
| `Sorting`, `Fingerprint` | JA4 canonical form | all segments are complete invariants and read back; GREASE and order do not show |
| `Text`, `Cookies`, `SetCookiePrint`, `SetCookieIntent`, `CookieJar` | cookie matching, `Set-Cookie` parsing, the jar, the header | parsing undoes printing, provenance over all runs, last-writer-wins refinement, set then send and no further, the header reads back |
| `SessionPolicy`, `Session` | dual-mode session | invariant over all runs, what a fetch does and returns and what it costs, exact span without oscillation |
| `Records`, `JsonStore` | crash-safe JSON store | every crash point reopens to a map that was in memory; no update is lost |
| `ProxyPool`, `Challenge`, `Rotations` | proxy pool, back-off, challenge loop, rotations by many pages at once | bounds, exactly how the loop ends, no endpoint twice, when traffic leaves through the selected endpoint |
| `LeafCache` | host check and bounded certificate cache | first in first out under all interleavings, one acceptor per stay |
| `Powers`, `Hpack` | HPACK integers and field names of the capture example | decoding undoes encoding |

Concurrent components (`Multiplexer`, `LeafCacheModel`, `PageModel`, `RotationModel`) are step relations:
one step per lock section or await, in any order. Everything outside the crate (pages,
sockets, files, clocks, random draws, the JSON codec, the Public Suffix List, address
parsing, certificate minting) is a parameter, and the results hold for all its values,
under the assumptions written in their `requires`. The only assumption on the JSON codec
is `Records.Faithful`: decoding undoes encoding and no encoding is blank.

## Findings

Where a promise fails, the model keeps the code and the exact condition is proved.

- `remove` reports success with disk and memory out of sync when the key is absent and an
  earlier flush had failed: `StoreModel.RemoveOkInSyncIff`, `StoreModel.RemoveOkOutOfSync`.
- When a hard block meets a pool with no endpoint left, or the next client cannot be built,
  traffic keeps leaving through the retired endpoint. For one caller at a time this is so exactly
  when some look within the budget strands the loop: `ChallengeModel.RotateCoherentIff`,
  `ChallengeModel.SolveCoherentIff`, `ChallengeModel.RetiredEndpointStaysInUse`.
- Pages of one scraper rotate at once, and `rotate_proxy` lets go of the pool before it swaps the
  client, and writes the locale after that. So a call may succeed and leave traffic going through
  an endpoint that another call has retired meanwhile. Pool, client and locale agree exactly when
  the call of the latest rotation was the last to write both: `RotationModel.CoherentIffLatest`,
  `RotationModel.HealthyInUseIffLatest`, `RotationModel.OvertakenSwapWins`.
- A host-only cookie of a host written with a trailing dot is never sent back
  (`Cookies.HostOnlyReturnsIff`), and one of a host with a leading dot is read back as a
  widened domain (`Cookies.HostOnlyExactIff`).
- A load event is read exactly when the watcher gets past it before the timeout and never
  finds more than 256 events published since while still behind it: `LoadWatchModel.ReadsIff`,
  `LoadWatchModel.OverrunLosesLoad`.
- A wait may end on a load of its page published between its subscription and its
  navigation, so before the page it navigated to has loaded. It ends on its own load exactly
  when every such earlier one is pushed out of the channel, 256 events on, before the watcher
  gets to it: `PageModel.OwnLoadIff`, `PageModel.StaleLoadEndsWait`.
- A cancelled call leaves its entry in the waiting map, exactly until the first reply with its
  id is read or the connection closes: `Multiplexer.CancelledEntryIff`,
  `Multiplexer.CancelledEntryRemains`.
- The branches for a dropped sender (`src/cdp/transport.rs:254-258`) and for a policy that
  declines to escalate (`src/session.rs:254-258`) are unreachable:
  `Multiplexer.NoSenderIsLost`, `SessionModel.FetchKeeps`.
- `path_matches` is documented as the matching of RFC 6265 but trims trailing slashes, so
  `/app/` also matches `/app`: `Cookies.MatchesAsStandardIff`.
- The jar order that breaks ties in the header is documented as earlier-first, but a
  replaced cookie moves to the end: `CookieJar.KeepsCreationOrderIff`. Of two cookies with paths
  of one length the header shows it: `CookieJar.ReplacedRendersLast`.
- Of several `Domain` attributes with a value the last is meant to decide. It does exactly when no
  earlier one is refused before an acceptable last one, and none widens before a last one that
  keeps the host, which is one of dots alone, or the host itself where that is a public suffix or
  an address: `SetCookieIntent.ScopeAsIntendedIff`, with `SetCookieIntent.RefusedDomainIsFinal` and
  `SetCookieIntent.DotDomainKeepsWidening`.
- An unreadable `Max-Age` is meant to be ignored, but clears an earlier readable one. The lifetime
  is as meant exactly when the last is readable or none is:
  `SetCookieIntent.MaxAgeAsIntendedIff`, `SetCookieIntent.UnreadableMaxAgeClears`.

## Model

| member | source | states |
|---|---|---|
| Transport.SharedState.Register | src/cdp/transport.rs:269-283 | a sender is stored unless the connection is closed, and then nothing is |
| Transport.SharedState.TakeWaiter | src/cdp/transport.rs:114-116 | the entry is removed and reported if it was there |
| Transport.SharedState.Dispatch | src/cdp/transport.rs:87-112 | a message with an id goes to its waiter or nowhere; one with a method only is published |
| TransportModel.ParseReplyReports | src/cdp/transport.rs:135-152 | a reply with an error object is that failure, with 0 and the default text for what it leaves out; any other is its result, or null |
| TransportModel.DispatchRoutes | src/cdp/transport.rs:87-112 | a message with an id answers its waiter with what it reports and is never an event; one without becomes an event, with its parameters and session, exactly if it has a method |
| Transport.SharedState.Close | src/cdp/transport.rs:119-125 | the first reason is kept, every waiter is failed with this one, none is left |
| TransportModel.CloseFails | src/cdp/transport.rs:119-125 | each waiter is answered with this reason, an answer already sent stays, the first reason is kept |
| Transport.SharedState.ReadLoop | src/cdp/transport.rs:343-371 | every complete frame is dispatched in order, undecodable ones skipped, then the state is closed with the reason the stream ended for |
| Transport.SharedState.ReadFrames | src/cdp/transport.rs:347-366 | dispatches the frames of the stream; what is left over tells whether it ended mid-message |
| Transport.ReadUntil | src/cdp/transport.rs:349-349 | bytes up to and including the first delimiter, or all of them |
| TransportModel.FramesUndoWritten | src/cdp/transport.rs:285-300 | frames written one after another are read back one by one; a cut last frame is not read and is noticed |
| TransportModel.StreamIsDispatched | src/cdp/transport.rs:343-371 | over anything written, the decodable messages are dispatched in order, and the reason of the end tells a cut frame from a clean end |
| Multiplexer.ReadThenAnswerIsDispatch | src/cdp/transport.rs:87-95 | the reader's two steps of the interleaved model are the dispatch of the sequential one |
| Multiplexer.StepKeepsInv | src/cdp/transport.rs:225-283 | every step of every caller and of the reader keeps the invariant over map, closed flag, answers and call positions |
| Multiplexer.AnswersAreOwnReplies | src/cdp/transport.rs:225-267 | in every run an answer is a transport failure, or what the first reply with the call's own id reports: a success only without an error object |
| Multiplexer.EventsAreTheLog | src/cdp/transport.rs:97-111 | in every run the events sent are exactly the messages read that have a method and no id, in order |
| Multiplexer.ChannelsTellWhy | src/cdp/transport.rs:119-125 | in every run what a call is sent is its own first reply or the reason the connection closed for |
| Multiplexer.FinishesOnce | src/cdp/transport.rs:225-267 | an answer or a cancellation is final, whatever happens later |
| Multiplexer.NoneStrandedAfterClose | src/cdp/transport.rs:119-125 | after close the map is empty, every open call already has its answer, and a late caller is refused |
| Multiplexer.ClosedStaysClosed | src/cdp/transport.rs:269-283 | no later step reopens the connection or admits a call |
| Multiplexer.FirstReplyFindsItsWaiter | src/cdp/transport.rs:245-249 | since registering precedes writing, the first reply to a call still waiting is what that call returns, as it reports |
| Multiplexer.NoSenderIsLost | src/cdp/transport.rs:254-258 | the branch for a sender dropped without an answer is never taken |
| Multiplexer.UnclaimedReplyIsStale | src/cdp/transport.rs:89-93 | a reply nobody waits for belongs to no call that still needs one, and changes nothing |
| Multiplexer.CancelledEntryIff | src/cdp/transport.rs:245-266 | in every run a cancelled call's entry is in the map exactly while no reply with its id was read and the connection is open |
| Multiplexer.CancelledEntryRemains | src/cdp/transport.rs:225-267 | a concrete run that leaves such an entry behind |
| LoadWatch.LoadWatcher.AwaitLoad | src/cdp/session.rs:621-655 | the loop succeeds exactly when a receive hands over a load event of this page |
| LoadWatch.LoadWatcher.Next | src/cdp/session.rs:626-645 | one receive from the bounded channel: the next event, a lag, or the closing |
| LoadWatchModel.WaitIffLoadRead | src/cdp/session.rs:624-650 | never another page's load, and never a load merely suspected after a lag |
| LoadWatchModel.WaitFailsFor | src/cdp/session.rs:624-654 | a wait that reads no load fails for the closing if it got that far, and for the timeout otherwise |
| LoadWatchModel.ReadsIff | src/cdp/session.rs:626-642 | an event subscribed to in time is read exactly when the watcher gets past it before the timeout and is never overrun while behind it |
| LoadWatchModel.EndsOnFirstLoad | src/cdp/session.rs:626-633 | a successful wait ends on the first load of this page it reads |
| LoadWatchModel.OverrunLosesLoad | src/cdp/session.rs:638-642 | a load already published is lost behind 256 later events |
| PageModel.StepKeepsInv | src/cdp/session.rs:595-608 | every interleaving keeps one lock holder and a record that never runs ahead of the browser |
| PageModel.NavigatesObserved | src/cdp/session.rs:343-357 | every navigation happens with load events enabled and a subscription that started no later |
| PageModel.SubscriptionStartsNow | src/cdp/session.rs:343-350 | in every interleaving a subscription starts with the next event published and stays there |
| PageModel.EnabledOnce | src/cdp/session.rs:595-608 | once recorded, a domain is not enabled again |
| PageModel.NavigationSeesItsLoad | src/cdp/session.rs:353-357 | a load published after the navigation makes that navigation's own wait succeed, barring timeout and overrun |
| PageModel.OwnLoadIff | src/cdp/session.rs:343-357 | a successful wait ends on a load published after its navigation exactly when every load of its page published between subscribing and navigating is overrun before the watcher gets to it |
| PageModel.StaleLoadEndsWait | src/cdp/session.rs:353-357 | a concrete run in which a wait ends on a load from before its navigation |
| ClientHelloParser.Reader.Take | src/ja4/parse.rs:49-54 | exactly n bytes are consumed, or the read is truncated and nothing is |
| ClientHelloParser.Reader.U8 | src/ja4/parse.rs:56-58 | one byte is consumed and returned |
| ClientHelloParser.Reader.U16 | src/ja4/parse.rs:60-63 | two bytes are consumed, big-endian |
| ClientHelloParser.Reader.U24 | src/ja4/parse.rs:65-68 | three bytes are consumed, big-endian |
| ClientHelloParser.Reader.Block | src/ja4/parse.rs:71-79 | a length-prefixed block of width 1, 2 or 3 is consumed |
| ClientHelloParser.ParseClientHello | src/ja4/parse.rs:128-180 | the cursor code computes the grammar's parse, with the same error for every malformed input |
| ClientHelloParser.ParseBody | src/ja4/parse.rs:151-180 | the handshake body is read field by field as the grammar says |
| ClientHelloParser.ReadExtensions | src/ja4/parse.rs:171-177 | the extension loop consumes the whole block |
| ClientHelloParser.AbsorbExtension | src/ja4/parse.rs:186-229 | each extension updates exactly the fields of its type; lists overwrite, protocols accumulate |
| ClientHelloParser.FindHostName | src/ja4/parse.rs:195-204 | the first entry of type 0 is the host, and what follows it is not read |
| ClientHelloParser.PushProtocols | src/ja4/parse.rs:216-220 | every protocol of the list is appended |
| Wire.BlockUndoesPrefixed | src/ja4/tests.rs:9-19 | reading a block undoes wrapping it in a length prefix, for all three widths |
| Wire.U16ListUndoesU16s | src/ja4/tests.rs:21-23 | reading a list of u16 undoes printing it |
| HelloPrinter.AbsorbUndoesPayload | src/ja4/tests.rs:51-74 | absorbing an extension's printed payload yields the fields it was printed from |
| HelloPrinter.ExtensionsUndoPrint | src/ja4/tests.rs:85-92 | so does the loop over any list of extensions, known or unknown, in any order and repeated |
| HelloPrinter.StepsReachFields | src/ja4/parse.rs:171-177 | the fields reached are: identifiers in wire order, the last list of each kind, all protocols |
| HelloPrinter.ParseUndoesBuildHandshake | src/ja4/tests.rs:77-97 | parsing a printed handshake returns exactly its fields, for every hello within the prefix widths, any random and session id |
| HelloPrinter.NumbersOnTheWire | src/ja4/parse.rs:10-27 | the record and message types, the length of the random, and the extension types |
| HelloPrinter.NothingReadAfterHost | src/ja4/parse.rs:195-204 | whatever follows the first host name is not looked at |
| HelloPrinter.NothingReadAfterList | src/ja4/parse.rs:186-229 | whatever follows the list in an extension's payload is not looked at |
| HelloPrinter.NothingReadAfterExtensions | src/ja4/parse.rs:165-180 | whatever follows the extensions block is not looked at |
| HelloPrinter.RecordParsesAsItsHandshake | src/ja4/tests.rs:100-105 | wrapping bytes that start with 0x01 in a record changes no result, errors included |
| HelloBounds.OnlyTruncatedCanChange | src/ja4/parse.rs:128-180 | any outcome but truncation is unchanged by appending bytes |
| HelloBounds.RecordIgnoresTrailing | src/ja4/parse.rs:130-135 | a complete record is judged alone |
| HelloBounds.ProperPrefixIsTruncated | src/ja4/parse.rs:128-151 | every proper prefix of an exactly sized record or handshake is truncated |
| HelloBounds.RecordFramedIffComplete | src/ja4/parse.rs:130-135 | a record is framed exactly when its declared length is there; otherwise it is truncated |
| HelloBounds.NotClientHelloIff | src/ja4/parse.rs:128-151 | exactly when the input is said to be no ClientHello, and which byte is named |
| HelloBounds.OddCiphersAreMalformed | src/ja4/tests.rs:385-402 | a cipher list of an odd length is malformed, whatever stands around it |
| HelloBounds.CutRecordParsesAlike | src/ja4/parse.rs:130-135 | cutting a stream after its first record changes no result |
| HelloBounds.AbsorbSize | src/ja4/parse.rs:186-229 | one extension adds no more to the result than its payload holds, even when repeated |
| HelloBounds.ParseSize | src/ja4/parse.rs:128-229 | twice the ciphers, four times the extensions, twice the other lists, the protocols with a byte each and the host, plus 42, never exceed the input |
| HelloConverse.AcceptedIsHello | src/ja4/parse.rs:128-229 | whatever is accepted has exactly the fields of some hello that fits the wire format, and parses as that one printed |
| TlsCapture.Capture.Push | src/tls_capture.rs:106-128 | the new buffer and flag, and the record if this chunk settles it |
| TlsCapture.CapturingStream.PollRead | src/tls_capture.rs:163-191 | bytes are forwarded unchanged; the observer sees exactly what the captured reads emit |
| CaptureModel.AfterIsTheBytesReceived | src/tls_capture.rs:106-128 | until done the buffer is all the bytes received and stays under 16 KiB; done means settled |
| CaptureModel.EmitsWhenSettled | src/tls_capture.rs:106-128 | for every split, the push that settles the capture emits the received bytes cut at the record, and no other emits |
| CaptureModel.EmitsAtMostOnce | src/tls_capture.rs:107-109 | after an emission every push emits nothing |
| CaptureModel.EmitsExactlyTheRecord | src/tls_capture.rs:119-125 | a record of at most 16 KiB is emitted once, whole, by the first chunk that completes it |
| CaptureModel.EmissionIsAPrefix | src/tls_capture.rs:119-125 | any emission is a prefix of the stream, no longer than the record, and cut short only at the cap |
| CaptureModel.NeverEmitsTooEarly | src/tls_capture.rs:112-127 | an incomplete record under the cap is not emitted |
| TlsCapture.ObservedAtMostOnce | src/tls_capture.rs:181-188 | the observer is called at most once per stream, and exactly when the capture is done |
| TlsCapture.CaptureParsesAsTheStream | src/tls_capture.rs:123-124 | what is emitted parses as the unsplit stream does, so its fingerprint is the same |
| Fingerprint.Hex4Injective | src/ja4/fingerprint.rs:36-38 | four hex digits determine the code point |
| Fingerprint.JoinHexInjective | src/ja4/fingerprint.rs:41-46 | the joined text determines the list |
| Fingerprint.SegmentA | src/ja4/fingerprint.rs:149-163 | segment a has ten characters for every hello |
| Fingerprint.SegmentAComplete | src/ja4/fingerprint.rs:149-163 | segment a of the fingerprint tells two hellos apart exactly by transport, version code, presence of SNI, the two counts up to 99, and ALPN code |
| Fingerprint.SegmentAReadsBack | src/ja4/fingerprint.rs:80-163 | transport, the highest advertised version or the legacy one, and SNI stand in their places |
| Fingerprint.SegmentACountsReadBack | src/ja4/fingerprint.rs:155-163 | the counts of non-GREASE ciphers and extensions, capped at 99, read back in decimal |
| Fingerprint.SegmentAAlpnReadsBack | src/ja4/fingerprint.rs:106-124 | the ALPN code is the outer characters of the first protocol that is not empty, in hex unless both are alphanumeric, and zeros without one |
| Fingerprint.GreaseExactly | src/ja4/tests.rs:143-151 | GREASE is exactly the sixteen code points of RFC 8701 |
| Fingerprint.TwoDigitsReadBack | src/ja4/fingerprint.rs:155-163 | the two digits of a count read back as the count, capped at 99 |
| Fingerprint.SegmentBComplete | src/ja4/fingerprint.rs:165-169 | segments b of two fingerprints are equal exactly when the non-GREASE ciphers are equal as multisets |
| Fingerprint.SegmentBReadsBack | src/ja4/fingerprint.rs:165-169 | the text hashed reads back as the ascending list of exactly the non-GREASE ciphers; the placeholder stands for none |
| Fingerprint.SegmentCComplete | src/ja4/fingerprint.rs:171-199 | segments c of two fingerprints are equal exactly when the hashed extensions are equal as multisets and the non-GREASE signature algorithms as lists |
| Fingerprint.SegmentCReadsBack | src/ja4/fingerprint.rs:171-201 | the text hashed reads back as the ascending list of exactly the extensions that are neither GREASE, SNI nor ALPN, and behind `_` the signature algorithms in wire order |
| Fingerprint.InsertedGreaseVanishes | src/ja4/fingerprint.rs:30-33 | GREASE inserted anywhere is filtered out |
| Fingerprint.SameOfferSameFingerprint | src/ja4/fingerprint.rs:134-201 | hellos equal up to GREASE and up to the order of ciphers, extensions and versions have equal fingerprints |
| Fingerprint.GreaseAndPermutationInvisible | src/ja4/fingerprint.rs:134-201 | inserting GREASE in all four lists and permuting three of them leaves all segments unchanged |
| Sorting.SortsAlike | src/ja4/fingerprint.rs:167-177 | sorted lists are equal exactly when the lists are equal as multisets |
| Text.DomainSuffixIsLabelSuffix | src/identity.rs:98-110 | the string suffix test of domain matching is the suffix test on label lists |
| Text.TrimSays | src/identity.rs:262-263 | trimming takes white space off both ends and nothing else |
| Text.ParseI64Iff | src/identity.rs:302-302 | a value reads as a number exactly if it spells one of 64 bits, perhaps behind a sign |
| Cookies.DomainMatchesIff | src/identity.rs:98-110 | a widened domain matches exactly the hosts under it, label by label |
| Cookies.ScopeIff | src/identity.rs:127-164 | exactly which `Domain` values widen, which keep the host, and so which are refused |
| Cookies.OpenedIff | src/identity.rs:262-268 | a header opens no cookie exactly when it has no `=` or only white space before the first |
| Cookies.ParseSetCookie | src/identity.rs:261-329 | the attribute loop computes the parse, refusals included |
| Cookies.ParsedReadsHeader | src/identity.rs:261-329 | a header is dropped exactly when it has no name or claims a domain refused to the host; otherwise each field is as the last attribute that sets it says |
| SetCookiePrinter.ParseUndoesPrint | src/identity.rs:261-329 | parsing a printed header gives the cookie meant, for every name and value and every list of attributes, in any order and repeated |
| SetCookiePrinter.PolicyIff | src/identity.rs:306-313 | a `SameSite` value sets a policy exactly if it names it, in any case |
| SetCookieIntent.ParsedReadsScope | src/identity.rs:287-326 | the domain and lifetime parsed are those the code's reading of all `Max-Age` and all non-empty `Domain` attributes gives, and a refusal anywhere drops the cookie |
| SetCookieIntent.ScopeAsIntendedIff | src/identity.rs:293-300 | of the non-empty `Domain` attributes the last decides exactly when no earlier one is refused before an acceptable last one and none widens before one that keeps the host |
| SetCookieIntent.MaxAgeAsIntendedIff | src/identity.rs:302-302 | an unreadable `Max-Age` is ignored exactly when the last is readable or none is |
| SetCookieIntent.DotDomainKeepsWidening | src/identity.rs:298-298 | a header whose last `Domain`, a dot alone, does not undo a widening one |
| SetCookieIntent.RefusedDomainIsFinal | src/identity.rs:299-299 | a header dropped although its last `Domain` is acceptable |
| SetCookieIntent.UnreadableMaxAgeClears | src/identity.rs:302-302 | a header whose unreadable `Max-Age` clears a readable one |
| Cookies.AnchoredLives | src/identity.rs:335-339 | a lifetime of zero has expired on arrival; any other lives exactly its seconds |
| Cookies.WidenIsEntitled | src/identity.rs:127-164 | a widened domain is no public suffix, not from an address, a label suffix of the host, and matches the host |
| Cookies.ParsedScope | src/identity.rs:261-329 | a parsed cookie's domain is the host's own or one it may widen to; without a Path attribute its path is the default one |
| Cookies.HostOnlyStaysHome | src/identity.rs:98-110 | a host-only cookie matches exactly the host that normalises to its own |
| Cookies.HostOnlyExactIff | src/identity.rs:98-110 | that holds for a host unless it begins with a dot and does not end in one |
| Cookies.HostOnlyReturnsIff | src/identity.rs:98-110 | a host-only cookie comes back to its host exactly when that has no trailing dot |
| Cookies.SentOnlyWhereEntitled | src/identity.rs:98-164 | a cookie goes to its own host, or to a host sharing the widened domain as a label suffix |
| Cookies.DefaultPathCovers | src/identity.rs:345-353 | the default path of a request matches that request, for every path |
| Cookies.DefaultPathIsDirectory | src/identity.rs:345-353 | the default path is what precedes the last slash, or the root |
| Cookies.RelativePathDefaultsToRoot | src/identity.rs:345-353 | a path that is not absolute gives the root |
| Cookies.DirectoryIsAllItMatches | src/identity.rs:189-198 | a default path matches exactly its directory and what is below |
| Cookies.SetWithoutPathStaysInDirectory | src/identity.rs:87-92 | a cookie accepted without a Path applies only in the directory of the request it answered, or below |
| Cookies.PathMatchesTransitive | src/identity.rs:189-198 | path matching composes along absolute request paths |
| Cookies.StandardMatchesAreKept | src/identity.rs:189-198 | every path match of section 5.1.4 of RFC 6265 is a match |
| Cookies.MatchesAsStandardIff | src/identity.rs:189-198 | the two agree on all requests exactly for the root and for cookie paths that do not end in a slash |
| Cookies.MatchesAsTrimmedStandard | src/identity.rs:189-198 | what the code matches is what the standard matches once trailing slashes are trimmed |
| Cookies.SetThenSend | src/identity.rs:87-92 | a cookie accepted without a Path applies to the same host and path, and to every path under it, on a permitted scheme |
| CookieJar.HttpScraper.AbsorbCookies | src/http_scraper.rs:176-202 | the jar after a response is the fold of its headers: replace by key, drop if expired on arrival |
| CookieJar.RunIsLastWriterWins | src/http_scraper.rs:182-201 | over every run the jar holds exactly the last arrival of each key, in order of last write, and none expired on arrival |
| CookieJar.LastWriterWinsHasUniqueKeys | src/http_scraper.rs:189-193 | no two cookies of the jar share name, domain and path |
| CookieJar.KeepsCreationOrderIff | src/http_scraper.rs:189-199 | the jar keeps the creation order of section 5.3 of RFC 6265 exactly when the key is new or that of the newest cookie |
| CookieJar.ReplacedRendersLast | src/identity.rs:205-226 | an older cookie set again is rendered behind another of the same path length, where the standard's order has it in front |
| CookieJar.RenderedOnlyWhereEntitled | src/http_scraper.rs:176-202 | over every run, a cookie is rendered for a host only if some response set that very cookie, and either the host is the one that set it or both share its widened domain, which is no public suffix and not from an address |
| CookieJar.ApplicableExactly | src/identity.rs:212-215 | the cookies considered are exactly those unexpired, secure only over a secure scheme, whose domain and path match |
| CookieJar.SortByPathIsStable | src/identity.rs:217-226 | the order is a stable permutation by descending path length |
| CookieJar.StableOrderUnique | src/identity.rs:217-226 | there is only one such order |
| CookieJar.HeaderRendersExactly | src/identity.rs:205-238 | the header is the live applicable cookies in that order, and absent exactly when there are none |
| CookieJar.HeaderReadsBack | src/identity.rs:205-238 | over every run the header splits at semicolons and first `=` into exactly the names and values meant, in order |
| CookieJar.SetThenRendered | src/http_scraper.rs:176-202 | over every run and from any jar, a cookie set without a Path is rendered for its host, its path and every path under it while it lives and no later arrival has its key |
| CookieJar.RenderedInDirectory | src/identity.rs:205-238 | a cookie set without a Path is rendered only in the directory of the request that set it, or below |
| SessionPolicy.Clearance | src/identity.rs:472-476 | a live clearance of the jar, and none only if there is none |
| SessionPolicy.ClearanceIsFirst | src/identity.rs:472-476 | it is the first live one of the clearance's name |
| SessionPolicy.ExactlyOneMoves | src/identity.rs:603-650 | unchallenged, at every instant exactly one of browser-demotes and HTTP-escalates holds |
| SessionPolicy.DecideIff | src/identity.rs:603-650 | every decision, with its reason, by the first live clearance's expiry and the policy alone |
| SessionPolicy.HttpStaysAfterDemotion | src/identity.rs:603-650 | after a demotion HTTP stays exactly while more than the margin of the clearance remains, and for good without an expiry or a clearance |
| SessionPolicy.SetCookiesKeepsLive | src/identity.rs:464-469 | exactly the unexpired cookies are kept, each as often as it occurs |
| SessionPolicy.SetCookiesKeepsOrder | src/identity.rs:464-469 | they are kept in their order |
| SessionPolicy.SetCookiesKeepsClearance | src/identity.rs:464-476 | dropping expired cookies changes no later clearance |
| Session.StealthSession.constructor | src/session.rs:130-144 | a new session is bound to its egress and has launched nothing |
| Session.StealthSession.Restore | src/session.rs:200-226 | an identity of this egress replaces everything, any other changes nothing |
| Session.StealthSession.Escalate | src/session.rs:296-328 | a launch from the current profile, handed the current cookies, or no browser at all |
| Session.StealthSession.Demote | src/session.rs:331-338 | the browser is gone |
| Session.StealthSession.DecideAndApply | src/session.rs:280-293 | the policy's decision at this instant is carried out |
| Session.StealthSession.ClearOnPage | src/session.rs:347-388 | a cleared page's live cookies become the identity's |
| Session.StealthSession.Send | src/session.rs:391-401 | the HTTP client is built once from the current profile; an answer's cookies are absorbed |
| Session.StealthSession.Fetch | src/session.rs:233-267 | the whole fetch, its invariant, and that the declining return is not taken |
| SessionModel.FetchKeeps | src/session.rs:233-267 | at most two launches, two clearings, two requests and four decisions; coherent; never declined |
| SessionModel.PrepareActs | src/session.rs:235-244 | a fetch launches exactly when there is no browser and HTTP will not do, clears exactly when in one, and goes on without one exactly when its cookies will do by then |
| SessionModel.FetchAnswers | src/session.rs:233-267 | a fetch fails exactly when a call to the outside it made failed; otherwise it returns its first request's answer, or its second's after a challenge, and has absorbed what came with it |
| SessionModel.ChallengeNeedsBrowser | src/session.rs:296-328 | a challenge ends in an error or in a browser of the session's profile that was handed its cookies |
| SessionModel.FetchBoundsAreMet | src/session.rs:233-267 | those bounds are reached by a host that keeps challenging HTTP |
| SessionModel.ChallengedAnswerWasRetried | src/session.rs:244-266 | a challenged answer is returned only after a clearing in the browser and a second request |
| SessionModel.RunKeepsCoherent | src/session.rs:147-159 | over every run the identity is bound to the upstream, which it names only redacted, and live transports were built from its profile |
| SessionModel.RestoreIffBound | src/session.rs:200-214 | restoring is refused exactly for an identity of another egress |
| SessionModel.NoLaunchAfterDemotion | src/session.rs:233-243 | inside that span the next fetch sends without launching anything |
| Records.Values | src/state/json_store.rs:97-97 | the values of the map, in some order, each once |
| Records.SortForgetsOrder | src/state/json_store.rs:95-98 | the file does not depend on the order the map was iterated in |
| Records.PictureUnique | src/state/json_store.rs:95-98 | so a map has one file content |
| Records.LastOccurrenceWins | src/state/json_store.rs:207-211 | on load a repeated host keeps its last occurrence |
| Records.LoadUndoesFlush | src/state/json_store.rs:195-212 | loading what was flushed yields the map, since every key is its record's host |
| Records.LoadSays | src/state/json_store.rs:195-212 | a missing or blank file opens empty, and a load fails exactly for one that is neither and does not decode |
| Records.BeforeIsLexicographic | src/state/json_store.rs:97-97 | records are ordered by the first difference of their hosts |
| StoreModel.FlushIsAtomic | src/state/json_store.rs:94-116 | with a fault or a crash at any step the target is untouched or is the complete synced content, and a temporary remains only after a crash or failed tidying |
| StoreModel.FlushEndsAs | src/state/json_store.rs:94-116 | a flush succeeds exactly when none of its four steps went wrong, and reports anything short of a crash |
| StoreModel.StepOldOrNew | src/state/json_store.rs:145-176 | memory always does what the operation means; the file is as before or holds the new memory, and success of a flush means the latter |
| StoreModel.WriteOkInSync | src/state/json_store.rs:145-149 | success of put and update means that disk equals memory |
| StoreModel.RemoveOkInSyncIff | src/state/json_store.rs:151-158 | success of remove means it exactly when the key was present or they agreed before |
| StoreModel.RemoveOkOutOfSync | src/state/json_store.rs:151-158 | a concrete run where remove succeeds and they differ |
| StoreModel.AgreesWithInMemory | src/state/store.rs:59-98 | over every run, failures included, the map is that of the in-memory store |
| StoreModel.UpdateSees | src/state/store.rs:91-96 | the closure is given the stored record or a fresh one of the host, and what it makes is stored under its own host |
| StoreModel.UpdateAfterPut | src/state/store.rs:59-98 | what was put is what the next update is given |
| StoreModel.UpdateAfterRemove | src/state/store.rs:77-96 | after a removal it is given a fresh record |
| StoreModel.RecordsAreIndependent | src/state/store.rs:59-98 | over every run a host's record is what the operations on that host make of it, whatever is done to others in between |
| StoreModel.NoUpdateIsLost | src/state/json_store.rs:145-176 | the same of the file-backed store, whatever the disk does |
| StoreModel.ReopenAfterKill | src/state/json_store.rs:94-116 | killed at any step of any run, it reopens with the map of the last successful flush or of a later one cut off or reported failed |
| StoreModel.ReopenAfterPowerLoss | src/state/json_store.rs:94-116 | losing power may bring back an earlier file, but always a complete map that was in memory |
| JsonStore.JsonStateStore.Open | src/state/json_store.rs:82-86 | a missing or blank file opens empty, an unreadable or undecodable one is an error |
| JsonStore.JsonStateStore.WriteThenRename | src/state/json_store.rs:104-115 | create, write, sync, rename, and tidying up after a failure |
| JsonStore.JsonStateStore.Flush | src/state/json_store.rs:94-116 | the sorted records are what is written |
| JsonStore.JsonStateStore.Put | src/state/json_store.rs:145-149 | the record is stored under its host and flushed |
| JsonStore.JsonStateStore.Remove | src/state/json_store.rs:151-158 | an absent key changes and flushes nothing |
| JsonStore.JsonStateStore.Update | src/state/json_store.rs:160-176 | the closure's result for the record given to it is stored under its own host, flushed and returned |
| JsonStore.InMemoryStateStore.Put | src/state/store.rs:69-75 | the record replaces any other of its host |
| JsonStore.InMemoryStateStore.Remove | src/state/store.rs:77-83 | the host is gone |
| JsonStore.InMemoryStateStore.Update | src/state/store.rs:85-98 | the closure's result for the stored or a fresh record is stored and returned |
| PoolModel.CollectDistinct | src/proxy_pool.rs:54-77 | the endpoints are exactly the distinct trimmed non-empty URLs, all healthy |
| PoolModel.CollectKeepsFirst | src/proxy_pool.rs:59-69 | declaration order is kept, and of a repeated URL the country given first |
| PoolModel.BuildSelects | src/proxy_pool.rs:70-78 | round-robin begins with the first endpoint, a random pool may begin with any |
| PoolModel.NextSelectsHealthy | src/proxy_pool.rs:132-155 | either strategy selects a healthy endpoint, and none only if none is left |
| PoolModel.RandomReachesAll | src/proxy_pool.rs:142-154 | a random rotation may select any endpoint still healthy |
| PoolModel.RotateStep | src/proxy_pool.rs:118-130 | a rotation retires exactly the current endpoint and selects a healthy one if any is left |
| PoolModel.RotationsSucceed | src/proxy_pool.rs:118-130 | of n endpoints exactly n - 1 rotations succeed, then none ever |
| PoolModel.RetiredForGood | src/proxy_pool.rs:118-130 | a retired endpoint is never healthy again |
| PoolModel.NeverSelectedTwice | src/proxy_pool.rs:118-130 | no URL is selected twice in the life of a pool, whatever the draws |
| PoolModel.RoundRobinInOrder | src/proxy_pool.rs:132-141 | round-robin follows declaration order |
| ProxyPool.ProxyPool.WithEndpoints | src/proxy_pool.rs:54-85 | trimming, dropping blanks and repeats, and the first selection |
| ProxyPool.ProxyPool.Rotate | src/proxy_pool.rs:118-130 | retire, select, and return the new URL if any |
| Mitigation.BackoffIsExact | src/challenge/mitigation.rs:123-131 | saturating arithmetic gives min(base * 2^attempt, max) for every attempt |
| Mitigation.BackoffGrows | src/challenge/mitigation.rs:122-131 | waits never shorten, never exceed the ceiling, and stay there |
| ChallengeModel.ChallengeLoopBounded | src/scraper.rs:466-567 | for every sequence of signals at most max_attempts + 1 decisions, max_attempts rotations, one recorded outcome, and a total wait of at most the capped doublings |
| ChallengeModel.BoundsAreTight | src/scraper.rs:466-567 | a page that never clears takes all of them |
| ChallengeModel.SolveReported | src/scraper.rs:480-513 | success means the last look was clear; the outcome recorded is the one that belongs to the result |
| ChallengeModel.SolveTraced | src/scraper.rs:633-654 | whatever happens the pool is where its counted rotations lead, so the pool's lifetime results apply |
| ChallengeModel.RotateCoherentIff | src/scraper.rs:633-654 | one rotation keeps client and locale with the selected endpoint exactly when it is not tried, or the pool has a next endpoint and its client can be built |
| ChallengeModel.SolveCoherentIff | src/scraper.rs:466-567 | for one caller at a time the loop keeps them together exactly when the pool had nothing to lose or no look within the budget meets a hard block that cannot be answered |
| ChallengeModel.RetiredEndpointStaysInUse | src/scraper.rs:528-541 | a concrete run that ends with the retired endpoint still in use |
| ChallengeModel.SolvedIff | src/scraper.rs:466-567 | for every world the loop succeeds exactly when some look within the budget is clear, every look before it reads the page and answers a hard block by a permitted rotation the pool still has, and the outcome can be recorded |
| ChallengeModel.SolveEndsAs | src/scraper.rs:466-567 | for every world exactly at which look the loop ends and with which result |
| ChallengeModel.RotationSucceedsIff | src/scraper.rs:633-654 | a rotation fails exactly for want of the proxy, of an endpoint or of a client, and says which |
| ChallengeModel.RotationTakesTheSelected | src/scraper.rs:638-652 | one that succeeds takes into use a healthy endpoint's URL for the traffic, and its country and URL for the locale |
| RotationModel.StepKeepsInv | src/scraper.rs:633-654 | every step of every caller keeps pool, client and locale those of the rotations that last wrote them |
| RotationModel.CoherentIffLatest | src/scraper.rs:633-654 | in every interleaving client and locale are those of the selected endpoint exactly when both were last written by the call of the latest rotation, or the pool never had an endpoint |
| RotationModel.HealthyInUseIffLatest | src/scraper.rs:633-654 | in every interleaving traffic leaves through an endpoint of the pool, a healthy one exactly when the client was last written by the call of the latest rotation |
| RotationModel.AloneIsRotateUpstream | src/scraper.rs:633-654 | the steps of an uninterrupted call are the rotation of the sequential loop |
| RotationModel.OvertakenSwapWins | src/scraper.rs:638-646 | over any pool of three endpoints or more, a schedule of two calls that both succeed and leave the first one's retired endpoint in use |
| Challenge.CloudScraper.RotateProxy | src/scraper.rs:633-654 | rotation, client and locale, or the failure and what it leaves changed |
| Challenge.CloudScraper.TakeTurn | src/scraper.rs:471-566 | one pass of the loop |
| Challenge.CloudScraper.SolveChallenge | src/scraper.rs:466-567 | the loop computes the specified run |
| LeafCacheModel.ValidHostIffDomainName | src/ca.rs:115-141 | exactly address literals and dotted labels, perhaps absolute, of at most 253 characters pass |
| LeafCacheModel.ValidHostIsClean | src/ca.rs:134-140 | no other character reaches a certificate as a name |
| LeafCacheModel.EvictTakesTheOldest | src/ca.rs:243-253 | the eviction loop removes the oldest insertion of a full cache and nothing else |
| LeafCacheModel.InsertKeepsListed | src/ca.rs:239-256 | the order lists each cached key once, and there are at most 256 |
| LeafCacheModel.StepKeepsInv | src/ca.rs:318-339 | every lock section of every thread keeps cache, history and calls sound |
| LeafCacheModel.CacheSound | src/ca.rs:318-339 | in every interleaving the cache is listed, bounded, valid, and holds exactly the newest insertions |
| LeafCacheModel.AloneIsAnswered | src/ca.rs:318-339 | an uninterrupted call is refused exactly for an invalid host or without a certificate, and otherwise given the cached acceptor or the new one it inserts |
| LeafCacheModel.SameAcceptorUntilEvicted | src/ca.rs:331-338 | two calls for one host get the same acceptor unless it was evicted in between, even if both minted one |
| LeafCache.LeafCache.Insert | src/ca.rs:239-256 | the cache after an insertion |
| LeafCacheModel.LookupAfterInsert | src/ca.rs:235-256 | after an insertion a lookup finds the first acceptor given for each host, and every host but the oldest of a full cache |
| LeafCache.CertAuthority.Acceptor | src/ca.rs:318-339 | on one thread: refused, cached or minted and cached |
| Hpack.HpackInt | examples/capture_h2.rs:242-261 | the loop computes the integer and its length |
| Hpack.IntUndoesEncode | examples/capture_h2.rs:242-261 | decoding undoes encoding with the exact length, for every used prefix width and every value less than 2^35 above the mask |
| Hpack.SixthGroupRefused | examples/capture_h2.rs:255-258 | five continuation groups without an end are refused |
| Hpack.MaskExactly | examples/capture_h2.rs:243-243 | the mask of a prefix is 2^bits - 1 |
| Hpack.IntBound | examples/capture_h2.rs:242-261 | the length is positive and within the input |
| Hpack.Literal | examples/capture_h2.rs:322-334 | a literal field's name and length |
| Hpack.ReadField | examples/capture_h2.rs:279-312 | one representation, chosen by its first byte |
| Hpack.HeaderNames | examples/capture_h2.rs:276-319 | the loop ends on every input and computes the names |
| Hpack.FieldUndoesEncode | examples/capture_h2.rs:279-312 | reading undoes encoding for each representation |
| Hpack.HeaderNamesUndoEncode | examples/capture_h2.rs:276-319 | any encoded list of representations yields its names in order |
| Hpack.StaticNameSays | examples/capture_h2.rs:168-173 | an index names the entry of the table, counted from 1; any other, zero included, is spelled out |
| Hpack.NamesGrow | examples/capture_h2.rs:276-319 | names once read are kept, whatever follows |
| Hpack.CutValueStillCounts | examples/capture_h2.rs:313-316 | a block that ends inside its last value still yields that field's name |

## Left out

- Call ids are unbounded; the source's 64-bit counter would wrap after 2^64 calls. Other sums of 64-bit times and lengths are unbounded too, except where saturation is the point.
- Partial frame writes after a cancelled or failed `write_frame`: a failed write is one step, and bytes left in the pipe are not modelled.
- Dropping the whole transport, and with it the shared state, is not modelled.
- Error texts are shortened where they carry a method name or a timeout value.
- ALPN protocols and SNI are raw bytes; the source converts them to lossy UTF-8.
- SHA-256 is a constructor over its preimage, so results about segments b and c are about preimages.
- Whitespace trimming is ASCII, and strings are sequences of characters: header values reach the code as visible ASCII.
- The builder's random and session id are arbitrary here, where the source's test builder writes zeros and an empty id.
- The local `hello` of the parser and the drafts of cookie parsing are values that are replaced, not fields updated through a mutable borrow.
- `Expires` is ignored, as the code ignores it; CDP cookie conversion through floating point is not modelled.
- A `Max-Age` counts as readable when the code's signed 64-bit parse reads it; section 5.2.2 of RFC 6265 has no sign `+` and no bound.
- The clearance is the first live cookie of that name whatever its domain, as in the code.
- EgressRef is an opaque normal form: `redact` is any function. The identity's own locale, events and logging are not modelled.
- A locale is known by the country tag and URL it is derived from; the lookup itself is not modelled. Profile rotation, which consumes the scraper, is not modelled.
- The challenge loop runs for one page at a time; of several pages at once only their rotations are interleaved, and other callers of `rotate_proxy` would take endpoints from the ones `ChallengeModel.SolvedIff` counts.
- A `Duration` in the challenge policy is its whole seconds, the only part the code reads.
- Challenge detection is an arbitrary signal; the Turnstile click, whose result the code drops, is not modelled.
- A record's fields other than its host are one opaque value; a panic inside an `update` closure and a failure of the encoder are not modelled. After a failed `update` the model still names the new record, which the source's error drops.
- Other processes writing the state file are not modelled; temporary names never collide.
- Cookies imported from the browser carry no response they could be traced to; provenance is that of cookies set over HTTP.
- Certificates, key generation and the TLS acceptor are opaque: an acceptor is a number.
- The bounded event channel is modelled from its documented behaviour; tokio itself is not part of this model.
- The closing of a page, of the browser and of the proxy, and everything else that only performs I/O, is not modelled.
- `src/state/redb_store.rs`, `src/behavior.rs`, `src/emulation.rs`, `src/client_hints.rs`, `src/profile.rs`, `src/geo.rs`, `src/stealth.rs`, `src/challenge/detect.rs` would add only easy or floating-point members.
