# mURL in Dafny

A mURL names a destination: a manifest of resources (pages, files, terminals,
other mURLs) that is resolved to a flat plan, shown for consent, and launched.
This project models the parts of the Rust core, the command line and the daemon
that decide what a name resolves to and what may be launched, together with the
parts of the Python reference implementation that must agree with them, and
proves what they promise.

`dafny verify dfyconfig.toml` checks everything.

## How the model is laid out

| modules | what they hold |
|---|---|
| Wrappers, Text, Utf8, Sorting, Walks | absence and errors; splitting, joining, numerals; UTF-8 and its order; sorted lists; walks and cycles of an edge relation |
| Grammar, MurlScheme, MurlRoundTrip, MurlSpelling, MurlRefusal, MurlParser | character classes and names; the mURL value, its canonical text and grammar; the round trips; all spellings of a mURL; what the errors mean; the parser's loops |
| Manifest, Validation, ValidationFindings, Timestamps, Paths, ReceivedDocs | kinds and typed documents; the validator and its findings; the calendar; path targets; the manifests of the examples |
| Graph, CycleFinder, DependencyCheck | the dispatch order of one manifest; the reference implementation's depth-first search; their agreement |
| Store, Cache, CacheInterleavings, TrustStore | the local names; the cache alone and shared; pinned keys |
| Policy | tiers, trust and the policy engine |
| Resolver, ResolverSession | resolution as functions of a state, and as a class that updates one |
| ResolverLocate, ResolverFrame, ResolverInvariants, ResolverNodes, ResolverPlan, ResolverCycles, ResolverSelection | what resolution promises |
| ResolverTrail, ResolverPins, ResolverTotals, ResolverSuccess, ResolverWarnings, ResolverFamily | the walk a resolution takes over the documents, and what that tells of success, errors, pins, bounds and warnings; destinations that reach the bounds |
| Bundle, BundleNames, BundleReadable, BundleRoundTrip | export and import; under which names; what can be opened afterwards; the way back |
| Canonical, CanonicalReader, CanonicalWriters, Utf16, Signing | the canonical form, a reader for it, its two writers, the order of RFC 8785, signature blocks |
| Consent, Dispatch, Activation | from a resolution to launches |

The environment of a resolution is a value, `Resolver.World`: the files of the
local store, the cached entries, a fetcher as an arbitrary function from an
address to bytes or a reason, the decoder, the integrity check, the pinned keys
and the time. Resolution is one recursive function, `Splice`, over a state that
also logs every name looked up; `ResolverSession.Session` runs the same steps on
mutable fields, with loops and a cache it writes to, and is proved equal to it.
Names and paths are byte strings, one char a byte; JSON text is a list of code
points. Strings that only explain an error to a person are replaced by the facts
they mention.

The resolver relies on documents that passed validation (`Resolver.Sound`);
`Validation.ValidatedWorldIsSound` discharges that for every decoder that returns
only what the validator accepts. The documents in the examples below are such
documents: `ReceivedDocs` gives for each the manifest it is read from, on which the
validator finds nothing.

## Where the code and its documentation disagree

The model follows the code.

* An integrity pin on a container must be checked against the nested manifest
  (spec/SPECIFICATION.md:349-350). A name that was resolved before is passed over before
  its pin is looked at (crates/murl-core/src/resolver.rs:580-585). `ResolverPins.PinIgnored`
  is a destination that resolves although a pin does not fit; `ResolverPins.PinsExactly`
  says that all pins hold exactly when those of the names met before do, and
  `ResolverPins.PinsGuard` when that is so whatever the bytes hash to: when each of those
  pins was checked against the same bytes where it was met first.
* Duplicate resources are to be skipped with a warning (spec/SPECIFICATION.md:334). The
  total is checked before duplicates are dropped, so a duplicate can be refused though it
  would not have been planned: `ResolverTotals.DuplicateRefused`.
  `ResolverTotals.TotalExactly` says exactly which totals a destination fits.
* A resolution is to touch at most 8 manifests by default (spec/SPECIFICATION.md:358).
  The bound holds for a root given by name; a root given as a file is a node on top of it.
  `ResolverFamily.NineFromAFile` is such a file, and `ResolverTotals.FileManifests` tells
  from the documents when a file goes over.
* A selector that selects nothing is said to be an error, never an empty success
  (crates/murl-core/src/resolver.rs:282-284). An id item is looked for in the root
  manifest, though, and a resource all of whose plan entries were suppressed as
  duplicates still counts. `ResolverSelection.EmptySuccess` is a manifest on which
  a selector succeeds and selects nothing; `ResolverSelection.EmptySelection` says
  exactly when that happens.
* The store lists names as canonical identities (crates/murl-core/src/fetch.rs:131-132).
  Segments with a tilde are stored escaped and listed escaped, while the canonical
  form keeps the tilde: `Store.EscapedListing` is such a name, and `Store.ListingCanonical`
  says exactly which names are listed canonically. Names whose escaped text is longer than a
  mURL may be are not listed at all (`Store.UnlistedName`, `Store.ListingReparses`).
* A bundle is exported from any resolution of at most 64 manifests, but imported only
  below a size cap that the base64 of seven manifests of maximal size exceeds
  (`BundleRoundTrip.SevenFullManifests`). `BundleRoundTrip.SevenFullExist` is a name that
  resolves to seven of them under the default limits.
* An import is to write nothing the resolver would refuse, no store entry that no lookup can
  read (crates/murl-cli/src/commands/bundle_cmd.rs:118-121). It does, for three reasons. It
  compares the declared name with the one to install under but not their versions
  (`BundleReadable.RenamedUnreadable`). It parses and validates a manifest
  (crates/murl-core/src/bundle.rs:128-137) without verifying its signature, as opening it does
  (crates/murl-core/src/resolver.rs:451-453; `BundleReadable.UnverifiedUnreadable`). And it
  re-homes a name without checking that the local one is still short enough to be asked for
  (`BundleReadable.RehomedUnreadable`). `BundleReadable.ImportedReadable` says that there is no
  fourth: what was installed opens under some name exactly when none of the three applies.
* A failed dispatch order is said to return the cycle path
  (crates/murl-core/src/graph.rs:15-17). It returns everything from which a cycle can be
  reached (`Graph.StuckIdsExactly`), which need not be a cycle (`Graph.StuckNoCycle`). It
  returns nothing but resources on cycles exactly when no other resource depends on one of
  them (`Graph.ReportOfCycles`).
* The two timestamp parsers are said to be one (reference/python/murl_ref/manifest.py:373-377).
  The Python pattern takes every decimal digit of Unicode, and years before 1970:
  `Timestamps.FullwidthAccepted` is a timestamp it accepts alone, and
  `Timestamps.AcceptedAlike` says exactly which they share.
* Trusted authorities go through the authority parser (crates/murl-core/src/trust.rs:389-391),
  inside a probe. A text with a slash is no authority and can parse as part of the probe
  (`TrustStore.NameTaken`); its key is then pinned for what stands before the slash.
  `TrustStore.NormalizeExactly` says exactly which texts are taken.
* The canonical form is said to be byte for byte that of RFC 8785 for every manifest, and in
  any case for names in the basic plane (crates/murl-core/src/canonical.rs:16-21). The second
  holds (`Utf16.InPlaneAgrees`). Manifests may carry other names, though: members stand in
  the order of RFC 8785 exactly when no two names first differ in a character from U+E000 to
  U+FFFF and one beyond (`Utf16.MembersAgree`, `Utf16.CrossingNames`).

## Model

| member | source | states |
|---|---|---|
| MurlRoundTrip.ParseSound | crates/murl-core/src/murl.rs:253-345 | whatever the parser accepts is a well-formed mURL whose canonical text has at most 1024 bytes |
| MurlRoundTrip.PrintParse | crates/murl-core/src/murl.rs:385-396 | the canonical text of every well-formed mURL parses back to it |
| MurlRoundTrip.ParseRange | crates/murl-core/src/murl.rs:253-345 | the values the parser returns are exactly the well-formed ones |
| MurlRoundTrip.RoundTrip | crates/murl-core/src/murl.rs:253-396 | an accepted text, printed and parsed again, gives the same value, and its canonical text is within the length limit |
| MurlRoundTrip.PrintInjective | crates/murl-core/src/murl.rs:385-396 | well-formed mURLs are equal exactly when their canonical texts are |
| MurlRoundTrip.IdentityFixpoint | crates/murl-core/src/murl.rs:350-361 | an identity parses to the name without selector and query, whose identity it is |
| MurlRoundTrip.IdentityInjective | crates/murl-core/src/murl.rs:347-361 | identities are equal exactly for equal authority, name and version |
| MurlRoundTrip.WrittenRoundTrip | crates/murl-core/src/murl.rs:471-499 | every way of escaping the segments that the decoder undoes reads back as the same mURL |
| MurlRoundTrip.SegmentRoundTrip | crates/murl-core/src/murl.rs:542-597 | percent-decoding undoes percent-encoding, which writes unreserved characters and escapes only (section 2.1 of RFC 3986) |
| MurlRoundTrip.VersionRoundTrip | crates/murl-core/src/murl.rs:160-208 | the text of a version, `latest` included, parses back to it |
| MurlRoundTrip.AuthorityRoundTrip | crates/murl-core/src/murl.rs:410-469 | the text of an authority parses back to it |
| MurlRoundTrip.SelectorRoundTrip | crates/murl-core/src/murl.rs:501-538 | the text of a selector parses back to it |
| MurlParser.Parse | crates/murl-core/src/murl.rs:253-345 | the parser's loops compute the grammar's parse, first error included |
| MurlParser.ParseVersion | crates/murl-core/src/murl.rs:160-189 | the version loop computes the grammar's version |
| MurlParser.ParseSelector | crates/murl-core/src/murl.rs:501-538 | the selector loop computes the grammar's items |
| MurlParser.PercentDecode | crates/murl-core/src/murl.rs:542-571 | the decoding loop computes the recursive decoding |
| MurlParser.EncodeSegment | crates/murl-core/src/murl.rs:576-597 | the encoding loop computes the recursive encoding |
| MurlParser.Identity | crates/murl-core/src/murl.rs:350-361 | the pushes of the identity build the canonical identity |
| MurlSpelling.ParsesExactly | crates/murl-core/src/murl.rs:253-345 | a text is read as a mURL exactly when it is one of its spellings, printable and within 1024 bytes: the scheme and the host in any case, the port with leading zeros, each segment escaped at will, `@latest` written or not, and nothing else |
| MurlSpelling.ProperExactly | crates/murl-core/src/murl.rs:410-538 | a mURL is well formed exactly when its labels, segments, numbers, selector items and query are what the grammar says, part by part |
| MurlRefusal.RefusalMeans | crates/murl-core/src/murl.rs:160-571 | every text the parser refuses is wrong as the error says: too long, a foreign character and the first, no scheme, or in its authority, port, segments, version, selector or query |
| MurlSpelling.LoopbackExactly | crates/murl-core/src/murl.rs:124-133 | a remote host is a loopback one exactly when its last label is `localhost`, or it is 127.0.0.1 |
| Utf8.DecodeEncode | crates/murl-core/src/murl.rs:479-481 | decoding the UTF-8 of a text gives it back (section 3 of RFC 3629) |
| Utf8.OrderPreserved | crates/murl-core/src/canonical.rs:66-69 | byte order of UTF-8 is code-point order |
| Validation.ParsedKindText | crates/murl-core/src/kind.rs:54-113 | a parsed kind has the text it was parsed from; the paths are `file`, `dir` and `terminal`, the container is `murl` |
| Validation.KindRoundTrip | crates/murl-core/src/kind.rs:54-113 | the text of every kind parses back to it |
| Validation.KindTextInjective | crates/murl-core/src/resolver.rs:613-619 | kinds that are planned are told apart by their texts, so suppressing by text is suppressing by kind |
| Validation.ValidateResources | crates/murl-core/src/manifest.rs:335-452 | the loop with its set of seen ids reports, resource by resource, exactly the findings the rules call for |
| Validation.Validate | crates/murl-core/src/manifest.rs:257-299 | header, resources and, once nothing else was found, the dependency order |
| Validation.NoIssuesExactly | crates/murl-core/src/manifest.rs:335-460 | nothing is reported exactly for a sound header, 1 to 64 sound resources and dependencies without a cycle |
| ValidationFindings.IssuesExactly | crates/murl-core/src/manifest.rs:257-460 | each finding is reported exactly when what it says of the header or of its resource is so, and the dependency cycle only when there is nothing else |
| Validation.ValidatedIsWellFormed | crates/murl-core/src/resolver.rs:482-548 | in a manifest without findings ids are unique, every declared id and nested mURL parses, an order exists and the validity window is not empty: what the resolver parses again cannot fail |
| Validation.ValidatedWorldIsSound | crates/murl-core/src/resolver.rs:443-449 | a decoder that returns validated manifests only is one every resolver theorem applies to |
| Validation.ValidatedPathsExpand | crates/murl-core/src/dispatch.rs:87-129 | every home-relative path of a validated manifest expands under the home directory |
| ReceivedDocs.PlainReceived | crates/murl-core/src/manifest.rs:257-460 | every document of web pages and canonically written nested names, with well-formed ids and pins, is read back from a manifest without findings |
| ReceivedDocs.TwinsReceived | crates/murl-core/src/manifest.rs:335-452 | two pages of one target are such a document |
| ReceivedDocs.PageReceived | crates/murl-core/src/manifest.rs:335-452 | so is one page |
| ReceivedDocs.PinnedReceived | crates/murl-core/src/manifest.rs:335-452 | so is a name nested twice, the second time with a pin |
| ReceivedDocs.SelfReceived | crates/murl-core/src/manifest.rs:335-452 | so is a manifest that nests one name, its own included |
| ReceivedDocs.FamilyReceived | crates/murl-core/src/manifest.rs:335-452 | so is a root of up to eight nested names |
| ReceivedDocs.ToolReceived | crates/murl-core/src/manifest.rs:257-299 | so is a page that declares a name |
| Timestamps.CivilCounts | crates/murl-core/src/time.rs:107-114 | the closed formula counts the days from 1970-01-01 one by one, for every valid date from then on |
| Timestamps.CountMonotone | crates/murl-core/src/time.rs:107-114 | a later date has a larger day number |
| Timestamps.SecondsCount | crates/murl-core/src/time.rs:40-114 | the number of a timestamp counts the seconds since 1970 began, one by one |
| Timestamps.ParsesExactly | crates/murl-core/src/time.rs:40-85 | a timestamp is read as a number exactly when it is in ASCII digits, in range, and that many seconds after 1970 began |
| Timestamps.AcceptedAlike | reference/python/murl_ref/manifest.py:373-395 | the Rust parser accepts exactly those timestamps of the Python one that are in ASCII digits and from 1970 on |
| Timestamps.FullwidthAccepted | reference/python/murl_ref/manifest.py:119-119 | a timestamp with fullwidth digits that the Python parser accepts and the Rust one refuses |
| Timestamps.ParsesBytes | crates/murl-core/src/time.rs:40-85 | on the UTF-8 of a text the Rust parser finds exactly what it finds on the text |
| Timestamps.OrderAgrees | crates/murl-core/src/time.rs:40-85 | text order of accepted timestamps is the order of their instants (section 5.1 of RFC 3339) |
| Timestamps.WindowsAgree | reference/python/murl_ref/manifest.py:398-406 | comparing windows as numbers, the Rust validator accepts exactly the windows that the Python one accepts by comparing text and whose timestamps are in ASCII digits and from 1970 on |
| Paths.HomeTargetsExpand | crates/murl-core/src/manifest.rs:863-902 | every accepted `~` target expands to the home directory followed by exactly its segments, none empty and none a dot segment |
| Paths.StaysUnderHome | crates/murl-core/src/dispatch.rs:75-86 | pushing such segments only lengthens the path under the home directory |
| Paths.OtherTargetsKept | crates/murl-core/src/dispatch.rs:88-90 | any other accepted target is absolute and is left alone |
| Paths.OtherTargetsExactly | crates/murl-core/src/manifest.rs:863-902 | a target without `~` is accepted exactly when it is absolute, on Unix or Windows, no network path, and has no dot segment between separators of either kind |
| Paths.HomeTargetsAgree | crates/murl-core/src/manifest.rs:863-902 | the validator accepts a `~` target exactly when it is `~` or begins with `~/` and, its backslashes made slashes, it expands and no segment begins like a drive, `~//` aside |
| Paths.ExpandPath | crates/murl-core/src/dispatch.rs:87-129 | the push loop computes the expansion, first error included |
| Graph.ComputeOrder | crates/murl-core/src/graph.rs:18-72 | the loops over the dependency lists and the done flags compute the order, or the ids that are stuck |
| Graph.ExtendOrdered | crates/murl-core/src/graph.rs:34-70 | a finished order is a permutation of the resources in which each follows all it depends on; a failed one stops with nothing ready |
| Graph.OrderTopological | crates/murl-core/src/graph.rs:18-72 | every resolvable dependency edge is respected and every resource is placed |
| Graph.OrderLexLeast | crates/murl-core/src/graph.rs:1-20 | among all dependency-respecting orders it is the least, comparing (order, index) from the left |
| Graph.NoEdgesStableSort | crates/murl-core/src/graph.rs:34-59 | without dependencies it is the stable sort by order |
| Graph.FailsExactlyOnCycle | crates/murl-core/src/graph.rs:55-69 | the order fails exactly when the dependency edges have a cycle |
| Graph.StuckExactly | crates/murl-core/src/graph.rs:55-69 | what stays unplaced is exactly what a dependency cycle can be reached from |
| Graph.StuckIdsExactly | crates/murl-core/src/graph.rs:55-69 | the ids a failed order reports are exactly the ids of such resources |
| Graph.StuckNoCycle | crates/murl-core/src/graph.rs:55-69 | three resources whose reported ids are no cycle |
| Graph.ReportOfCycles | crates/murl-core/src/graph.rs:55-69 | all the reported resources lie on cycles exactly when nothing off every cycle depends on a reported one |
| CycleFinder.FindCycle | reference/python/murl_ref/manifest.py:592-619 | the depth-first search returns a list exactly when the edges have a cycle, and the list is a closed walk along them |
| DependencyCheck.ImplementationsAgree | reference/python/murl_ref/manifest.py:553-589 | on unique ids the Rust order fails exactly when the Python dictionary of edges has a cycle |
| DependencyCheck.ValidateDependsOn | reference/python/murl_ref/manifest.py:553-589 | the loops report, in order, too many, unknown and own names, and on unique ids a genuine cycle exactly when the Rust order fails |
| DependencyCheck.NoReportsExactly | reference/python/murl_ref/manifest.py:553-583 | nothing is reported of the names exactly when every resource lists at most 16, each of another resource of the manifest |
| DependencyCheck.ReportsExactly | reference/python/murl_ref/manifest.py:553-583 | each report is made exactly when what it says is so |
| Policy.EvaluateMonotone | crates/murl-core/src/policy.rs:135-192 | neither a stricter policy nor a less trusted, expired, premature or remote manifest ever gains a resource permission |
| Policy.TrailingIgnored | crates/murl-core/src/kind.rs:125-140 | a trailing dot or space does not hide an executable extension |
| Policy.DisguiseIgnored | crates/murl-core/src/kind.rs:125-140 | no change of case and no dots and spaces at the end hide an executable extension, or feign one |
| Policy.ExtensionDecides | crates/murl-core/src/kind.rs:125-140 | after any directory and stem, and before any dots and spaces, the extension alone decides, in any case |
| Policy.ExecutableExactly | crates/murl-core/src/kind.rs:109-140 | the executable targets are exactly those of that form with a listed extension |
| Policy.AllowsExactly | crates/murl-core/src/policy.rs:135-192 | allowed without asking exactly when the tier allows it, the manifest is in its window, reaching in is allowed, and a dangerous resource comes from a trusted manifest |
| Policy.DeniesExactly | crates/murl-core/src/policy.rs:135-192 | denied exactly when dangerous and untrusted under a policy that minds, out of its window and not safe, of a tier that is switched off, or reaching in against the policy |
| Policy.ReasonsExactly | crates/murl-core/src/policy.rs:135-192 | a denial gives a reason that holds, and a prompt exactly the reasons to ask that hold |
| Store.PathInjective | crates/murl-core/src/fetch.rs:82-94 | names that differ in segments or version have different files |
| Store.SanitizeComponent | crates/murl-core/src/fetch.rs:170-190 | the escaping loop computes the recursive escaping |
| Store.SanitizeRoundTrip | crates/murl-core/src/fetch.rs:64-66 | an escaped component percent-decodes to its segment |
| Store.LocalStore.Load | crates/murl-core/src/fetch.rs:97-108 | loading returns what the store holds for the name, and nothing for a missing one |
| Store.LocalStore.Add | crates/murl-core/src/fetch.rs:112-119 | adding changes what is found for that name and version and for no other |
| Store.LocalStore.List | crates/murl-core/src/fetch.rs:132-167 | the listing is sorted and has exactly the listable texts of the stored files |
| Store.ListingReparses | crates/murl-core/src/fetch.rs:142-167 | a stored name is listed exactly when its escaped text is at most 1024 bytes, and what is listed parses to that name |
| Store.UnlistedName | crates/murl-core/src/fetch.rs:142-167 | a name that can be stored and is never listed |
| Store.ListingCanonical | crates/murl-core/src/fetch.rs:131-140 | what is listed is the canonical identity exactly for names without a tilde |
| Store.EscapedListing | crates/murl-core/src/fetch.rs:131-140 | a name that is listed under a text that is not its identity |
| Cache.ManifestCache.Get | crates/murl-core/src/cache.rs:62-77 | on any files: an answer exactly when both are there, can be read and fit each other and the identity; both dropped when they can be read and do not fit; nothing touched otherwise |
| Cache.ManifestCache.Put | crates/murl-core/src/cache.rs:79-91 | putting writes both files under the key; with an injective key that updates the map at one identity |
| Cache.ManifestCache.Evict | crates/murl-core/src/cache.rs:94-104 | evicting removes both files and tells whether there was one; with an injective key that removes one identity |
| Cache.ManifestCache.List | crates/murl-core/src/cache.rs:106-124 | all metadata that can be read is listed, once for each file, in identity order; other files are skipped |
| Cache.ManifestCache.Clear | crates/murl-core/src/cache.rs:127-133 | clearing counts the listed entries and removes exactly the files under their keys; both folders are empty afterwards exactly when every file is under such a key, as it is where no put was interrupted |
| CacheInterleavings.AnswersGenuine | crates/murl-core/src/cache.rs:62-91 | in every interleaving of file steps, crashes and data damage, whatever a get answers is all of one single put started under that identity |
| CacheInterleavings.AnswerAfterPut | crates/murl-core/src/cache.rs:62-77 | that put was started before the step that answers |
| CacheInterleavings.StepKeeps | crates/murl-core/src/cache.rs:62-104 | every step keeps every metadata text empty or begun by one put's whole metadata |
| CacheInterleavings.PutAlone | crates/murl-core/src/cache.rs:79-91 | an undisturbed put leaves both files holding what it wrote, whatever was there before |
| CacheInterleavings.PutInterrupted | crates/murl-core/src/cache.rs:79-91 | a put cut off on the way has emptied or written the data with the metadata as before, or emptied the metadata as well |
| CacheInterleavings.SaneIsPossible | crates/murl-core/src/cache.rs:24-31 | digests without collisions and metadata written as canonical JSON objects meet all that is assumed |
| CacheInterleavings.GetAlone | crates/murl-core/src/cache.rs:62-77 | an undisturbed get of such files answers with exactly that put |
| CacheInterleavings.EvictAlone | crates/murl-core/src/cache.rs:94-104 | an undisturbed evict takes both files away and no other |
| CacheInterleavings.MisfitDropped | crates/murl-core/src/cache.rs:62-77 | an undisturbed get of files that do not fit each other or the identity drops both and answers nothing |
| CacheInterleavings.NothingToGet | crates/murl-core/src/cache.rs:62-77 | an undisturbed get leaves all files alone where one is missing or cannot be read |
| TrustStore.NormalizeKeeps | crates/murl-core/src/trust.rs:389-395 | the canonical text of every authority a mURL can have is kept |
| TrustStore.NormalizeTwice | crates/murl-core/src/trust.rs:389-395 | what normalizing finds is canonical already |
| TrustStore.NormalizeExactly | crates/murl-core/src/trust.rs:389-395 | without a slash exactly the authorities are taken; with one, exactly the texts of an authority and a rest that, `/x` added, parses as path and query within the length limits and has no `#`; they stand for the authority and are none |
| TrustStore.NameTaken | crates/murl-core/src/trust.rs:389-395 | an authority with a path after it is taken |
| TrustStore.TrustStore.Add | crates/murl-core/src/trust.rs:329-352 | pinning adds one key for one authority, once, and changes nothing else |
| TrustStore.TrustStore.Remove | crates/murl-core/src/trust.rs:355-368 | removing takes that key away, tells whether it was pinned, and changes nothing else |
| TrustStore.TrustStore.IsTrusted | crates/murl-core/src/trust.rs:370-378 | a key is trusted exactly when it is pinned for the normalized authority |
| ResolverNodes.OpensExactly | crates/murl-core/src/resolver.rs:430-537 | a manifest opens exactly when it is small enough, decodes, declares no other name and its dependencies have no cycle |
| ResolverNodes.OpenedAs | crates/murl-core/src/resolver.rs:450-540 | it adds one node, trusted when from this machine or signed by a key pinned for the authority asked, expired and premature by its window, and is gone through in its dispatch order |
| ResolverLocate.ComputeUrl | crates/murl-core/src/fetch.rs:34-59 | the path loop builds the well-known address; a local name has none |
| ResolverLocate.UrlInjective | crates/murl-core/src/fetch.rs:25-59 | two names share an address only when they are one name |
| ResolverLocate.FetchedSecurely | crates/murl-core/src/fetch.rs:34-59 | the address is https unless the server is a loopback one |
| ResolverLocate.LocatesExactly | crates/murl-core/src/resolver.rs:353-427 | a local name is located exactly when it is stored; any other with a copy that is pinned or young enough, with a fetch within the size limit, or with any copy when nothing is fetched; and the error says which of these failed |
| ResolverLocate.CacheStandsIn | crates/murl-core/src/resolver.rs:353-427 | a copy is used silently exactly when it is young enough, and an old one stands in with a warning exactly when nothing is fetched |
| ResolverSession.Session.LocateNamed | crates/murl-core/src/resolver.rs:353-427 | locating with the cache as it is now gives what the cache at the start gives, for a name not looked up before |
| ResolverSession.Session.IngestNamed | crates/murl-core/src/resolver.rs:330-351 | counting, locating, the pin check and the manifest with all it nests leave the state the function computes |
| ResolverSession.Session.IngestBytes | crates/murl-core/src/resolver.rs:430-632 | decoding, binding, trust, warnings and the loop leave the state the function computes |
| ResolverSession.Session.SpliceAll | crates/murl-core/src/resolver.rs:539-632 | the loop over the resources computes the recursion |
| ResolverSession.Session.SpliceNested | crates/murl-core/src/resolver.rs:544-605 | one nested mURL: locality, depth, cycle and duplicate checks, then its manifest, then the stack is popped |
| ResolverSession.Session.SpliceLeaf | crates/murl-core/src/resolver.rs:607-630 | one dispatchable resource: the total, then duplicate suppression, then the plan |
| ResolverSession.Session.FinishWith | crates/murl-core/src/resolver.rs:274-328 | every selector item must match, then the plan is filtered in place |
| ResolverSession.Session.Resolve | crates/murl-core/src/resolver.rs:238-244 | resolving a name on mutable state and a live cache gives what the functions give |
| ResolverSession.Session.ResolveOpened | crates/murl-core/src/resolver.rs:258-272 | the same for a file the user opened |
| ResolverSuccess.ResolvesExactly | crates/murl-core/src/resolver.rs:330-632 | a name resolves exactly when its manifest is usable and, on the walk over the documents, no nested name is nearer than its nester, too deep or on its own path, each met first leads to a usable manifest that fits the pin, and the bounds on manifests and resources are kept; the plan then has the first occurrences of what is met |
| ResolverSuccess.FileResolvesExactly | crates/murl-core/src/resolver.rs:258-272 | the same for a file |
| ResolverSuccess.StopExplained | crates/murl-core/src/resolver.rs:330-632 | every error is about the root, about a name the walk comes across that is what the error says, or about a bound the walk exceeds |
| ResolverSuccess.FileStopExplained | crates/murl-core/src/resolver.rs:258-272 | the same for a file |
| ResolverSuccess.NodesExactly | crates/murl-core/src/resolver.rs:516-605 | the manifests used are the root's and those of the names met first, in that order, each as deep as it is nested |
| ResolverSuccess.FileNodesExactly | crates/murl-core/src/resolver.rs:258-272 | the same for a file |
| ResolverFrame.ResolveFrame | crates/murl-core/src/resolver.rs:238-244 | the outcome depends only on the answers to the names looked up |
| ResolverFrame.SpliceLocality | crates/murl-core/src/resolver.rs:547-559 | everything looked up below a manifest is at least as far away as it is |
| ResolverFrame.RoundLocality | crates/murl-core/src/resolver.rs:164-199 | locality never decreases along a nesting edge |
| ResolverFrame.ResolveLocality | crates/murl-core/src/resolver.rs:547-559 | a resolution never looks up a name nearer than its root |
| ResolverFrame.NonInterference | crates/murl-core/src/resolver.rs:164-200 | a network root gives the same outcome whatever the local store and loopback servers hold or answer, and asks neither anything |
| ResolverInvariants.SpliceNames | crates/murl-core/src/resolver.rs:539-605 | identities are looked up at most once, each is on the stack or visited, the stack is as high as the frame is deep and is restored, nodes stay within depth and number |
| ResolverInvariants.SplicePlanKept | crates/murl-core/src/resolver.rs:607-630 | the plan stays within the total, its keys are distinct and exactly the suppressed ones, no container is in it, every entry belongs to a node and has its kind's tier |
| ResolverInvariants.ResolveNameKeeps | crates/murl-core/src/resolver.rs:238-244 | for a name: all of this at the end, with as many nodes as counted manifests |
| ResolverInvariants.ResolveFileKeeps | crates/murl-core/src/resolver.rs:258-272 | for a file: the root is one node on top of the counted manifests |
| ResolverNodes.ResolvedNodes | crates/murl-core/src/resolver.rs:443-537 | every node is the manifest its name leads to, within the size limit and bound to that name; it is trusted exactly when local or signed by a key pinned for the authority asked, and expired or premature exactly by its window |
| ResolverPins.PinsExactly | crates/murl-core/src/resolver.rs:580-602 | after a success all pins of all manifests reached fit the bytes their names lead to exactly when the pins carried by names met before do |
| ResolverPins.FilePinsExactly | crates/murl-core/src/resolver.rs:258-272 | the same for a file |
| ResolverPins.PinsGuard | crates/murl-core/src/resolver.rs:346-349 | pins hold under every digest the destination resolves with exactly when each of those pins was checked, against the same bytes, where a name was met first |
| ResolverPins.UnpinnedRepeats | crates/murl-core/src/resolver.rs:580-602 | they all hold where no name met before carries a pin |
| ResolverPins.PinIgnored | crates/murl-core/src/resolver.rs:580-585 | a destination that resolves although a pin does not fit |
| ResolverWarnings.NothingSilent | crates/murl-core/src/resolver.rs:580-620 | after a success every resource of the walk is planned and every name looked up, or a warning says that it was dropped or resolved elsewhere |
| ResolverWarnings.NodesToldOf | crates/murl-core/src/resolver.rs:353-515 | after a success every manifest in use that is out of its window, signed without a name, or a copy past its time is told of in the warnings |
| ResolverWarnings.WarningsExactly | crates/murl-core/src/resolver.rs:353-632 | after a success the warnings are, in order, exactly those the root and the walk call for: old copies, the validator's, unbound signatures, windows, ignored selectors, crossed authorities, names passed over and duplicates |
| ResolverWarnings.FileWarningsExactly | crates/murl-core/src/resolver.rs:258-272 | the same for a file |
| ResolverTrail.SpliceTrail | crates/murl-core/src/resolver.rs:539-631 | when a resolution ends well, the pre-order walk over the documents in which names met before are passed over ends within the limits, the identities it meets are those visited or on the stack, and the stack is restored |
| ResolverTrail.LookedUp | crates/murl-core/src/resolver.rs:539-631 | a name that resolves looks up itself and then, one by one and in order, exactly the names that walk meets for the first time |
| ResolverTrail.FileLookedUp | crates/murl-core/src/resolver.rs:258-272 | the same for a file, which looks up no name of its own |
| ResolverPlan.SpliceUnfolds | crates/murl-core/src/resolver.rs:539-631 | the loop merges into the plan exactly the full unfolding of what it goes through or skips |
| ResolverPlan.PlanOfName | crates/murl-core/src/resolver.rs:539-631 | the plan, anchors included, is the first occurrences by kind and target of the full pre-order unfolding of the nesting graph, which is finite |
| ResolverPlan.PlanOfFile | crates/murl-core/src/resolver.rs:258-272 | the same for a file |
| ResolverPlan.MergeIsFirsts | crates/murl-core/src/resolver.rs:613-619 | suppressing duplicates one by one keeps exactly the items no earlier one has the key of |
| ResolverTotals.SpliceLeaves | crates/murl-core/src/resolver.rs:607-630 | the plan is merged from the dispatchable resources of that walk, in order |
| ResolverTotals.TotalExactly | crates/murl-core/src/resolver.rs:607-620 | a name that resolves under one total resolves under another, and to the same, exactly when its plan is smaller, or as large and its last entry is the last dispatchable resource of the walk; otherwise the error is about the total |
| ResolverTotals.FileTotalExactly | crates/murl-core/src/resolver.rs:258-272 | the same for a file |
| ResolverTotals.DuplicateRefused | crates/murl-core/src/resolver.rs:607-620 | a plan of one entry that is refused where one entry is allowed |
| ResolverTotals.NameManifests | crates/murl-core/src/resolver.rs:330-345 | a name resolves to as many manifests as the walk meets identities, within the bound |
| ResolverTotals.FileManifests | crates/murl-core/src/resolver.rs:258-272 | a file resolves to one more, and goes over the bound exactly when the walk meets as many identities as it allows |
| ResolverFamily.NineFromAFile | crates/murl-core/src/limits.rs:39-48 | a file that resolves to nine manifests under the default limits |
| ResolverCycles.CycleErrorSound | crates/murl-core/src/resolver.rs:573-579 | every cycle error shows a closed path of nested manifests made of a suffix of the stack |
| ResolverCycles.FileCycleErrorSound | crates/murl-core/src/resolver.rs:573-579 | the same for a file |
| ResolverCycles.SuccessAcyclic | crates/murl-core/src/resolver.rs:573-603 | after a success no nesting cycle is reachable from the root |
| ResolverCycles.FileSuccessAcyclic | crates/murl-core/src/resolver.rs:573-603 | after a success no nesting cycle is reachable from anything an opened file nests |
| ResolverCycles.SelfNestingReported | crates/murl-core/src/resolver.rs:573-579 | a manifest that nests itself is reported as a cycle of one step |
| ResolverSelection.PlanInBlocks | crates/murl-core/src/resolver.rs:539-605 | the plan is one contiguous block for each root resource, in the root's dispatch order |
| ResolverSelection.DependencyFirst | crates/murl-core/src/resolver.rs:539-605 | where a root resource depends on another, all that was spliced for the other comes first |
| ResolverSelection.SelectsExactly | crates/murl-core/src/resolver.rs:281-328 | a selection succeeds exactly when the root has each id asked for and the plan each role and tag, and otherwise names an item there is nothing for |
| ResolverSelection.RetainKeeps | crates/murl-core/src/resolver.rs:308-318 | a selector keeps exactly the entries that some item claims, in their order |
| ResolverSelection.EmptySelection | crates/murl-core/src/resolver.rs:281-318 | a selection that succeeds is empty exactly when every item is an id whose root resource adds nothing new to the unfolding |
| ResolverSelection.EmptySuccess | crates/murl-core/src/resolver.rs:281-318 | a manifest and a selector that succeed with an empty plan |
| Bundle.ExportExactly | crates/murl-core/src/bundle.rs:66-88 | an export carries each manifest in order, under its name and identity, with bytes and a digest that fit, and is refused exactly beyond 64 |
| Bundle.AcceptedExactly | crates/murl-core/src/bundle.rs:96-167 | a bundle is accepted exactly when it is small enough, of the known version, with 1 to 64 sound entries under different canonical identities and its root among them |
| Bundle.RejectionMeans | crates/murl-core/src/bundle.rs:99-167 | every rejection names something that is wrong with the bundle or an entry |
| Bundle.FromSlice | crates/murl-core/src/bundle.rs:99-167 | the loop with its set of seen identities reports the first thing wrong |
| Bundle.MakePlan | crates/murl-cli/src/commands/bundle_cmd.rs:79-154 | the loop with its claimed names computes the import plan or the first refusal |
| Bundle.Import | crates/murl-cli/src/commands/bundle_cmd.rs:71-172 | an import installs the whole plan or leaves the store as it was |
| Bundle.ImportInstalls | crates/murl-cli/src/commands/bundle_cmd.rs:139-172 | after a success every entry is stored whole under its own local name, nothing else was added, and without force nothing was overwritten |
| Bundle.ImportKeepsBytes | crates/murl-cli/src/commands/bundle_cmd.rs:118-137 | what is stored for an entry is exactly the bytes it carries |
| BundleNames.ImportNames | crates/murl-cli/src/commands/bundle_cmd.rs:79-116 | the new name is for the root alone; every other entry is installed under the name and version of its identity |
| BundleNames.PlansExactly | crates/murl-cli/src/commands/bundle_cmd.rs:71-154 | an import goes through exactly when the bundle is accepted and its entries have such names, which fit the ids they declare, differ from each other and, unless forced, are not in the store |
| BundleNames.RefusalMeans | crates/murl-cli/src/commands/bundle_cmd.rs:71-154 | every refusal names a name that cannot be used, an entry without one or with another id, or two that clash |
| BundleReadable.PlannedReadable | crates/murl-cli/src/commands/bundle_cmd.rs:79-154 | what is planned for an entry and stored opens under some name exactly when the name's canonical text is within the limit, the manifest decodes, its signature included, and it declares no other version |
| BundleReadable.ImportedReadable | crates/murl-cli/src/commands/bundle_cmd.rs:118-172 | after an import the same holds of what each entry left in the store |
| BundleReadable.RenamedUnreadable | crates/murl-cli/src/commands/bundle_cmd.rs:85-137 | any manifest of one page that declares a version of a local name, imported as another version of it, is installed and opens under no name |
| BundleReadable.UnverifiedUnreadable | crates/murl-core/src/bundle.rs:128-137 | a manifest that validates and whose signature does not verify is installed and opens under no name |
| BundleReadable.RehomedUnreadable | crates/murl-cli/src/commands/bundle_cmd.rs:96-109 | a manifest exported under a name of 1024 bytes is installed under a local one of 1028 and opens under no name |
| BundleRoundTrip.ExportAccepted | crates/murl-core/src/bundle.rs:66-110 | what is exported is accepted exactly when the file is within the size cap |
| BundleRoundTrip.ExportImportResolve | crates/murl-core/src/bundle.rs:66-88 | for a destination of local names that fits the cap, exporting, importing and resolving gives the same outcome, plan, order and warnings included |
| BundleRoundTrip.LargeExportRefused | crates/murl-core/src/bundle.rs:100-110 | manifests that add up to more than three quarters of the cap are exported into a bundle no import accepts |
| BundleRoundTrip.SevenFullManifests | crates/murl-core/src/bundle.rs:100-110 | seven manifests of maximal size already are |
| BundleRoundTrip.SevenFullExist | crates/murl-core/src/bundle.rs:66-110 | a name that resolves to seven such manifests under the default limits, and the bundle no import accepts |
| Canonical.BytesInjective | crates/murl-core/src/canonical.rs:35-102 | different values have different canonical bytes |
| Canonical.Reads | crates/murl-core/src/canonical.rs:41-82 | a value is read from its canonical text in one way only, wherever it stands (section 3.2 of RFC 8785, integers only) |
| Canonical.StringReads | crates/murl-core/src/canonical.rs:84-102 | no escape is the beginning of another, and none begins with a quote |
| CanonicalReader.ReadsBack | crates/murl-core/src/canonical.rs:41-102 | a reader written from the grammar of RFC 8259, which takes no whitespace and only ascending members, reads every canonical text back as its value |
| CanonicalReader.ReadsBytesBack | crates/murl-core/src/canonical.rs:35-39 | and from its bytes |
| CanonicalReader.ShortestSpelling | crates/murl-core/src/canonical.rs:84-102 | no spelling of a character that reader takes is shorter than the canonical one, and none of its length differs but in the case of hex digits, which are lower case (section 3.2.2.2 of RFC 8785) |
| CanonicalWriters.ByteOrderIsCodeOrder | crates/murl-core/src/canonical.rs:66-69 | sorting member names by UTF-8 bytes and by code points is the same |
| CanonicalWriters.Utf8String.WriteValue | crates/murl-core/src/canonical.rs:41-82 | the Rust writer appends the UTF-8 of the canonical text, and refuses exactly the values that hold a number that is no 64-bit integer |
| CanonicalWriters.Utf8String.WriteString | crates/murl-core/src/canonical.rs:84-102 | the Rust string loop writes the canonical escapes |
| CanonicalWriters.Pieces.Write | reference/python/murl_ref/canonical.py:71-109 | the Python writer's pieces join to the canonical text, with the same refusals |
| CanonicalWriters.Pieces.WriteString | reference/python/murl_ref/canonical.py:58-68 | the Python escape table and format write the canonical escapes |
| CanonicalWriters.RustBytes | crates/murl-core/src/canonical.rs:35-39 | the Rust bytes are the canonical bytes, if there are any |
| CanonicalWriters.PythonBytes | reference/python/murl_ref/canonical.py:112-121 | the Python bytes are the canonical bytes, if there are any |
| CanonicalWriters.Agree | reference/python/murl_ref/canonical.py:1-25 | the two implementations give the same bytes for every value and refuse the same values |
| Utf16.OrderExactly | crates/murl-core/src/canonical.rs:16-21 | UTF-16 order and code-point order differ exactly on names that first differ in a character from U+E000 to U+FFFF and one beyond |
| Utf16.MembersAgree | crates/murl-core/src/canonical.rs:66-69 | members stand in the order of RFC 8785 exactly when no two names differ so |
| Utf16.InPlaneAgrees | crates/murl-core/src/canonical.rs:16-21 | names in the basic plane never do |
| Utf16.CrossingNames | crates/murl-core/src/canonical.rs:16-21 | two names that differ so |
| Signing.SignableExactly | crates/murl-core/src/trust.rs:176-185 | documents have equal signable bytes exactly when they agree on everything but the signature |
| Signing.ResigningReplaces | crates/murl-core/src/trust.rs:187-203 | signing never changes the signable bytes, and signing again replaces the block and nothing else |
| Signing.SignedVerifies | crates/murl-core/src/trust.rs:205-269 | what was signed verifies, as the key that signed it |
| Signing.VerifiesExactly | crates/murl-core/src/trust.rs:205-269 | a document verifies as a signer exactly when its block is of the one algorithm, names a valid key and the id of that key, and carries a valid signature of the canonical bytes of everything else; as unsigned exactly without a block |
| Signing.RefusalMeans | crates/murl-core/src/trust.rs:213-269 | every refusal names something that is wrong |
| Signing.TransplantedBlock | crates/murl-core/src/trust.rs:213-269 | a block moved to another document verifies there only if the signature also checks for that document's own, different bytes |
| Signing.ComputeSignable | crates/murl-core/src/trust.rs:178-185 | the signable bytes are the canonical bytes without the signature |
| Signing.PythonSigningBytes | reference/python/murl_ref/canonical.py:124-134 | the Python signing bytes are the same |
| Signing.Document.Sign | crates/murl-core/src/trust.rs:189-203 | signing inserts the block over the signable bytes, and leaves the document alone on an error |
| Signing.Document.Verify | crates/murl-core/src/trust.rs:213-269 | no signature, a verified signer, or the first thing wrong with the block |
| Consent.ApplyPolicy | crates/murl-core/src/resolver.rs:119-131 | every planned resource gets, in place, the policy's decision on its own manifest |
| Consent.Prepare | crates/murl-daemon/src/consent_ui.rs:63-122 | the loop settles each slot, offers the resources that need an answer and shows the refused ones |
| Consent.Apply | crates/murl-daemon/src/consent_ui.rs:124-142 | only undecided slots take the user's answer |
| Consent.OfferedExactly | crates/murl-daemon/src/consent_ui.rs:57-122 | exactly the resources whose grant would count are offered |
| Consent.OfferedAsIs | crates/murl-daemon/src/consent_ui.rs:57-122 | each is offered as what it is, in plan order, with the reasons to ask |
| Consent.RefusedExactly | crates/murl-daemon/src/consent_ui.rs:57-122 | exactly the selected resources that policy denies are shown as refused, each as what it is and with the reason |
| Consent.RefusedInOrder | crates/murl-daemon/src/consent_ui.rs:57-122 | and these in plan order |
| Consent.DaemonApproves | crates/murl-daemon/src/consent_ui.rs:57-142 | approved exactly when selected and allowed, or asked about and granted; skipped exactly when not selected |
| Consent.CliApproves | crates/murl-cli/src/consent.rs:21-80 | the same with flags, lists and the prompt |
| Consent.DaemonDenies | crates/murl-daemon/src/consent_ui.rs:57-142 | whatever is not approved is marked with why: not selected, denied by policy and for which reason, undecided, or asked about and not granted |
| Consent.CliDenies | crates/murl-cli/src/consent.rs:21-80 | the same on the command line: not selected, skipped, denied by policy, nobody to ask, or declined |
| Consent.Decide | crates/murl-cli/src/consent.rs:21-80 | the loop, the flags and the prompt settle every resource of the plan |
| Dispatch.SubstituteTarget | crates/murl-core/src/dispatch.rs:438-456 | the substitution loop computes the argument list |
| Dispatch.TargetIsOneArgument | crates/murl-core/src/dispatch.rs:431-456 | a target never adds an argument and changes only the arguments that ask for it |
| Dispatch.ProgramIsHandlers | crates/murl-core/src/dispatch.rs:414-456 | the program is the handler's own unless the handler asks for the target there |
| Dispatch.ReplacesEach | crates/murl-core/src/dispatch.rs:438-456 | every occurrence of the placeholder becomes the target, and what is between is kept |
| Dispatch.TierExactly | crates/murl-core/src/policy.rs:36-72 | dangerous is exactly what goes to a handler of its own and a file that opening would run; sensitive are the other files and directories |
| Dispatch.PlannedTiers | crates/murl-core/src/resolver.rs:607-630 | so is every planned resource |
| Dispatch.StatusExactly | crates/murl-core/src/dispatch.rs:327-429 | an approved resource is attempted exactly when its handler is configured and its path is there, and its status says what came of it |
| Dispatch.LaunchesConfigured | crates/murl-core/src/dispatch.rs:327-429 | every launch of a run is of the handler configured for its resource's kind, on the target or its expansion; nothing is guessed without a handler, and no absent path is tried |
| Dispatch.DispatchResource | crates/murl-core/src/dispatch.rs:327-407 | one resource makes at most the one attempt its kind calls for |
| Dispatch.Execute | crates/murl-core/src/dispatch.rs:257-314 | the loop makes exactly the attempts, pauses and outcomes of the plan in order, and refuses approvals that do not match it |
| Dispatch.ComputeAggregate | crates/murl-core/src/dispatch.rs:458-497 | the flags of the loop compute the aggregate |
| Dispatch.SuccessExactly | crates/murl-core/src/dispatch.rs:206-224 | success means exactly that nothing was denied, failed or was unavailable |
| Dispatch.FailedExactly | crates/murl-core/src/dispatch.rs:206-224 | failed means a required resource was missed, or nothing opened and something failed; denied means nothing but denials of optional resources |
| Dispatch.LaunchesFollowPlan | crates/murl-core/src/dispatch.rs:253-309 | launches go up the plan, at most one for each resource, only for approved ones, and open exactly when their attempt succeeds |
| Dispatch.RunExactly | crates/murl-core/src/dispatch.rs:253-309 | every resource of a run is treated as its approval, its handler and the machine call for: nothing approved that can be attempted is left out |
| Dispatch.SleepsExactly | crates/murl-core/src/dispatch.rs:253-309 | a run pauses exactly before the approved resources that come after one has opened |
| Dispatch.OpenedWasLaunched | crates/murl-core/src/dispatch.rs:293-303 | nothing counts as opened without an attempt |
| Activation.Daemon.Activate | crates/murl-daemon/src/server.rs:85-143 | one request: parse, resolve, policy, consent, dispatch, the three responses, and the count of activations |
| Activation.Daemon.Serve | crates/murl-daemon/src/server.rs:99-137 | from a resolution on, the responses and the attempts are those of the trace |
| Activation.DaemonSafe | crates/murl-daemon/src/consent_ui.rs:1-13 | whatever the client and the surface answer, every launch is of a selected resource that policy allows, or that was offered and granted; nothing denied, untrusted and dangerous, or out of its window is launched |
| Activation.DaemonReports | crates/murl-core/src/dispatch.rs:253-314 | launches are a subsequence of the plan and success is reported exactly when nothing was denied, failed or was unavailable |
| Activation.LaunchedFromTrusted | crates/murl-daemon/src/server.rs:85-143 | from a name to a launch: a dangerous resource starts only where trust is waived, or from a local name, or from a manifest signed by a key pinned for the authority it was asked from; only safe ones start outside the validity window |
| Activation.CliSafe | crates/murl-cli/src/consent.rs:1-80 | the same on the command line, with its flags and lists |
| Activation.DaemonExactly | crates/murl-daemon/src/server.rs:85-143 | a resource is launched exactly when it is selected, allowed or asked about and granted, and can be attempted |
| Activation.CliExactly | crates/murl-cli/src/consent.rs:1-80 | the same on the command line |
| Activation.DecisionExactly | crates/murl-core/src/resolver.rs:119-131 | a planned resource is allowed or denied exactly when the rules say so of its tier, its manifest's window, and the name and the key its manifest came by |
| Activation.IdsExactly | crates/murl-daemon/src/server.rs:99-137 | the ids a client is told of are, in plan order, exactly those of the resources approved, or denied |
| Activation.ClosedByDefault | crates/murl-cli/src/consent.rs:8-11 | with nobody to ask and no flags only what policy allows outright is launched |

## Left out

- Network fetching, TLS, name resolution and redirects: a fetcher is an arbitrary function from an address to bytes or a reason.
- JSON text other than canonical, base64, SHA-256 and ed25519: values, and functions with the stated assumptions only.
- Sockets, line framing of the daemon's protocol, its ping, status and plan requests, the request budget of a connection, process spawning, Explorer quoting, terminal and desktop dialogs, rendering.
- Targets of web, ssh, remote-desktop, geo, mailto and custom resources, control characters, and the lengths of names, descriptions and labels: one abstract check in Validation.
- Relations, the shape of the signature member, unknown members and the numbers walk of the manifest validator, and all of its warnings.
- Wording of errors and warnings; a dependency cycle's ids and a cycle's stack are kept.
- The Python parser of mURLs, which accepts texts the Rust one refuses.
- Directories as files of their own and case-insensitive file systems: the store is a map from path components to bytes.
- Failures to write a file: a store or cache write succeeds. The cache's failed put is a warning in the source and nothing else.
- Cache metadata that two processes write in several pieces each: one write call puts a file's whole text in place, after the step that empties the file.
- The bundle's own JSON and fingerprint: import starts from the decoded bundle and the size of its file.
- Windows paths: expansion is modelled on Unix, where every segment without a slash that is no dot segment is a plain name.
- ResolverFrame.NonInterference: compares outcomes of worlds with one decoder, one set of pinned keys and one time, as two runs of one build on one machine have.
- BundleRoundTrip.ExportImportResolve: is stated for imports without a new name for the root, as a renamed root is a different destination.
- Signing.TransplantedBlock: does not say such a signature cannot exist, which is the signature scheme's own promise.
- Validation.ValidateResources: leaves out the checks of labels and the warnings about repeated targets, and takes control characters and the syntax of targets that are no paths as one abstract check.
- Validation.Validate: leaves out the name, the description, relations, the shape of the signature member, unknown members and the walk over numbers.
- Validation.NoIssuesExactly: speaks of the findings these two model.
- DependencyCheck.ValidateDependsOn: starts from lists of strings; members of other types are reported by the reference implementation before.
- Utf16.MembersAgree: speaks of the order of members; how section 3.2.2.3 of RFC 8785 writes numbers is not modelled.
- Timestamps.FullwidthAccepted: takes the decimal digits of Unicode 14; later versions have more.
